/**
 * The GitHub GraphQL endpoint as the fetcher sees it. Each `c.client.Query` call of
 * github_graphql.go asks one of three connections for one page: the review threads
 * of a pull request, the further comments of one thread, or the general comments of
 * the pull request. The server is modelled as a script: for each kind of query, the
 * responses it gives, in the order the queries are asked, together with the log of
 * the queries asked so far. A query asked after its script has run out fails.
 *
 * The nodes are the fields the query structs select; timestamps and URLs arrive as
 * the strings the fetcher stores.
 */
module PageSource {
  import opened Wrappers

  /** One page of a connection: its nodes and its PageInfo. */
  datatype Page<N> = Page(nodes: seq<N>, endCursor: string, hasNextPage: bool)

  /** What one query yields: a page, or the error the query reports. */
  datatype Response<N> = Answer(page: Page<N>) | Failed(message: string)

  /** A review comment node (thread comments and their continuation pages). */
  datatype CommentNode = CommentNode(
    id: string, body: string, createdAt: string, author: string,
    diffHunk: string, replyTo: Option<string>, url: string)

  /** A review thread node, with the first page of its comments. */
  datatype ThreadNode = ThreadNode(
    id: string, isResolved: bool, isOutdated: bool, path: string,
    line: Option<int>, startLine: Option<int>, diffSide: string,
    comments: Page<CommentNode>)

  /** A general (issue) comment node of the pull request. */
  datatype GeneralNode = GeneralNode(id: string, body: string, createdAt: string, author: string, url: string)

  /** A query asked, with the variables that vary between calls. */
  datatype Query =
    | ThreadsQuery(cursor: Option<string>)
    | ThreadCommentsQuery(threadID: string, cursor: Option<string>)
    | GeneralCommentsQuery(cursor: Option<string>)

  /** The responses still to come, per kind of query, and the queries asked so far. */
  datatype Server = Server(
    threadPages: seq<Response<ThreadNode>>,
    commentPages: seq<Response<CommentNode>>,
    generalPages: seq<Response<GeneralNode>>,
    log: seq<Query>)

  /** The error of a query the script has no response for. */
  const Exhausted: string := "no response"

  function Head<N>(rs: seq<Response<N>>): Response<N>
  {
    if rs == [] then Failed(Exhausted) else rs[0]
  }

  function Tail<N>(rs: seq<Response<N>>): seq<Response<N>>
  {
    if rs == [] then [] else rs[1..]
  }

  /** The review-threads query (`reviewThreads(first: 100, after: $cursor)`). */
  function AskThreads(s: Server, cursor: Option<string>): (Response<ThreadNode>, Server)
  {
    (Head(s.threadPages), s.(threadPages := Tail(s.threadPages), log := s.log + [ThreadsQuery(cursor)]))
  }

  /** The node query for a thread's further comments (`comments(first: 100, after: $cursor)`). */
  function AskComments(s: Server, threadID: string, cursor: Option<string>): (Response<CommentNode>, Server)
  {
    (Head(s.commentPages), s.(commentPages := Tail(s.commentPages), log := s.log + [ThreadCommentsQuery(threadID, cursor)]))
  }

  /** The pull request's general comments query. */
  function AskGeneral(s: Server, cursor: Option<string>): (Response<GeneralNode>, Server)
  {
    (Head(s.generalPages), s.(generalPages := Tail(s.generalPages), log := s.log + [GeneralCommentsQuery(cursor)]))
  }

  // ---------------------------------------------------------------------------
  // Runs of pages
  // ---------------------------------------------------------------------------

  /** The responses begin with a complete run: answered pages that each announce a
      next page, up to one that does not. */
  predicate Complete<N>(rs: seq<Response<N>>)
  {
    rs != [] && rs[0].Answer? && (rs[0].page.hasNextPage ==> Complete(rs[1..]))
  }

  /** How many responses the complete run at the head of `rs` takes. */
  function RunEnd<N>(rs: seq<Response<N>>): (n: nat)
    requires Complete(rs)
    ensures 1 <= n <= |rs|
  {
    if rs[0].page.hasNextPage then 1 + RunEnd(rs[1..]) else 1
  }

  /** The nodes of the run's pages, page after page. */
  function RunNodes<N>(rs: seq<Response<N>>): seq<N>
    requires Complete(rs)
  {
    rs[0].page.nodes + if rs[0].page.hasNextPage then RunNodes(rs[1..]) else []
  }

  /** The cursors a paginating loop that starts at `first` sends for the run: `first`,
      then the end cursor of each page that announces a next one. */
  function RunCursors<N>(first: Option<string>, rs: seq<Response<N>>): (r: seq<Option<string>>)
    requires Complete(rs)
    ensures |r| == RunEnd(rs) && r[0] == first
    ensures forall k :: 0 <= k < |r| - 1 ==> rs[k].Answer? && r[k + 1] == Some(rs[k].page.endCursor)
    decreases |rs|
  {
    if rs[0].page.hasNextPage then
      [first] + RunCursors(Some(rs[0].page.endCursor), rs[1..])
    else [first]
  }

  /** A run whose first page announces a next one is that page followed by the rest of
      the run. */
  lemma RunFirstPage<N>(first: Option<string>, rs: seq<Response<N>>)
    requires Complete(rs) && rs[0].page.hasNextPage
    ensures Complete(rs[1..])
    ensures RunNodes(rs) == rs[0].page.nodes + RunNodes(rs[1..])
    ensures rs[1..][RunEnd(rs[1..])..] == rs[RunEnd(rs)..]
    ensures RunCursors(first, rs) == [first] + RunCursors(Some(rs[0].page.endCursor), rs[1..])
  {
  }

  /** The responses begin with `n` complete runs, one after the other. */
  predicate Runs<N>(rs: seq<Response<N>>, n: nat)
    decreases n
  {
    n == 0 || (Complete(rs) && Runs(rs[RunEnd(rs)..], n - 1))
  }

  /** The responses left after `n` complete runs. */
  function Skip<N>(rs: seq<Response<N>>, n: nat): seq<Response<N>>
    requires Runs(rs, n)
    decreases n
  {
    if n == 0 then rs else Skip(rs[RunEnd(rs)..], n - 1)
  }

  /** One or more runs are a complete run followed by the others. */
  lemma RunsFirst<N>(rs: seq<Response<N>>, n: nat)
    requires n > 0
    ensures Runs(rs, n) <==> Complete(rs) && Runs(rs[RunEnd(rs)..], n - 1)
    ensures Runs(rs, n) ==> Skip(rs, n) == Skip(rs[RunEnd(rs)..], n - 1)
  {
  }

  /** `a + b` runs are `a` runs followed by `b` more. */
  lemma {:induction false} RunsAppend<N>(rs: seq<Response<N>>, a: nat, b: nat)
    requires Runs(rs, a)
    ensures Runs(rs, a + b) <==> Runs(Skip(rs, a), b)
    ensures Runs(rs, a + b) ==> Skip(rs, a + b) == Skip(Skip(rs, a), b)
    decreases a
  {
    if a > 0 {
      RunsAppend(rs[RunEnd(rs)..], a - 1, b);
    }
  }

  /** The cursors of the review-threads queries in a log, in order. */
  function ThreadsCursors(log: seq<Query>): seq<Option<string>>
  {
    if log == [] then []
    else ThreadsCursors(log[..|log| - 1]) + if log[|log| - 1].ThreadsQuery? then [log[|log| - 1].cursor] else []
  }

  lemma {:induction false} ThreadsCursorsAppend(a: seq<Query>, b: seq<Query>)
    ensures ThreadsCursors(a + b) == ThreadsCursors(a) + ThreadsCursors(b)
  {
    if b == [] {
      assert a + b == a;
    } else {
      ThreadsCursorsAppend(a, b[..|b| - 1]);
      assert (a + b)[..|a + b| - 1] == a + b[..|b| - 1];
    }
  }

  /** Entries that are not review-threads queries contribute no cursor. */
  lemma {:induction false} ThreadsCursorsOfOthers(b: seq<Query>)
    requires forall k :: 0 <= k < |b| ==> !b[k].ThreadsQuery?
    ensures ThreadsCursors(b) == []
  {
    if b != [] {
      ThreadsCursorsOfOthers(b[..|b| - 1]);
    }
  }

  /** The log entries of a thread's continuation queries sent with `cursors`. */
  function CommentQueries(threadID: string, cursors: seq<Option<string>>): (r: seq<Query>)
    ensures |r| == |cursors|
    ensures forall k :: 0 <= k < |r| ==> r[k] == ThreadCommentsQuery(threadID, cursors[k])
  {
    if cursors == [] then [] else [ThreadCommentsQuery(threadID, cursors[0])] + CommentQueries(threadID, cursors[1..])
  }

  /** The log entries of general-comments queries sent with `cursors`. */
  function GeneralQueries(cursors: seq<Option<string>>): (r: seq<Query>)
    ensures |r| == |cursors|
    ensures forall k :: 0 <= k < |r| ==> r[k] == GeneralCommentsQuery(cursors[k])
  {
    if cursors == [] then [] else [GeneralCommentsQuery(cursors[0])] + GeneralQueries(cursors[1..])
  }
}
