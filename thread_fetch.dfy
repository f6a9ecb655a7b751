/**
 * github_graphql.go: FetchPRReviewThreads and the three paginating loops behind it.
 *
 * The specification functions below follow the loops query by query against a
 * PageSource.Server and return a Step: what has been collected, the error that
 * stopped the loop if one did, and the server afterwards. The methods are the loops
 * themselves, each proved equal to its specification function; the properties of
 * those functions are proved in module FetchProperties.
 */
module ThreadFetch {
  import opened Wrappers
  import opened Text
  import opened Models
  import opened PageSource

  /** The error a failed query aborts the fetch with (its text is not modelled). */
  datatype FetchError =
    | ThreadsFailed(message: string)
    | ThreadCommentsFailed(threadID: string, message: string)
    | GeneralFailed(message: string)

  /** What a loop has collected, the error that stopped it, if any, and the server after it. */
  datatype Step<T> = Step(value: T, err: Option<FetchError>, server: Server)

  /** FetchPRReviewThreads' three results, and the server after it. */
  datatype Fetched = Fetched(
    threads: seq<ReviewThread>, general: seq<GeneralComment>, err: Option<FetchError>, server: Server)

  // ---------------------------------------------------------------------------
  // Building threads and comments
  // ---------------------------------------------------------------------------

  /** A ThreadComment from a comment node: a reply exactly when it answers another comment. */
  function MakeComment(n: CommentNode): ThreadComment
  {
    ThreadComment(n.id, n.body, n.author, n.createdAt, n.url, n.replyTo.Some?)
  }

  /** The ThreadComments of a run of comment nodes, one for one and in order. */
  function MakeComments(ns: seq<CommentNode>): (r: seq<ThreadComment>)
    ensures |r| == |ns|
    ensures forall k :: 0 <= k < |ns| ==> r[k] == MakeComment(ns[k])
    ensures forall k :: 0 <= k < |ns| ==> (r[k].isReply <==> ns[k].replyTo.Some?)
  {
    if ns == [] then [] else MakeComments(ns[..|ns| - 1]) + [MakeComment(ns[|ns| - 1])]
  }

  /** Append one comment to a thread; the thread's hunk is taken from the comment
      that becomes its first, when that comment has one. */
  function AppendComment(t: ReviewThread, n: CommentNode): ReviewThread
  {
    var comments := t.comments + [MakeComment(n)];
    t.(comments := comments, diffHunk := if |comments| == 1 && n.diffHunk != "" then n.diffHunk else t.diffHunk)
  }

  /** Append comments in order. Only the comments change, and the hunk, which is set
      at most once: from the first comment of a thread that had none, if non-empty. */
  function AppendComments(t: ReviewThread, ns: seq<CommentNode>): (r: ReviewThread)
    ensures r.comments == t.comments + MakeComments(ns)
    ensures r.diffHunk == if t.comments == [] && ns != [] && ns[0].diffHunk != "" then ns[0].diffHunk else t.diffHunk
    ensures r == t.(comments := r.comments, diffHunk := r.diffHunk)
  {
    if ns == [] then t
    else
      var r' := AppendComments(t, ns[..|ns| - 1]);
      assert ns[..|ns| - 1] != [] ==> ns[..|ns| - 1][0] == ns[0];
      AppendComment(r', ns[|ns| - 1])
  }

  /** `strings.ToUpper(diffSide) == "RIGHT"`: the thread is on the new file. */
  predicate IsRight(diffSide: string)
  {
    ToUpper(diffSide) == "RIGHT"
  }

  /** The thread a node starts as, before its comments: line and start line go to the
      new-file fields on the RIGHT side and to the old-file fields otherwise. */
  function Skeleton(n: ThreadNode): (t: ReviewThread)
    ensures t.id == n.id && t.file == n.path && t.isResolved == n.isResolved && t.isOutdated == n.isOutdated
    ensures t.comments == [] && t.diffHunk == ""
    ensures t.lineNew.None? || t.lineOld.None?
    ensures t.startLineNew.None? || t.startLineOld.None?
    ensures t.lineNew.Some? || t.lineOld.Some? <==> n.line.Some?
    ensures t.startLineNew.Some? || t.startLineOld.Some? <==> n.startLine.Some?
  {
    var right := IsRight(n.diffSide);
    ReviewThread(
      n.id, n.path, n.isResolved, n.isOutdated,
      if right then n.line else None, if right then None else n.line,
      if right then n.startLine else None, if right then None else n.startLine,
      "", [])
  }

  /** The filter: resolved threads go unless requested, and so do outdated ones. */
  function Dropped(opts: FetchOptions, n: ThreadNode): (r: bool)
    ensures opts.includeResolved && opts.includeOutdated ==> !r
    ensures !n.isResolved && !n.isOutdated ==> !r
    ensures r ==> n.isResolved || n.isOutdated
  {
    (!opts.includeResolved && n.isResolved) || (!opts.includeOutdated && n.isOutdated)
  }

  /** fetchAdditionalThreadComments' starting cursor: none for an empty end cursor. */
  function StartCursor(endCursor: string): Option<string>
  {
    if endCursor == "" then None else Some(endCursor)
  }

  /** A query that changes neither the thread-page nor the general-page script and
      only consumes comment responses and appends continuation queries to the log. */
  ghost predicate AsksOnlyComments(s: Server, s': Server)
  {
    && s'.threadPages == s.threadPages
    && s'.generalPages == s.generalPages
    && |s'.commentPages| <= |s.commentPages|
    && |s.log| <= |s'.log| && s'.log[..|s.log|] == s.log
    && forall k :: |s.log| <= k < |s'.log| ==> s'.log[k].ThreadCommentsQuery?
  }

  /** Two such queries in a row are one such query. */
  lemma AsksOnlyCommentsChain(s: Server, s': Server, s'': Server)
    requires AsksOnlyComments(s, s') && AsksOnlyComments(s', s'')
    ensures AsksOnlyComments(s, s'')
  {
    assert s''.log[..|s.log|] == s''.log[..|s'.log|][..|s.log|];
    forall k | |s.log| <= k < |s''.log|
      ensures s''.log[k].ThreadCommentsQuery?
    {
      if k < |s'.log| {
        assert s''.log[k] == s''.log[..|s'.log|][k];
      }
    }
  }

  // ---------------------------------------------------------------------------
  // The loops, as functions
  // ---------------------------------------------------------------------------

  /** fetchAdditionalThreadComments from `cursor` on: query, append the page, and go on
      from its end cursor while it announces a next page. */
  function ContinueComments(s: Server, t: ReviewThread, threadID: string, cursor: Option<string>): (r: Step<ReviewThread>)
    ensures AsksOnlyComments(s, r.server)
    decreases |s.commentPages|
  {
    var (resp, s1) := AskComments(s, threadID, cursor);
    match resp
    case Failed(m) => Step(t, Some(ThreadCommentsFailed(threadID, m)), s1)
    case Answer(page) =>
      var t1 := AppendComments(t, page.nodes);
      if !page.hasNextPage then Step(t1, None, s1)
      else
        var r := ContinueComments(s1, t1, threadID, Some(page.endCursor));
        assert r.server.log[..|s1.log|] == s1.log;
        r
  }

  /** One retained thread node: its first comment page, then its further pages. */
  function BuildThread(s: Server, n: ThreadNode): (r: Step<ReviewThread>)
    ensures AsksOnlyComments(s, r.server)
  {
    var t := AppendComments(Skeleton(n), n.comments.nodes);
    if n.comments.hasNextPage then ContinueComments(s, t, n.id, StartCursor(n.comments.endCursor))
    else Step(t, None, s)
  }

  /** The nodes of one thread page, in order, after the threads collected so far in `acc`. */
  function ProcessNodes(s: Server, opts: FetchOptions, acc: seq<ReviewThread>, nodes: seq<ThreadNode>)
    : (r: Step<seq<ReviewThread>>)
    ensures AsksOnlyComments(s, r.server)
    decreases |nodes|
  {
    if nodes == [] then Step(acc, None, s)
    else if Dropped(opts, nodes[0]) then ProcessNodes(s, opts, acc, nodes[1..])
    else
      var b := BuildThread(s, nodes[0]);
      if b.err.Some? then Step(acc, b.err, b.server)
      else
        var r := ProcessNodes(b.server, opts, acc + [b.value], nodes[1..]);
        AsksOnlyCommentsChain(s, b.server, r.server);
        r
  }

  /** fetchReviewThreads from `cursor` on. */
  function DrainThreads(s: Server, opts: FetchOptions, acc: seq<ReviewThread>, cursor: Option<string>)
    : (r: Step<seq<ReviewThread>>)
    ensures r.server.generalPages == s.generalPages
    decreases |s.threadPages|
  {
    var (resp, s1) := AskThreads(s, cursor);
    match resp
    case Failed(m) => Step(acc, Some(ThreadsFailed(m)), s1)
    case Answer(page) =>
      var p := ProcessNodes(s1, opts, acc, page.nodes);
      if p.err.Some? || !page.hasNextPage then p
      else DrainThreads(p.server, opts, p.value, Some(page.endCursor))
  }

  function MakeGeneral(n: GeneralNode): GeneralComment
  {
    GeneralComment(n.id, n.body, n.author, n.createdAt, n.url)
  }

  /** The GeneralComments of a run of nodes, one for one and in order. */
  function MakeGenerals(ns: seq<GeneralNode>): (r: seq<GeneralComment>)
    ensures |r| == |ns|
    ensures forall k :: 0 <= k < |ns| ==> r[k] == MakeGeneral(ns[k])
  {
    if ns == [] then [] else MakeGenerals(ns[..|ns| - 1]) + [MakeGeneral(ns[|ns| - 1])]
  }

  /** fetchGeneralComments from `cursor` on. */
  function DrainGeneral(s: Server, acc: seq<GeneralComment>, cursor: Option<string>): (r: Step<seq<GeneralComment>>)
    ensures r.server.threadPages == s.threadPages && r.server.commentPages == s.commentPages
    decreases |s.generalPages|
  {
    var (resp, s1) := AskGeneral(s, cursor);
    match resp
    case Failed(m) => Step(acc, Some(GeneralFailed(m)), s1)
    case Answer(page) =>
      var acc' := acc + MakeGenerals(page.nodes);
      if !page.hasNextPage then Step(acc', None, s1)
      else DrainGeneral(s1, acc', Some(page.endCursor))
  }

  /** FetchPRReviewThreads: all threads, then the general comments when requested.
      An error yields no threads and no general comments, never a partial result;
      without IncludeGeneral no general-comments query is asked. */
  function FetchAll(s: Server, opts: FetchOptions): (r: Fetched)
    ensures r.err.Some? ==> r.threads == [] && r.general == []
    ensures !opts.includeGeneral ==> r.general == [] && r.server.generalPages == s.generalPages
  {
    var t := DrainThreads(s, opts, [], None);
    if t.err.Some? then Fetched([], [], t.err, t.server)
    else if !opts.includeGeneral then Fetched(t.value, [], None, t.server)
    else
      var g := DrainGeneral(t.server, [], None);
      if g.err.Some? then Fetched([], [], g.err, g.server)
      else Fetched(t.value, g.value, None, g.server)
  }

  // ---------------------------------------------------------------------------
  // The loops
  // ---------------------------------------------------------------------------

  /** The `for _, comment := range ...Nodes` loop shared by both comment queries. */
  method AppendCommentNodes(thread: ReviewThread, nodes: seq<CommentNode>) returns (t: ReviewThread)
    ensures t == AppendComments(thread, nodes)
  {
    t := thread;
    for i := 0 to |nodes|
      invariant t == AppendComments(thread, nodes[..i])
    {
      assert nodes[..i + 1][..i] == nodes[..i];
      ghost var before := t;
      var comment := MakeComment(nodes[i]);
      t := t.(comments := t.comments + [comment]);
      if |t.comments| == 1 && nodes[i].diffHunk != "" {
        t := t.(diffHunk := nodes[i].diffHunk);
      }
      assert t == AppendComment(before, nodes[i]);
    }
    assert nodes[..|nodes|] == nodes;
  }

  /** fetchAdditionalThreadComments: the thread, passed by pointer in Go, is passed in
      and handed back. */
  method FetchAdditionalThreadComments(s: Server, threadID: string, startCursor: string, thread: ReviewThread)
    returns (t: ReviewThread, err: Option<FetchError>, s': Server)
    ensures Step(t, err, s') == ContinueComments(s, thread, threadID, StartCursor(startCursor))
  {
    var cursor: Option<string> := None;
    if startCursor != "" {
      cursor := Some(startCursor);
    }
    t, err, s' := thread, None, s;
    while true
      invariant ContinueComments(s', t, threadID, cursor) == ContinueComments(s, thread, threadID, StartCursor(startCursor))
      decreases |s'.commentPages|
    {
      var (resp, s1) := AskComments(s', threadID, cursor);
      if resp.Failed? {
        err, s' := Some(ThreadCommentsFailed(threadID, resp.message)), s1;
        return;
      }
      s' := s1;
      t := AppendCommentNodes(t, resp.page.nodes);
      if !resp.page.hasNextPage {
        return;
      }
      cursor := Some(resp.page.endCursor);
    }
  }

  /** fetchReviewThreads: the threads collected (a partial list when it fails). */
  method FetchReviewThreads(s: Server, opts: FetchOptions)
    returns (threads: seq<ReviewThread>, err: Option<FetchError>, s': Server)
    ensures Step(threads, err, s') == DrainThreads(s, opts, [], None)
  {
    var cursor: Option<string> := None;
    threads, err, s' := [], None, s;
    while true
      invariant DrainThreads(s', opts, threads, cursor) == DrainThreads(s, opts, [], None)
      decreases |s'.threadPages|
    {
      var (resp, s1) := AskThreads(s', cursor);
      if resp.Failed? {
        err, s' := Some(ThreadsFailed(resp.message)), s1;
        return;
      }
      var page := resp.page;
      ghost var before := threads;
      s' := s1;
      for i := 0 to |page.nodes|
        invariant ProcessNodes(s', opts, threads, page.nodes[i..]) == ProcessNodes(s1, opts, before, page.nodes)
        invariant s'.threadPages == s1.threadPages
      {
        var node := page.nodes[i];
        assert page.nodes[i..][1..] == page.nodes[i + 1..];
        if !opts.includeResolved && node.isResolved {
          continue;
        }
        if !opts.includeOutdated && node.isOutdated {
          continue;
        }
        var thread := Skeleton(node);
        thread := AppendCommentNodes(thread, node.comments.nodes);
        if node.comments.hasNextPage {
          var e;
          thread, e, s' := FetchAdditionalThreadComments(s', node.id, node.comments.endCursor, thread);
          if e.Some? {
            err := e;
            return;
          }
        }
        threads := threads + [thread];
      }
      assert page.nodes[|page.nodes|..] == [];
      if !page.hasNextPage {
        return;
      }
      cursor := Some(page.endCursor);
    }
  }

  /** The `for _, comment := range ...Nodes` loop of the general-comments query. */
  method AppendGeneralNodes(general: seq<GeneralComment>, nodes: seq<GeneralNode>) returns (g: seq<GeneralComment>)
    ensures g == general + MakeGenerals(nodes)
  {
    g := general;
    for i := 0 to |nodes|
      invariant g == general + MakeGenerals(nodes[..i])
    {
      assert nodes[..i + 1][..i] == nodes[..i];
      g := g + [MakeGeneral(nodes[i])];
    }
    assert nodes[..|nodes|] == nodes;
  }

  /** fetchGeneralComments: the general comments collected (a partial list when it fails). */
  method FetchGeneralComments(s: Server) returns (general: seq<GeneralComment>, err: Option<FetchError>, s': Server)
    ensures Step(general, err, s') == DrainGeneral(s, [], None)
  {
    var cursor: Option<string> := None;
    general, err, s' := [], None, s;
    while true
      invariant DrainGeneral(s', general, cursor) == DrainGeneral(s, [], None)
      decreases |s'.generalPages|
    {
      var (resp, s1) := AskGeneral(s', cursor);
      if resp.Failed? {
        err, s' := Some(GeneralFailed(resp.message)), s1;
        return;
      }
      s' := s1;
      general := AppendGeneralNodes(general, resp.page.nodes);
      if !resp.page.hasNextPage {
        return;
      }
      cursor := Some(resp.page.endCursor);
    }
  }

  /** FetchPRReviewThreads. */
  method FetchPRReviewThreads(s: Server, opts: FetchOptions)
    returns (threads: seq<ReviewThread>, general: seq<GeneralComment>, err: Option<FetchError>, s': Server)
    ensures Fetched(threads, general, err, s') == FetchAll(s, opts)
    ensures err.Some? ==> threads == [] && general == []
  {
    threads, err, s' := FetchReviewThreads(s, opts);
    general := [];
    if err.Some? {
      threads := [];
      return;
    }
    if opts.includeGeneral {
      general, err, s' := FetchGeneralComments(s');
      if err.Some? {
        threads, general := [], [];
        return;
      }
    }
  }
}
