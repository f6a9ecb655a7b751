/**
 * What the GraphQL fetch promises, proved about the specification functions of
 * ThreadFetch (and so, through their ensures, about its loops): comments accumulate
 * page after page, the hunk is the first comment's, the filter keeps exactly the
 * requested threads in page order, pagination follows the end cursors and stops at
 * the first page without a successor, and any failed query aborts the whole fetch.
 */
module FetchProperties {
  import opened Wrappers
  import opened Text
  import opened Models
  import opened PageSource
  import opened ThreadFetch

  // ---------------------------------------------------------------------------
  // Comments and hunks
  // ---------------------------------------------------------------------------

  /** Appending two runs of comments is appending their concatenation. */
  lemma {:induction false} AppendCommentsConcat(t: ReviewThread, a: seq<CommentNode>, b: seq<CommentNode>)
    ensures AppendComments(AppendComments(t, a), b) == AppendComments(t, a + b)
  {
    if b == [] {
      assert a + b == a;
    } else {
      AppendCommentsConcat(t, a, b[..|b| - 1]);
      assert (a + b)[..|a + b| - 1] == a + b[..|b| - 1];
    }
  }

  /** One answered continuation query, unfolded. */
  lemma ContinueCommentsAnswered(s: Server, t: ReviewThread, threadID: string, cursor: Option<string>)
    requires s.commentPages != [] && s.commentPages[0].Answer?
    ensures var page := s.commentPages[0].page;
      var s1 := s.(commentPages := s.commentPages[1..], log := s.log + [ThreadCommentsQuery(threadID, cursor)]);
      var t1 := AppendComments(t, page.nodes);
      ContinueComments(s, t, threadID, cursor) ==
        if page.hasNextPage then ContinueComments(s1, t1, threadID, Some(page.endCursor)) else Step(t1, None, s1)
  {
  }

  /** A complete run of continuation pages: the thread gains the run's comments in
      page order, one query per page is asked, the first with `cursor` and each
      later one with the end cursor of the page before, and the run is consumed. */
  lemma {:induction false} ContinueCommentsRun(s: Server, t: ReviewThread, threadID: string, cursor: Option<string>)
    requires Complete(s.commentPages)
    ensures ContinueComments(s, t, threadID, cursor) ==
      Step(AppendComments(t, RunNodes(s.commentPages)), None,
           s.(commentPages := s.commentPages[RunEnd(s.commentPages)..],
              log := s.log + CommentQueries(threadID, RunCursors(cursor, s.commentPages))))
    decreases |s.commentPages|, 1
  {
    if s.commentPages[0].page.hasNextPage {
      ContinueCommentsRunMore(s, t, threadID, cursor);
    } else {
      ContinueCommentsRunLast(s, t, threadID, cursor);
    }
  }

  lemma ContinueCommentsRunLast(s: Server, t: ReviewThread, threadID: string, cursor: Option<string>)
    requires Complete(s.commentPages) && !s.commentPages[0].page.hasNextPage
    ensures ContinueComments(s, t, threadID, cursor) ==
      Step(AppendComments(t, RunNodes(s.commentPages)), None,
           s.(commentPages := s.commentPages[RunEnd(s.commentPages)..],
              log := s.log + CommentQueries(threadID, RunCursors(cursor, s.commentPages))))
  {
    var rs := s.commentPages;
    var q := ThreadCommentsQuery(threadID, cursor);
    ContinueCommentsAnswered(s, t, threadID, cursor);
    assert RunNodes(rs) == rs[0].page.nodes + [] == rs[0].page.nodes;
    assert RunCursors(cursor, rs) == [cursor];
    assert CommentQueries(threadID, [cursor]) == [q];
  }

  lemma {:induction false} ContinueCommentsRunMore(s: Server, t: ReviewThread, threadID: string, cursor: Option<string>)
    requires Complete(s.commentPages) && s.commentPages[0].page.hasNextPage
    ensures ContinueComments(s, t, threadID, cursor) ==
      Step(AppendComments(t, RunNodes(s.commentPages)), None,
           s.(commentPages := s.commentPages[RunEnd(s.commentPages)..],
              log := s.log + CommentQueries(threadID, RunCursors(cursor, s.commentPages))))
    decreases |s.commentPages|, 0
  {
    var rs := s.commentPages;
    var page := rs[0].page;
    var q := ThreadCommentsQuery(threadID, cursor);
    var s1 := s.(commentPages := rs[1..], log := s.log + [q]);
    var t1 := AppendComments(t, page.nodes);
    ContinueCommentsAnswered(s, t, threadID, cursor);
    RunFirstPage(cursor, rs);
    ContinueCommentsRun(s1, t1, threadID, Some(page.endCursor));
    AppendCommentsConcat(t, page.nodes, RunNodes(rs[1..]));
    var cs := RunCursors(Some(page.endCursor), rs[1..]);
    var qs := CommentQueries(threadID, cs);
    assert CommentQueries(threadID, [cursor] + cs) == [q] + qs;
    AppendAssociates(s.log, [q], qs);
    var r := ContinueComments(s, t, threadID, cursor);
    var goal := Step(AppendComments(t, RunNodes(rs)), None,
                     s.(commentPages := rs[RunEnd(rs)..], log := s.log + CommentQueries(threadID, RunCursors(cursor, rs))));
    assert r.value == goal.value;
    assert r.server.log == goal.server.log;
    assert r.server.commentPages == goal.server.commentPages;
  }

  /** Without a complete run ahead (a failed query, or the responses run out), the
      continuation fails. */
  lemma {:induction false} ContinueCommentsIncomplete(s: Server, t: ReviewThread, threadID: string, cursor: Option<string>)
    requires !Complete(s.commentPages)
    ensures ContinueComments(s, t, threadID, cursor).err.Some?
    decreases |s.commentPages|
  {
    var rs := s.commentPages;
    if rs != [] && rs[0].Answer? {
      ContinueCommentsAnswered(s, t, threadID, cursor);
      if rs[0].page.hasNextPage {
        var s1 := s.(commentPages := rs[1..], log := s.log + [ThreadCommentsQuery(threadID, cursor)]);
        ContinueCommentsIncomplete(s1, AppendComments(t, rs[0].page.nodes), threadID, Some(rs[0].page.endCursor));
      }
    }
  }

  /** Every query a continuation asks is for its own thread. */
  lemma {:induction false} ContinueCommentsAsksForThread(s: Server, t: ReviewThread, threadID: string, cursor: Option<string>)
    ensures var r := ContinueComments(s, t, threadID, cursor);
      forall k :: |s.log| <= k < |r.server.log| ==> r.server.log[k] == ThreadCommentsQuery(threadID, r.server.log[k].cursor)
    decreases |s.commentPages|
  {
    var rs := s.commentPages;
    var r := ContinueComments(s, t, threadID, cursor);
    var q := ThreadCommentsQuery(threadID, cursor);
    var s1 := s.(commentPages := Tail(rs), log := s.log + [q]);
    if rs != [] && rs[0].Answer? && rs[0].page.hasNextPage {
      var t1 := AppendComments(t, rs[0].page.nodes);
      ContinueCommentsAnswered(s, t, threadID, cursor);
      assert r == ContinueComments(s1, t1, threadID, Some(rs[0].page.endCursor));
      ContinueCommentsAsksForThread(s1, t1, threadID, Some(rs[0].page.endCursor));
      assert r.server.log[..|s1.log|] == s1.log;
      forall k | |s.log| <= k < |r.server.log|
        ensures r.server.log[k] == ThreadCommentsQuery(threadID, r.server.log[k].cursor)
      {
        if k == |s.log| {
          assert r.server.log[k] == s1.log[k] == q;
        }
      }
    } else {
      assert r.server == s1;
      assert s1.log[|s.log|] == q;
    }
  }

  /** A continuation changes only the thread's comments and hunk. */
  lemma {:induction false} ContinueCommentsFrame(s: Server, t: ReviewThread, threadID: string, cursor: Option<string>)
    ensures var r := ContinueComments(s, t, threadID, cursor);
      r.value == t.(comments := r.value.comments, diffHunk := r.value.diffHunk)
    decreases |s.commentPages|
  {
    var (resp, s1) := AskComments(s, threadID, cursor);
    if resp.Answer? && resp.page.hasNextPage {
      ContinueCommentsFrame(s1, AppendComments(t, resp.page.nodes), threadID, Some(resp.page.endCursor));
    }
  }

  /** The comment nodes a retained thread ends up with: its first page, then, when
      that page announces more, the run of continuation pages. */
  function ThreadCommentNodes(cs: seq<Response<CommentNode>>, n: ThreadNode): seq<CommentNode>
    requires n.comments.hasNextPage ==> Complete(cs)
  {
    n.comments.nodes + if n.comments.hasNextPage then RunNodes(cs) else []
  }

  /** A kept thread as fetched with the comment responses `cs` ahead: its skeleton
      with all its comments, in order, and the first comment's hunk. */
  function FetchedThread(n: ThreadNode, cs: seq<Response<CommentNode>>): (t: ReviewThread)
    requires n.comments.hasNextPage ==> Complete(cs)
    ensures var ns := ThreadCommentNodes(cs, n);
      && t.comments == MakeComments(ns)
      && t.diffHunk == (if ns == [] then "" else ns[0].diffHunk)
      && Frame(t) == Skeleton(n)
  {
    var sk := Skeleton(n);
    var t := AppendComments(sk, ThreadCommentNodes(cs, n));
    assert Frame(t) == sk.(comments := [], diffHunk := "") == sk;
    t
  }

  /** A thread built with all its pages available is fetched as `FetchedThread`, and
      its continuation consumes exactly the run of comment responses it reads. */
  lemma BuildThreadRun(s: Server, n: ThreadNode)
    requires n.comments.hasNextPage ==> Complete(s.commentPages)
    ensures var r := BuildThread(s, n);
      && r.err.None?
      && r.value == FetchedThread(n, s.commentPages)
      && r.server.commentPages ==
           if n.comments.hasNextPage then s.commentPages[RunEnd(s.commentPages)..] else s.commentPages
  {
    var t := AppendComments(Skeleton(n), n.comments.nodes);
    if n.comments.hasNextPage {
      ContinueCommentsRun(s, t, n.id, StartCursor(n.comments.endCursor));
      AppendCommentsConcat(Skeleton(n), n.comments.nodes, RunNodes(s.commentPages));
    } else {
      assert ThreadCommentNodes(s.commentPages, n) == n.comments.nodes;
    }
  }

  /** A thread built with all its pages available: its comments are made from all its
      comment nodes, in order, each a reply exactly when it answers another; its hunk
      is the first comment's (empty when there is none); a thread whose first page is
      its last asks nothing. */
  lemma BuildThreadComments(s: Server, n: ThreadNode)
    requires n.comments.hasNextPage ==> Complete(s.commentPages)
    ensures var r := BuildThread(s, n);
      var ns := ThreadCommentNodes(s.commentPages, n);
      && r.err.None?
      && r.value.comments == MakeComments(ns)
      && (forall k :: 0 <= k < |ns| ==> (r.value.comments[k].isReply <==> ns[k].replyTo.Some?))
      && r.value.diffHunk == (if ns == [] then "" else ns[0].diffHunk)
      && (!n.comments.hasNextPage ==> r.server == s)
  {
    BuildThreadRun(s, n);
  }

  // ---------------------------------------------------------------------------
  // Lines and sides
  // ---------------------------------------------------------------------------

  /** The side mapping: a present line lands on exactly one side, the new side when
      DiffSide reads RIGHT in upper case, and an absent one stays absent; the same for
      the start line. */
  lemma SkeletonSides(n: ThreadNode)
    ensures var t := Skeleton(n);
      && (t.lineNew.Some? <==> n.line.Some? && IsRight(n.diffSide))
      && (t.lineOld.Some? <==> n.line.Some? && !IsRight(n.diffSide))
      && (t.startLineNew.Some? <==> n.startLine.Some? && IsRight(n.diffSide))
      && (t.startLineOld.Some? <==> n.startLine.Some? && !IsRight(n.diffSide))
      && (t.lineNew.Some? ==> t.lineNew == n.line) && (t.lineOld.Some? ==> t.lineOld == n.line)
      && (t.startLineNew.Some? ==> t.startLineNew == n.startLine)
      && (t.startLineOld.Some? ==> t.startLineOld == n.startLine)
  {
  }

  /** The side test ignores case: any spelling that upper-cases to RIGHT is the new side. */
  lemma {:induction false} RightInAnyCase(side: string)
    requires |side| == 5
    requires forall k :: 0 <= k < 5 ==> UpperChar(side[k]) == "RIGHT"[k]
    ensures IsRight(side)
  {
    assert ToUpper(side) == "RIGHT";
  }

  /** Upper-casing maps the dotless i to I, so "rıght" is the RIGHT side too. */
  lemma DotlessRight(side: string)
    requires side == "rıght"
    ensures IsRight(side)
  {
    RightInAnyCase(side);
  }

  // ---------------------------------------------------------------------------
  // Filtering, in page order
  // ---------------------------------------------------------------------------

  /** The thread nodes the filter keeps, in order. */
  function Kept(opts: FetchOptions, nodes: seq<ThreadNode>): seq<ThreadNode>
  {
    if nodes == [] then []
    else (if Dropped(opts, nodes[0]) then [] else [nodes[0]]) + Kept(opts, nodes[1..])
  }

  /** A node is kept exactly when it is not dropped: it is kept unless it is resolved
      and resolved threads are not requested, or outdated and outdated ones are not. */
  lemma {:induction false} KeptMembers(opts: FetchOptions, nodes: seq<ThreadNode>, n: ThreadNode)
    ensures n in Kept(opts, nodes) <==>
      n in nodes && !((!opts.includeResolved && n.isResolved) || (!opts.includeOutdated && n.isOutdated))
  {
    if nodes != [] {
      KeptMembers(opts, nodes[1..], n);
      assert nodes == [nodes[0]] + nodes[1..];
    }
  }

  lemma {:induction false} KeptAppend(opts: FetchOptions, a: seq<ThreadNode>, b: seq<ThreadNode>)
    ensures Kept(opts, a + b) == Kept(opts, a) + Kept(opts, b)
  {
    if a != [] {
      KeptAppend(opts, a[1..], b);
      assert (a + b)[1..] == a[1..] + b;
    } else {
      assert a + b == b;
    }
  }

  /** What a thread is apart from its comments and hunk. */
  function Frame(t: ReviewThread): ReviewThread
  {
    t.(comments := [], diffHunk := "")
  }

  function Frames(ts: seq<ReviewThread>): (r: seq<ReviewThread>)
    ensures |r| == |ts|
  {
    if ts == [] then [] else [Frame(ts[0])] + Frames(ts[1..])
  }

  function Skeletons(ns: seq<ThreadNode>): (r: seq<ReviewThread>)
    ensures |r| == |ns|
  {
    if ns == [] then [] else [Skeleton(ns[0])] + Skeletons(ns[1..])
  }

  lemma {:induction false} FramesAppend(a: seq<ReviewThread>, b: seq<ReviewThread>)
    ensures Frames(a + b) == Frames(a) + Frames(b)
  {
    if a != [] {
      FramesAppend(a[1..], b);
      assert (a + b)[1..] == a[1..] + b;
    } else {
      assert a + b == b;
    }
  }

  lemma {:induction false} SkeletonsAppend(a: seq<ThreadNode>, b: seq<ThreadNode>)
    ensures Skeletons(a + b) == Skeletons(a) + Skeletons(b)
  {
    if a != [] {
      SkeletonsAppend(a[1..], b);
      assert (a + b)[1..] == a[1..] + b;
    } else {
      assert a + b == b;
    }
  }

  /** A built thread is its node's skeleton plus comments and hunk. */
  lemma BuildThreadFrame(s: Server, n: ThreadNode)
    ensures Frame(BuildThread(s, n).value) == Skeleton(n)
  {
    var t := AppendComments(Skeleton(n), n.comments.nodes);
    if n.comments.hasNextPage {
      ContinueCommentsFrame(s, t, n.id, StartCursor(n.comments.endCursor));
    }
  }

  /** A page of thread nodes processed without error adds, after what was collected,
      one thread per kept node, in order. */
  lemma {:induction false} ProcessNodesFrames(s: Server, opts: FetchOptions, acc: seq<ReviewThread>, nodes: seq<ThreadNode>)
    ensures var r := ProcessNodes(s, opts, acc, nodes);
      r.err.None? ==> Frames(r.value) == Frames(acc) + Skeletons(Kept(opts, nodes))
    decreases |nodes|
  {
    if nodes == [] {
    } else if Dropped(opts, nodes[0]) {
      ProcessNodesFrames(s, opts, acc, nodes[1..]);
      assert Kept(opts, nodes) == [] + Kept(opts, nodes[1..]) == Kept(opts, nodes[1..]);
    } else {
      var b := BuildThread(s, nodes[0]);
      if b.err.None? {
        ProcessNodesFrames(b.server, opts, acc + [b.value], nodes[1..]);
        FramesAppend(acc, [b.value]);
        BuildThreadFrame(s, nodes[0]);
        assert Frames([b.value]) == [Skeleton(nodes[0])];
        var k := Kept(opts, nodes[1..]);
        assert Kept(opts, nodes) == [nodes[0]] + k;
        assert ([nodes[0]] + k)[1..] == k;
        assert Skeletons([nodes[0]] + k) == [Skeleton(nodes[0])] + Skeletons(k);
        AppendAssociates(Frames(acc), [Skeleton(nodes[0])], Skeletons(k));
      }
    }
  }

  /** The queries building one thread asks: continuation queries for that thread,
      and only when its first comment page announced more. */
  lemma BuildThreadAsksFor(s: Server, n: ThreadNode)
    ensures var b := BuildThread(s, n);
      forall k :: |s.log| <= k < |b.server.log| ==>
        n.comments.hasNextPage && b.server.log[k] == ThreadCommentsQuery(n.id, b.server.log[k].cursor)
  {
    var t := AppendComments(Skeleton(n), n.comments.nodes);
    if n.comments.hasNextPage {
      assert BuildThread(s, n) == ContinueComments(s, t, n.id, StartCursor(n.comments.endCursor));
      ContinueCommentsAsksForThread(s, t, n.id, StartCursor(n.comments.endCursor));
    } else {
      assert BuildThread(s, n).server == s;
    }
  }

  /** The IDs of the nodes the filter keeps whose first comment page announces more. */
  function ContinuedIds(opts: FetchOptions, nodes: seq<ThreadNode>): set<string>
  {
    if nodes == [] then {}
    else
      var here: set<string> := if !Dropped(opts, nodes[0]) && nodes[0].comments.hasNextPage then {nodes[0].id} else {};
      here + ContinuedIds(opts, nodes[1..])
  }

  lemma {:induction false} ContinuedIdsMembers(opts: FetchOptions, nodes: seq<ThreadNode>, id: string)
    ensures id in ContinuedIds(opts, nodes) <==>
      exists j :: 0 <= j < |nodes| && nodes[j].id == id && !Dropped(opts, nodes[j]) && nodes[j].comments.hasNextPage
  {
    if nodes != [] {
      ContinuedIdsMembers(opts, nodes[1..], id);
      if exists j :: 0 <= j < |nodes| && nodes[j].id == id && !Dropped(opts, nodes[j]) && nodes[j].comments.hasNextPage {
        var j :| 0 <= j < |nodes| && nodes[j].id == id && !Dropped(opts, nodes[j]) && nodes[j].comments.hasNextPage;
        if j > 0 {
          assert nodes[1..][j - 1] == nodes[j];
        }
      }
      if id in ContinuedIds(opts, nodes[1..]) {
        var j :| 0 <= j < |nodes[1..]| && nodes[1..][j].id == id && !Dropped(opts, nodes[1..][j]) && nodes[1..][j].comments.hasNextPage;
        assert nodes[j + 1] == nodes[1..][j];
      }
    }
  }

  /** The log entries after the first `from` are continuation queries for the threads in `ids`. */
  ghost predicate AskedOnlyFor(log: seq<Query>, from: nat, ids: set<string>)
  {
    forall k :: from <= k < |log| ==> log[k].ThreadCommentsQuery? && log[k].threadID in ids
  }

  /** Every query asked while processing a page is a continuation query for a node the
      filter kept and whose first comment page announced more: a dropped thread, or a
      thread with a single comment page, never causes a query. */
  lemma {:induction false} ProcessNodesAsksForKept(s: Server, opts: FetchOptions, acc: seq<ReviewThread>, nodes: seq<ThreadNode>)
    ensures AskedOnlyFor(ProcessNodes(s, opts, acc, nodes).server.log, |s.log|, ContinuedIds(opts, nodes))
    decreases |nodes|
  {
    var r := ProcessNodes(s, opts, acc, nodes).server;
    if nodes != [] {
      var ids := ContinuedIds(opts, nodes);
      assert ContinuedIds(opts, nodes[1..]) <= ids;
      if Dropped(opts, nodes[0]) {
        ProcessNodesAsksForKept(s, opts, acc, nodes[1..]);
      } else {
        var b := BuildThread(s, nodes[0]);
        BuildThreadAsksFor(s, nodes[0]);
        assert AskedOnlyFor(b.server.log, |s.log|, ids);
        if b.err.None? {
          ProcessNodesAsksForKept(b.server, opts, acc + [b.value], nodes[1..]);
          forall k | |s.log| <= k < |r.log|
            ensures r.log[k].ThreadCommentsQuery? && r.log[k].threadID in ids
          {
            if k < |b.server.log| {
              assert r.log[k] == r.log[..|b.server.log|][k] == b.server.log[k];
            }
          }
        }
      }
    }
  }

  // ---------------------------------------------------------------------------
  // Thread pages
  // ---------------------------------------------------------------------------

  /** One answered review-threads query, unfolded. */
  lemma DrainThreadsAnswered(s: Server, opts: FetchOptions, acc: seq<ReviewThread>, cursor: Option<string>)
    requires s.threadPages != [] && s.threadPages[0].Answer?
    ensures var page := s.threadPages[0].page;
      var s1 := s.(threadPages := s.threadPages[1..], log := s.log + [ThreadsQuery(cursor)]);
      var p := ProcessNodes(s1, opts, acc, page.nodes);
      DrainThreads(s, opts, acc, cursor) ==
        if p.err.Some? || !page.hasNextPage then p else DrainThreads(p.server, opts, p.value, Some(page.endCursor))
  {
  }

  /** Processing a page asks no review-threads query. */
  lemma ProcessNodesThreadsCursors(s: Server, opts: FetchOptions, acc: seq<ReviewThread>, nodes: seq<ThreadNode>)
    ensures ThreadsCursors(ProcessNodes(s, opts, acc, nodes).server.log) == ThreadsCursors(s.log)
  {
    var log := ProcessNodes(s, opts, acc, nodes).server.log;
    var extra := log[|s.log|..];
    assert log == s.log + extra;
    ThreadsCursorsAppend(s.log, extra);
    ThreadsCursorsOfOthers(extra);
  }

  /** What a successful drain of thread pages promises. */
  ghost predicate DrainedThreads(s: Server, opts: FetchOptions, acc: seq<ReviewThread>, cursor: Option<string>,
                                 r: Step<seq<ReviewThread>>)
  {
    && Complete(s.threadPages)
    && r.server.threadPages == s.threadPages[RunEnd(s.threadPages)..]
    && Frames(r.value) == Frames(acc) + Skeletons(Kept(opts, RunNodes(s.threadPages)))
    && ThreadsCursors(r.server.log) == ThreadsCursors(s.log) + RunCursors(cursor, s.threadPages)
  }

  /** A fetch of review threads that succeeds has read a complete run of thread pages:
      it holds, after what was collected, one thread per kept node of the run, in page
      order; and it asked one review-threads query per page, the first with `cursor`
      and each later one with the end cursor of the page before. */
  lemma {:induction false} DrainThreadsRun(s: Server, opts: FetchOptions, acc: seq<ReviewThread>, cursor: Option<string>)
    ensures var r := DrainThreads(s, opts, acc, cursor);
      r.err.None? ==> DrainedThreads(s, opts, acc, cursor, r)
    decreases |s.threadPages|, 1
  {
    var rs := s.threadPages;
    if rs != [] && rs[0].Answer? {
      DrainThreadsAnswered(s, opts, acc, cursor);
      if rs[0].page.hasNextPage {
        DrainThreadsRunMore(s, opts, acc, cursor);
      } else {
        DrainThreadsRunLast(s, opts, acc, cursor);
      }
    }
  }

  lemma DrainThreadsRunLast(s: Server, opts: FetchOptions, acc: seq<ReviewThread>, cursor: Option<string>)
    requires s.threadPages != [] && s.threadPages[0].Answer? && !s.threadPages[0].page.hasNextPage
    ensures var r := DrainThreads(s, opts, acc, cursor);
      r.err.None? ==> DrainedThreads(s, opts, acc, cursor, r)
  {
    var rs := s.threadPages;
    var page := rs[0].page;
    var s1 := s.(threadPages := rs[1..], log := s.log + [ThreadsQuery(cursor)]);
    DrainThreadsAnswered(s, opts, acc, cursor);
    ProcessNodesFrames(s1, opts, acc, page.nodes);
    ProcessNodesThreadsCursors(s1, opts, acc, page.nodes);
    ThreadsCursorsAppend(s.log, [ThreadsQuery(cursor)]);
    assert ThreadsCursors([ThreadsQuery(cursor)]) == [cursor];
    assert RunNodes(rs) == page.nodes + [] == page.nodes;
    assert RunCursors(cursor, rs) == [cursor];
  }

  lemma {:induction false} DrainThreadsRunMore(s: Server, opts: FetchOptions, acc: seq<ReviewThread>, cursor: Option<string>)
    requires s.threadPages != [] && s.threadPages[0].Answer? && s.threadPages[0].page.hasNextPage
    ensures var r := DrainThreads(s, opts, acc, cursor);
      r.err.None? ==> DrainedThreads(s, opts, acc, cursor, r)
    decreases |s.threadPages|, 0
  {
    var rs := s.threadPages;
    var page := rs[0].page;
    var s1 := s.(threadPages := rs[1..], log := s.log + [ThreadsQuery(cursor)]);
    var p := ProcessNodes(s1, opts, acc, page.nodes);
    var r := DrainThreads(s, opts, acc, cursor);
    DrainThreadsAnswered(s, opts, acc, cursor);
    if p.err.None? {
      assert r == DrainThreads(p.server, opts, p.value, Some(page.endCursor));
      DrainThreadsRun(p.server, opts, p.value, Some(page.endCursor));
      if r.err.None? {
        DrainThreadsCombine(s, opts, acc, cursor, p, r);
      }
    }
  }

  /** The first page of a run followed by the drain of the rest. */
  lemma DrainThreadsCombine(s: Server, opts: FetchOptions, acc: seq<ReviewThread>, cursor: Option<string>,
                            p: Step<seq<ReviewThread>>, r: Step<seq<ReviewThread>>)
    requires s.threadPages != [] && s.threadPages[0].Answer? && s.threadPages[0].page.hasNextPage
    requires p == ProcessNodes(s.(threadPages := s.threadPages[1..], log := s.log + [ThreadsQuery(cursor)]),
                               opts, acc, s.threadPages[0].page.nodes)
    requires p.err.None?
    requires DrainedThreads(p.server, opts, p.value, Some(s.threadPages[0].page.endCursor), r)
    ensures DrainedThreads(s, opts, acc, cursor, r)
  {
    var rs := s.threadPages;
    var page := rs[0].page;
    var s1 := s.(threadPages := rs[1..], log := s.log + [ThreadsQuery(cursor)]);
    assert rs[1..][RunEnd(rs[1..])..] == rs[RunEnd(rs)..];
    ProcessNodesFrames(s1, opts, acc, page.nodes);
    CombineFrames(opts, acc, page.nodes, RunNodes(rs[1..]), p.value, r.value);
    assert RunNodes(rs) == page.nodes + RunNodes(rs[1..]);
    ProcessNodesThreadsCursors(s1, opts, acc, page.nodes);
    var rest := RunCursors(Some(page.endCursor), rs[1..]);
    CombineCursors(s.log, cursor, p.server.log, r.server.log, rest);
    assert RunCursors(cursor, rs) == [cursor] + rest;
  }

  lemma CombineFrames(opts: FetchOptions, acc: seq<ReviewThread>, a: seq<ThreadNode>, b: seq<ThreadNode>,
                      mid: seq<ReviewThread>, last: seq<ReviewThread>)
    requires Frames(mid) == Frames(acc) + Skeletons(Kept(opts, a))
    requires Frames(last) == Frames(mid) + Skeletons(Kept(opts, b))
    ensures Frames(last) == Frames(acc) + Skeletons(Kept(opts, a + b))
  {
    KeptAppend(opts, a, b);
    SkeletonsAppend(Kept(opts, a), Kept(opts, b));
    AppendAssociates(Frames(acc), Skeletons(Kept(opts, a)), Skeletons(Kept(opts, b)));
  }

  lemma CombineCursors(log: seq<Query>, cursor: Option<string>, midLog: seq<Query>, lastLog: seq<Query>,
                       rest: seq<Option<string>>)
    requires ThreadsCursors(midLog) == ThreadsCursors(log + [ThreadsQuery(cursor)])
    requires ThreadsCursors(lastLog) == ThreadsCursors(midLog) + rest
    ensures ThreadsCursors(lastLog) == ThreadsCursors(log) + ([cursor] + rest)
  {
    ThreadsCursorsAppend(log, [ThreadsQuery(cursor)]);
    assert ThreadsCursors([ThreadsQuery(cursor)]) == [cursor];
  }

  /** Without a complete run of thread pages ahead, the fetch of threads fails. */
  lemma {:induction false} DrainThreadsIncomplete(s: Server, opts: FetchOptions, acc: seq<ReviewThread>, cursor: Option<string>)
    requires !Complete(s.threadPages)
    ensures DrainThreads(s, opts, acc, cursor).err.Some?
    decreases |s.threadPages|
  {
    var rs := s.threadPages;
    if rs != [] && rs[0].Answer? {
      DrainThreadsAnswered(s, opts, acc, cursor);
      var s1 := s.(threadPages := rs[1..], log := s.log + [ThreadsQuery(cursor)]);
      var p := ProcessNodes(s1, opts, acc, rs[0].page.nodes);
      if p.err.None? {
        DrainThreadsIncomplete(p.server, opts, p.value, Some(rs[0].page.endCursor));
      }
    }
  }

  /** How many threads of `nodes` are kept and announce a further comment page: each
      of them reads one complete run of comment pages. */
  function ContinuedCount(opts: FetchOptions, nodes: seq<ThreadNode>): (n: nat)
    ensures n <= |nodes|
  {
    if nodes == [] then 0
    else (if !Dropped(opts, nodes[0]) && nodes[0].comments.hasNextPage then 1 else 0)
         + ContinuedCount(opts, nodes[1..])
  }

  lemma {:induction false} ContinuedCountAppend(opts: FetchOptions, a: seq<ThreadNode>, b: seq<ThreadNode>)
    ensures ContinuedCount(opts, a + b) == ContinuedCount(opts, a) + ContinuedCount(opts, b)
  {
    if a == [] {
      assert a + b == b;
    } else {
      assert (a + b)[1..] == a[1..] + b;
      ContinuedCountAppend(opts, a[1..], b);
    }
  }

  /**
   * Processing a page succeeds only if the comment script holds one complete run per
   * kept thread with a further comment page, and it consumes exactly those runs: a
   * failed or missing continuation response fails the page.
   */
  lemma {:induction false} ProcessNodesNeedsComments(s: Server, opts: FetchOptions, acc: seq<ReviewThread>,
                                                     nodes: seq<ThreadNode>)
    ensures var r := ProcessNodes(s, opts, acc, nodes);
      r.err.None? ==>
        && Runs(s.commentPages, ContinuedCount(opts, nodes))
        && r.server.commentPages == Skip(s.commentPages, ContinuedCount(opts, nodes))
    decreases |nodes|
  {
    if nodes != [] {
      var n := nodes[0];
      if Dropped(opts, n) {
        ProcessNodesNeedsComments(s, opts, acc, nodes[1..]);
      } else {
        var b := BuildThread(s, n);
        if b.err.None? {
          ProcessNodesNeedsComments(b.server, opts, acc + [b.value], nodes[1..]);
          if n.comments.hasNextPage {
            var t := AppendComments(Skeleton(n), n.comments.nodes);
            var cursor := StartCursor(n.comments.endCursor);
            if !Complete(s.commentPages) {
              ContinueCommentsIncomplete(s, t, n.id, cursor);
            }
            ContinueCommentsRun(s, t, n.id, cursor);
          }
        }
      }
    }
  }

  /**
   * A fetch of review threads succeeds only if, besides a complete run of thread pages,
   * the comment script holds one complete run per kept thread, over all those pages,
   * that announces a further comment page; without them it fails.
   */
  lemma {:induction false} DrainThreadsNeedsComments(s: Server, opts: FetchOptions, acc: seq<ReviewThread>,
                                                     cursor: Option<string>)
    ensures var r := DrainThreads(s, opts, acc, cursor);
      r.err.None? ==>
        && Complete(s.threadPages)
        && Runs(s.commentPages, ContinuedCount(opts, RunNodes(s.threadPages)))
        && r.server.commentPages == Skip(s.commentPages, ContinuedCount(opts, RunNodes(s.threadPages)))
    decreases |s.threadPages|, 1
  {
    var rs := s.threadPages;
    if rs != [] && rs[0].Answer? {
      if rs[0].page.hasNextPage {
        DrainThreadsNeedsCommentsMore(s, opts, acc, cursor);
      } else {
        var page := rs[0].page;
        var s1 := s.(threadPages := rs[1..], log := s.log + [ThreadsQuery(cursor)]);
        DrainThreadsAnswered(s, opts, acc, cursor);
        ProcessNodesNeedsComments(s1, opts, acc, page.nodes);
        assert RunNodes(rs) == page.nodes + [] == page.nodes;
      }
    }
  }

  lemma {:induction false} DrainThreadsNeedsCommentsMore(s: Server, opts: FetchOptions, acc: seq<ReviewThread>,
                                                         cursor: Option<string>)
    requires s.threadPages != [] && s.threadPages[0].Answer? && s.threadPages[0].page.hasNextPage
    ensures var r := DrainThreads(s, opts, acc, cursor);
      r.err.None? ==>
        && Complete(s.threadPages)
        && Runs(s.commentPages, ContinuedCount(opts, RunNodes(s.threadPages)))
        && r.server.commentPages == Skip(s.commentPages, ContinuedCount(opts, RunNodes(s.threadPages)))
    decreases |s.threadPages|, 0
  {
    var rs := s.threadPages;
    var page := rs[0].page;
    var s1 := s.(threadPages := rs[1..], log := s.log + [ThreadsQuery(cursor)]);
    var p := ProcessNodes(s1, opts, acc, page.nodes);
    var r := DrainThreads(s, opts, acc, cursor);
    DrainThreadsAnswered(s, opts, acc, cursor);
    if p.err.None? {
      assert r == DrainThreads(p.server, opts, p.value, Some(page.endCursor));
      assert p.server.threadPages == rs[1..];
      ProcessNodesNeedsComments(s1, opts, acc, page.nodes);
      DrainThreadsNeedsComments(p.server, opts, p.value, Some(page.endCursor));
      if r.err.None? {
        NeedsCommentsCombine(opts, rs, s.commentPages, p.server.commentPages, r.server.commentPages);
      }
    }
  }

  /** The comment runs of a thread page followed by those of the rest of the run. */
  lemma NeedsCommentsCombine(opts: FetchOptions, rs: seq<Response<ThreadNode>>, cs: seq<Response<CommentNode>>,
                             mid: seq<Response<CommentNode>>, last: seq<Response<CommentNode>>)
    requires rs != [] && rs[0].Answer? && rs[0].page.hasNextPage && Complete(rs[1..])
    requires Runs(cs, ContinuedCount(opts, rs[0].page.nodes))
    requires mid == Skip(cs, ContinuedCount(opts, rs[0].page.nodes))
    requires Runs(mid, ContinuedCount(opts, RunNodes(rs[1..])))
    requires last == Skip(mid, ContinuedCount(opts, RunNodes(rs[1..])))
    ensures Complete(rs)
    ensures Runs(cs, ContinuedCount(opts, RunNodes(rs)))
    ensures last == Skip(cs, ContinuedCount(opts, RunNodes(rs)))
  {
    var a := ContinuedCount(opts, rs[0].page.nodes);
    var b := ContinuedCount(opts, RunNodes(rs[1..]));
    RunFirstPage(None, rs);
    ContinuedCountAppend(opts, rs[0].page.nodes, RunNodes(rs[1..]));
    RunsAppend(cs, a, b);
  }

  /** The threads a run of thread nodes yields with the comment responses `cs` ahead:
      one `FetchedThread` per kept node, in order, each kept node that announces a
      further comment page reading the next complete run of `cs`. */
  function FetchedThreads(opts: FetchOptions, nodes: seq<ThreadNode>, cs: seq<Response<CommentNode>>)
    : (r: seq<ReviewThread>)
    requires Runs(cs, ContinuedCount(opts, nodes))
    ensures |r| == |Kept(opts, nodes)|
    decreases |nodes|
  {
    if nodes == [] then []
    else
      RunsCons(opts, nodes, cs);
      OwnThread(opts, nodes[0], cs) + FetchedThreads(opts, nodes[1..], AfterNode(opts, nodes[0], cs))
  }

  /** A node about to be processed has its continuation run ahead, if it needs one. */
  predicate RunReady(opts: FetchOptions, n: ThreadNode, cs: seq<Response<CommentNode>>)
  {
    !Dropped(opts, n) && n.comments.hasNextPage ==> Complete(cs)
  }

  /** The comment responses left once node `n` has been processed. */
  function AfterNode(opts: FetchOptions, n: ThreadNode, cs: seq<Response<CommentNode>>): seq<Response<CommentNode>>
    requires RunReady(opts, n, cs)
  {
    if !Dropped(opts, n) && n.comments.hasNextPage then cs[RunEnd(cs)..] else cs
  }

  /** What node `n` contributes to the fetched threads. */
  function OwnThread(opts: FetchOptions, n: ThreadNode, cs: seq<Response<CommentNode>>): (r: seq<ReviewThread>)
    requires RunReady(opts, n, cs)
    ensures |r| == if Dropped(opts, n) then 0 else 1
  {
    if Dropped(opts, n) then [] else [FetchedThread(n, cs)]
  }

  /** The runs a list of nodes needs are those of its first node and then those of the rest. */
  lemma RunsCons(opts: FetchOptions, nodes: seq<ThreadNode>, cs: seq<Response<CommentNode>>)
    requires nodes != []
    ensures Runs(cs, ContinuedCount(opts, nodes)) <==>
            RunReady(opts, nodes[0], cs) && Runs(AfterNode(opts, nodes[0], cs), ContinuedCount(opts, nodes[1..]))
    ensures Runs(cs, ContinuedCount(opts, nodes)) ==>
            Skip(cs, ContinuedCount(opts, nodes)) == Skip(AfterNode(opts, nodes[0], cs), ContinuedCount(opts, nodes[1..]))
  {
    var n, c := nodes[0], ContinuedCount(opts, nodes[1..]);
    if !Dropped(opts, n) && n.comments.hasNextPage {
      assert ContinuedCount(opts, nodes) == c + 1;
      RunsFirst(cs, c + 1);
    } else {
      assert ContinuedCount(opts, nodes) == c;
    }
  }

  /** The threads of two runs of nodes: those of the first, then those of the second
      read from the comment responses the first leaves. */
  lemma {:induction false} FetchedThreadsAppend(opts: FetchOptions, a: seq<ThreadNode>, b: seq<ThreadNode>,
                                                cs: seq<Response<CommentNode>>)
    requires Runs(cs, ContinuedCount(opts, a + b))
    ensures Runs(cs, ContinuedCount(opts, a))
    ensures Runs(Skip(cs, ContinuedCount(opts, a)), ContinuedCount(opts, b))
    ensures FetchedThreads(opts, a + b, cs) ==
            FetchedThreads(opts, a, cs) + FetchedThreads(opts, b, Skip(cs, ContinuedCount(opts, a)))
    decreases |a|
  {
    if a == [] {
      assert a + b == b;
    } else {
      var n := a[0];
      assert (a + b)[0] == n && (a + b)[1..] == a[1..] + b;
      RunsCons(opts, a + b, cs);
      var cs' := AfterNode(opts, n, cs);
      FetchedThreadsAppend(opts, a[1..], b, cs');
      RunsCons(opts, a, cs);
      AppendAssociates(OwnThread(opts, n, cs), FetchedThreads(opts, a[1..], cs'),
                       FetchedThreads(opts, b, Skip(cs', ContinuedCount(opts, a[1..]))));
    }
  }

  /**
   * Processing a page whose every continuation is answered succeeds: after what was
   * collected it holds one fetched thread per kept node, in order, and it consumes
   * exactly one complete run of comment responses per kept node with a further page.
   */
  lemma {:induction false} ProcessNodesSucceeds(s: Server, opts: FetchOptions, acc: seq<ReviewThread>,
                                                nodes: seq<ThreadNode>)
    requires Runs(s.commentPages, ContinuedCount(opts, nodes))
    ensures var r := ProcessNodes(s, opts, acc, nodes);
      && r.err.None?
      && r.value == acc + FetchedThreads(opts, nodes, s.commentPages)
      && r.server.commentPages == Skip(s.commentPages, ContinuedCount(opts, nodes))
    decreases |nodes|
  {
    if nodes == [] {
      assert acc + [] == acc;
    } else {
      var n, cs := nodes[0], s.commentPages;
      RunsCons(opts, nodes, cs);
      var cs' := AfterNode(opts, n, cs);
      var rest := FetchedThreads(opts, nodes[1..], cs');
      assert FetchedThreads(opts, nodes, cs) == OwnThread(opts, n, cs) + rest;
      if Dropped(opts, n) {
        ProcessNodesSucceeds(s, opts, acc, nodes[1..]);
        assert OwnThread(opts, n, cs) + rest == rest;
      } else {
        var b := BuildThread(s, n);
        BuildThreadRun(s, n);
        assert b.server.commentPages == cs';
        ProcessNodesSucceeds(b.server, opts, acc + [b.value], nodes[1..]);
        AppendAssociates(acc, [b.value], rest);
      }
    }
  }

  /**
   * A fetch of review threads with a complete run of thread pages ahead, and one
   * complete run of comment responses for each kept thread of it that announces a
   * further comment page, succeeds: after what was collected it holds the fetched
   * threads of the run's nodes, in page order.
   */
  lemma {:induction false} DrainThreadsSucceeds(s: Server, opts: FetchOptions, acc: seq<ReviewThread>,
                                                cursor: Option<string>)
    requires Complete(s.threadPages)
    requires Runs(s.commentPages, ContinuedCount(opts, RunNodes(s.threadPages)))
    ensures var r := DrainThreads(s, opts, acc, cursor);
      r.err.None? && r.value == acc + FetchedThreads(opts, RunNodes(s.threadPages), s.commentPages)
    decreases |s.threadPages|
  {
    var rs := s.threadPages;
    var page := rs[0].page;
    var s1 := s.(threadPages := rs[1..], log := s.log + [ThreadsQuery(cursor)]);
    DrainThreadsAnswered(s, opts, acc, cursor);
    if page.hasNextPage {
      RunFirstPage(cursor, rs);
      FetchedThreadsAppend(opts, page.nodes, RunNodes(rs[1..]), s.commentPages);
      ProcessNodesSucceeds(s1, opts, acc, page.nodes);
      var p := ProcessNodes(s1, opts, acc, page.nodes);
      assert p.server.threadPages == rs[1..];
      DrainThreadsSucceeds(p.server, opts, p.value, Some(page.endCursor));
      DrainThreadsSucceedsCombine(opts, acc, page.nodes, RunNodes(rs[1..]), s.commentPages);
    } else {
      assert RunNodes(rs) == page.nodes + [] == page.nodes;
      ProcessNodesSucceeds(s1, opts, acc, page.nodes);
    }
  }

  lemma DrainThreadsSucceedsCombine(opts: FetchOptions, acc: seq<ReviewThread>, a: seq<ThreadNode>,
                                    b: seq<ThreadNode>, cs: seq<Response<CommentNode>>)
    requires Runs(cs, ContinuedCount(opts, a + b))
    ensures Runs(cs, ContinuedCount(opts, a))
    ensures Runs(Skip(cs, ContinuedCount(opts, a)), ContinuedCount(opts, b))
    ensures acc + FetchedThreads(opts, a, cs) + FetchedThreads(opts, b, Skip(cs, ContinuedCount(opts, a))) ==
            acc + FetchedThreads(opts, a + b, cs)
  {
    FetchedThreadsAppend(opts, a, b, cs);
    AppendAssociates(acc, FetchedThreads(opts, a, cs), FetchedThreads(opts, b, Skip(cs, ContinuedCount(opts, a))));
  }

  /**
   * The fetched thread of the `i`-th node, when kept, sits at the position of the
   * kept nodes before it: its comments are those of its first page followed, when
   * that page announces more, by the complete run of comment responses left after
   * the runs of the continued threads before it.
   */
  lemma FetchedThreadsAt(opts: FetchOptions, nodes: seq<ThreadNode>, cs: seq<Response<CommentNode>>, i: nat)
    requires Runs(cs, ContinuedCount(opts, nodes))
    requires i < |nodes| && !Dropped(opts, nodes[i])
    ensures Runs(cs, ContinuedCount(opts, nodes[..i]))
    ensures var rest := Skip(cs, ContinuedCount(opts, nodes[..i]));
      && (nodes[i].comments.hasNextPage ==> Complete(rest))
      && |Kept(opts, nodes[..i])| < |FetchedThreads(opts, nodes, cs)|
      && FetchedThreads(opts, nodes, cs)[|Kept(opts, nodes[..i])|] == FetchedThread(nodes[i], rest)
  {
    var pre, post := nodes[..i], nodes[i..];
    assert nodes == pre + post;
    FetchedThreadsAppend(opts, pre, post, cs);
    var rest := Skip(cs, ContinuedCount(opts, pre));
    assert post[0] == nodes[i];
    var ft := FetchedThreads(opts, post, rest);
    assert ft[0] == FetchedThread(nodes[i], rest);
  }

  /** From `s` to `s'` the log was only extended, and with no general-comments query. */
  ghost predicate AsksNoGeneral(s: Server, s': Server)
  {
    && |s.log| <= |s'.log| && s'.log[..|s.log|] == s.log
    && forall k :: |s.log| <= k < |s'.log| ==> !s'.log[k].GeneralCommentsQuery?
  }

  lemma AsksNoGeneralChain(s: Server, s': Server, s'': Server)
    requires AsksNoGeneral(s, s') && AsksNoGeneral(s', s'')
    ensures AsksNoGeneral(s, s'')
  {
    assert s''.log[..|s.log|] == s''.log[..|s'.log|][..|s.log|];
    forall k | |s.log| <= k < |s''.log|
      ensures !s''.log[k].GeneralCommentsQuery?
    {
      if k < |s'.log| {
        assert s''.log[k] == s''.log[..|s'.log|][k];
      }
    }
  }

  /** The fetch of threads asks no general-comments query. */
  lemma {:induction false} DrainThreadsAsksNoGeneral(s: Server, opts: FetchOptions, acc: seq<ReviewThread>, cursor: Option<string>)
    ensures AsksNoGeneral(s, DrainThreads(s, opts, acc, cursor).server)
    decreases |s.threadPages|
  {
    var rs := s.threadPages;
    var s1 := AskThreads(s, cursor).1;
    assert s1.log[..|s.log|] == s.log;
    assert AsksNoGeneral(s, s1);
    if rs != [] && rs[0].Answer? {
      DrainThreadsAnswered(s, opts, acc, cursor);
      var p := ProcessNodes(s1, opts, acc, rs[0].page.nodes);
      AsksNoGeneralChain(s, s1, p.server);
      if p.err.None? && rs[0].page.hasNextPage {
        DrainThreadsAsksNoGeneral(p.server, opts, p.value, Some(rs[0].page.endCursor));
        AsksNoGeneralChain(s, p.server, DrainThreads(p.server, opts, p.value, Some(rs[0].page.endCursor)).server);
      }
    }
  }

  // ---------------------------------------------------------------------------
  // General comments
  // ---------------------------------------------------------------------------

  lemma {:induction false} MakeGeneralsAppend(a: seq<GeneralNode>, b: seq<GeneralNode>)
    ensures MakeGenerals(a + b) == MakeGenerals(a) + MakeGenerals(b)
  {
    if b == [] {
      assert a + b == a;
    } else {
      MakeGeneralsAppend(a, b[..|b| - 1]);
      assert (a + b)[..|a + b| - 1] == a + b[..|b| - 1];
    }
  }

  /** One answered general-comments query, unfolded. */
  lemma DrainGeneralAnswered(s: Server, acc: seq<GeneralComment>, cursor: Option<string>)
    requires s.generalPages != [] && s.generalPages[0].Answer?
    ensures var page := s.generalPages[0].page;
      var s1 := s.(generalPages := s.generalPages[1..], log := s.log + [GeneralCommentsQuery(cursor)]);
      var acc' := acc + MakeGenerals(page.nodes);
      DrainGeneral(s, acc, cursor) ==
        if page.hasNextPage then DrainGeneral(s1, acc', Some(page.endCursor)) else Step(acc', None, s1)
  {
  }

  /** A complete run of general-comment pages: the comments of the run, in page order,
      after what was collected; one query per page, following the end cursors. */
  lemma {:induction false} DrainGeneralRun(s: Server, acc: seq<GeneralComment>, cursor: Option<string>)
    requires Complete(s.generalPages)
    ensures DrainGeneral(s, acc, cursor) ==
      Step(acc + MakeGenerals(RunNodes(s.generalPages)), None,
           s.(generalPages := s.generalPages[RunEnd(s.generalPages)..],
              log := s.log + GeneralQueries(RunCursors(cursor, s.generalPages))))
    decreases |s.generalPages|, 1
  {
    if s.generalPages[0].page.hasNextPage {
      DrainGeneralRunMore(s, acc, cursor);
    } else {
      DrainGeneralRunLast(s, acc, cursor);
    }
  }

  lemma DrainGeneralRunLast(s: Server, acc: seq<GeneralComment>, cursor: Option<string>)
    requires Complete(s.generalPages) && !s.generalPages[0].page.hasNextPage
    ensures DrainGeneral(s, acc, cursor) ==
      Step(acc + MakeGenerals(RunNodes(s.generalPages)), None,
           s.(generalPages := s.generalPages[RunEnd(s.generalPages)..],
              log := s.log + GeneralQueries(RunCursors(cursor, s.generalPages))))
  {
    var rs := s.generalPages;
    DrainGeneralAnswered(s, acc, cursor);
    assert RunNodes(rs) == rs[0].page.nodes + [] == rs[0].page.nodes;
    assert RunCursors(cursor, rs) == [cursor];
    assert GeneralQueries([cursor]) == [GeneralCommentsQuery(cursor)];
  }

  lemma {:induction false} DrainGeneralRunMore(s: Server, acc: seq<GeneralComment>, cursor: Option<string>)
    requires Complete(s.generalPages) && s.generalPages[0].page.hasNextPage
    ensures DrainGeneral(s, acc, cursor) ==
      Step(acc + MakeGenerals(RunNodes(s.generalPages)), None,
           s.(generalPages := s.generalPages[RunEnd(s.generalPages)..],
              log := s.log + GeneralQueries(RunCursors(cursor, s.generalPages))))
    decreases |s.generalPages|, 0
  {
    var rs := s.generalPages;
    var page := rs[0].page;
    var s1 := s.(generalPages := rs[1..], log := s.log + [GeneralCommentsQuery(cursor)]);
    var acc' := acc + MakeGenerals(page.nodes);
    DrainGeneralAnswered(s, acc, cursor);
    DrainGeneralRun(s1, acc', Some(page.endCursor));
    GeneralRunCombine(s, acc, cursor, DrainGeneral(s1, acc', Some(page.endCursor)));
  }

  lemma AppendAssociates<T>(a: seq<T>, b: seq<T>, c: seq<T>)
    ensures a + b + c == a + (b + c)
  {
  }

  /** The first page of a general-comment run followed by the rest of the run. */
  lemma GeneralRunCombine(s: Server, acc: seq<GeneralComment>, cursor: Option<string>, r: Step<seq<GeneralComment>>)
    requires Complete(s.generalPages) && s.generalPages[0].page.hasNextPage
    requires var rs := s.generalPages;
      var s1 := s.(generalPages := rs[1..], log := s.log + [GeneralCommentsQuery(cursor)]);
      r == Step(acc + MakeGenerals(rs[0].page.nodes) + MakeGenerals(RunNodes(rs[1..])), None,
                s1.(generalPages := rs[1..][RunEnd(rs[1..])..],
                    log := s1.log + GeneralQueries(RunCursors(Some(rs[0].page.endCursor), rs[1..]))))
    ensures r == Step(acc + MakeGenerals(RunNodes(s.generalPages)), None,
                      s.(generalPages := s.generalPages[RunEnd(s.generalPages)..],
                         log := s.log + GeneralQueries(RunCursors(cursor, s.generalPages))))
  {
    var rs := s.generalPages;
    var page := rs[0].page;
    var q := GeneralCommentsQuery(cursor);
    RunFirstPage(cursor, rs);
    MakeGeneralsAppend(page.nodes, RunNodes(rs[1..]));
    var cs := RunCursors(Some(page.endCursor), rs[1..]);
    var qs := GeneralQueries(cs);
    assert GeneralQueries([cursor] + cs) == [q] + qs;
    var t := Step(acc + MakeGenerals(RunNodes(rs)), None,
                  s.(generalPages := rs[RunEnd(rs)..], log := s.log + GeneralQueries(RunCursors(cursor, rs))));
    AppendAssociates(acc, MakeGenerals(page.nodes), MakeGenerals(RunNodes(rs[1..])));
    AppendAssociates(s.log, [q], qs);
    assert r.value == t.value;
    assert r.server.log == t.server.log;
    assert r.server.generalPages == t.server.generalPages;
  }

  /** Without a complete run of general-comment pages ahead, the fetch of general
      comments fails. */
  lemma {:induction false} DrainGeneralIncomplete(s: Server, acc: seq<GeneralComment>, cursor: Option<string>)
    requires !Complete(s.generalPages)
    ensures DrainGeneral(s, acc, cursor).err.Some?
    decreases |s.generalPages|
  {
    var rs := s.generalPages;
    if rs != [] && rs[0].Answer? {
      DrainGeneralAnswered(s, acc, cursor);
      var s1 := s.(generalPages := rs[1..], log := s.log + [GeneralCommentsQuery(cursor)]);
      DrainGeneralIncomplete(s1, acc + MakeGenerals(rs[0].page.nodes), Some(rs[0].page.endCursor));
    }
  }

  // ---------------------------------------------------------------------------
  // The whole fetch
  // ---------------------------------------------------------------------------

  /** A successful fetch read a complete run of thread pages, one complete run of
      comment pages for each kept thread of it whose comments continue, and, with
      IncludeGeneral, a complete run of general-comment pages; it returns the fetched
      thread of each kept node, in page order, and the general comments in order. */
  lemma FetchAllSucceeds(s: Server, opts: FetchOptions)
    ensures var r := FetchAll(s, opts);
      r.err.None? ==>
        && Complete(s.threadPages)
        && Frames(r.threads) == Skeletons(Kept(opts, RunNodes(s.threadPages)))
        && Runs(s.commentPages, ContinuedCount(opts, RunNodes(s.threadPages)))
        && r.threads == FetchedThreads(opts, RunNodes(s.threadPages), s.commentPages)
        && (opts.includeGeneral ==> Complete(s.generalPages) && r.general == MakeGenerals(RunNodes(s.generalPages)))
  {
    FetchAllThreads(s, opts);
    if opts.includeGeneral {
      FetchAllGeneral(s, opts);
    }
    if || !Complete(s.threadPages)
       || !Runs(s.commentPages, ContinuedCount(opts, RunNodes(s.threadPages)))
       || (opts.includeGeneral && !Complete(s.generalPages))
    {
      FetchAllFails(s, opts);
    } else {
      FetchAllAnswered(s, opts);
    }
  }

  /** A fetch whose every query is answered, with a complete run of thread pages, one
      complete run of comment pages for each kept thread whose comments continue and,
      with IncludeGeneral, a complete run of general-comment pages, succeeds: it
      returns the fetched thread of each kept node, in page order, and the general
      comments of the run in order (none without IncludeGeneral). */
  lemma FetchAllAnswered(s: Server, opts: FetchOptions)
    requires Complete(s.threadPages)
    requires Runs(s.commentPages, ContinuedCount(opts, RunNodes(s.threadPages)))
    requires opts.includeGeneral ==> Complete(s.generalPages)
    ensures var r := FetchAll(s, opts);
      && r.err.None?
      && r.threads == FetchedThreads(opts, RunNodes(s.threadPages), s.commentPages)
      && r.general == if opts.includeGeneral then MakeGenerals(RunNodes(s.generalPages)) else []
  {
    FetchAllAnsweredThreads(s, opts);
    if opts.includeGeneral {
      FetchAllGeneral(s, opts);
    }
  }

  lemma FetchAllAnsweredThreads(s: Server, opts: FetchOptions)
    requires Complete(s.threadPages)
    requires Runs(s.commentPages, ContinuedCount(opts, RunNodes(s.threadPages)))
    requires opts.includeGeneral ==> Complete(s.generalPages)
    ensures var r := FetchAll(s, opts);
      r.err.None? && r.threads == FetchedThreads(opts, RunNodes(s.threadPages), s.commentPages)
  {
    var t := DrainThreads(s, opts, [], None);
    DrainThreadsFromStart(s, opts);
    if opts.includeGeneral {
      DrainGeneralSucceeds(t.server);
    }
  }

  lemma DrainThreadsFromStart(s: Server, opts: FetchOptions)
    requires Complete(s.threadPages)
    requires Runs(s.commentPages, ContinuedCount(opts, RunNodes(s.threadPages)))
    ensures var t := DrainThreads(s, opts, [], None);
      t.err.None? && t.value == FetchedThreads(opts, RunNodes(s.threadPages), s.commentPages)
  {
    var ft := FetchedThreads(opts, RunNodes(s.threadPages), s.commentPages);
    DrainThreadsSucceeds(s, opts, [], None);
    assert [] + ft == ft;
  }

  lemma DrainGeneralSucceeds(s: Server)
    requires Complete(s.generalPages)
    ensures DrainGeneral(s, [], None).err.None?
  {
    DrainGeneralRun(s, [], None);
  }

  /** The fetch fails exactly when a script falls short: the thread pages, the comment
      pages of the kept threads whose comments continue, or, with IncludeGeneral, the
      general-comment pages. */
  lemma FetchAllFailsExactly(s: Server, opts: FetchOptions)
    ensures FetchAll(s, opts).err.Some? <==>
      || !Complete(s.threadPages)
      || !Runs(s.commentPages, ContinuedCount(opts, RunNodes(s.threadPages)))
      || (opts.includeGeneral && !Complete(s.generalPages))
  {
    if || !Complete(s.threadPages)
       || !Runs(s.commentPages, ContinuedCount(opts, RunNodes(s.threadPages)))
       || (opts.includeGeneral && !Complete(s.generalPages))
    {
      FetchAllFails(s, opts);
    } else {
      FetchAllAnswered(s, opts);
    }
  }

  lemma FetchAllThreads(s: Server, opts: FetchOptions)
    ensures var r := FetchAll(s, opts);
      r.err.None? ==> Complete(s.threadPages) && Frames(r.threads) == Skeletons(Kept(opts, RunNodes(s.threadPages)))
  {
    var t := DrainThreads(s, opts, [], None);
    DrainThreadsRun(s, opts, [], None);
    assert Frames([]) == [];
    if FetchAll(s, opts).err.None? {
      assert FetchAll(s, opts).threads == t.value;
      assert Frames([]) + Skeletons(Kept(opts, RunNodes(s.threadPages))) == Skeletons(Kept(opts, RunNodes(s.threadPages)));
    }
  }

  lemma FetchAllGeneral(s: Server, opts: FetchOptions)
    requires opts.includeGeneral
    ensures var r := FetchAll(s, opts);
      r.err.None? ==> Complete(s.generalPages) && r.general == MakeGenerals(RunNodes(s.generalPages))
  {
    var t := DrainThreads(s, opts, [], None);
    if t.err.None? {
      assert t.server.generalPages == s.generalPages;
      var g := DrainGeneral(t.server, [], None);
      if Complete(s.generalPages) {
        DrainGeneralRun(t.server, [], None);
        assert [] + MakeGenerals(RunNodes(s.generalPages)) == MakeGenerals(RunNodes(s.generalPages));
      } else {
        DrainGeneralIncomplete(t.server, [], None);
      }
    }
  }

  /** A fetch fails and returns nothing when the thread pages do not form a complete run,
      when the comment pages do not hold one complete run for each kept thread whose
      comments continue, or when general comments are requested and their pages do not
      form a complete run. */
  lemma FetchAllFails(s: Server, opts: FetchOptions)
    requires || !Complete(s.threadPages)
             || !Runs(s.commentPages, ContinuedCount(opts, RunNodes(s.threadPages)))
             || (opts.includeGeneral && !Complete(s.generalPages))
    ensures var r := FetchAll(s, opts);
      r.err.Some? && r.threads == [] && r.general == []
  {
    var t := DrainThreads(s, opts, [], None);
    DrainThreadsNeedsComments(s, opts, [], None);
    if t.err.None? {
      DrainGeneralIncomplete(t.server, [], None);
    }
  }

  /** Without IncludeGeneral the fetch asks no general-comments query. */
  lemma FetchAllWithoutGeneral(s: Server, opts: FetchOptions)
    requires !opts.includeGeneral
    ensures var log := FetchAll(s, opts).server.log;
      |s.log| <= |log| && log[..|s.log|] == s.log && forall k :: |s.log| <= k < |log| ==> !log[k].GeneralCommentsQuery?
  {
    DrainThreadsAsksNoGeneral(s, opts, [], None);
  }
}
