/**
 * The summaries of formatter.go. GenerateSummary (comment-based) and
 * GenerateThreadSummary (thread-based) count what they are given and collect the
 * distinct files and authors in a set-guarded list, which sort.Strings then orders.
 *
 * Each method is proved against specification functions on the whole input:
 * counts defined by recursion over the sequence, and the sets of files and authors
 * (Image), whose members the lemmas below characterise element by element.
 */
module Summary {
  import opened Text
  import opened Models
  import opened Ordering

  // ---------------------------------------------------------------------------
  // What the summaries collect
  // ---------------------------------------------------------------------------

  /** The values `f` takes on the elements of `s`. */
  function Image<T>(s: seq<T>, f: T -> string): set<string>
  {
    if s == [] then {} else Image(s[..|s| - 1], f) + {f(s[|s| - 1])}
  }

  /** A string is collected exactly when some element yields it. */
  lemma {:induction false} ImageMembers<T>(s: seq<T>, f: T -> string, x: string)
    ensures x in Image(s, f) <==> exists k :: 0 <= k < |s| && f(s[k]) == x
  {
    if s != [] {
      var s' := s[..|s| - 1];
      ImageMembers(s', f, x);
      if x in Image(s', f) {
        var k :| 0 <= k < |s'| && f(s'[k]) == x;
        assert f(s[k]) == x;
      }
      if exists k :: 0 <= k < |s| && f(s[k]) == x {
        var k :| 0 <= k < |s| && f(s[k]) == x;
        if k < |s'| {
          assert f(s'[k]) == x;
        }
      }
    }
  }

  function ParsedFile(c: ParsedComment): string { c.file }
  function ParsedAuthor(c: ParsedComment): string { c.author }
  function ThreadFile(t: ReviewThread): string { t.file }
  function ThreadCommentAuthor(c: ThreadComment): string { c.author }
  function GeneralAuthor(g: GeneralComment): string { g.author }

  /** The authors of every comment of every thread. */
  function ThreadAuthors(threads: seq<ReviewThread>): set<string>
  {
    if threads == [] then {}
    else ThreadAuthors(threads[..|threads| - 1]) + Image(threads[|threads| - 1].comments, ThreadCommentAuthor)
  }

  /** An author is collected exactly when some comment of some thread is theirs. */
  lemma {:induction false} ThreadAuthorsMembers(threads: seq<ReviewThread>, x: string)
    ensures x in ThreadAuthors(threads) <==>
      exists k, j :: 0 <= k < |threads| && 0 <= j < |threads[k].comments| && threads[k].comments[j].author == x
  {
    if threads != [] {
      var ts := threads[..|threads| - 1];
      var last := threads[|threads| - 1];
      ThreadAuthorsMembers(ts, x);
      ImageMembers(last.comments, ThreadCommentAuthor, x);
      if x in ThreadAuthors(ts) {
        var k, j :| 0 <= k < |ts| && 0 <= j < |ts[k].comments| && ts[k].comments[j].author == x;
        assert threads[k] == ts[k];
      }
      if x in Image(last.comments, ThreadCommentAuthor) {
        var j :| 0 <= j < |last.comments| && ThreadCommentAuthor(last.comments[j]) == x;
        assert threads[|threads| - 1].comments[j].author == x;
      }
      if exists k, j :: 0 <= k < |threads| && 0 <= j < |threads[k].comments| && threads[k].comments[j].author == x {
        var k, j :| 0 <= k < |threads| && 0 <= j < |threads[k].comments| && threads[k].comments[j].author == x;
        if k < |ts| {
          assert ts[k].comments[j].author == x;
        } else {
          assert ThreadCommentAuthor(last.comments[j]) == x;
        }
      }
    }
  }

  // ---------------------------------------------------------------------------
  // Counts
  // ---------------------------------------------------------------------------

  function ResolvedCount(threads: seq<ReviewThread>): nat
  {
    if threads == [] then 0
    else ResolvedCount(threads[..|threads| - 1]) + (if threads[|threads| - 1].isResolved then 1 else 0)
  }

  function UnresolvedCount(threads: seq<ReviewThread>): nat
  {
    if threads == [] then 0
    else UnresolvedCount(threads[..|threads| - 1]) + (if threads[|threads| - 1].isResolved then 0 else 1)
  }

  function OutdatedCount(threads: seq<ReviewThread>): nat
  {
    if threads == [] then 0
    else OutdatedCount(threads[..|threads| - 1]) + (if threads[|threads| - 1].isOutdated then 1 else 0)
  }

  /** The number of comments over all threads. */
  function CommentTotal(threads: seq<ReviewThread>): nat
  {
    if threads == [] then 0
    else CommentTotal(threads[..|threads| - 1]) + |threads[|threads| - 1].comments|
  }

  /** Every thread is counted once, as resolved or as unresolved. */
  lemma {:induction false} ResolvedPlusUnresolved(threads: seq<ReviewThread>)
    ensures ResolvedCount(threads) + UnresolvedCount(threads) == |threads|
  {
    if threads != [] {
      ResolvedPlusUnresolved(threads[..|threads| - 1]);
    }
  }

  /** The outdated count reads only the outdated flags: threads that differ only in
      resolution (or in anything else) have the same count. */
  lemma {:induction false} OutdatedIgnoresResolution(a: seq<ReviewThread>, b: seq<ReviewThread>)
    requires |a| == |b|
    requires forall k :: 0 <= k < |a| ==> a[k].isOutdated == b[k].isOutdated
    ensures OutdatedCount(a) == OutdatedCount(b)
  {
    if a != [] {
      OutdatedIgnoresResolution(a[..|a| - 1], b[..|b| - 1]);
    }
  }

  /** Outdated threads are some of the threads, resolved or not. */
  lemma {:induction false} OutdatedAtMostThreads(threads: seq<ReviewThread>)
    ensures OutdatedCount(threads) <= |threads|
  {
    if threads != [] {
      OutdatedAtMostThreads(threads[..|threads| - 1]);
    }
  }

  /** The comment total adds up over consecutive runs of threads. */
  lemma {:induction false} CommentTotalAppend(a: seq<ReviewThread>, b: seq<ReviewThread>)
    ensures CommentTotal(a + b) == CommentTotal(a) + CommentTotal(b)
  {
    if b == [] {
      assert a + b == a;
    } else {
      CommentTotalAppend(a, b[..|b| - 1]);
      assert (a + b)[..|a + b| - 1] == a + b[..|b| - 1];
    }
  }

  // ---------------------------------------------------------------------------
  // The set-guarded lists
  // ---------------------------------------------------------------------------

  /** `list` holds each member of `seen` once, and nothing else. */
  ghost predicate Tracks(seen: set<string>, list: seq<string>)
  {
    NoDuplicates(list) && forall x :: x in list <==> x in seen
  }

  /** `if !seen[x] { seen[x] = true; list = append(list, x) }` */
  method Remember(seen: set<string>, list: seq<string>, x: string) returns (seen': set<string>, list': seq<string>)
    ensures seen' == seen + {x}
    ensures list' == if x in seen then list else list + [x]
    ensures Tracks(seen, list) ==> Tracks(seen', list')
  {
    seen', list' := seen, list;
    if x !in seen {
      seen' := seen + {x};
      list' := list + [x];
    }
  }

  /** `for _, c := range s { if !seen[f(c)] { ... } }`: Remember for each element in turn. */
  method RememberEach<T>(seen: set<string>, list: seq<string>, s: seq<T>, f: T -> string)
    returns (seen': set<string>, list': seq<string>)
    requires Tracks(seen, list)
    ensures seen' == seen + Image(s, f)
    ensures Tracks(seen', list')
  {
    seen', list' := seen, list;
    for j := 0 to |s|
      invariant seen' == seen + Image(s[..j], f)
      invariant Tracks(seen', list')
    {
      assert s[..j + 1][..j] == s[..j];
      seen', list' := Remember(seen', list', f(s[j]));
    }
    assert s[..|s|] == s;
  }

  /** sort.Strings on a tracked list: the members of `seen` in strictly ascending order. */
  method SortTracked(ghost seen: set<string>, list: seq<string>) returns (sorted: seq<string>)
    requires Tracks(seen, list)
    ensures StrictlyAscending(sorted)
    ensures forall x :: x in sorted <==> x in seen
  {
    sorted := SortStrings(list);
    forall x
      ensures x in sorted <==> x in seen
    {
      assert x in sorted <==> x in multiset(sorted);
      assert x in list <==> x in multiset(list);
    }
  }

  // ---------------------------------------------------------------------------
  // The summaries
  // ---------------------------------------------------------------------------

  /** GenerateSummary: one count per comment, and the distinct files and authors,
      each list strictly ascending. The owner, repository and PR number it also takes
      are not read. */
  method GenerateSummary(comments: seq<ParsedComment>) returns (summary: CommentsSummary)
    ensures summary.totalComments == |comments|
    ensures summary.unresolvedThreads == 0 && summary.resolvedThreads == 0
    ensures summary.outdatedThreads == 0 && summary.generalComments == 0
    ensures StrictlyAscending(summary.filesAffected)
    ensures forall x :: x in summary.filesAffected <==> x in Image(comments, ParsedFile)
    ensures StrictlyAscending(summary.authors)
    ensures forall x :: x in summary.authors <==> x in Image(comments, ParsedAuthor)
  {
    var files: seq<string> := [];
    var authors: seq<string> := [];
    var fileSet: set<string> := {};
    var authorSet: set<string> := {};
    for i := 0 to |comments|
      invariant fileSet == Image(comments[..i], ParsedFile) && Tracks(fileSet, files)
      invariant authorSet == Image(comments[..i], ParsedAuthor) && Tracks(authorSet, authors)
    {
      assert comments[..i + 1][..i] == comments[..i];
      fileSet, files := Remember(fileSet, files, comments[i].file);
      authorSet, authors := Remember(authorSet, authors, comments[i].author);
    }
    assert comments[..|comments|] == comments;
    files := SortTracked(fileSet, files);
    authors := SortTracked(authorSet, authors);
    summary := CommentsSummary(|comments|, 0, 0, 0, 0, files, authors);
  }

  /** GenerateThreadSummary: thread counts by resolution and by outdatedness, every
      comment counted, files from the threads only, authors from thread comments and
      general comments alike. The owner, repository and PR number it also takes are
      not read. */
  method GenerateThreadSummary(threads: seq<ReviewThread>, general: seq<GeneralComment>)
    returns (summary: CommentsSummary)
    ensures summary.resolvedThreads == ResolvedCount(threads)
    ensures summary.unresolvedThreads == UnresolvedCount(threads)
    ensures summary.outdatedThreads == OutdatedCount(threads)
    ensures summary.totalComments == CommentTotal(threads) + |general|
    ensures summary.generalComments == |general|
    ensures StrictlyAscending(summary.filesAffected)
    ensures forall x :: x in summary.filesAffected <==> x in Image(threads, ThreadFile)
    ensures StrictlyAscending(summary.authors)
    ensures forall x :: x in summary.authors <==> x in ThreadAuthors(threads) + Image(general, GeneralAuthor)
  {
    var total, unresolved, resolved, outdated := 0, 0, 0, 0;
    var files: seq<string> := [];
    var authors: seq<string> := [];
    var fileSet: set<string> := {};
    var authorSet: set<string> := {};
    for i := 0 to |threads|
      invariant resolved == ResolvedCount(threads[..i]) && unresolved == UnresolvedCount(threads[..i])
      invariant outdated == OutdatedCount(threads[..i]) && total == CommentTotal(threads[..i])
      invariant fileSet == Image(threads[..i], ThreadFile) && Tracks(fileSet, files)
      invariant authorSet == ThreadAuthors(threads[..i]) && Tracks(authorSet, authors)
    {
      var thread := threads[i];
      assert threads[..i + 1][..i] == threads[..i];
      if thread.isResolved {
        resolved := resolved + 1;
      } else {
        unresolved := unresolved + 1;
      }
      if thread.isOutdated {
        outdated := outdated + 1;
      }
      total := total + |thread.comments|;
      fileSet, files := Remember(fileSet, files, thread.file);
      authorSet, authors := RememberEach(authorSet, authors, thread.comments, ThreadCommentAuthor);
    }
    assert threads[..|threads|] == threads;
    authorSet, authors := RememberEach(authorSet, authors, general, GeneralAuthor);
    total := total + |general|;
    files := SortTracked(fileSet, files);
    authors := SortTracked(authorSet, authors);
    summary := CommentsSummary(total, unresolved, resolved, outdated, |general|, files, authors);
  }
}
