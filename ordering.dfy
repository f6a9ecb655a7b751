/**
 * The deterministic orderings of formatter.go: sortReviewThreads and sortParsedComments
 * copy their input and stable-sort the copy (sort.SliceStable) with a comparison that
 * is lexicographic over a few fields; threadLineNumber and commentLineNumber supply the
 * line field. sort.Strings, used by the summaries, is the same sort on the string itself.
 *
 * Each comparison is stated twice: as the Go closure reads (ThreadLess, CommentLess)
 * and as a strict order on a key (KeyLess on ThreadKey, CommentKey), and a lemma says
 * the two agree. The sort itself is specified by StableSort, an insertion sort on
 * sequences, and performed in place on a fresh array by InsertionSort.
 */
module Ordering {
  import opened Wrappers
  import opened Text
  import opened Models

  /** math.MaxInt32: the line number of a thread or comment that has none. */
  const MaxInt32: int := 0x7fff_ffff

  // ---------------------------------------------------------------------------
  // Line numbers
  // ---------------------------------------------------------------------------

  /** The first value present in `opts`, or `default` when none is. */
  function FirstPresent(opts: seq<Option<int>>, default: int): (n: int)
    ensures (forall k :: 0 <= k < |opts| ==> opts[k].None?) ==> n == default
    ensures forall k :: 0 <= k < |opts| && opts[k].Some? && (forall j :: 0 <= j < k ==> opts[j].None?) ==>
              n == opts[k].value
  {
    if opts == [] then default
    else if opts[0].Some? then opts[0].value
    else
      var n := FirstPresent(opts[1..], default);
      assert forall k :: 1 <= k < |opts| ==> opts[k] == opts[1..][k - 1];
      n
  }

  /** threadLineNumber: LineNew, else LineOld, else StartLineNew, else StartLineOld. */
  function ThreadLineNumber(t: ReviewThread): (n: int)
    ensures t.lineNew.None? && t.lineOld.None? && t.startLineNew.None? && t.startLineOld.None? ==> n == MaxInt32
    ensures n == MaxInt32 || Some(n) in {t.lineNew, t.lineOld, t.startLineNew, t.startLineOld}
  {
    if t.lineNew.Some? then t.lineNew.value
    else if t.lineOld.Some? then t.lineOld.value
    else if t.startLineNew.Some? then t.startLineNew.value
    else if t.startLineOld.Some? then t.startLineOld.value
    else MaxInt32
  }

  /** commentLineNumber: LineNew, else LineOld. */
  function CommentLineNumber(c: ParsedComment): (n: int)
    ensures c.lineNew.None? && c.lineOld.None? ==> n == MaxInt32
    ensures n == MaxInt32 || Some(n) in {c.lineNew, c.lineOld}
  {
    if c.lineNew.Some? then c.lineNew.value
    else if c.lineOld.Some? then c.lineOld.value
    else MaxInt32
  }

  /** A thread's line is the first of its four line fields that is present. */
  lemma ThreadLineNumberIsFirstPresent(t: ReviewThread)
    ensures ThreadLineNumber(t) == FirstPresent([t.lineNew, t.lineOld, t.startLineNew, t.startLineOld], MaxInt32)
  {
    var opts := [t.lineNew, t.lineOld, t.startLineNew, t.startLineOld];
    assert opts[0] == t.lineNew && opts[1] == t.lineOld && opts[2] == t.startLineNew && opts[3] == t.startLineOld;
  }

  /** A comment's line is the first of its two line fields that is present. */
  lemma CommentLineNumberIsFirstPresent(c: ParsedComment)
    ensures CommentLineNumber(c) == FirstPresent([c.lineNew, c.lineOld], MaxInt32)
  {
    var opts := [c.lineNew, c.lineOld];
    assert opts[0] == c.lineNew && opts[1] == c.lineOld;
  }

  // ---------------------------------------------------------------------------
  // Keys
  // ---------------------------------------------------------------------------

  /** The tie-breaking identifier: thread IDs are strings, comment IDs numbers. */
  datatype KeyId = ByName(name: string) | ByNumber(number: int)

  /** What a comparison looks at, most significant first. */
  datatype SortKey = SortKey(file: string, rank: nat, line: int, id: KeyId)

  predicate IdLess(a: KeyId, b: KeyId)
  {
    match (a, b)
    case (ByName(x), ByName(y)) => Less(x, y)
    case (ByNumber(x), ByNumber(y)) => x < y
    case (ByNumber(_), ByName(_)) => true
    case (ByName(_), ByNumber(_)) => false
  }

  /** Lexicographic order on keys. */
  predicate KeyLess(a: SortKey, b: SortKey)
  {
    if a.file != b.file then Less(a.file, b.file)
    else if a.rank != b.rank then a.rank < b.rank
    else if a.line != b.line then a.line < b.line
    else IdLess(a.id, b.id)
  }

  lemma KeyLessIrreflexive(a: SortKey)
    ensures !KeyLess(a, a)
  {
    match a.id
    case ByName(x) => LessIrreflexive(x);
    case ByNumber(_) =>
  }

  lemma KeyLessTransitive(a: SortKey, b: SortKey, c: SortKey)
    requires KeyLess(a, b) && KeyLess(b, c)
    ensures KeyLess(a, c)
  {
    if a.file != b.file && b.file != c.file {
      LessTransitive(a.file, b.file, c.file);
      if a.file == c.file {
        LessAsymmetric(a.file, b.file);
      }
    } else if a.file == b.file && b.file == c.file && a.rank == b.rank && b.rank == c.rank
           && a.line == b.line && b.line == c.line {
      match (a.id, b.id, c.id)
      case (ByName(x), ByName(y), ByName(z)) => LessTransitive(x, y, z);
      case _ =>
    }
  }

  /** Two keys are equal or ordered one way or the other. */
  lemma KeyLessTotal(a: SortKey, b: SortKey)
    ensures a == b || KeyLess(a, b) || KeyLess(b, a)
  {
    LessTotal(a.file, b.file);
    match (a.id, b.id)
    case (ByName(x), ByName(y)) => LessTotal(x, y);
    case _ =>
  }

  /** The key the thread comparison reads: unresolved threads rank before resolved ones. */
  function ThreadKey(t: ReviewThread): SortKey
  {
    SortKey(t.file, if t.isResolved then 1 else 0, ThreadLineNumber(t), ByName(t.id))
  }

  /** The key the comment comparison reads. */
  function CommentKey(c: ParsedComment): SortKey
  {
    SortKey(c.file, 0, CommentLineNumber(c), ByNumber(c.id))
  }

  /** sortReviewThreads' comparison, as the closure reads. It is the key order: file,
      then unresolved first, then line, then ID. */
  function ThreadLess(a: ReviewThread, b: ReviewThread): (r: bool)
    ensures r <==> KeyLess(ThreadKey(a), ThreadKey(b))
  {
    if a.file != b.file then Less(a.file, b.file)
    else if a.isResolved != b.isResolved then !a.isResolved && b.isResolved
    else if ThreadLineNumber(a) != ThreadLineNumber(b) then ThreadLineNumber(a) < ThreadLineNumber(b)
    else Less(a.id, b.id)
  }

  /** sortParsedComments' comparison, as the closure reads. It is the key order: file,
      then line, then ID. */
  function CommentLess(a: ParsedComment, b: ParsedComment): (r: bool)
    ensures r <==> KeyLess(CommentKey(a), CommentKey(b))
  {
    if a.file != b.file then Less(a.file, b.file)
    else if CommentLineNumber(a) != CommentLineNumber(b) then CommentLineNumber(a) < CommentLineNumber(b)
    else a.id < b.id
  }

  /** sort.Strings compares the strings themselves. */
  function StringKey(s: string): SortKey
  {
    SortKey(s, 0, 0, ByNumber(0))
  }

  // ---------------------------------------------------------------------------
  // Stable sorting, on sequences
  // ---------------------------------------------------------------------------

  /** No element's key is below that of an element before it. */
  ghost predicate Sorted<T>(s: seq<T>, key: T -> SortKey)
  {
    forall i, j :: 0 <= i < j < |s| ==> !KeyLess(key(s[j]), key(s[i]))
  }

  /** Put `x` after every element of `t` whose key is not above its own, searching
      from the right: an element equal in key to `x` stays before it. */
  function Insert<T>(t: seq<T>, x: T, key: T -> SortKey): (r: seq<T>)
    ensures |r| == |t| + 1
  {
    if t == [] then [x]
    else if KeyLess(key(x), key(t[|t| - 1])) then Insert(t[..|t| - 1], x, key) + [t[|t| - 1]]
    else t + [x]
  }

  /** sort.SliceStable: insertion of each element in turn. */
  function StableSort<T>(s: seq<T>, key: T -> SortKey): (r: seq<T>)
    ensures |r| == |s|
  {
    if s == [] then [] else Insert(StableSort(s[..|s| - 1], key), s[|s| - 1], key)
  }

  lemma {:induction false} InsertPermutes<T>(t: seq<T>, x: T, key: T -> SortKey)
    ensures multiset(Insert(t, x, key)) == multiset(t) + multiset{x}
  {
    if t != [] && KeyLess(key(x), key(t[|t| - 1])) {
      InsertPermutes(t[..|t| - 1], x, key);
      assert t == t[..|t| - 1] + [t[|t| - 1]];
    }
  }

  /** Inserting into a sorted sequence keeps it sorted. */
  lemma {:induction false} InsertSorted<T>(t: seq<T>, x: T, key: T -> SortKey)
    requires Sorted(t, key)
    ensures Sorted(Insert(t, x, key), key)
  {
    if t == [] {
    } else if KeyLess(key(x), key(t[|t| - 1])) {
      var t' := t[..|t| - 1];
      var last := t[|t| - 1];
      InsertSorted(t', x, key);
      var r' := Insert(t', x, key);
      InsertPermutes(t', x, key);
      var r := r' + [last];
      forall i | 0 <= i < |r'|
        ensures !KeyLess(key(last), key(r'[i]))
      {
        assert r'[i] in multiset(r');
        if r'[i] == x {
          KeyLessAsymmetric(key(x), key(last));
        } else {
          assert r'[i] in multiset(t');
          var k :| 0 <= k < |t'| && t'[k] == r'[i];
          assert t[k] == r'[i];
        }
      }
    } else {
      var r := t + [x];
      forall i | 0 <= i < |t|
        ensures !KeyLess(key(x), key(t[i]))
      {
        KeyLessTotal(key(x), key(t[|t| - 1]));
        if KeyLess(key(x), key(t[i])) {
          if i < |t| - 1 {
            KeyLessTotal(key(t[i]), key(t[|t| - 1]));
            if KeyLess(key(t[i]), key(t[|t| - 1])) {
              KeyLessTransitive(key(x), key(t[i]), key(t[|t| - 1]));
            }
          }
        }
      }
    }
  }

  lemma KeyLessAsymmetric(a: SortKey, b: SortKey)
    requires KeyLess(a, b)
    ensures !KeyLess(b, a)
  {
    if KeyLess(b, a) {
      KeyLessTransitive(a, b, a);
      KeyLessIrreflexive(a);
    }
  }

  /** The result is a rearrangement of the input. */
  lemma {:induction false} StableSortPermutes<T>(s: seq<T>, key: T -> SortKey)
    ensures multiset(StableSort(s, key)) == multiset(s)
  {
    if s != [] {
      StableSortPermutes(s[..|s| - 1], key);
      InsertPermutes(StableSort(s[..|s| - 1], key), s[|s| - 1], key);
      assert s == s[..|s| - 1] + [s[|s| - 1]];
    }
  }

  /** The result is in key order. */
  lemma {:induction false} StableSortSorted<T>(s: seq<T>, key: T -> SortKey)
    ensures Sorted(StableSort(s, key), key)
  {
    if s != [] {
      StableSortSorted(s[..|s| - 1], key);
      InsertSorted(StableSort(s[..|s| - 1], key), s[|s| - 1], key);
    }
  }

  /** Sorting what is already in order changes nothing. */
  lemma {:induction false} StableSortIdempotent<T>(s: seq<T>, key: T -> SortKey)
    requires Sorted(s, key)
    ensures StableSort(s, key) == s
  {
    if s != [] {
      var s' := s[..|s| - 1];
      assert Sorted(s', key);
      StableSortIdempotent(s', key);
      if |s'| > 0 {
        assert !KeyLess(key(s[|s| - 1]), key(s'[|s'| - 1]));
      }
      assert s' + [s[|s| - 1]] == s;
    }
  }

  /** The elements of `s` whose key is `k`, in order. */
  function Ties<T>(s: seq<T>, k: SortKey, key: T -> SortKey): seq<T>
  {
    if s == [] then []
    else Ties(s[..|s| - 1], k, key) + (if key(s[|s| - 1]) == k then [s[|s| - 1]] else [])
  }

  lemma {:induction false} TiesAppend<T>(a: seq<T>, b: seq<T>, k: SortKey, key: T -> SortKey)
    ensures Ties(a + b, k, key) == Ties(a, k, key) + Ties(b, k, key)
  {
    if b == [] {
      assert a + b == a;
    } else {
      TiesAppend(a, b[..|b| - 1], k, key);
      assert (a + b)[..|a + b| - 1] == a + b[..|b| - 1];
    }
  }

  lemma TiesOfOne<T>(x: T, k: SortKey, key: T -> SortKey)
    ensures Ties([x], k, key) == (if key(x) == k then [x] else [])
  {
    assert [x][..0] == [];
  }

  lemma {:induction false} InsertTies<T>(t: seq<T>, x: T, k: SortKey, key: T -> SortKey)
    ensures Ties(Insert(t, x, key), k, key) == Ties(t, k, key) + (if key(x) == k then [x] else [])
    decreases |t|, 1
  {
    if t == [] {
      TiesOfOne(x, k, key);
    } else if KeyLess(key(x), key(t[|t| - 1])) {
      InsertTiesShifted(t, x, k, key);
    } else {
      TiesAppend(t, [x], k, key);
      TiesOfOne(x, k, key);
    }
  }

  /** The case where `x` goes before the last element, which then cannot tie with it. */
  lemma {:induction false} InsertTiesShifted<T>(t: seq<T>, x: T, k: SortKey, key: T -> SortKey)
    requires t != [] && KeyLess(key(x), key(t[|t| - 1]))
    ensures Ties(Insert(t, x, key), k, key) == Ties(t, k, key) + (if key(x) == k then [x] else [])
    decreases |t|, 0
  {
    var t' := t[..|t| - 1];
    var last := t[|t| - 1];
    var r' := Insert(t', x, key);
    assert Insert(t, x, key) == r' + [last];
    InsertTies(t', x, k, key);
    TiesAppend(r', [last], k, key);
    TiesAppend(t', [last], k, key);
    assert t == t' + [last];
    TiesOfOne(last, k, key);
    if key(x) == k && key(last) == k {
      KeyLessIrreflexive(k);
    }
  }

  /** Stability: elements with equal keys keep their input order. */
  lemma {:induction false} StableSortKeepsTies<T>(s: seq<T>, k: SortKey, key: T -> SortKey)
    ensures Ties(StableSort(s, key), k, key) == Ties(s, k, key)
  {
    if s != [] {
      StableSortKeepsTies(s[..|s| - 1], k, key);
      InsertTies(StableSort(s[..|s| - 1], key), s[|s| - 1], k, key);
    }
  }

  // ---------------------------------------------------------------------------
  // Stable sorting, in place
  // ---------------------------------------------------------------------------

  /** Where the search from the right stops, Insert puts `x`. */
  lemma {:induction false} InsertAt<T>(t: seq<T>, x: T, j: nat, key: T -> SortKey)
    requires j <= |t|
    requires forall k :: j <= k < |t| ==> KeyLess(key(x), key(t[k]))
    requires j == 0 || !KeyLess(key(x), key(t[j - 1]))
    ensures Insert(t, x, key) == t[..j] + [x] + t[j..]
  {
    if j < |t| {
      var t' := t[..|t| - 1];
      InsertAt(t', x, j, key);
      assert t'[..j] == t[..j] && t'[j..] + [t[|t| - 1]] == t[j..];
    } else if t != [] {
      assert t[..j] == t;
    }
  }

  /** sort.SliceStable on an array: insertion sort, shifting larger elements right. */
  method InsertionSort<T>(a: array<T>, key: T -> SortKey)
    modifies a
    ensures a[..] == StableSort(old(a[..]), key)
  {
    ghost var s := a[..];
    var i := 0;
    while i < a.Length
      invariant 0 <= i <= a.Length
      invariant a[..i] == StableSort(s[..i], key)
      invariant a[i..] == s[i..]
    {
      InsertNext(a, i, key);
      assert s[..i + 1][..i] == s[..i] && s[..i + 1][i] == s[i];
      i := i + 1;
    }
    assert s[..a.Length] == s;
  }

  /** One step of the insertion sort: a[i] moves left past the larger elements before it. */
  method InsertNext<T>(a: array<T>, i: int, key: T -> SortKey)
    requires 0 <= i < a.Length
    modifies a
    ensures a[..i + 1] == Insert(old(a[..i]), old(a[i]), key)
    ensures a[i + 1..] == old(a[i + 1..])
  {
    var x := a[i];
    ghost var pre := a[..i];
    var j := i;
    while j > 0 && KeyLess(key(x), key(a[j - 1]))
      invariant 0 <= j <= i
      invariant forall k :: 0 <= k < j ==> a[k] == pre[k]
      invariant forall k :: j < k <= i ==> a[k] == pre[k - 1]
      invariant a[i + 1..] == old(a[i + 1..])
      invariant forall k :: j <= k < i ==> KeyLess(key(x), key(pre[k]))
    {
      a[j] := a[j - 1];
      j := j - 1;
    }
    a[j] := x;
    InsertAt(pre, x, j, key);
    Shifted(a[..i + 1], pre, x, j);
  }

  /** What the shifting loop leaves behind: `x` put between the two parts of `pre`. */
  lemma Shifted<T>(s: seq<T>, pre: seq<T>, x: T, j: nat)
    requires |s| == |pre| + 1 && j <= |pre|
    requires forall k :: 0 <= k < j ==> s[k] == pre[k]
    requires s[j] == x
    requires forall k :: j < k < |s| ==> s[k] == pre[k - 1]
    ensures s == pre[..j] + [x] + pre[j..]
  {
  }

  /** A new array holding `s`, sorted in place and read back. */
  method SortCopy<T>(s: seq<T>, key: T -> SortKey) returns (sorted: seq<T>)
    ensures sorted == StableSort(s, key)
  {
    var a := new T[|s|](i requires 0 <= i < |s| => s[i]);
    assert a[..] == s;
    InsertionSort(a, key);
    sorted := a[..];
  }

  /** sortReviewThreads: a sorted copy; the caller's sequence is a value and keeps its order. */
  method SortReviewThreads(threads: seq<ReviewThread>) returns (sorted: seq<ReviewThread>)
    ensures sorted == StableSort(threads, ThreadKey)
    ensures multiset(sorted) == multiset(threads)
    ensures forall i, j :: 0 <= i < j < |sorted| ==> !ThreadLess(sorted[j], sorted[i])
  {
    sorted := SortCopy(threads, ThreadKey);
    StableSortPermutes(threads, ThreadKey);
    StableSortSorted(threads, ThreadKey);
  }

  /** sortParsedComments: a sorted copy. */
  method SortParsedComments(comments: seq<ParsedComment>) returns (sorted: seq<ParsedComment>)
    ensures sorted == StableSort(comments, CommentKey)
    ensures multiset(sorted) == multiset(comments)
    ensures forall i, j :: 0 <= i < j < |sorted| ==> !CommentLess(sorted[j], sorted[i])
  {
    sorted := SortCopy(comments, CommentKey);
    StableSortPermutes(comments, CommentKey);
    StableSortSorted(comments, CommentKey);
  }

  // ---------------------------------------------------------------------------
  // sort.Strings on lists without repeats
  // ---------------------------------------------------------------------------

  predicate NoDuplicates(s: seq<string>)
  {
    forall i, j :: 0 <= i < j < |s| ==> s[i] != s[j]
  }

  lemma {:induction false} NoDuplicatesCount(s: seq<string>, x: string)
    requires NoDuplicates(s)
    ensures multiset(s)[x] <= 1
  {
    if s != [] {
      var s' := s[..|s| - 1];
      assert s == s' + [s[|s| - 1]];
      NoDuplicatesCount(s', x);
      if x == s[|s| - 1] {
        assert x !in s';
      }
    }
  }

  /** A rearrangement of a list without repeats has none. */
  lemma NoDuplicatesPermuted(s: seq<string>, r: seq<string>)
    requires NoDuplicates(s) && multiset(r) == multiset(s)
    ensures NoDuplicates(r)
  {
    forall i, j | 0 <= i < j < |r|
      ensures r[i] != r[j]
    {
      if r[i] == r[j] {
        var x := r[i];
        assert r == r[..j] + r[j..];
        assert x in multiset(r[..j]) && x in multiset(r[j..]);
        assert multiset(r)[x] == multiset(r[..j])[x] + multiset(r[j..])[x];
        NoDuplicatesCount(s, x);
        assert false;
      }
    }
  }

  /** sort.Strings: the same strings in ascending order; strictly ascending when the
      input has no repeats. */
  method SortStrings(s: seq<string>) returns (r: seq<string>)
    ensures multiset(r) == multiset(s)
    ensures forall i, j :: 0 <= i < j < |r| ==> !Less(r[j], r[i])
    ensures NoDuplicates(s) ==> StrictlyAscending(r)
  {
    r := SortCopy(s, StringKey);
    StableSortPermutes(s, StringKey);
    StableSortSorted(s, StringKey);
    forall i, j | 0 <= i < j < |r|
      ensures !Less(r[j], r[i])
    {
      assert !KeyLess(StringKey(r[j]), StringKey(r[i]));
      LessIrreflexive(r[i]);
    }
    if NoDuplicates(s) {
      NoDuplicatesPermuted(s, r);
      forall i, j | 0 <= i < j < |r|
        ensures Less(r[i], r[j])
      {
        LessTotal(r[i], r[j]);
      }
    }
  }
}
