/**
 * ParseComments and generateContext (github.go): each REST review comment is placed on
 * the diff by its side, the first hunk record whose line number equals the comment's
 * line is taken as its line, and a one-line description of the change is produced.
 *
 * The records' line numbers are read through pointers into the parser's two shared
 * counters (see Models.DiffLine), so the comparison as written sees, for every record,
 * the number one past the hunk's last line on that side. MatchesAsWritten models that
 * comparison; MatchesIntended compares with the number each record was made with.
 */
module Correlator {
  import opened Wrappers
  import opened Text
  import opened Models
  import opened DiffHunk

  // ---------------------------------------------------------------------------
  // Sides
  // ---------------------------------------------------------------------------

  /** (LineNew, LineOld) of a comment: on the "RIGHT" side its Line is a new-side number
      and OriginalLine an old-side one; on any other side the two trade places. */
  function SideLines(c: PRComment): (r: (Option<int>, Option<int>))
    ensures c.side == "RIGHT" ==> r.0 == c.line && r.1 == c.originalLine
    ensures c.side != "RIGHT" ==> r.0 == c.originalLine && r.1 == c.line
  {
    if c.side == "RIGHT" then (c.line, c.originalLine) else (c.originalLine, c.line)
  }

  /** Moving a comment to the other side swaps the two line numbers. */
  lemma SideSwaps(c: PRComment)
    requires c.side == "RIGHT"
    ensures SideLines(c.(side := "LEFT")) == (SideLines(c).1, SideLines(c).0)
  {
  }

  // ---------------------------------------------------------------------------
  // Finding the commented record
  // ---------------------------------------------------------------------------

  /** The loop's test on one record, reading its line numbers through its pointers. */
  predicate MatchesAsWritten(info: DiffHunkInfo, d: DiffLine, lineNew: Option<int>, lineOld: Option<int>)
  {
    || (lineNew.Some? && ReadNew(info, d).Some? && ReadNew(info, d).value == lineNew.value)
    || (lineOld.Some? && ReadOld(info, d).Some? && ReadOld(info, d).value == lineOld.value)
  }

  /** The index of the first record from `i` on that the loop's test accepts. */
  function FirstMatch(info: DiffHunkInfo, lineNew: Option<int>, lineOld: Option<int>, i: nat): (r: Option<nat>)
    requires i <= |info.lines|
    decreases |info.lines| - i
    ensures r.Some? ==>
              && i <= r.value < |info.lines|
              && MatchesAsWritten(info, info.lines[r.value], lineNew, lineOld)
              && forall j :: i <= j < r.value ==> !MatchesAsWritten(info, info.lines[j], lineNew, lineOld)
    ensures r.None? ==> forall j :: i <= j < |info.lines| ==> !MatchesAsWritten(info, info.lines[j], lineNew, lineOld)
  {
    if i == |info.lines| then None
    else if MatchesAsWritten(info, info.lines[i], lineNew, lineOld) then Some(i)
    else FirstMatch(info, lineNew, lineOld, i + 1)
  }

  /** The test the loop evidently means: record `k`'s own line numbers. */
  predicate MatchesIntended(info: DiffHunkInfo, k: nat, lineNew: Option<int>, lineOld: Option<int>)
    requires k < |info.lines|
  {
    || (lineNew.Some? && info.lines[k].hasNewLine && CreatedNew(info, k) == lineNew.value)
    || (lineOld.Some? && info.lines[k].hasOldLine && CreatedOld(info, k) == lineOld.value)
  }

  function FirstIntendedMatch(info: DiffHunkInfo, lineNew: Option<int>, lineOld: Option<int>, i: nat): (r: Option<nat>)
    requires i <= |info.lines|
    decreases |info.lines| - i
    ensures r.Some? ==>
              && i <= r.value < |info.lines|
              && MatchesIntended(info, r.value, lineNew, lineOld)
              && forall j :: i <= j < r.value ==> !MatchesIntended(info, j, lineNew, lineOld)
    ensures r.None? ==> forall j :: i <= j < |info.lines| ==> !MatchesIntended(info, j, lineNew, lineOld)
  {
    if i == |info.lines| then None
    else if MatchesIntended(info, i, lineNew, lineOld) then Some(i)
    else FirstIntendedMatch(info, lineNew, lineOld, i + 1)
  }

  // ---------------------------------------------------------------------------
  // generateContext
  // ---------------------------------------------------------------------------

  /** The description of a comment's change; it reads only ChangeType and the two lines. */
  function GenerateContext(p: ParsedComment): (r: string)
    ensures r != ""
    ensures r == "Context line" <==> p.changeType !in {Addition, Deletion, Modification}
  {
    match p.changeType
    case Addition =>
      if p.lineNew.Some? then "New line " + IntToDecimal(p.lineNew.value) + " added" else "Line addition"
    case Deletion =>
      if p.lineOld.Some? then "Line " + IntToDecimal(p.lineOld.value) + " deleted" else "Line deletion"
    case Modification =>
      if p.lineNew.Some? && p.lineOld.Some? then
        "Line " + IntToDecimal(p.lineNew.value) + " modified (was line " + IntToDecimal(p.lineOld.value) + ")"
      else "Line modification"
    case _ => "Context line"
  }

  /** What a description conveys: the kind of change (any other type reads as context)
      and the line numbers it prints. */
  function Shown(p: ParsedComment): (ChangeType, Option<int>, Option<int>)
  {
    match p.changeType
    case Addition => (Addition, p.lineNew, None)
    case Deletion => (Deletion, None, p.lineOld)
    case Modification =>
      if p.lineNew.Some? && p.lineOld.Some? then (Modification, p.lineNew, p.lineOld) else (Modification, None, None)
    case _ => (Context, None, None)
  }

  /** Which of the seven sentences a description is, told apart by a few characters. */
  function Form(s: string): int
  {
    if |s| < 6 then 0
    else if s[0] == 'N' then 1
    else if s[0] == 'C' then 7
    else if s[5] == 'a' then 2
    else if s[5] == 'd' then 4
    else if s[5] == 'm' then 6
    else if s[|s| - 1] == 'd' then 3
    else 5
  }

  function FormOf(shown: (ChangeType, Option<int>, Option<int>)): int
  {
    match shown.0
    case Addition => if shown.1.Some? then 1 else 2
    case Deletion => if shown.2.Some? then 3 else 4
    case Modification => if shown.1.Some? then 5 else 6
    case _ => 7
  }

  lemma DecimalShape(n: int)
    ensures var d := IntToDecimal(n);
      && d != [] && ' ' !in d
      && (d[0] == '-' || IsDigit(d[0]))
      && IsDigit(d[|d| - 1])
  {
    NatToDecimalDigits(if n < 0 then -n else n);
  }

  lemma IntToDecimalInjective(m: int, n: int)
    requires IntToDecimal(m) == IntToDecimal(n)
    ensures m == n
  {
    IntToDecimalRoundTrip(m);
    IntToDecimalRoundTrip(n);
  }

  lemma FormOfContext(p: ParsedComment)
    ensures Form(GenerateContext(p)) == FormOf(Shown(p))
  {
    match p.changeType
    case Addition =>
    case Deletion =>
      if p.lineOld.Some? {
        var d := IntToDecimal(p.lineOld.value);
        DecimalShape(p.lineOld.value);
        var s := "Line " + d + " deleted";
        assert s[5] == d[0] && s[0] == 'L';
      }
    case Modification =>
      if p.lineNew.Some? && p.lineOld.Some? {
        var d := IntToDecimal(p.lineNew.value);
        var e := IntToDecimal(p.lineOld.value);
        DecimalShape(p.lineNew.value);
        var s := "Line " + d + " modified (was line " + e + ")";
        assert s[5] == d[0] && s[0] == 'L' && s[|s| - 1] == ')';
      }
    case _ =>
  }

  /** Where the first space at or after `i` is in `s` (|s| if there is none). */
  function FirstSpaceFrom(s: string, i: nat): nat
    requires i <= |s|
    decreases |s| - i
  {
    if i == |s| then |s| else if s[i] == ' ' then i else FirstSpaceFrom(s, i + 1)
  }

  lemma {:induction false} SpaceAfter(s: string, i: nat, x: string)
    requires i + |x| < |s| && s[i..i + |x|] == x && ' ' !in x && s[i + |x|] == ' '
    ensures FirstSpaceFrom(s, i) == i + |x|
    decreases |x|
  {
    if x != [] {
      assert s[i] == x[0];
      assert s[i + 1..i + 1 + |x[1..]|] == x[1..];
      SpaceAfter(s, i + 1, x[1..]);
    }
  }

  /** Text between a common prefix and a space-led suffix is fixed when it holds no space. */
  lemma CancelBetween(pre: string, x: string, q: string, y: string, r: string)
    requires pre + x + q == pre + y + r
    requires ' ' !in x && ' ' !in y
    requires q != [] && q[0] == ' ' && r != [] && r[0] == ' '
    ensures x == y && q == r
  {
    var s := pre + x + q;
    SpaceAfter(s, |pre|, x);
    SpaceAfter(s, |pre|, y);
    assert x == s[|pre|..|pre| + |x|] == y;
    assert q == s[|pre| + |x|..] == r;
  }

  /**
   * generateContext loses nothing it prints: two comments get the same description
   * exactly when they show the same kind of change with the same line numbers.
   */
  lemma ContextIdentifiesShown(a: ParsedComment, b: ParsedComment)
    ensures GenerateContext(a) == GenerateContext(b) <==> Shown(a) == Shown(b)
  {
    if GenerateContext(a) == GenerateContext(b) {
      SameContextSameShown(a, b);
    }
  }

  lemma SameContextSameShown(a: ParsedComment, b: ParsedComment)
    requires GenerateContext(a) == GenerateContext(b)
    ensures Shown(a) == Shown(b)
  {
    FormOfContext(a);
    FormOfContext(b);
    match a.changeType
    case Addition =>
      if a.lineNew.Some? {
        NumberBetween("New line ", " added", a.lineNew.value, b.lineNew.value);
      }
    case Deletion =>
      if a.lineOld.Some? {
        NumberBetween("Line ", " deleted", a.lineOld.value, b.lineOld.value);
      }
    case Modification =>
      if a.lineNew.Some? && a.lineOld.Some? {
        ModificationNumbers(a.lineNew.value, a.lineOld.value, b.lineNew.value, b.lineOld.value);
      }
    case _ =>
  }

  /** A description that prints one number between fixed texts, the second starting
      with a space, determines that number. */
  lemma NumberBetween(pre: string, post: string, n1: int, n2: int)
    requires pre + IntToDecimal(n1) + post == pre + IntToDecimal(n2) + post
    requires post != [] && post[0] == ' '
    ensures n1 == n2
  {
    DecimalShape(n1);
    DecimalShape(n2);
    CancelBetween(pre, IntToDecimal(n1), post, IntToDecimal(n2), post);
    IntToDecimalInjective(n1, n2);
  }

  lemma ModificationNumbers(n1: int, o1: int, n2: int, o2: int)
    requires "Line " + IntToDecimal(n1) + " modified (was line " + IntToDecimal(o1) + ")"
          == "Line " + IntToDecimal(n2) + " modified (was line " + IntToDecimal(o2) + ")"
    ensures n1 == n2 && o1 == o2
  {
    var d1, e1 := IntToDecimal(n1), IntToDecimal(o1);
    var d2, e2 := IntToDecimal(n2), IntToDecimal(o2);
    DecimalShape(n1);
    DecimalShape(n2);
    var q1 := " modified (was line " + e1 + ")";
    var q2 := " modified (was line " + e2 + ")";
    assert "Line " + d1 + " modified (was line " + e1 + ")" == "Line " + d1 + q1;
    assert "Line " + d2 + " modified (was line " + e2 + ")" == "Line " + d2 + q2;
    CancelBetween("Line ", d1, q1, d2, q2);
    IntToDecimalInjective(n1, n2);
    var pre := " modified (was line ";
    assert pre + e1 + ")" == pre + e2 + ")";
    assert e1 == (pre + e1 + ")")[|pre|..|pre| + |e1|];
    assert |e1| == |e2|;
    assert e2 == (pre + e2 + ")")[|pre|..|pre| + |e2|];
    IntToDecimalInjective(o1, o2);
  }

  // ---------------------------------------------------------------------------
  // One comment
  // ---------------------------------------------------------------------------

  /** The type set when no record matched: addition without an old line, deletion
      without a new line, otherwise modification. */
  function FallbackType(lineNew: Option<int>, lineOld: Option<int>): (t: ChangeType)
    ensures t != Unset && t != Context
    ensures t == Addition <==> lineOld.None?
    ensures t == Deletion <==> lineOld.Some? && lineNew.None?
    ensures t == Modification <==> lineOld.Some? && lineNew.Some?
  {
    if lineOld.None? then Addition else if lineNew.None? then Deletion else Modification
  }

  /** The comment with the matched record's content and type, if any, and then the
      description, worked out from the type as it stands at that point. */
  function Annotate(p: ParsedComment, info: DiffHunkInfo, m: Option<nat>): ParsedComment
    requires m.Some? ==> m.value < |info.lines|
  {
    var found :=
      match m
      case None => p
      case Some(k) => p.(lineContent := info.lines[k].content, changeType := info.lines[k].lineType);
    found.(context := GenerateContext(found))
  }

  /** The ParsedComment the loop body of ParseComments appends for one comment. */
  function CorrelateComment(c: PRComment): (p: ParsedComment)
    ensures p.id == c.id && p.file == c.path && p.comment == c.body && p.htmlUrl == c.htmlUrl
    ensures p.diffHunk == c.diffHunk && p.author == c.author && p.createdAt == c.createdAt
    ensures (p.lineNew, p.lineOld) == SideLines(c)
    ensures p.changeType != Unset
  {
    var (lineNew, lineOld) := SideLines(c);
    var p0 := ParsedComment(c.id, c.path, lineNew, lineOld, Unset, "", c.body, "",
                            c.htmlUrl, c.diffHunk, c.author, c.createdAt);
    var p1 :=
      if c.diffHunk != "" && ParseHunk(c.diffHunk).Ok? then
        var info := ParseHunk(c.diffHunk).value;
        Annotate(p0, info, FirstMatch(info, lineNew, lineOld, 0))
      else p0;
    if p1.changeType == Unset then p1.(changeType := FallbackType(lineNew, lineOld)) else p1
  }

  /** Without a hunk that parses, nothing is matched: no content, no description, and the
      type comes from which line numbers the comment has. */
  lemma CorrelateWithoutHunk(c: PRComment)
    requires c.diffHunk == "" || ParseHunk(c.diffHunk).Err?
    ensures var p := CorrelateComment(c);
      && p.lineContent == "" && p.context == ""
      && p.changeType == FallbackType(p.lineNew, p.lineOld)
  {
  }

  /** With a parsed hunk, the first record the test accepts gives the content and type,
      and the description is of that record's type. */
  lemma CorrelateMatched(c: PRComment, k: nat)
    requires c.diffHunk != "" && ParseHunk(c.diffHunk).Ok?
    requires var info := ParseHunk(c.diffHunk).value;
      FirstMatch(info, SideLines(c).0, SideLines(c).1, 0) == Some(k)
    ensures var info := ParseHunk(c.diffHunk).value; var p := CorrelateComment(c);
      && k < |info.lines|
      && p.lineContent == info.lines[k].content
      && p.changeType == info.lines[k].lineType
      && p.context == GenerateContext(p)
  {
    var info := ParseHunk(c.diffHunk).value;
    RecordTypesAreSet(c.diffHunk, info);
    var (lineNew, lineOld) := SideLines(c);
    var p0 := ParsedComment(c.id, c.path, lineNew, lineOld, Unset, "", c.body, "",
                            c.htmlUrl, c.diffHunk, c.author, c.createdAt);
    var found := p0.(lineContent := info.lines[k].content, changeType := info.lines[k].lineType);
    var p1 := found.(context := GenerateContext(found));
    assert Annotate(p0, info, Some(k)) == p1;
    assert p1.changeType != Unset;
    assert CorrelateComment(c) == p1;
  }

  /** Records always carry a type, so a matched comment keeps the record's type. */
  lemma RecordTypesAreSet(d: string, info: DiffHunkInfo)
    requires ParseHunk(d) == Ok(info)
    ensures forall k :: 0 <= k < |info.lines| ==> info.lines[k].lineType != Unset
  {
    var lines := Split(d, '\n');
    RecordsOfNonBlankLines(lines[1..]);
  }

  /**
   * When the hunk parses but no record matches, the description is worked out before
   * the fallback type is set, so it is always "Context line", whatever type the
   * comment then gets.
   */
  lemma CorrelateUnmatched(c: PRComment)
    requires c.diffHunk != "" && ParseHunk(c.diffHunk).Ok?
    requires FirstMatch(ParseHunk(c.diffHunk).value, SideLines(c).0, SideLines(c).1, 0).None?
    ensures var p := CorrelateComment(c);
      && p.lineContent == "" && p.context == "Context line"
      && p.changeType == FallbackType(p.lineNew, p.lineOld)
  {
  }

  // ---------------------------------------------------------------------------
  // ParseComments
  // ---------------------------------------------------------------------------

  /** The comments ParseComments returns for `comments`, one per comment, in order. */
  function CorrelateAll(comments: seq<PRComment>): (r: seq<ParsedComment>)
    ensures |r| == |comments|
    ensures forall i :: 0 <= i < |comments| ==> r[i] == CorrelateComment(comments[i])
  {
    if comments == [] then []
    else CorrelateAll(comments[..|comments| - 1]) + [CorrelateComment(comments[|comments| - 1])]
  }

  /** ParseComments: one ParsedComment per comment, in order; it never fails. */
  method ParseComments(comments: seq<PRComment>) returns (parsed: seq<ParsedComment>, err: Option<string>)
    ensures err == None
    ensures |parsed| == |comments|
    ensures forall i :: 0 <= i < |comments| ==> parsed[i] == CorrelateComment(comments[i])
  {
    parsed := [];
    for i := 0 to |comments|
      invariant parsed == CorrelateAll(comments[..i])
    {
      var p := ParseComment(comments[i]);
      assert comments[..i + 1][..i] == comments[..i];
      parsed := parsed + [p];
    }
    assert comments[..|comments|] == comments;
    return parsed, None;
  }

  /** The body of ParseComments' loop for one comment. */
  method ParseComment(c: PRComment) returns (p: ParsedComment)
    ensures p == CorrelateComment(c)
  {
    p := StartComment(c);
    ghost var p0 := p;

    if c.diffHunk != "" {
      var diffInfo := ParseDiffHunk(c.diffHunk);
      if diffInfo.Ok? {
        var info := diffInfo.value;
        p := FindCommentedRecord(p, info);
        p := p.(context := GenerateContext(p));
        assert p == Annotate(p0, info, FirstMatch(info, p0.lineNew, p0.lineOld, 0));
      }
    }

    p := SetFallbackType(p);
  }

  /** The start of ParseComments' loop body: the comment's fields, with its two line
      numbers placed by side and nothing found yet. */
  method StartComment(c: PRComment) returns (p: ParsedComment)
    ensures p == ParsedComment(c.id, c.path, SideLines(c).0, SideLines(c).1, Unset, "", c.body, "",
                               c.htmlUrl, c.diffHunk, c.author, c.createdAt)
  {
    var lineNew, lineOld;
    if c.side == "RIGHT" {
      lineNew, lineOld := c.line, c.originalLine;
    } else {
      lineNew, lineOld := c.originalLine, c.line;
    }
    p := ParsedComment(c.id, c.path, lineNew, lineOld, Unset, "", c.body, "",
                       c.htmlUrl, c.diffHunk, c.author, c.createdAt);
  }

  /** The end of ParseComments' loop body: a comment still without a type gets the
      fallback type of its line numbers. */
  method SetFallbackType(p: ParsedComment) returns (q: ParsedComment)
    ensures q == if p.changeType == Unset then p.(changeType := FallbackType(p.lineNew, p.lineOld)) else p
  {
    q := p;
    if q.changeType == Unset {
      if q.lineOld.None? {
        q := q.(changeType := Addition);
      } else if q.lineNew.None? {
        q := q.(changeType := Deletion);
      } else {
        q := q.(changeType := Modification);
      }
    }
  }

  /** The inner loop of ParseComments as written: the first record whose line number,
      read through its pointer, equals the comment's, lends the comment its content and
      type. */
  method FindCommentedRecord(p: ParsedComment, info: DiffHunkInfo) returns (q: ParsedComment)
    ensures match FirstMatch(info, p.lineNew, p.lineOld, 0)
      case None => q == p
      case Some(k) => q == p.(lineContent := info.lines[k].content, changeType := info.lines[k].lineType)
  {
    q := p;
    var i := 0;
    while i < |info.lines|
      invariant 0 <= i <= |info.lines|
      invariant FirstMatch(info, p.lineNew, p.lineOld, 0) == FirstMatch(info, p.lineNew, p.lineOld, i)
      invariant q == p
    {
      var d := info.lines[i];
      if || (p.lineNew.Some? && d.hasNewLine && info.counters.newLine == p.lineNew.value)
         || (p.lineOld.Some? && d.hasOldLine && info.counters.oldLine == p.lineOld.value)
      {
        q := q.(lineContent := d.content, changeType := d.lineType);
        return;
      }
      i := i + 1;
    }
  }

  /** The inner loop of ParseComments with each record's own line numbers: the loop
      counts the records' lines again as it goes, from the hunk's start lines. */
  method FindIntendedRecord(p: ParsedComment, info: DiffHunkInfo) returns (q: ParsedComment)
    ensures match FirstIntendedMatch(info, p.lineNew, p.lineOld, 0)
      case None => q == p
      case Some(k) => q == p.(lineContent := info.lines[k].content, changeType := info.lines[k].lineType)
  {
    q := p;
    var oldLine, newLine := info.oldStart, info.newStart;
    var i := 0;
    while i < |info.lines|
      invariant 0 <= i <= |info.lines|
      invariant FirstIntendedMatch(info, p.lineNew, p.lineOld, 0) == FirstIntendedMatch(info, p.lineNew, p.lineOld, i)
      invariant oldLine == info.oldStart + OldAdvances(info.lines[..i])
      invariant newLine == info.newStart + NewAdvances(info.lines[..i])
      invariant q == p
    {
      var d := info.lines[i];
      if || (p.lineNew.Some? && d.hasNewLine && newLine == p.lineNew.value)
         || (p.lineOld.Some? && d.hasOldLine && oldLine == p.lineOld.value)
      {
        q := q.(lineContent := d.content, changeType := d.lineType);
        return;
      }
      if d.hasOldLine {
        oldLine := oldLine + 1;
      }
      if d.hasNewLine {
        newLine := newLine + 1;
      }
      assert info.lines[..i + 1] == info.lines[..i] + [d];
      AdvancesSnoc(info.lines[..i], d);
      i := i + 1;
    }
  }

  // ---------------------------------------------------------------------------
  // The pointer comparison, as written and as intended
  // ---------------------------------------------------------------------------

  /**
   * As written, a comment placed on a line that some record of the hunk was made with
   * is never matched: every record reads the counter's final value, past that line.
   */
  lemma AsWrittenMissesRecordedLine(info: DiffHunkInfo, k: nat)
    requires CountersAtEnd(info)
    requires k < |info.lines|
    ensures info.lines[k].hasNewLine ==> FirstMatch(info, Some(CreatedNew(info, k)), None, 0) == None
    ensures info.lines[k].hasOldLine ==> FirstMatch(info, None, Some(CreatedOld(info, k)), 0) == None
  {
    AliasedReadPassesEveryRecord(info, k);
  }

  /** And a comment on the line just past the hunk takes the first record of that side. */
  lemma AsWrittenMatchesPastTheHunk(info: DiffHunkInfo, k: nat)
    requires k < |info.lines| && info.lines[k].hasNewLine
    requires forall j :: 0 <= j < k ==> !info.lines[j].hasNewLine
    ensures FirstMatch(info, Some(info.counters.newLine), None, 0) == Some(k)
  {
    assert MatchesAsWritten(info, info.lines[k], Some(info.counters.newLine), None);
  }

  /** With each record's own numbers, a comment on a recorded line finds that record. */
  lemma IntendedMatchFindsRecordedLine(info: DiffHunkInfo, k: nat)
    requires k < |info.lines|
    ensures info.lines[k].hasNewLine ==> FirstIntendedMatch(info, Some(CreatedNew(info, k)), None, 0) == Some(k)
    ensures info.lines[k].hasOldLine ==> FirstIntendedMatch(info, None, Some(CreatedOld(info, k)), 0) == Some(k)
  {
    forall j | 0 <= j < k
      ensures info.lines[j].hasNewLine ==> CreatedNew(info, j) < CreatedNew(info, k)
      ensures info.lines[j].hasOldLine ==> CreatedOld(info, j) < CreatedOld(info, k)
    {
      CreatedNumbersIncrease(info, j, k);
    }
    if info.lines[k].hasNewLine {
      assert MatchesIntended(info, k, Some(CreatedNew(info, k)), None);
    }
    if info.lines[k].hasOldLine {
      assert MatchesIntended(info, k, None, Some(CreatedOld(info, k)));
    }
  }

  /**
   * The hunk "@@ -1 +1 @@\n+a\n+b" and a comment on new line 1: the records "a" and "b"
   * were made as new lines 1 and 2, but both read 3, so the comment is not placed on "a";
   * it gets no content, the description "Context line" and the fallback type. The
   * intended comparison finds "a".
   */
  lemma ExampleCommentOnAddedLine(c: PRComment)
    requires c.diffHunk == Join(["@@ -1 +1 @@", "+a", "+b"], '\n')
    requires c.side == "RIGHT" && c.line == Some(1) && c.originalLine == None
    ensures var p := CorrelateComment(c);
      && p.lineContent == "" && p.context == "Context line" && p.changeType == Addition
    ensures var info := ParseHunk(c.diffHunk).value;
      && ParseHunk(c.diffHunk).Ok?
      && FirstIntendedMatch(info, Some(1), None, 0) == Some(0)
      && info.lines[0].content == "a"
  {
    var info := ExampleTwoAdditions(c.diffHunk);
    CreatedFirst(info);
    AsWrittenMissesRecordedLine(info, 0);
    IntendedMatchFindsRecordedLine(info, 0);
  }

  /**
   * The comment as the intended test would correlate it: the same steps as
   * CorrelateComment, but records are compared by the line numbers they were made with.
   */
  function CorrelateIntended(c: PRComment): (p: ParsedComment)
    ensures p.id == c.id && p.file == c.path && p.comment == c.body && p.htmlUrl == c.htmlUrl
    ensures p.diffHunk == c.diffHunk && p.author == c.author && p.createdAt == c.createdAt
    ensures (p.lineNew, p.lineOld) == SideLines(c)
    ensures p.changeType != Unset
  {
    var (lineNew, lineOld) := SideLines(c);
    var p0 := ParsedComment(c.id, c.path, lineNew, lineOld, Unset, "", c.body, "",
                            c.htmlUrl, c.diffHunk, c.author, c.createdAt);
    var p1 :=
      if c.diffHunk != "" && ParseHunk(c.diffHunk).Ok? then
        var info := ParseHunk(c.diffHunk).value;
        Annotate(p0, info, FirstIntendedMatch(info, lineNew, lineOld, 0))
      else p0;
    if p1.changeType == Unset then p1.(changeType := FallbackType(lineNew, lineOld)) else p1
  }

  /** Without a hunk that parses, the intended correlation, too, matches nothing. */
  lemma IntendedWithoutHunk(c: PRComment)
    requires c.diffHunk == "" || ParseHunk(c.diffHunk).Err?
    ensures var p := CorrelateIntended(c);
      && p.lineContent == "" && p.context == ""
      && p.changeType == FallbackType(p.lineNew, p.lineOld)
  {
  }

  /** The first record the intended test accepts gives the content and type, and the
      description is of that record's type. */
  lemma IntendedMatched(c: PRComment, k: nat)
    requires c.diffHunk != "" && ParseHunk(c.diffHunk).Ok?
    requires var info := ParseHunk(c.diffHunk).value;
      FirstIntendedMatch(info, SideLines(c).0, SideLines(c).1, 0) == Some(k)
    ensures var info := ParseHunk(c.diffHunk).value; var p := CorrelateIntended(c);
      && k < |info.lines|
      && p.lineContent == info.lines[k].content
      && p.changeType == info.lines[k].lineType
      && p.context == GenerateContext(p)
  {
    var info := ParseHunk(c.diffHunk).value;
    RecordTypesAreSet(c.diffHunk, info);
    var (lineNew, lineOld) := SideLines(c);
    var p0 := ParsedComment(c.id, c.path, lineNew, lineOld, Unset, "", c.body, "",
                            c.htmlUrl, c.diffHunk, c.author, c.createdAt);
    var found := p0.(lineContent := info.lines[k].content, changeType := info.lines[k].lineType);
    var p1 := found.(context := GenerateContext(found));
    assert Annotate(p0, info, Some(k)) == p1;
    assert p1.changeType != Unset;
    assert CorrelateIntended(c) == p1;
  }

  /** When no record's own numbers match, the description is "Context line" and the type
      falls back to the one the comment's line numbers give. */
  lemma IntendedUnmatched(c: PRComment)
    requires c.diffHunk != "" && ParseHunk(c.diffHunk).Ok?
    requires FirstIntendedMatch(ParseHunk(c.diffHunk).value, SideLines(c).0, SideLines(c).1, 0).None?
    ensures var p := CorrelateIntended(c);
      && p.lineContent == "" && p.context == "Context line"
      && p.changeType == FallbackType(p.lineNew, p.lineOld)
  {
  }

  /** With the intended test, a comment on the new line a record was made as gets that
      record's content and type, and the description of that type. */
  lemma IntendedCorrelationOnNewLine(c: PRComment, k: nat)
    requires c.diffHunk != "" && ParseHunk(c.diffHunk).Ok?
    requires k < |ParseHunk(c.diffHunk).value.lines|
    requires var info := ParseHunk(c.diffHunk).value;
      info.lines[k].hasNewLine && SideLines(c) == (Some(CreatedNew(info, k)), None)
    ensures var info := ParseHunk(c.diffHunk).value; var p := CorrelateIntended(c);
      && p.lineContent == info.lines[k].content
      && p.changeType == info.lines[k].lineType
      && p.context == GenerateContext(p)
  {
    var info := ParseHunk(c.diffHunk).value;
    IntendedMatchFindsRecordedLine(info, k);
    RecordTypesAreSet(c.diffHunk, info);
  }

  /** The same on the old side. */
  lemma IntendedCorrelationOnOldLine(c: PRComment, k: nat)
    requires c.diffHunk != "" && ParseHunk(c.diffHunk).Ok?
    requires k < |ParseHunk(c.diffHunk).value.lines|
    requires var info := ParseHunk(c.diffHunk).value;
      info.lines[k].hasOldLine && SideLines(c) == (None, Some(CreatedOld(info, k)))
    ensures var info := ParseHunk(c.diffHunk).value; var p := CorrelateIntended(c);
      && p.lineContent == info.lines[k].content
      && p.changeType == info.lines[k].lineType
      && p.context == GenerateContext(p)
  {
    var info := ParseHunk(c.diffHunk).value;
    IntendedMatchFindsRecordedLine(info, k);
    RecordTypesAreSet(c.diffHunk, info);
  }

  /** In the two-addition example, the intended test places the comment on "a". */
  lemma ExampleIntendedCommentOnAddedLine(c: PRComment)
    requires c.diffHunk == Join(["@@ -1 +1 @@", "+a", "+b"], '\n')
    requires c.side == "RIGHT" && c.line == Some(1) && c.originalLine == None
    ensures var p := CorrelateIntended(c);
      && p.lineContent == "a" && p.changeType == Addition
      && p.context == "New line " + IntToDecimal(1) + " added"
  {
    var info := ExampleTwoAdditions(c.diffHunk);
    CreatedFirst(info);
    IntendedCorrelationOnNewLine(c, 0);
  }

  /** The comments the corrected ParseComments returns, one per comment, in order. */
  function CorrelateAllIntended(comments: seq<PRComment>): (r: seq<ParsedComment>)
    ensures |r| == |comments|
    ensures forall i :: 0 <= i < |comments| ==> r[i] == CorrelateIntended(comments[i])
  {
    if comments == [] then []
    else CorrelateAllIntended(comments[..|comments| - 1]) + [CorrelateIntended(comments[|comments| - 1])]
  }

  /** ParseComments with the corrected comparison: the same loop, whose search counts
      each record's own line numbers (FindIntendedRecord). */
  method ParseCommentsIntended(comments: seq<PRComment>) returns (parsed: seq<ParsedComment>, err: Option<string>)
    ensures err == None
    ensures |parsed| == |comments|
    ensures forall i :: 0 <= i < |comments| ==> parsed[i] == CorrelateIntended(comments[i])
  {
    parsed := [];
    for i := 0 to |comments|
      invariant parsed == CorrelateAllIntended(comments[..i])
    {
      var p := ParseCommentIntended(comments[i]);
      assert comments[..i + 1][..i] == comments[..i];
      parsed := parsed + [p];
    }
    assert comments[..|comments|] == comments;
    return parsed, None;
  }

  /** The corrected loop body for one comment. */
  method ParseCommentIntended(c: PRComment) returns (p: ParsedComment)
    ensures p == CorrelateIntended(c)
  {
    p := StartComment(c);
    ghost var p0 := p;

    if c.diffHunk != "" {
      var diffInfo := ParseDiffHunk(c.diffHunk);
      if diffInfo.Ok? {
        var info := diffInfo.value;
        p := FindIntendedRecord(p, info);
        p := p.(context := GenerateContext(p));
        assert p == Annotate(p0, info, FirstIntendedMatch(info, p0.lineNew, p0.lineOld, 0));
      }
    }

    p := SetFallbackType(p);
  }

  lemma ExampleTwoAdditions(d: string) returns (info: DiffHunkInfo)
    requires d == Join(["@@ -1 +1 @@", "+a", "+b"], '\n')
    ensures ParseHunk(d) == Ok(info) && CountersAtEnd(info)
    ensures info.newStart == 1 && info.counters.newLine == 3
    ensures info.lines == [DiffLine(Addition, "a", false, true), DiffLine(Addition, "b", false, true)]
  {
    var h := Header(1, None, 1, None);
    var body := ["+a", "+b"];
    assert HeaderText(h) == "@@ -1 +1 @@";
    assert [HeaderText(h)] + body == ["@@ -1 +1 @@", "+a", "+b"];
    ParsesRenderedHunk(h, body);
    info := ParseHunk(d).value;
    RecordsOfOne("+a");
    assert body == ["+a"] + ["+b"];
    RecordsSnoc(["+a"], "+b");
    assert info.lines == [DiffLine(Addition, "a", false, true), DiffLine(Addition, "b", false, true)];
    AdvancesOfOne(info.lines[0]);
    assert info.lines == [info.lines[0]] + [info.lines[1]];
    AdvancesSnoc([info.lines[0]], info.lines[1]);
  }
}
