/**
 * ParseDiffHunk (github.go): reads the `@@ -a[,b] +c[,d] @@` header of a unified-diff
 * hunk (GNU diffutils' format, in which an omitted count means 1) and turns every
 * non-blank body line into one typed record, keeping an old-side and a new-side line
 * counter as it goes.
 */
module DiffHunk {
  import opened Wrappers
  import opened Text
  import opened Models

  // ---------------------------------------------------------------------------
  // The header: `@@\s+-(\d+)(?:,(\d+))?\s+\+(\d+)(?:,(\d+))?\s+@@`
  // ---------------------------------------------------------------------------

  /** The four capture groups; an absent count is a group that did not take part. */
  datatype Header = Header(oldStart: nat, oldCount: Option<nat>, newStart: nat, newCount: Option<nat>)

  datatype HunkError = InvalidHeader(line: string)

  /** One element of the header pattern. */
  datatype Element =
    | Literal(c: char)  // the character itself
    | Spaces            // `\s+`
    | Number            // `(\d+)`, a capture group
    | Count             // `(?:,(\d+))?`, a capture group that may not take part

  /** `\s+` and a sign, then a start line and its optional count: `\s+-(\d+)(?:,(\d+))?`. */
  function RangePattern(sign: char): seq<Element>
  {
    [Spaces, Literal(sign), Number, Count]
  }

  /** The header pattern, element by element: `@@`, the two ranges, `\s+@@`. */
  const HeaderPattern: seq<Element> :=
    [Literal('@'), Literal('@')] + RangePattern('-') + RangePattern('+') + [Spaces, Literal('@'), Literal('@')]

  /** `(?:,(\d+))?` at the front of `s`: the count, if present, and the rest of `s`. */
  function OptionalCount(s: string): (r: (Option<nat>, string))
    ensures |r.1| <= |s|
  {
    if s != [] && s[0] == ',' && DigitRun(s[1..]) > 0 then
      var d := DigitRun(s[1..]);
      DigitRunDigits(s[1..]);
      (Some(DecimalValue(s[1..][..d])), s[1..][d..])
    else
      (None, s)
  }

  /** One element matched at the front of `s`: what it captures and the text after it. */
  function MatchElement(s: string, e: Element): Option<(seq<Option<nat>>, string)>
  {
    match e
    case Literal(c) => if s != [] && s[0] == c then Some(([], s[1..])) else None
    case Spaces => var w := SpaceRun(s); if w == 0 then None else Some(([], s[w..]))
    case Number =>
      var d := DigitRun(s);
      if d == 0 then None
      else
        DigitRunDigits(s);
        Some(([Some(DecimalValue(s[..d]))], s[d..]))
    case Count => var (count, rest) := OptionalCount(s); Some(([count], rest))
  }

  /**
   * The elements of `pattern` matched one after another from the front of `s`: the
   * captures in order and the text after the match. In the header pattern every `\s+`
   * and `\d+` is followed by a character outside its class, and the optional count by
   * white space, which cannot start it: so the greedy runs taken here are the only way
   * the pattern can match, and no backtracking is needed.
   */
  function MatchElements(s: string, pattern: seq<Element>): Option<(seq<Option<nat>>, string)>
  {
    if pattern == [] then Some(([], s))
    else
      match MatchElement(s, pattern[0])
      case None => None
      case Some((caps, rest)) => After(caps, MatchElements(rest, pattern[1..]))
  }

  /** A later match's result with the captures taken before it put in front. */
  function After(caps: seq<Option<nat>>, m: Option<(seq<Option<nat>>, string)>): Option<(seq<Option<nat>>, string)>
  {
    match m
    case None => None
    case Some((more, rest)) => Some((caps + more, rest))
  }


  /** The header pattern matched at the very start of `s`; its four groups make the header. */
  function MatchAt(s: string): Option<Header>
  {
    match MatchElements(s, HeaderPattern)
    case None => None
    case Some((g, _)) =>
      if |g| == 4 && g[0].Some? && g[2].Some? then Some(Header(g[0].value, g[1], g[2].value, g[3]))
      else None
  }

  /** FindStringSubmatch: the search is not anchored, so the leftmost match wins. */
  function FindHeader(line: string): (r: Option<Header>)
    ensures r.Some? ==> exists i :: 0 <= i <= |line| && MatchAt(line[i..]) == r &&
                                    forall j :: 0 <= j < i ==> MatchAt(line[j..]).None?
    ensures r.None? ==> forall i :: 0 <= i <= |line| ==> MatchAt(line[i..]).None?
  {
    assert line[0..] == line;
    if MatchAt(line).Some? then MatchAt(line)
    else if line == [] then None
    else
      var r := FindHeader(line[1..]);
      assert forall i :: 1 <= i <= |line| ==> line[1..][i - 1..] == line[i..];
      r
  }

  /** The header as a diff tool writes it (a partner for the parser). */
  function CountText(count: Option<nat>): string
  {
    if count.Some? then "," + NatToDecimal(count.value) else ""
  }

  /** A range as a diff tool writes it, ` -12,3` or ` +7`, followed by `tail`. */
  function RangeText(sign: char, n: nat, count: Option<nat>, tail: string): string
  {
    [' '] + ([sign] + (NatToDecimal(n) + (CountText(count) + tail)))
  }

  function HeaderText(h: Header): string
  {
    "@@" + RangeText('-', h.oldStart, h.oldCount, RangeText('+', h.newStart, h.newCount, " @@"))
  }

  // ---------------------------------------------------------------------------
  // The body
  // ---------------------------------------------------------------------------

  /** The record for one non-blank body line (the switch of the parser loop). */
  function Classify(line: string): (d: DiffLine)
    requires line != ""
    ensures d.lineType == Addition || d.lineType == Deletion || d.lineType == Context
    ensures d.hasOldLine <==> d.lineType != Addition
    ensures d.hasNewLine <==> d.lineType != Deletion
    ensures |d.content| == |line| - (if line[0] in "+- " then 1 else 0)
  {
    if line[0] == '+' then DiffLine(Addition, line[1..], false, true)
    else if line[0] == '-' then DiffLine(Deletion, line[1..], true, false)
    else if line[0] == ' ' then DiffLine(Context, line[1..], true, true)
    else DiffLine(Context, line, true, true)
  }

  /** The records of a run of body lines, in order; blank lines give none. */
  function Records(body: seq<string>): seq<DiffLine>
  {
    if body == [] then []
    else
      var last := body[|body| - 1];
      Records(body[..|body| - 1]) + (if last == "" then [] else [Classify(last)])
  }

  /** How many records point at the old-side counter, i.e. how often it advanced. */
  function OldAdvances(records: seq<DiffLine>): nat
  {
    if records == [] then 0
    else OldAdvances(records[..|records| - 1]) + (if records[|records| - 1].hasOldLine then 1 else 0)
  }

  /** How many records point at the new-side counter, i.e. how often it advanced. */
  function NewAdvances(records: seq<DiffLine>): nat
  {
    if records == [] then 0
    else NewAdvances(records[..|records| - 1]) + (if records[|records| - 1].hasNewLine then 1 else 0)
  }

  /** The shared counters stand one past the last line each side numbered: they started
      at the hunk's start lines and advanced once per record pointing at them. */
  predicate CountersAtEnd(info: DiffHunkInfo)
  {
    && info.counters.oldLine == info.oldStart + OldAdvances(info.lines)
    && info.counters.newLine == info.newStart + NewAdvances(info.lines)
  }

  /** What ParseDiffHunk returns for a hunk string. */
  function ParseHunk(diffHunk: string): Result<DiffHunkInfo, HunkError>
  {
    var lines := Split(diffHunk, '\n');
    match FindHeader(lines[0])
    case None => Err(InvalidHeader(lines[0]))
    case Some(h) => Ok(HunkInfo(h, lines[1..]))
  }

  /** The parsed hunk for a matched header and the lines after it. */
  function HunkInfo(h: Header, body: seq<string>): DiffHunkInfo
  {
    var records := Records(body);
    DiffHunkInfo(h.oldStart, h.oldCount.GetOr(1), h.newStart, h.newCount.GetOr(1), records,
                 Counters(h.oldStart + OldAdvances(records), h.newStart + NewAdvances(records)))
  }

  /** Appending one body line appends its record (or nothing, for a blank line). */
  lemma RecordsSnoc(body: seq<string>, line: string)
    ensures Records(body + [line]) == Records(body) + (if line == "" then [] else [Classify(line)])
  {
    assert (body + [line])[..|body|] == body;
  }

  lemma AdvancesSnoc(records: seq<DiffLine>, d: DiffLine)
    ensures OldAdvances(records + [d]) == OldAdvances(records) + (if d.hasOldLine then 1 else 0)
    ensures NewAdvances(records + [d]) == NewAdvances(records) + (if d.hasNewLine then 1 else 0)
  {
    assert (records + [d])[..|records|] == records;
  }

  /**
   * ParseDiffHunk. The body loop keeps the two counters as local variables; a record
   * gets a pointer to a counter (hasOldLine/hasNewLine), not its value, and the counters
   * as they stand when the loop ends are returned with the records. The `len(lines) == 0`
   * check of the source cannot fire: Split always yields at least one piece.
   */
  method ParseDiffHunk(diffHunk: string) returns (r: Result<DiffHunkInfo, HunkError>)
    ensures r == ParseHunk(diffHunk)
    ensures r.Err? <==> FindHeader(Split(diffHunk, '\n')[0]).None?
    ensures r.Ok? ==> CountersAtEnd(r.value)
  {
    var lines := Split(diffHunk, '\n');
    var matches := FindHeader(lines[0]);
    if matches.None? {
      return Err(InvalidHeader(lines[0]));
    }
    var h := matches.value;

    var oldStart := h.oldStart;
    var oldCount := 1;
    if h.oldCount.Some? {
      oldCount := h.oldCount.value;
    }
    var newStart := h.newStart;
    var newCount := 1;
    if h.newCount.Some? {
      newCount := h.newCount.value;
    }

    var records, oldLine, newLine := ParseBody(lines, oldStart, newStart);
    ghost var spec := HunkInfo(h, lines[1..]);
    assert spec.oldStart == oldStart && spec.newStart == newStart;
    assert spec.oldCount == oldCount && spec.newCount == newCount;
    assert spec.lines == records;
    assert spec.counters.oldLine == oldLine;
    assert spec.counters.newLine == newLine;
    r := Ok(DiffHunkInfo(oldStart, oldCount, newStart, newCount, records, Counters(oldLine, newLine)));
  }

  /** The loop of ParseDiffHunk over the lines after the header. */
  method ParseBody(lines: seq<string>, oldStart: nat, newStart: nat)
    returns (records: seq<DiffLine>, oldLine: nat, newLine: nat)
    requires |lines| >= 1
    ensures records == Records(lines[1..])
    ensures oldLine == oldStart + OldAdvances(records)
    ensures newLine == newStart + NewAdvances(records)
  {
    records := [];
    oldLine := oldStart;
    newLine := newStart;
    var i := 1;
    while i < |lines|
      invariant 1 <= i <= |lines|
      invariant records == Records(lines[1..i])
      invariant oldLine == oldStart + OldAdvances(records)
      invariant newLine == newStart + NewAdvances(records)
    {
      var line := lines[i];
      assert lines[1..i + 1] == lines[1..i] + [line];
      RecordsSnoc(lines[1..i], line);
      if line == "" {
        i := i + 1;
        continue;
      }
      var diffLine: DiffLine;
      if line[0] == '+' {
        diffLine := DiffLine(Addition, line[1..], false, true);
        newLine := newLine + 1;
      } else if line[0] == '-' {
        diffLine := DiffLine(Deletion, line[1..], true, false);
        oldLine := oldLine + 1;
      } else if line[0] == ' ' {
        diffLine := DiffLine(Context, line[1..], true, true);
        oldLine := oldLine + 1;
        newLine := newLine + 1;
      } else {
        diffLine := DiffLine(Context, line, true, true);
        oldLine := oldLine + 1;
        newLine := newLine + 1;
      }
      assert diffLine == Classify(line);
      AdvancesSnoc(records, diffLine);
      records := records + [diffLine];
      i := i + 1;
    }
    assert lines[1..i] == lines[1..];
  }

  // ---------------------------------------------------------------------------
  // The header: what is accepted and what is rejected
  // ---------------------------------------------------------------------------

  /** The capture groups of a pattern, in order: true for a group that always takes part. */
  function Groups(pattern: seq<Element>): seq<bool>
  {
    if pattern == [] then []
    else
      (match pattern[0] case Number => [true] case Count => [false] case _ => []) + Groups(pattern[1..])
  }

  lemma {:induction false} GroupsConcat(p: seq<Element>, q: seq<Element>)
    ensures Groups(p + q) == Groups(p) + Groups(q)
  {
    if p == [] {
      assert p + q == q;
    } else {
      assert (p + q)[0] == p[0] && (p + q)[1..] == p[1..] + q;
      GroupsConcat(p[1..], q);
    }
  }

  /** A range captures its start, which always takes part, and its optional count. */
  lemma RangeGroups(sign: char)
    ensures Groups(RangePattern(sign)) == [true, false]
  {
    var p := RangePattern(sign);
    assert p[3..][1..] == [];
    assert Groups(p[3..]) == [false];
    assert p[2..][1..] == p[3..];
    assert Groups(p[2..]) == [true, false];
    assert p[1..][1..] == p[2..];
  }

  /** A match has one capture per group, and every group that must take part did. */
  lemma {:induction false} MatchCapturesGroups(s: string, pattern: seq<Element>)
    requires MatchElements(s, pattern).Some?
    ensures var g := MatchElements(s, pattern).value.0;
      && |g| == |Groups(pattern)|
      && forall i :: 0 <= i < |g| && Groups(pattern)[i] ==> g[i].Some?
  {
    if pattern != [] {
      var (caps, rest) := MatchElement(s, pattern[0]).value;
      MatchCapturesGroups(rest, pattern[1..]);
    }
  }

  /** The `len(matches) < 4` guard never rejects a match: every match yields a header. */
  lemma MatchYieldsHeader(s: string)
    ensures MatchAt(s).Some? <==> MatchElements(s, HeaderPattern).Some?
  {
    if MatchElements(s, HeaderPattern).Some? {
      MatchCapturesGroups(s, HeaderPattern);
      var marker, close := [Literal('@'), Literal('@')], [Spaces, Literal('@'), Literal('@')];
      GroupsConcat(marker, RangePattern('-'));
      GroupsConcat(marker + RangePattern('-'), RangePattern('+'));
      GroupsConcat(marker + RangePattern('-') + RangePattern('+'), close);
      RangeGroups('-');
      RangeGroups('+');
      assert Groups(marker) == [] by { assert marker[1..][1..] == []; }
      assert Groups(close) == [] by { assert close[1..][1..][1..] == []; }
    }
  }

  /** Matching a concatenation: the first pattern, then the second from where it stopped. */
  lemma {:induction false} MatchConcat(s: string, p: seq<Element>, q: seq<Element>)
    requires MatchElements(s, p).Some?
    ensures var (caps, mid) := MatchElements(s, p).value;
      MatchElements(s, p + q) == After(caps, MatchElements(mid, q))
  {
    if p == [] {
      assert p + q == q;
      if MatchElements(s, q).Some? {
        assert [] + MatchElements(s, q).value.0 == MatchElements(s, q).value.0;
      }
    } else {
      assert (p + q)[0] == p[0] && (p + q)[1..] == p[1..] + q;
      var (c0, rest) := MatchElement(s, p[0]).value;
      var (c1, mid) := MatchElements(rest, p[1..]).value;
      MatchConcat(rest, p[1..], q);
      if MatchElements(mid, q).Some? {
        var more := MatchElements(mid, q).value.0;
        assert c0 + (c1 + more) == (c0 + c1) + more;
      }
    }
  }


  lemma SpacesRendered(tail: string)
    requires tail != [] && !IsSpace(tail[0])
    ensures MatchElement([' '] + tail, Spaces) == Some(([], tail))
  {
    SpaceRunOf([' '], tail);
    assert ([' '] + tail)[1..] == tail;
  }

  /** `%d`'s digits followed by a non-digit: the run stops right after them. */
  lemma DigitsThen(n: nat, after: string)
    requires after != [] && !IsDigit(after[0])
    ensures var s := NatToDecimal(n) + after; var d := |NatToDecimal(n)|;
      && DigitRun(s) == d && d > 0
      && s[..d] == NatToDecimal(n) && s[d..] == after
      && AllDigits(s[..d]) && DecimalValue(s[..d]) == n
  {
    NatToDecimalDigits(n);
    DecimalRoundTrip(n);
    DigitRunOf(NatToDecimal(n), after);
  }

  lemma NumberRendered(n: nat, after: string)
    requires after != [] && !IsDigit(after[0])
    ensures MatchElement(NatToDecimal(n) + after, Number) == Some(([Some(n)], after))
  {
    DigitsThen(n, after);
  }

  /** The optional count as written, followed by white space. */
  lemma OptionalCountRendered(count: Option<nat>, tail: string)
    requires tail != [] && IsSpace(tail[0])
    ensures MatchElement(CountText(count) + tail, Count) == Some(([count], tail))
  {
    if count.Some? {
      var s := CountText(count) + tail;
      assert s[1..] == NatToDecimal(count.value) + tail;
      DigitsThen(count.value, tail);
    } else {
      assert CountText(count) + tail == tail;
    }
  }

  /** A range as a diff tool writes it: ` -12,3` or ` +7`, followed by white space. */
  lemma RangeRendered(sign: char, n: nat, count: Option<nat>, tail: string)
    requires sign == '-' || sign == '+'
    requires tail != [] && IsSpace(tail[0])
    ensures MatchElements(RangeText(sign, n, count, tail), RangePattern(sign)) == Some(([Some(n), count], tail))
  {
    var p := RangePattern(sign);
    var t1 := CountText(count) + tail;
    var t0 := NatToDecimal(n) + t1;
    OptionalCountRendered(count, tail);
    assert MatchElements(t1, p[3..]) == Some(([count], tail)) by {
      assert p[3..][0] == Count && p[3..][1..] == [];
      assert [count] + [] == [count];
    }
    assert t1[0] == ',' || t1[0] == tail[0];
    NumberRendered(n, t1);
    assert MatchElements(t0, p[2..]) == Some(([Some(n), count], tail)) by {
      assert p[2..][0] == Number && p[2..][1..] == p[3..];
      assert [Some(n)] + [count] == [Some(n), count];
    }
    assert ([sign] + t0)[1..] == t0;
    assert MatchElements([sign] + t0, p[1..]) == Some(([Some(n), count], tail)) by {
      assert p[1..][0] == Literal(sign) && p[1..][1..] == p[2..];
      assert [] + [Some(n), count] == [Some(n), count];
    }
    SpacesRendered([sign] + t0);
    assert p[0] == Spaces;
  }

  /** `@@` and whatever follows. */
  lemma MarkerRendered(rest: string)
    ensures MatchElements(['@', '@'] + rest, [Literal('@'), Literal('@')]) == Some(([], rest))
  {
    var p := [Literal('@'), Literal('@')];
    assert (['@', '@'] + rest)[1..] == ['@'] + rest;
    assert (['@'] + rest)[1..] == rest;
    assert MatchElements(['@'] + rest, p[1..]) == Some(([], rest)) by {
      assert p[1..][0] == Literal('@') && p[1..][1..] == [];
      var none: seq<Option<nat>> := [];
      assert none + none == none;
    }
  }

  /** `\s+@@` and whatever follows. */
  lemma CloseRendered(rest: string)
    ensures MatchElements([' ', '@', '@'] + rest, [Spaces, Literal('@'), Literal('@')]) == Some(([], rest))
  {
    var p := [Spaces, Literal('@'), Literal('@')];
    var marked := ['@', '@'] + rest;
    assert [' ', '@', '@'] + rest == [' '] + marked;
    SpacesRendered(marked);
    MarkerRendered(rest);
    assert p[0] == Spaces && p[1..] == [Literal('@'), Literal('@')];
    var none: seq<Option<nat>> := [];
    assert After(none, Some((none, rest))) == Some((none, rest));
  }


  /** A written header followed by `rest`, cut where the pattern's pieces meet. */
  lemma RangeTextThen(sign: char, n: nat, count: Option<nat>, tail: string, rest: string)
    ensures RangeText(sign, n, count, tail) + rest == RangeText(sign, n, count, tail + rest)
  {
    var a, b := NatToDecimal(n), CountText(count);
    assert (b + tail) + rest == b + (tail + rest);
    assert (a + (b + tail)) + rest == a + (b + (tail + rest));
    assert ([sign] + (a + (b + tail))) + rest == [sign] + (a + (b + (tail + rest)));
  }

  lemma HeaderTextPieces(h: Header, rest: string)
    ensures HeaderText(h) + rest
      == ['@', '@'] + RangeText('-', h.oldStart, h.oldCount,
                                RangeText('+', h.newStart, h.newCount, [' ', '@', '@'] + rest))
  {
    var inner := RangeText('+', h.newStart, h.newCount, " @@");
    var outer := RangeText('-', h.oldStart, h.oldCount, inner);
    RangeTextThen('+', h.newStart, h.newCount, " @@", rest);
    RangeTextThen('-', h.oldStart, h.oldCount, inner, rest);
    assert ("@@" + outer) + rest == "@@" + (outer + rest);
  }

  lemma HeaderPieceMatches(h: Header, rest: string)
    ensures MatchElements(['@', '@'] + RangeText('-', h.oldStart, h.oldCount,
                                                 RangeText('+', h.newStart, h.newCount, [' ', '@', '@'] + rest)),
                          HeaderPattern)
      == Some(([Some(h.oldStart), h.oldCount, Some(h.newStart), h.newCount], rest))
  {
    var marker, close := [Literal('@'), Literal('@')], [Spaces, Literal('@'), Literal('@')];
    var s2 := RangeText('+', h.newStart, h.newCount, [' ', '@', '@'] + rest);
    var s := ['@', '@'] + RangeText('-', h.oldStart, h.oldCount, s2);
    MarkerRendered(RangeText('-', h.oldStart, h.oldCount, s2));
    RangeRendered('-', h.oldStart, h.oldCount, s2);
    RangeRendered('+', h.newStart, h.newCount, [' ', '@', '@'] + rest);
    CloseRendered(rest);
    MatchConcat(s, marker, RangePattern('-'));
    MatchConcat(s, marker + RangePattern('-'), RangePattern('+'));
    MatchConcat(s, marker + RangePattern('-') + RangePattern('+'), close);
    assert [] + [Some(h.oldStart), h.oldCount] + [Some(h.newStart), h.newCount] + []
      == [Some(h.oldStart), h.oldCount, Some(h.newStart), h.newCount];
  }

  /** The pattern matches the header a diff tool writes, whatever follows it. */
  lemma MatchAtRendered(h: Header, rest: string)
    ensures MatchAt(HeaderText(h) + rest) == Some(h)
  {
    HeaderTextPieces(h, rest);
    HeaderPieceMatches(h, rest);
  }


  lemma MatchAtNeedsAt(s: string)
    requires s != [] && s[0] != '@'
    ensures MatchAt(s) == None
  {
  }

  /** Text before the header is skipped when it holds no '@'. */
  lemma {:induction false} FindHeaderSkips(junk: string, s: string)
    requires '@' !in junk
    ensures FindHeader(junk + s) == FindHeader(s)
  {
    if junk != [] {
      var line := junk + s;
      assert line[0] == junk[0];
      MatchAtNeedsAt(line);
      assert line[1..] == junk[1..] + s;
      FindHeaderSkips(junk[1..], s);
      assert FindHeader(line) == FindHeader(line[1..]);
    } else {
      assert junk + s == s;
    }
  }

  /** The search is unanchored: a header after '@'-free text, followed by anything, is found. */
  lemma FindHeaderRendered(junk: string, h: Header, rest: string)
    requires '@' !in junk
    ensures FindHeader(junk + HeaderText(h) + rest) == Some(h)
  {
    assert junk + HeaderText(h) + rest == junk + (HeaderText(h) + rest);
    FindHeaderSkips(junk, HeaderText(h) + rest);
    MatchAtRendered(h, rest);
  }

  /** A line without '@' holds no header. */
  lemma NoHeaderWithoutAt(line: string)
    requires '@' !in line
    ensures FindHeader(line) == None
  {
    FindHeaderSkips(line, "");
    assert line + "" == line;
  }

  /** A hunk whose first line has no '@' is rejected; the empty hunk is one of them,
      because it splits into a single empty line. */
  lemma RejectsHunkWithoutHeader(diffHunk: string)
    requires '@' !in Split(diffHunk, '\n')[0]
    ensures ParseHunk(diffHunk) == Err(InvalidHeader(Split(diffHunk, '\n')[0]))
  {
    NoHeaderWithoutAt(Split(diffHunk, '\n')[0]);
  }

  lemma RejectsEmptyHunk()
    ensures ParseHunk("") == Err(InvalidHeader(""))
  {
    RejectsHunkWithoutHeader("");
  }

  /**
   * A hunk made of a written header and body lines parses to that header's numbers,
   * an omitted count standing for 1, and to the records of the body.
   */
  lemma ParsesRenderedHunk(h: Header, body: seq<string>)
    requires forall k :: 0 <= k < |body| ==> '\n' !in body[k]
    ensures var r := ParseHunk(Join([HeaderText(h)] + body, '\n'));
      && r.Ok?
      && r.value.oldStart == h.oldStart && r.value.newStart == h.newStart
      && r.value.oldCount == (if h.oldCount.Some? then h.oldCount.value else 1)
      && r.value.newCount == (if h.newCount.Some? then h.newCount.value else 1)
      && r.value.lines == Records(body)
      && CountersAtEnd(r.value)
  {
    var parts := [HeaderText(h)] + body;
    assert Split(Join(parts, '\n'), '\n') == parts by {
      HeaderHasNoNewline(h);
      assert forall k :: 0 <= k < |parts| ==> '\n' !in parts[k] by {
        forall k | 0 <= k < |parts| ensures '\n' !in parts[k] {
          if k > 0 { assert parts[k] == body[k - 1]; }
        }
      }
      SplitJoin(parts, '\n');
    }
    ParsesHeaderLine(Join(parts, '\n'), h, body);
  }

  /** A hunk whose first line is a written header: the rest of its lines are the body. */
  lemma ParsesHeaderLine(diffHunk: string, h: Header, body: seq<string>)
    requires Split(diffHunk, '\n') == [HeaderText(h)] + body
    ensures ParseHunk(diffHunk) == Ok(HunkInfo(h, body))
  {
    MatchAtRendered(h, "");
    assert HeaderText(h) + "" == HeaderText(h);
    assert FindHeader(HeaderText(h)) == Some(h);
    assert ([HeaderText(h)] + body)[1..] == body;
  }


  lemma RangeTextHasNoNewline(sign: char, n: nat, count: Option<nat>, tail: string)
    requires sign != '\n' && '\n' !in tail
    ensures '\n' !in RangeText(sign, n, count, tail)
  {
    NatToDecimalDigits(n);
    if count.Some? { NatToDecimalDigits(count.value); }
    assert '\n' !in CountText(count);
  }

  lemma HeaderHasNoNewline(h: Header)
    ensures '\n' !in HeaderText(h)
  {
    RangeTextHasNoNewline('+', h.newStart, h.newCount, " @@");
    RangeTextHasNoNewline('-', h.oldStart, h.oldCount, RangeText('+', h.newStart, h.newCount, " @@"));
  }

  // ---------------------------------------------------------------------------
  // The body: records and line numbers
  // ---------------------------------------------------------------------------

  /** The line a record came from, prefix restored (the partner of Classify). */
  function LineText(d: DiffLine): string
  {
    match d.lineType
    case Addition => "+" + d.content
    case Deletion => "-" + d.content
    case _ => " " + d.content
  }

  /** A line with a diff prefix is recovered from its record. */
  lemma ClassifyRoundTrip(line: string)
    requires line != "" && line[0] in "+- "
    ensures LineText(Classify(line)) == line
  {
    assert [line[0]] + line[1..] == line;
  }

  /** A line with no diff prefix counts as context and is kept whole. */
  lemma ClassifyUnprefixed(line: string)
    requires line != "" && line[0] !in "+- "
    ensures Classify(line) == DiffLine(Context, line, true, true)
  {
  }

  /** The non-blank lines of a body, in order. */
  function NonBlank(body: seq<string>): (r: seq<string>)
    ensures |r| <= |body|
    ensures forall k :: 0 <= k < |r| ==> r[k] != ""
  {
    if body == [] then []
    else
      var last := body[|body| - 1];
      NonBlank(body[..|body| - 1]) + (if last == "" then [] else [last])
  }

  /** One record per non-blank body line, in order, each the classification of its line. */
  lemma {:induction false} RecordsOfNonBlankLines(body: seq<string>)
    ensures |Records(body)| == |NonBlank(body)|
    ensures forall k :: 0 <= k < |Records(body)| ==> Records(body)[k] == Classify(NonBlank(body)[k])
  {
    if body != [] {
      RecordsOfNonBlankLines(body[..|body| - 1]);
    }
  }

  /** A header with nothing (or only blank lines) after it yields no records, and the
      counters stay at the start lines. */
  lemma {:induction false} BlankBodyHasNoRecords(h: Header, body: seq<string>)
    requires forall k :: 0 <= k < |body| ==> body[k] == ""
    ensures HunkInfo(h, body).lines == []
    ensures HunkInfo(h, body).counters == Counters(h.oldStart, h.newStart)
  {
    if body != [] {
      BlankBodyHasNoRecords(h, body[..|body| - 1]);
    }
  }

  lemma {:induction false} AdvancesAppend(a: seq<DiffLine>, b: seq<DiffLine>)
    ensures OldAdvances(a + b) == OldAdvances(a) + OldAdvances(b)
    ensures NewAdvances(a + b) == NewAdvances(a) + NewAdvances(b)
  {
    if b != [] {
      var b' := b[..|b| - 1];
      AdvancesAppend(a, b');
      assert a + b == (a + b') + [b[|b| - 1]];
      AdvancesSnoc(a + b', b[|b| - 1]);
      assert b == b' + [b[|b| - 1]];
      AdvancesSnoc(b', b[|b| - 1]);
    } else {
      assert a + b == a;
    }
  }

  /** The old-side line number record `k` had when it was made: the counter's value then. */
  function CreatedOld(info: DiffHunkInfo, k: int): nat
    requires 0 <= k < |info.lines|
  {
    info.oldStart + OldAdvances(info.lines[..k])
  }

  /** The new-side line number record `k` had when it was made. */
  function CreatedNew(info: DiffHunkInfo, k: int): nat
    requires 0 <= k < |info.lines|
  {
    info.newStart + NewAdvances(info.lines[..k])
  }

  /** The first record is numbered with the hunk's start lines. */
  lemma CreatedFirst(info: DiffHunkInfo)
    requires |info.lines| >= 1
    ensures CreatedOld(info, 0) == info.oldStart && CreatedNew(info, 0) == info.newStart
  {
    assert info.lines[..0] == [];
  }

  /** What `*OldLine` reads for a record: the shared old-side counter, if it points there. */
  function ReadOld(info: DiffHunkInfo, d: DiffLine): Option<int>
  {
    if d.hasOldLine then Some(info.counters.oldLine) else None
  }

  /** What `*NewLine` reads for a record. */
  function ReadNew(info: DiffHunkInfo, d: DiffLine): Option<int>
  {
    if d.hasNewLine then Some(info.counters.newLine) else None
  }

  /** A side's numbering: one more for every record on that side in between. */
  lemma CreatedStep(info: DiffHunkInfo, j: int, k: int)
    requires 0 <= j < k < |info.lines|
    ensures CreatedOld(info, k) == CreatedOld(info, j) + OldAdvances(info.lines[j..k])
    ensures CreatedNew(info, k) == CreatedNew(info, j) + NewAdvances(info.lines[j..k])
  {
    assert info.lines[..k] == info.lines[..j] + info.lines[j..k];
    AdvancesAppend(info.lines[..j], info.lines[j..k]);
  }

  lemma AdvancesFromFirst(s: seq<DiffLine>)
    requires s != []
    ensures OldAdvances(s) >= (if s[0].hasOldLine then 1 else 0)
    ensures NewAdvances(s) >= (if s[0].hasNewLine then 1 else 0)
  {
    assert s == [s[0]] + s[1..];
    AdvancesAppend([s[0]], s[1..]);
    assert [s[0]] == [] + [s[0]];
    AdvancesSnoc([], s[0]);
  }

  /**
   * The records of each side are numbered consecutively from the side's start line, in
   * order: a later record has a larger number than an earlier one on its side.
   */
  lemma CreatedNumbersIncrease(info: DiffHunkInfo, j: int, k: int)
    requires 0 <= j < k < |info.lines|
    ensures info.lines[j].hasOldLine ==> CreatedOld(info, j) < CreatedOld(info, k)
    ensures info.lines[j].hasNewLine ==> CreatedNew(info, j) < CreatedNew(info, k)
  {
    CreatedStep(info, j, k);
    AdvancesFromFirst(info.lines[j..k]);
  }

  /**
   * Because every record points at the same two counters, reading a record's line
   * number after parsing yields the counter's final value, which lies past every number
   * the records of that side were made with: no record reads back its own line.
   */
  lemma AliasedReadPassesEveryRecord(info: DiffHunkInfo, k: int)
    requires CountersAtEnd(info)
    requires 0 <= k < |info.lines|
    ensures info.lines[k].hasOldLine ==>
              ReadOld(info, info.lines[k]) == Some(info.counters.oldLine) && CreatedOld(info, k) < info.counters.oldLine
    ensures info.lines[k].hasNewLine ==>
              ReadNew(info, info.lines[k]) == Some(info.counters.newLine) && CreatedNew(info, k) < info.counters.newLine
  {
    assert info.lines == info.lines[..k] + info.lines[k..];
    AdvancesAppend(info.lines[..k], info.lines[k..]);
    AdvancesFromFirst(info.lines[k..]);
  }

  // ---------------------------------------------------------------------------
  // Worked examples
  // ---------------------------------------------------------------------------

  lemma RecordsOfOne(line: string)
    requires line != ""
    ensures Records([line]) == [Classify(line)]
  {
    RecordsSnoc([], line);
    assert [line] == [] + [line];
  }

  lemma AdvancesOfOne(d: DiffLine)
    ensures OldAdvances([d]) == (if d.hasOldLine then 1 else 0)
    ensures NewAdvances([d]) == (if d.hasNewLine then 1 else 0)
  {
    AdvancesSnoc([], d);
    assert [d] == [] + [d];
  }

  /**
   * The hunk "@@ -10,3 +20,2 @@\n-old1\n-old2\n-old3\n+new1\n+new2\n", given as its lines.
   * Three deletions then two additions: the records are numbered 10, 11, 12 on the old
   * side and 20, 21 on the new side when they are made, and the trailing newline adds no
   * record; the shared counters end at 13 and 22, which is what every record reads.
   */
  lemma ExampleDeletionsThenAdditions(diffHunk: string)
    requires diffHunk == Join(["@@ -10,3 +20,2 @@", "-old1", "-old2", "-old3", "+new1", "+new2", ""], '\n')
    ensures var r := ParseHunk(diffHunk);
      && r.Ok?
      && r.value.oldStart == 10 && r.value.oldCount == 3
      && r.value.newStart == 20 && r.value.newCount == 2
      && r.value.lines == [DiffLine(Deletion, "old1", true, false), DiffLine(Deletion, "old2", true, false),
                           DiffLine(Deletion, "old3", true, false),
                           DiffLine(Addition, "new1", false, true), DiffLine(Addition, "new2", false, true)]
      && CreatedOld(r.value, 0) == 10 && CreatedOld(r.value, 1) == 11 && CreatedOld(r.value, 2) == 12
      && CreatedNew(r.value, 3) == 20 && CreatedNew(r.value, 4) == 21
      && r.value.counters == Counters(13, 22)
  {
    var h := Header(10, Some(3), 20, Some(2));
    var body := ["-old1", "-old2", "-old3", "+new1", "+new2", ""];
    ExampleText(h, body);
    ParsesRenderedHunk(h, body);
    var lines := ExampleRecords(body);
    var info := ParseHunk(diffHunk).value;
    ExampleNumbers(info, lines);
  }

  lemma ExampleText(h: Header, body: seq<string>)
    requires h == Header(10, Some(3), 20, Some(2))
    requires body == ["-old1", "-old2", "-old3", "+new1", "+new2", ""]
    ensures forall k :: 0 <= k < |body| ==> '\n' !in body[k]
    ensures [HeaderText(h)] + body == ["@@ -10,3 +20,2 @@", "-old1", "-old2", "-old3", "+new1", "+new2", ""]
  {
    assert NatToDecimal(10) == "10" && NatToDecimal(20) == "20";
    assert HeaderText(h) == "@@ -10,3 +20,2 @@";
  }

  lemma ExampleRecords(body: seq<string>) returns (lines: seq<DiffLine>)
    requires body == ["-old1", "-old2", "-old3", "+new1", "+new2", ""]
    ensures lines == [DiffLine(Deletion, "old1", true, false), DiffLine(Deletion, "old2", true, false),
                      DiffLine(Deletion, "old3", true, false),
                      DiffLine(Addition, "new1", false, true), DiffLine(Addition, "new2", false, true)]
    ensures Records(body) == lines
  {
    lines := [DiffLine(Deletion, "old1", true, false), DiffLine(Deletion, "old2", true, false),
              DiffLine(Deletion, "old3", true, false),
              DiffLine(Addition, "new1", false, true), DiffLine(Addition, "new2", false, true)];
    RecordsOfOne("-old1");
    assert ["-old1", "-old2"] == ["-old1"] + ["-old2"];
    assert ["-old1", "-old2", "-old3"] == ["-old1", "-old2"] + ["-old3"];
    assert ["-old1", "-old2", "-old3", "+new1"] == ["-old1", "-old2", "-old3"] + ["+new1"];
    assert ["-old1", "-old2", "-old3", "+new1", "+new2"] == ["-old1", "-old2", "-old3", "+new1"] + ["+new2"];
    assert body == ["-old1", "-old2", "-old3", "+new1", "+new2"] + [""];
    RecordsSnoc(["-old1"], "-old2");
    RecordsSnoc(["-old1", "-old2"], "-old3");
    RecordsSnoc(["-old1", "-old2", "-old3"], "+new1");
    RecordsSnoc(["-old1", "-old2", "-old3", "+new1"], "+new2");
    RecordsSnoc(["-old1", "-old2", "-old3", "+new1", "+new2"], "");
  }

  lemma ExampleNumbers(info: DiffHunkInfo, lines: seq<DiffLine>)
    requires lines == [DiffLine(Deletion, "old1", true, false), DiffLine(Deletion, "old2", true, false),
                       DiffLine(Deletion, "old3", true, false),
                       DiffLine(Addition, "new1", false, true), DiffLine(Addition, "new2", false, true)]
    requires info.lines == lines && info.oldStart == 10 && info.newStart == 20 && CountersAtEnd(info)
    ensures CreatedOld(info, 0) == 10 && CreatedOld(info, 1) == 11 && CreatedOld(info, 2) == 12
    ensures CreatedNew(info, 3) == 20 && CreatedNew(info, 4) == 21
    ensures info.counters == Counters(13, 22)
  {
    AdvancesOfOne(lines[0]);
    assert lines[..1] == [lines[0]];
    assert lines[..2] == lines[..1] + [lines[1]] && lines[..3] == lines[..2] + [lines[2]];
    assert lines[..4] == lines[..3] + [lines[3]] && lines == lines[..4] + [lines[4]];
    AdvancesSnoc(lines[..1], lines[1]);
    AdvancesSnoc(lines[..2], lines[2]);
    AdvancesSnoc(lines[..3], lines[3]);
    AdvancesSnoc(lines[..4], lines[4]);
  }

  /** The hunk "@@ -5 +5 @@\n context": omitted counts default to 1; the one context line is numbered 5 on both sides. */
  lemma ExampleOmittedCounts(d: string)
    requires d == Join(["@@ -5 +5 @@", " context"], '\n')
    ensures ParseHunk(d).Ok?
    ensures var r := ParseHunk(d).value;
      && r.oldStart == 5 && r.oldCount == 1
      && r.newStart == 5 && r.newCount == 1
      && r.lines == [DiffLine(Context, "context", true, true)]
      && CreatedOld(r, 0) == 5 && CreatedNew(r, 0) == 5
      && r.counters == Counters(6, 6)
  {
    var h := Header(5, None, 5, None);
    var body := [" context"];
    assert HeaderText(h) == "@@ -5 +5 @@";
    assert [HeaderText(h)] + body == ["@@ -5 +5 @@", " context"];
    ParsesRenderedHunk(h, body);
    RecordsOfOne(" context");
    AdvancesOfOne(DiffLine(Context, "context", true, true));
    CreatedFirst(ParseHunk(d).value);
  }
}
