/**
  The hunk-count repair of `scripts/fix_patch_counts.py`: parse each unified-diff hunk header,
  count the old-side and new-side lines below it, and rewrite the header when its counts are
  wrong. Lines are strings without line breaks; digits are ASCII.
 */
module FixPatch {
  import opened Prelude

  // ------------------------------------------------------------------ decimal numbers

  predicate IsDigit(c: char) {
    '0' <= c <= '9'
  }

  function DigitOf(d: nat): (c: char)
    requires d < 10
    ensures IsDigit(c) && DigitValue(c) == d
  {
    ('0' as int + d) as char
  }

  function Show(n: nat): (s: string)
    ensures |s| > 0 && forall i | 0 <= i < |s| :: IsDigit(s[i])
  {
    if n < 10 then [DigitOf(n)] else Show(n / 10) + [DigitOf(n % 10)]
  }

  function DigitValue(c: char): nat
    requires IsDigit(c)
  {
    c as int - '0' as int
  }

  function Value(s: string): nat
    requires forall i | 0 <= i < |s| :: IsDigit(s[i])
  {
    if s == "" then 0 else Value(s[..|s| - 1]) * 10 + DigitValue(s[|s| - 1])
  }

  lemma {:induction false} ShowThenValue(n: nat)
    ensures Value(Show(n)) == n
  {
    if n >= 10 {
      ShowThenValue(n / 10);
      assert Show(n)[..|Show(n)| - 1] == Show(n / 10);
    } else {
      assert Show(n)[..0] == "";
    }
  }

  /** Length of the leading run of digits. */
  function DigitRun(s: string): (n: nat)
    ensures n <= |s| && forall i | 0 <= i < n :: IsDigit(s[i])
    ensures n < |s| ==> !IsDigit(s[n])
  {
    if s == "" || !IsDigit(s[0]) then 0 else 1 + DigitRun(s[1..])
  }

  // ------------------------------------------------------------------ hunk headers

  datatype Num = Num(n: nat, rest: string)
  datatype Range = Range(start: nat, count: Option<nat>, rest: string)

  /** A header may leave either count out. */
  datatype Hunk = Hunk(oldStart: nat, oldCount: Option<nat>, newStart: nat, newCount: Option<nat>, suffix: string)

  predicate StartsWith(s: string, p: string) {
    |p| <= |s| && s[..|p|] == p
  }

  function ParseNum(s: string): Option<Num> {
    var n := DigitRun(s);
    if n == 0 then None else Some(Num(Value(s[..n]), s[n..]))
  }

  /** A start, and a count when a comma and digits follow. */
  function ParseRange(s: string): Option<Range> {
    match ParseNum(s)
    case None => None
    case Some(a) =>
      if StartsWith(a.rest, ",") && ParseNum(a.rest[1..]).Some? then
        var b := ParseNum(a.rest[1..]).value;
        Some(Range(a.n, Some(b.n), b.rest))
      else Some(Range(a.n, None, a.rest))
  }

  /** `HUNK_RE`. */
  function ParseHunk(line: string): Option<Hunk> {
    if !StartsWith(line, "@@ -") || ParseRange(line[4..]).None? then None
    else
      var a := ParseRange(line[4..]).value;
      if !StartsWith(a.rest, " +") || ParseRange(a.rest[2..]).None? then None
      else
        var b := ParseRange(a.rest[2..]).value;
        if !StartsWith(b.rest, " @@") then None
        else Some(Hunk(a.start, a.count, b.start, b.count, b.rest[3..]))
  }

  /** A header without a count covers one line. */
  function Stated(count: Option<nat>): nat {
    if count.None? then 1 else count.value
  }

  function Render(oldStart: nat, oldCount: nat, newStart: nat, newCount: nat, suffix: string): string {
    "@@ -" + (Show(oldStart) + "," + Show(oldCount) + (" +" + (Show(newStart) + "," + Show(newCount) + (" @@" + suffix))))
  }

  lemma {:induction false} DigitRunStops(d: string, rest: string)
    requires forall i | 0 <= i < |d| :: IsDigit(d[i])
    requires rest != "" && !IsDigit(rest[0])
    ensures DigitRun(d + rest) == |d|
  {
    if d == "" {
      assert d + rest == rest;
    } else {
      assert (d + rest)[1..] == d[1..] + rest;
      DigitRunStops(d[1..], rest);
    }
  }

  lemma NumRoundTrip(n: nat, rest: string)
    requires rest != "" && !IsDigit(rest[0])
    ensures ParseNum(Show(n) + rest) == Some(Num(n, rest))
  {
    DigitRunStops(Show(n), rest);
    ShowThenValue(n);
    assert (Show(n) + rest)[..|Show(n)|] == Show(n);
    assert (Show(n) + rest)[|Show(n)|..] == rest;
  }

  lemma RangeRoundTrip(start: nat, count: nat, rest: string)
    requires rest != "" && !IsDigit(rest[0])
    ensures ParseRange(Show(start) + "," + Show(count) + rest) == Some(Range(start, Some(count), rest))
  {
    var tail := "," + (Show(count) + rest);
    assert Show(start) + "," + Show(count) + rest == Show(start) + tail;
    NumRoundTrip(start, tail);
    assert tail[1..] == Show(count) + rest;
    NumRoundTrip(count, rest);
  }

  /** A rewritten header is a header, with the counts it was given and everything else kept. */
  lemma HeaderRoundTrip(oldStart: nat, oldCount: nat, newStart: nat, newCount: nat, suffix: string)
    ensures ParseHunk(Render(oldStart, oldCount, newStart, newCount, suffix))
         == Some(Hunk(oldStart, Some(oldCount), newStart, Some(newCount), suffix))
  {
    var end := " @@" + suffix;
    var right := Show(newStart) + "," + Show(newCount) + end;
    var middle := " +" + right;
    var left := Show(oldStart) + "," + Show(oldCount) + middle;
    var line := Render(oldStart, oldCount, newStart, newCount, suffix);
    assert line == "@@ -" + left;
    assert line[..4] == "@@ -" && line[4..] == left;
    RangeRoundTrip(oldStart, oldCount, middle);
    assert middle[..2] == " +" && middle[2..] == right;
    RangeRoundTrip(newStart, newCount, end);
    assert end[..3] == " @@" && end[3..] == suffix;
  }

  /** A range as it may be written: the count is left out or given. */
  function ShowRange(start: nat, count: Option<nat>): string {
    if count.None? then Show(start) else Show(start) + "," + Show(count.value)
  }

  function ShowHunk(h: Hunk): string {
    "@@ -" + (ShowRange(h.oldStart, h.oldCount) + (" +" + (ShowRange(h.newStart, h.newCount) + (" @@" + h.suffix))))
  }

  lemma AnyRangeRoundTrip(start: nat, count: Option<nat>, rest: string)
    requires rest != "" && !IsDigit(rest[0]) && rest[0] != ','
    ensures ParseRange(ShowRange(start, count) + rest) == Some(Range(start, count, rest))
  {
    if count.None? {
      NumRoundTrip(start, rest);
    } else {
      RangeRoundTrip(start, count.value, rest);
    }
  }

  /** Every header that can be written, with either count left out or not, is read back as it is. */
  lemma AnyHeaderRoundTrip(h: Hunk)
    ensures ParseHunk(ShowHunk(h)) == Some(h)
  {
    var end := " @@" + h.suffix;
    var right := ShowRange(h.newStart, h.newCount) + end;
    var middle := " +" + right;
    var left := ShowRange(h.oldStart, h.oldCount) + middle;
    var line := ShowHunk(h);
    assert line == "@@ -" + left;
    assert line[..4] == "@@ -" && line[4..] == left;
    AnyRangeRoundTrip(h.oldStart, h.oldCount, middle);
    assert middle[..2] == " +" && middle[2..] == right;
    AnyRangeRoundTrip(h.newStart, h.newCount, end);
    assert end[..3] == " @@" && end[3..] == h.suffix;
  }

  // ------------------------------------------------------------------ nothing else is a header

  predicate AllDigits(s: string) {
    s != "" && forall i | 0 <= i < |s| :: IsDigit(s[i])
  }

  /** `text` is a decimal start, with a comma and a decimal count exactly when a count is given. */
  ghost predicate IsRangeText(text: string, start: nat, count: Option<nat>) {
    match count
    case None => AllDigits(text) && Value(text) == start
    case Some(n) =>
      exists a, b {:trigger AllDigits(a), AllDigits(b)} ::
        text == a + "," + b && AllDigits(a) && AllDigits(b) && Value(a) == start && Value(b) == n
  }

  lemma ParsedNum(s: string) returns (digits: string)
    requires ParseNum(s).Some?
    ensures var a := ParseNum(s).value; s == digits + a.rest && AllDigits(digits) && Value(digits) == a.n
  {
    digits := s[..DigitRun(s)];
  }

  lemma PairText(s: string, first: string, second: string, tail: string, rest: string)
    requires s == first + tail && StartsWith(tail, ",") && tail[1..] == second + rest
    requires AllDigits(first) && AllDigits(second)
    ensures s == first + "," + second + rest && IsRangeText(first + "," + second, Value(first), Some(Value(second)))
  {
    HasPrefix(tail, ",");
    hide Value, StartsWith;
  }

  lemma ParsedRange(s: string) returns (text: string)
    requires ParseRange(s).Some?
    ensures var r := ParseRange(s).value; s == text + r.rest && IsRangeText(text, r.start, r.count)
  {
    var first := ParsedNum(s);
    text := first;
    var a := ParseNum(s).value;
    if StartsWith(a.rest, ",") && ParseNum(a.rest[1..]).Some? {
      var second := ParsedNum(a.rest[1..]);
      text := first + "," + second;
      PairText(s, first, second, a.rest, ParseNum(a.rest[1..]).value.rest);
    }
    hide ParseNum, Value;
  }

  lemma HasPrefix(s: string, p: string)
    requires StartsWith(s, p)
    ensures s == p + s[|p|..]
  {
    assert s == s[..|p|] + s[|p|..];
  }

  lemma Reassociate(line: string, left: string, right: string, suffix: string)
    requires line == "@@ -" + (left + (" +" + (right + (" @@" + suffix))))
    ensures line == "@@ -" + left + " +" + right + " @@" + suffix
  {
  }

  lemma HunkParts(line: string)
    requires ParseHunk(line).Some?
    ensures StartsWith(line, "@@ -") && ParseRange(line[4..]).Some?
    ensures var a, h := ParseRange(line[4..]).value, ParseHunk(line).value;
      && h.oldStart == a.start && h.oldCount == a.count
      && StartsWith(a.rest, " +") && ParseRange(a.rest[2..]).Some?
      && var b := ParseRange(a.rest[2..]).value;
      h.newStart == b.start && h.newCount == b.count && StartsWith(b.rest, " @@") && h.suffix == b.rest[3..]
  {
    hide ParseRange;
  }

  /** Only lines of exactly the header's form are headers, and their numbers are the ones written there. */
  lemma OnlyHeadersParse(line: string) returns (left: string, right: string)
    requires ParseHunk(line).Some?
    ensures var h := ParseHunk(line).value;
      && line == "@@ -" + left + " +" + right + " @@" + h.suffix
      && IsRangeText(left, h.oldStart, h.oldCount) && IsRangeText(right, h.newStart, h.newCount)
  {
    hide ParseRange, IsRangeText, ParseHunk;
    HunkParts(line);
    HasPrefix(line, "@@ -");
    left := ParsedRange(line[4..]);
    var a := ParseRange(line[4..]).value;
    HasPrefix(a.rest, " +");
    right := ParsedRange(a.rest[2..]);
    var b := ParseRange(a.rest[2..]).value;
    HasPrefix(b.rest, " @@");
    Reassociate(line, left, right, b.rest[3..]);
  }

  // ------------------------------------------------------------------ hunk bodies

  predicate OldSide(line: string) {
    line == "" || StartsWith(line, " ") || (StartsWith(line, "-") && !StartsWith(line, "---"))
  }

  predicate NewSide(line: string) {
    line == "" || StartsWith(line, " ") || (StartsWith(line, "+") && !StartsWith(line, "+++"))
  }

  /** "\ No newline at end of file". */
  predicate Neutral(line: string) {
    StartsWith(line, "\\")
  }

  /** Where the scanner stops counting. */
  predicate EndsBody(line: string) {
    ParseHunk(line).Some? || StartsWith(line, "diff --git ")
    || !(OldSide(line) || NewSide(line) || Neutral(line))
  }

  datatype Tally = Tally(len: nat, oldCount: nat, newCount: nat)

  /** Length and counts of the body at the front of `lines`. */
  function TallyOf(lines: seq<string>): (t: Tally)
    ensures t.len <= |lines|
  {
    if lines == [] || EndsBody(lines[0]) then Tally(0, 0, 0)
    else
      var t := TallyOf(lines[1..]);
      Tally(t.len + 1, t.oldCount + if OldSide(lines[0]) then 1 else 0, t.newCount + if NewSide(lines[0]) then 1 else 0)
  }

  function Count(p: string -> bool, lines: seq<string>): nat {
    if lines == [] then 0 else (if p(lines[0]) then 1 else 0) + Count(p, lines[1..])
  }

  /** The body is the longest run of body lines, and its counts are the numbers of its old-side and new-side lines. */
  lemma {:induction false} TallyCounts(lines: seq<string>)
    ensures var t := TallyOf(lines);
      && (forall i | 0 <= i < t.len :: !EndsBody(lines[i]))
      && (t.len < |lines| ==> EndsBody(lines[t.len]))
      && t.oldCount == Count(OldSide, lines[..t.len])
      && t.newCount == Count(NewSide, lines[..t.len])
  {
    if lines != [] && !EndsBody(lines[0]) {
      TallyCounts(lines[1..]);
      assert lines[..TallyOf(lines).len][1..] == lines[1..][..TallyOf(lines[1..]).len];
    }
  }

  // ------------------------------------------------------------------ the repair

  /** The header with right counts: left exactly as it is when they already are. */
  function FixHeader(line: string, t: Tally): string {
    match ParseHunk(line)
    case None => line
    case Some(h) =>
      if Stated(h.oldCount) == t.oldCount && Stated(h.newCount) == t.newCount then line
      else Render(h.oldStart, t.oldCount, h.newStart, t.newCount, h.suffix)
  }

  predicate WrongHeader(line: string, t: Tally) {
    match ParseHunk(line)
    case None => false
    case Some(h) => Stated(h.oldCount) != t.oldCount || Stated(h.newCount) != t.newCount
  }

  /** The whole rewrite, hunk by hunk. */
  function Fix(lines: seq<string>): seq<string>
    decreases |lines|
  {
    if lines == [] then []
    else if ParseHunk(lines[0]).None? then [lines[0]] + Fix(lines[1..])
    else
      var t := TallyOf(lines[1..]);
      [FixHeader(lines[0], t)] + lines[1..1 + t.len] + Fix(lines[1 + t.len..])
  }

  predicate Changed(lines: seq<string>)
    decreases |lines|
  {
    lines != []
    && if ParseHunk(lines[0]).None? then Changed(lines[1..])
       else
         var t := TallyOf(lines[1..]);
         WrongHeader(lines[0], t) || Changed(lines[1 + t.len..])
  }

  /** `TallyOf` one line further. */
  lemma TallyNext(lines: seq<string>, j: nat)
    requires j < |lines|
    ensures EndsBody(lines[j]) ==> TallyOf(lines[j..]) == Tally(0, 0, 0)
    ensures !EndsBody(lines[j]) ==>
      var t := TallyOf(lines[j + 1..]);
      TallyOf(lines[j..]) == Tally(t.len + 1, t.oldCount + if OldSide(lines[j]) then 1 else 0,
                                   t.newCount + if NewSide(lines[j]) then 1 else 0)
  {
    assert lines[j..][1..] == lines[j + 1..];
  }

  /** `Fix` and `Changed` one line, or one hunk, further. */
  lemma FixNext(lines: seq<string>, i: nat)
    requires i < |lines|
    ensures ParseHunk(lines[i]).None? ==>
      Fix(lines[i..]) == [lines[i]] + Fix(lines[i + 1..]) && Changed(lines[i..]) == Changed(lines[i + 1..])
    ensures ParseHunk(lines[i]).Some? ==>
      var t := TallyOf(lines[i + 1..]);
      var j := i + 1 + t.len;
      && Fix(lines[i..]) == [FixHeader(lines[i], t)] + lines[i + 1..j] + Fix(lines[j..])
      && Changed(lines[i..]) == (WrongHeader(lines[i], t) || Changed(lines[j..]))
  {
    hide ParseHunk;
    var t := TallyOf(lines[i + 1..]);
    assert lines[i..][1..] == lines[i + 1..];
    assert lines[i..][1..1 + t.len] == lines[i + 1..i + 1 + t.len];
    assert lines[i..][1 + t.len..] == lines[i + 1 + t.len..];
  }

  lemma FixNothing(lines: seq<string>)
    ensures Fix(lines[|lines|..]) == [] && !Changed(lines[|lines|..])
  {
  }

  lemma Regroup(out: seq<string>, h: string, body: seq<string>, rest: seq<string>)
    ensures out + ([h] + body + rest) == out + [h] + body + rest
  {
  }

  /** The inner loop: walk the body below a header, counting until the next diff or hunk. */
  method CountBody(lines: seq<string>, start: nat) returns (j: nat, oldCount: nat, newCount: nat)
    requires start <= |lines|
    ensures j == start + TallyOf(lines[start..]).len
    ensures oldCount == TallyOf(lines[start..]).oldCount && newCount == TallyOf(lines[start..]).newCount
  {
    var n := |lines|;
    j, oldCount, newCount := start, 0, 0;
    while j < n
      invariant start <= j <= n
      invariant var t := TallyOf(lines[j..]);
        TallyOf(lines[start..]) == Tally(j - start + t.len, oldCount + t.oldCount, newCount + t.newCount)
    {
      var ln := lines[j];
      TallyNext(lines, j);
      if ParseHunk(ln).Some? || StartsWith(ln, "diff --git ") {
        break;
      }
      if StartsWith(ln, "+") && !StartsWith(ln, "+++") {
        newCount := newCount + 1;
      } else if StartsWith(ln, "-") && !StartsWith(ln, "---") {
        oldCount := oldCount + 1;
      } else if StartsWith(ln, " ") {
        oldCount, newCount := oldCount + 1, newCount + 1;
      } else if StartsWith(ln, "\\") {
      } else if ln == "" {
        oldCount, newCount := oldCount + 1, newCount + 1;
      } else {
        break;
      }
      j := j + 1;
    }
  }

  /**
    `fix_patch`, from the lines of the file to the lines written back. In check mode nothing is
    written, but the same change is reported.
   */
  method FixPatch(lines: seq<string>, checkOnly: bool) returns (changed: bool, written: Option<seq<string>>)
    ensures changed == Changed(lines)
    ensures written == if Changed(lines) && !checkOnly then Some(Fix(lines)) else None
  {
    hide ParseHunk, Render, Fix, Changed, TallyOf;
    assert lines[0..] == lines;
    FixNothing(lines);
    var out := [];
    var i, n := 0, |lines|;
    changed := false;
    while i < n
      invariant i <= n
      invariant out + Fix(lines[i..]) == Fix(lines)
      invariant changed || Changed(lines[i..]) <==> Changed(lines)
    {
      var line := lines[i];
      FixNext(lines, i);
      var m := ParseHunk(line);
      if m.None? {
        Regroup(out, line, [], Fix(lines[i + 1..]));
        out := out + [line];
        i := i + 1;
      } else {
        var j, oldCount, newCount := CountBody(lines, i + 1);
        Regroup(out, FixHeader(line, TallyOf(lines[i + 1..])), lines[i + 1..j], Fix(lines[j..]));
        if oldCount != Stated(m.value.oldCount) || newCount != Stated(m.value.newCount) {
          changed := true;
          out := out + [Render(m.value.oldStart, oldCount, m.value.newStart, newCount, m.value.suffix)];
        } else {
          out := out + [line];
        }
        out := out + lines[i + 1..j];
        i := j;
      }
    }
    assert out + [] == out;
    written := if changed && !checkOnly then Some(out) else None;
  }

  // ------------------------------------------------------------------ what the repair guarantees

  /** A header whose counts are wrong is rewritten to a different line; any other is left alone. */
  lemma WrongIffRewritten(line: string, t: Tally)
    ensures WrongHeader(line, t) <==> FixHeader(line, t) != line
    ensures ParseHunk(FixHeader(line, t)).Some? <==> ParseHunk(line).Some?
    ensures !WrongHeader(FixHeader(line, t), t)
  {
    if ParseHunk(line).Some? {
      var h := ParseHunk(line).value;
      HeaderRoundTrip(h.oldStart, t.oldCount, h.newStart, t.newCount, h.suffix);
    }
  }

  lemma ShownWithoutCounts(oldStart: nat, newStart: nat, suffix: string)
    ensures ShowHunk(Hunk(oldStart, None, newStart, None, suffix))
         == "@@ -" + (Show(oldStart) + (" +" + (Show(newStart) + (" @@" + suffix))))
  {
  }

  /** A header without counts stands for one line on each side, and is left alone exactly above such a body. */
  lemma NoCountMeansOne(oldStart: nat, newStart: nat, suffix: string, t: Tally)
    ensures var line := "@@ -" + (Show(oldStart) + (" +" + (Show(newStart) + (" @@" + suffix))));
      && ParseHunk(line) == Some(Hunk(oldStart, None, newStart, None, suffix))
      && (FixHeader(line, t) == line <==> t.oldCount == 1 && t.newCount == 1)
  {
    hide ParseHunk, FixHeader, ShowHunk, Show;
    var line := "@@ -" + (Show(oldStart) + (" +" + (Show(newStart) + (" @@" + suffix))));
    ShownWithoutCounts(oldStart, newStart, suffix);
    AnyHeaderRoundTrip(Hunk(oldStart, None, newStart, None, suffix));
    WrongIffRewritten(line, t);
  }

  /** A header is never part of a body. */
  lemma HeaderEndsBody(line: string)
    requires ParseHunk(line).Some?
    ensures EndsBody(line)
  {
  }

  /** Which lines are headers, and which end a body, does not change. */
  ghost predicate SameShape(a: seq<string>, b: seq<string>) {
    && |a| == |b|
    && forall i | 0 <= i < |a| ::
         && (ParseHunk(a[i]).Some? <==> ParseHunk(b[i]).Some?)
         && (ParseHunk(a[i]).None? ==> b[i] == a[i])
  }

  lemma {:induction false} SameTally(a: seq<string>, b: seq<string>)
    requires SameShape(a, b)
    ensures TallyOf(a) == TallyOf(b)
  {
    hide ParseHunk, StartsWith;
    if a != [] {
      if ParseHunk(a[0]).Some? {
        HeaderEndsBody(a[0]);
        HeaderEndsBody(b[0]);
      } else {
        SameTally(a[1..], b[1..]);
      }
    }
  }

  /** Only headers are touched, in place: the other lines stay as they are and where they are. */
  lemma {:induction false} FixKeepsShape(lines: seq<string>)
    ensures SameShape(lines, Fix(lines))
    decreases |lines|
  {
    hide ParseHunk, StartsWith;
    if lines != [] {
      if ParseHunk(lines[0]).None? {
        FixKeepsShape(lines[1..]);
      } else {
        var t := TallyOf(lines[1..]);
        WrongIffRewritten(lines[0], t);
        FixKeepsShape(lines[1 + t.len..]);
        assert lines == [lines[0]] + lines[1..1 + t.len] + lines[1 + t.len..];
      }
    }
  }

  /** The header at `i` of the repaired file counts exactly its own body. */
  lemma {:induction false} FixAt(lines: seq<string>, i: nat)
    requires i < |lines|
    ensures |Fix(lines)| == |lines|
    ensures Fix(lines)[i] == FixHeader(lines[i], TallyOf(lines[i + 1..]))
    decreases |lines|
  {
    hide ParseHunk, StartsWith;
    FixKeepsShape(lines);
    if ParseHunk(lines[0]).None? {
      if i > 0 {
        FixAt(lines[1..], i - 1);
        assert lines[1..][i..] == lines[i + 1..];
      }
    } else {
      var t := TallyOf(lines[1..]);
      if i > t.len {
        FixAt(lines[1 + t.len..], i - 1 - t.len);
        assert lines[1 + t.len..][i - t.len..] == lines[i + 1..];
      } else if i > 0 {
        TallyCounts(lines[1..]);
        assert !EndsBody(lines[1..][i - 1]);
        assert lines[1..][i - 1] == lines[i];
      }
    }
  }

  /**
    Every header of the repaired file states the number of old-side and of new-side lines in the
    body the scanner gives it, keeps its line numbers and its trailing text, and every other line
    is untouched.
   */
  lemma FixedHeaderCountsItsBody(lines: seq<string>, i: nat)
    requires i < |lines|
    ensures |Fix(lines)| == |lines|
    ensures ParseHunk(lines[i]).None? ==> Fix(lines)[i] == lines[i]
    ensures ParseHunk(lines[i]).Some? ==>
      var h, t := ParseHunk(lines[i]).value, TallyOf(lines[i + 1..]);
      && ParseHunk(Fix(lines)[i]).Some?
      && var g := ParseHunk(Fix(lines)[i]).value;
         && Stated(g.oldCount) == Count(OldSide, lines[i + 1..][..t.len])
         && Stated(g.newCount) == Count(NewSide, lines[i + 1..][..t.len])
         && g.oldStart == h.oldStart && g.newStart == h.newStart && g.suffix == h.suffix
         && Fix(lines)[i + 1..][..t.len] == lines[i + 1..][..t.len]
  {
    FixAt(lines, i);
    FixKeepsShape(lines);
    if ParseHunk(lines[i]).Some? {
      FixedHeader(lines[i], TallyOf(lines[i + 1..]));
      TallyCounts(lines[i + 1..]);
      BodyKept(lines, i);
    }
  }

  lemma FixedHeader(line: string, t: Tally)
    requires ParseHunk(line).Some?
    ensures var h := ParseHunk(line).value;
      && ParseHunk(FixHeader(line, t)).Some?
      && var g := ParseHunk(FixHeader(line, t)).value;
         Stated(g.oldCount) == t.oldCount && Stated(g.newCount) == t.newCount
         && g.oldStart == h.oldStart && g.newStart == h.newStart && g.suffix == h.suffix
  {
    var h := ParseHunk(line).value;
    HeaderRoundTrip(h.oldStart, t.oldCount, h.newStart, t.newCount, h.suffix);
  }

  lemma BodyKept(lines: seq<string>, i: nat)
    requires i < |lines|
    ensures |Fix(lines)| == |lines|
    ensures var n := TallyOf(lines[i + 1..]).len; Fix(lines)[i + 1..][..n] == lines[i + 1..][..n]
  {
    hide ParseHunk, StartsWith;
    FixKeepsShape(lines);
    TallyCounts(lines[i + 1..]);
    var below, fixed := lines[i + 1..], Fix(lines)[i + 1..];
    forall k: nat | k < TallyOf(below).len
      ensures fixed[k] == below[k]
    {
      assert !EndsBody(below[k]);
      assert below[k] == lines[i + 1 + k];
    }
  }

  lemma DiffersInPart(h: string, h': string, body: seq<string>, r: seq<string>, r': seq<string>)
    ensures [h'] + body + r' == [h] + body + r <==> h' == h && r' == r
  {
    assert ([h] + body + r)[0] == h && ([h'] + body + r')[0] == h';
    assert ([h] + body + r)[1 + |body|..] == r && ([h'] + body + r')[1 + |body|..] == r';
  }

  /** Check mode reports a change exactly when the rewrite makes one. */
  lemma {:induction false} ChangedIffDifferent(lines: seq<string>)
    ensures Changed(lines) <==> Fix(lines) != lines
    decreases |lines|
  {
    hide ParseHunk, StartsWith, TallyOf, FixHeader, WrongHeader;
    if lines != [] {
      if ParseHunk(lines[0]).None? {
        ChangedIffDifferent(lines[1..]);
        assert lines == [lines[0]] + [] + lines[1..];
        DiffersInPart(lines[0], lines[0], [], lines[1..], Fix(lines[1..]));
      } else {
        var t := TallyOf(lines[1..]);
        WrongIffRewritten(lines[0], t);
        ChangedIffDifferent(lines[1 + t.len..]);
        assert lines == [lines[0]] + lines[1..1 + t.len] + lines[1 + t.len..];
        DiffersInPart(lines[0], FixHeader(lines[0], t), lines[1..1 + t.len], lines[1 + t.len..], Fix(lines[1 + t.len..]));
      }
    }
  }

  /** A second run changes nothing. */
  lemma FixIsIdempotent(lines: seq<string>)
    ensures Fix(Fix(lines)) == Fix(lines) && !Changed(Fix(lines))
  {
    hide ParseHunk, StartsWith, TallyOf, FixHeader, WrongHeader, Fix, Changed;
    var once := Fix(lines);
    FixKeepsShape(lines);
    FixKeepsShape(once);
    forall i | 0 <= i < |once|
      ensures Fix(once)[i] == once[i]
    {
      FixAt(lines, i);
      FixAt(once, i);
      SameTally(lines[i + 1..], once[i + 1..]);
      WrongIffRewritten(lines[i], TallyOf(lines[i + 1..]));
      WrongIffRewritten(once[i], TallyOf(lines[i + 1..]));
    }
    ChangedIffDifferent(once);
  }

  // ------------------------------------------------------------------ files

  /** `str.splitlines` ends a line here; universal newlines have removed every carriage return. */
  predicate IsBreak(c: char) {
    || c == '\n' || c == '\U{0B}' || c == '\U{0C}' || c == '\U{1C}' || c == '\U{1D}' || c == '\U{1E}'
    || c == '\U{85}' || c == '\U{2028}' || c == '\U{2029}'
  }

  function FirstBreak(text: string): (n: nat)
    ensures n <= |text| && forall i | 0 <= i < n :: !IsBreak(text[i])
    ensures n < |text| ==> IsBreak(text[n])
  {
    if text == "" || IsBreak(text[0]) then 0 else 1 + FirstBreak(text[1..])
  }

  function Lines(text: string): (lines: seq<string>)
    ensures forall i | 0 <= i < |lines| :: OneLine(lines[i])
    decreases |text|
  {
    if text == "" then []
    else
      var n := FirstBreak(text);
      [text[..n]] + if n == |text| then [] else Lines(text[n + 1..])
  }

  predicate OneLine(line: string) {
    forall i | 0 <= i < |line| :: !IsBreak(line[i])
  }

  /** Every line, each with its newline. */
  function Join(lines: seq<string>): string {
    if lines == [] then "" else lines[0] + ("\n" + Join(lines[1..]))
  }

  lemma {:induction false} FirstBreakIs(line: string, rest: string)
    requires OneLine(line)
    ensures FirstBreak(line + ("\n" + rest)) == |line|
  {
    if line != "" {
      assert (line + ("\n" + rest))[1..] == line[1..] + ("\n" + rest);
      FirstBreakIs(line[1..], rest);
    }
  }

  /** What was written is what is read back. */
  lemma {:induction false} JoinThenLines(lines: seq<string>)
    requires forall i | 0 <= i < |lines| :: OneLine(lines[i])
    ensures Lines(Join(lines)) == lines
  {
    if lines != [] {
      var rest := Join(lines[1..]);
      FirstBreakIs(lines[0], rest);
      JoinThenLines(lines[1..]);
      assert Join(lines)[..|lines[0]|] == lines[0];
      assert Join(lines)[|lines[0]| + 1..] == rest;
    }
  }

  /** The file after the tool has run on it. */
  function FixText(text: string): string {
    if Changed(Lines(text)) then Join(Fix(Lines(text))) else text
  }

  lemma ShowIsOneLine(n: nat)
    ensures OneLine(Show(n))
  {
    assert forall c: char | IsDigit(c) :: !IsBreak(c);
  }

  lemma HeaderIsOneLine(oldStart: nat, oldCount: nat, newStart: nat, newCount: nat, suffix: string)
    requires OneLine(suffix)
    ensures OneLine(Render(oldStart, oldCount, newStart, newCount, suffix))
  {
    ShowIsOneLine(oldStart);
    ShowIsOneLine(oldCount);
    ShowIsOneLine(newStart);
    ShowIsOneLine(newCount);
    OneLineConcat(" @@", suffix);
    OneLineConcat(Show(newStart) + "," + Show(newCount), " @@" + suffix);
    OneLineConcat(" +", Show(newStart) + "," + Show(newCount) + (" @@" + suffix));
    OneLineConcat(Show(oldStart) + "," + Show(oldCount), " +" + (Show(newStart) + "," + Show(newCount) + (" @@" + suffix)));
  }

  lemma OneLineConcat(a: string, b: string)
    requires OneLine(a) && OneLine(b)
    ensures OneLine(a + b)
  {
  }

  /** The suffix of a header is a piece of its line. */
  lemma SuffixIsOneLine(line: string)
    requires OneLine(line) && ParseHunk(line).Some?
    ensures OneLine(ParseHunk(line).value.suffix)
  {
    var a := ParseRange(line[4..]).value;
    RestIsOneLine(line[4..]);
    RestIsOneLine(a.rest[2..]);
  }

  lemma RestIsOneLine(s: string)
    requires OneLine(s) && ParseRange(s).Some?
    ensures OneLine(ParseRange(s).value.rest)
  {
  }

  /** Running the tool again on the file it has written leaves the file as it is. */
  lemma FixTextIsIdempotent(text: string)
    ensures FixText(FixText(text)) == FixText(text)
  {
    hide ParseHunk, Fix, Changed, Join, TallyOf, FixHeader;
    var lines := Lines(text);
    if Changed(lines) {
      FixIsIdempotent(lines);
      FixKeepsShape(lines);
      forall i | 0 <= i < |lines|
        ensures OneLine(Fix(lines)[i])
      {
        FixAt(lines, i);
        FixHeaderIsOneLine(lines[i], TallyOf(lines[i + 1..]));
      }
      JoinThenLines(Fix(lines));
    }
  }

  lemma FixHeaderIsOneLine(line: string, t: Tally)
    requires OneLine(line)
    ensures OneLine(FixHeader(line, t))
  {
    hide ParseHunk, OneLine, Render;
    if ParseHunk(line).Some? {
      SuffixIsOneLine(line);
      var h := ParseHunk(line).value;
      HeaderIsOneLine(h.oldStart, t.oldCount, h.newStart, t.newCount, h.suffix);
    }
  }

  // ------------------------------------------------------------------ where the code and its description differ

  /** The documented counts: ' ' and '-' lines are old, ' ' and '+' lines are new, without exception. */
  predicate DocumentedBodyLine(line: string) {
    line == "" || StartsWith(line, " ") || StartsWith(line, "-") || StartsWith(line, "+") || StartsWith(line, "\\")
  }

  /**
    A body line ends the scan exactly when it reads like a file marker: a removed line that itself
    starts with "--", or an added one that starts with "++". Everything below it goes uncounted.
   */
  lemma MarkerCutsBodyIff(line: string)
    requires DocumentedBodyLine(line)
    ensures EndsBody(line) <==> StartsWith(line, "---") || StartsWith(line, "+++")
  {
    HeaderStart(line);
    hide ParseHunk;
    FirstChar(line, "diff --git ");
    FirstChar(line, "---");
    FirstChar(line, "+++");
    FirstChar(line, "-");
    FirstChar(line, "+");
    FirstChar(line, " ");
    FirstChar(line, "\\");
  }

  lemma HeaderStart(line: string)
    ensures ParseHunk(line).Some? ==> |line| > 0 && line[0] == '@'
  {
    assert StartsWith(line, "@@ -") ==> line[0] == line[..4][0];
  }

  lemma FirstChar(line: string, p: string)
    requires p != ""
    ensures StartsWith(line, p) ==> |line| > 0 && line[0] == p[0]
    ensures |p| == 1 && |line| > 0 && line[0] == p[0] ==> StartsWith(line, p)
  {
    if StartsWith(line, p) {
      assert line[..|p|][0] == line[0];
    }
    assert |p| == 1 && |line| > 0 && line[0] == p[0] ==> line[..1] == p;
  }

  /** The old-side count the description promises: every ' ', '-' and blank line. */
  predicate DocumentedOld(line: string) {
    line == "" || StartsWith(line, " ") || StartsWith(line, "-")
  }

  predicate DocumentedNew(line: string) {
    line == "" || StartsWith(line, " ") || StartsWith(line, "+")
  }

  /** What the description promises for a hunk with this body. */
  function DocumentedTally(body: seq<string>): Tally {
    Tally(|body|, Count(DocumentedOld, body), Count(DocumentedNew, body))
  }

  predicate IsMarker(line: string) {
    StartsWith(line, "---") || StartsWith(line, "+++")
  }

  /** One body line that is no marker is counted as documented; a marker is counted as nothing. */
  lemma DocumentedLine(line: string)
    requires DocumentedBodyLine(line)
    ensures EndsBody(line) <==> IsMarker(line)
    ensures !IsMarker(line) ==> (OldSide(line) == DocumentedOld(line) && NewSide(line) == DocumentedNew(line))
    ensures IsMarker(line) ==> DocumentedOld(line) || DocumentedNew(line)
  {
    MarkerCutsBodyIff(line);
    hide ParseHunk;
    FirstChar(line, "---");
    FirstChar(line, "+++");
    FirstChar(line, "-");
    FirstChar(line, "+");
  }

  /** The scanner never counts more than is documented. */
  lemma {:induction false} CountsAtMost(body: seq<string>, rest: seq<string>)
    requires forall i | 0 <= i < |body| :: DocumentedBodyLine(body[i])
    requires rest == [] || EndsBody(rest[0])
    ensures var t, d := TallyOf(body + rest), DocumentedTally(body);
      t.len <= |body| && t.oldCount <= d.oldCount && t.newCount <= d.newCount
  {
    hide ParseHunk, StartsWith, EndsBody, OldSide, NewSide, DocumentedOld, DocumentedNew, DocumentedBodyLine, IsMarker;
    if body == [] {
      assert body + rest == rest;
    } else {
      assert (body + rest)[1..] == body[1..] + rest;
      DocumentedLine(body[0]);
      CountsAtMost(body[1..], rest);
    }
  }

  /**
    A hunk gets its documented counts if and only if no line of its body reads like a file
    marker, that is, removes a line starting with "--" or adds one starting with "++".
   */
  lemma {:induction false} DocumentedCountsIff(body: seq<string>, rest: seq<string>)
    requires forall i | 0 <= i < |body| :: DocumentedBodyLine(body[i])
    requires rest == [] || EndsBody(rest[0])
    ensures var t, d := TallyOf(body + rest), DocumentedTally(body);
      (t.oldCount == d.oldCount && t.newCount == d.newCount) <==> forall i | 0 <= i < |body| :: !IsMarker(body[i])
  {
    hide ParseHunk, StartsWith, EndsBody, OldSide, NewSide, DocumentedOld, DocumentedNew, DocumentedBodyLine, IsMarker;
    if body == [] {
      assert body + rest == rest;
    } else {
      assert (body + rest)[1..] == body[1..] + rest;
      DocumentedLine(body[0]);
      CountsAtMost(body[1..], rest);
      DocumentedCountsIff(body[1..], rest);
      assert (forall i | 0 <= i < |body| :: !IsMarker(body[i]))
        <==> !IsMarker(body[0]) && forall i | 0 <= i < |body[1..]| :: !IsMarker(body[1..][i]);
    }
  }

  /** So the header that the repair writes above such a hunk states the documented counts, or does not. */
  lemma HeaderDocumentedIff(header: string, body: seq<string>, rest: seq<string>)
    requires ParseHunk(header).Some?
    requires forall i | 0 <= i < |body| :: DocumentedBodyLine(body[i])
    requires rest == [] || EndsBody(rest[0])
    ensures |Fix([header] + body + rest)| > 0 && ParseHunk(Fix([header] + body + rest)[0]).Some?
    ensures var g := ParseHunk(Fix([header] + body + rest)[0]).value;
      (Stated(g.oldCount) == Count(DocumentedOld, body) && Stated(g.newCount) == Count(DocumentedNew, body))
      <==> forall i | 0 <= i < |body| :: !IsMarker(body[i])
  {
    hide ParseHunk, StartsWith, EndsBody, DocumentedOld, DocumentedNew, DocumentedBodyLine, IsMarker, TallyOf, Fix, FixHeader;
    var lines := [header] + body + rest;
    assert lines[1..] == body + rest;
    FixAt(lines, 0);
    FixedHeader(header, TallyOf(lines[1..]));
    DocumentedCountsIff(body, rest);
  }

  /** A hunk of one counted line, cut by a marker line. */
  lemma HunkCutByMarker(header: string, x: string, m: string)
    requires ParseHunk(header).Some? && !EndsBody(x) && EndsBody(m) && ParseHunk(m).None?
    ensures var t := Tally(1, if OldSide(x) then 1 else 0, if NewSide(x) then 1 else 0);
      && Fix([header, x, m]) == [FixHeader(header, t), x, m]
      && (Changed([header, x, m]) <==> WrongHeader(header, t))
  {
    hide ParseHunk, StartsWith, FixHeader, WrongHeader, OldSide, NewSide, EndsBody;
    var lines := [header, x, m];
    assert lines[1..] == [x, m] && lines[1..2] == [x] && lines[2..] == [m];
    assert [x, m][1..] == [m] && [m][1..] == [];
    assert TallyOf([m]) == Tally(0, 0, 0);
    assert Fix([m]) == [m] && !Changed([m]);
  }

  /** A right header made wrong: the hunk removes the line "-- x". */
  lemma RightHeaderBroken()
    ensures var lines := ["@@ -1,2 +1,1 @@", " a", "--- x"];
      Fix(lines) == ["@@ -1,1 +1,1 @@", " a", "--- x"] && Changed(lines)
  {
    hide ParseHunk, Fix, Changed;
    assert DigitOf(1) == '1' && DigitOf(2) == '2';
    HeaderRoundTrip(1, 2, 1, 1, "");
    assert Render(1, 2, 1, 1, "") == "@@ -1,2 +1,1 @@";
    assert Render(1, 1, 1, 1, "") == "@@ -1,1 +1,1 @@";
    var a, m := " a", "--- x";
    MarkerCutsBodyIff(a);
    MarkerCutsBodyIff(m);
    HeaderStart(m);
    HunkCutByMarker("@@ -1,2 +1,1 @@", a, m);
  }
}
