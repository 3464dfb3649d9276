/** CPython's `datetime.strptime` for the directives the Python loader uses:
    %Y, %m, %d, %H, %M, %S and a literal ';'. `_strptime` turns the format
    into a regular expression with one group per directive, each group an
    alternation tried left to right, matches it at the start of the string
    with backtracking, and rejects a match that stops short of the end.
    Unlike the exact formats of the C# loader, %m, %d, %H, %M and %S also
    accept a single digit, and %d a blank followed by a digit. */
module Strptime {
  import opened Wrappers
  import opened Dates

  /** One character position of an alternative. */
  datatype Atom = AnyDigit | Exactly(c: char) | Between(lo: char, hi: char)

  predicate AtomMatches(a: Atom, c: char) {
    match a
    case AnyDigit => IsDigit(c)
    case Exactly(x) => c == x
    case Between(lo, hi) => lo <= c <= hi
  }

  type Alternative = seq<Atom>

  /** A directive's group: its alternatives in the order they are tried. */
  type Field = seq<Alternative>

  type Format = seq<Field>

  /** The alternative matches the characters of `s` starting at `pos`. */
  predicate PatternAt(p: Alternative, s: string, pos: nat) {
    pos + |p| <= |s| && forall j | 0 <= j < |p| :: AtomMatches(p[j], s[pos + j])
  }

  const Year: Field := [[AnyDigit, AnyDigit, AnyDigit, AnyDigit]]
  const Month: Field := [[Exactly('1'), Between('0', '2')], [Exactly('0'), Between('1', '9')], [Between('1', '9')]]
  const Day: Field :=
    [[Exactly('3'), Between('0', '1')], [Between('1', '2'), AnyDigit], [Exactly('0'), Between('1', '9')],
     [Between('1', '9')], [Exactly(' '), Between('1', '9')]]
  const Hour: Field := [[Exactly('2'), Between('0', '3')], [Between('0', '1'), AnyDigit], [AnyDigit]]
  const Minute: Field := [[Between('0', '5'), AnyDigit], [AnyDigit]]
  const Second: Field := [[Exactly('6'), Between('0', '1')], [Between('0', '5'), AnyDigit], [AnyDigit]]
  const Semicolon: Field := [[Exactly(';')]]

  /** "%Y%m%d;%H%M%S" and "%Y%m%d". */
  const StampFormat: Format := [Year, Month, Day, Semicolon, Hour, Minute, Second]
  const DayFormat: Format := [Year, Month, Day]

  /** The text each group captured, and where the match ends. */
  datatype Match = Match(pieces: seq<string>, end: nat)

  /** The first match, in backtracking order, of fields `i..` of `fs` at
      `pos`, trying the alternatives of field `i` from the `k`-th on. */
  function Search(fs: Format, i: nat, k: nat, s: string, pos: nat): (r: Option<Match>)
    requires i <= |fs| && pos <= |s|
    requires i < |fs| ==> k <= |fs[i]|
    ensures r.Some? ==> pos <= r.value.end <= |s| && |r.value.pieces| == |fs| - i
    decreases |fs| - i, if i < |fs| then |fs[i]| - k else 0
  {
    if i == |fs| then Some(Match([], pos))
    else if k == |fs[i]| then None
    else
      var alt := fs[i][k];
      if PatternAt(alt, s, pos) then
        match Search(fs, i + 1, 0, s, pos + |alt|)
        case Some(m) => Some(Match([s[pos..pos + |alt|]] + m.pieces, m.end))
        case None => Search(fs, i, k + 1, s, pos)
      else Search(fs, i, k + 1, s, pos)
  }

  /** `re.match` followed by the "unconverted data remains" check: the
      captured pieces of a match that consumes all of `s`. */
  function Strptime(fs: Format, s: string): (r: Option<seq<string>>)
    ensures r.Some? ==> |r.value| == |fs|
  {
    match Search(fs, 0, 0, s, 0)
    case Some(m) => if m.end == |s| then Some(m.pieces) else None
    case None => None
  }

  /** Python `int` of a captured piece, which may start with a blank. */
  function IntOf(p: string): nat {
    if |p| > 0 && p[0] == ' ' then (if AllDigits(p[1..]) then DigitsValue(p[1..]) else 0)
    else if AllDigits(p) then DigitsValue(p) else 0
  }

  /** `datetime.strptime(s, "%Y%m%d;%H%M%S")`; `None` where it raises
      ValueError, including for a match that names no valid timestamp. */
  function PyStamp(s: string): (t: Option<DateTime>)
    ensures t.Some? ==> ValidDateTime(t.value)
  {
    match Strptime(StampFormat, s)
    case None => None
    case Some(ps) =>
      var t := DateTime(Date(IntOf(ps[0]), IntOf(ps[1]), IntOf(ps[2])), IntOf(ps[4]), IntOf(ps[5]), IntOf(ps[6]));
      if ValidDateTime(t) then Some(t) else None
  }

  /** `datetime.strptime(s, "%Y%m%d").date()`. */
  function PyDay(s: string): (d: Option<Date>)
    ensures d.Some? ==> ValidDate(d.value)
  {
    match Strptime(DayFormat, s)
    case None => None
    case Some(ps) =>
      var d := Date(IntOf(ps[0]), IntOf(ps[1]), IntOf(ps[2]));
      if ValidDate(d) then Some(d) else None
  }

  /** The two formats in order, a bare date at 23:59:59. */
  function PyReadDate(s: string): (t: Option<DateTime>)
    ensures t.Some? ==> ValidDateTime(t.value)
    ensures PyStamp(s).Some? ==> t == PyStamp(s)
    ensures PyStamp(s).None? && PyDay(s).Some? ==> t == Some(DateTime(PyDay(s).value, 23, 59, 59))
  {
    match PyStamp(s)
    case Some(t) => Some(t)
    case None =>
      match PyDay(s)
      case Some(d) => Some(DateTime(d, 23, 59, 59))
      case None => None
  }

  /** loader.py `_parse_clean_date`: a missing or empty string raises
      "Leeres Datum", an unreadable one "Unbekanntes Format". */
  function ParseCleanDate(s: Option<string>): (r: Attempt<DateTime>)
    ensures r.Returned? ==> ValidDateTime(r.value)
    ensures s.None? || s.value == "" ==> r == Raised(ValueError("Leeres Datum"))
    ensures s.Some? && s.value != "" ==> (r.Returned? <==> PyReadDate(s.value).Some?)
    ensures r.Returned? ==> r.value == PyReadDate(s.value).value
  {
    if s.None? || s.value == "" then Raised(ValueError("Leeres Datum"))
    else match PyReadDate(s.value)
      case Some(t) => Returned(t)
      case None => Raised(ValueError("Unbekanntes Format: '" + s.value + "'"))
  }

  // What a match is made of

  /** Some alternative of the field of width `w` matches at `pos`. */
  ghost predicate AltOfWidth(f: Field, w: nat, s: string, pos: nat) {
    exists a | 0 <= a < |f| :: |f[a]| == w && PatternAt(f[a], s, pos)
  }

  /** `pieces` are consecutive slices of `s` from `pos` to `end`, each
      matched by an alternative of its field. */
  ghost predicate Parses(fs: Format, i: nat, s: string, pos: nat, pieces: seq<string>, end: nat)
    requires i <= |fs|
    decreases |fs| - i
  {
    if i == |fs| then pieces == [] && end == pos
    else
      && |pieces| > 0 && pos + |pieces[0]| <= |s| && pieces[0] == s[pos..pos + |pieces[0]|]
      && AltOfWidth(fs[i], |pieces[0]|, s, pos)
      && Parses(fs, i + 1, s, pos + |pieces[0]|, pieces[1..], end)
  }

  /** Whatever the search returns is a parse. */
  lemma {:induction false} SearchSound(fs: Format, i: nat, k: nat, s: string, pos: nat)
    requires i <= |fs| && pos <= |s|
    requires i < |fs| ==> k <= |fs[i]|
    ensures Search(fs, i, k, s, pos).Some? ==>
      Parses(fs, i, s, pos, Search(fs, i, k, s, pos).value.pieces, Search(fs, i, k, s, pos).value.end)
    decreases |fs| - i, if i < |fs| then |fs[i]| - k else 0
  {
    if i < |fs| && k < |fs[i]| {
      var alt := fs[i][k];
      SearchSound(fs, i, k + 1, s, pos);
      if PatternAt(alt, s, pos) {
        SearchSound(fs, i + 1, 0, s, pos + |alt|);
        var rest := Search(fs, i + 1, 0, s, pos + |alt|);
        if rest.Some? {
          var m := Search(fs, i, k, s, pos).value;
          assert m.pieces[0] == s[pos..pos + |alt|];
          assert m.pieces[1..] == rest.value.pieces;
          assert AltOfWidth(fs[i], |alt|, s, pos);
        }
      }
    }
  }

  /** Alternative `a` is the first of the field to match at `pos`. */
  predicate FirstMatching(f: Field, a: nat, s: string, pos: nat) {
    a < |f| && PatternAt(f[a], s, pos) && forall b | 0 <= b < a :: !PatternAt(f[b], s, pos)
  }

  lemma {:induction false} SearchFirstFrom(fs: Format, i: nat, k: nat, a: nat, s: string, pos: nat, rest: seq<string>, end: nat)
    requires i < |fs| && pos <= |s| && k <= a < |fs[i]|
    requires PatternAt(fs[i][a], s, pos) && forall b | k <= b < a :: !PatternAt(fs[i][b], s, pos)
    requires Search(fs, i + 1, 0, s, pos + |fs[i][a]|) == Some(Match(rest, end))
    ensures Search(fs, i, k, s, pos) == Some(Match([s[pos..pos + |fs[i][a]|]] + rest, end))
    decreases a - k
  {
    if k < a {
      SearchFirstFrom(fs, i, k + 1, a, s, pos, rest, end);
    }
  }

  /** When the first alternative that matches, `w` characters wide, can be
      continued, the search takes it. */
  lemma SearchFirst(fs: Format, i: nat, a: nat, w: nat, s: string, pos: nat, rest: seq<string>, end: nat)
    requires i < |fs| && pos <= |s| && FirstMatching(fs[i], a, s, pos) && |fs[i][a]| == w
    requires Search(fs, i + 1, 0, s, pos + w) == Some(Match(rest, end))
    ensures Search(fs, i, 0, s, pos) == Some(Match([s[pos..pos + w]] + rest, end))
  {
    SearchFirstFrom(fs, i, 0, a, s, pos, rest, end);
  }

  /** A field that matches nowhere makes every search through it fail. */
  lemma {:induction false} SearchBlocked(fs: Format, j: nat, i: nat, k: nat, s: string, pos: nat)
    requires i <= j < |fs| && pos <= |s|
    requires k <= |fs[i]|
    requires forall b, q | 0 <= b < |fs[j]| && 0 <= q <= |s| :: !PatternAt(fs[j][b], s, q)
    ensures Search(fs, i, k, s, pos).None?
    decreases |fs| - i, |fs[i]| - k
  {
    if k < |fs[i]| {
      SearchBlocked(fs, j, i, k + 1, s, pos);
      if i < j && PatternAt(fs[i][k], s, pos) {
        SearchBlocked(fs, j, i + 1, 0, s, pos + |fs[i][k]|);
      }
    }
  }

  // The fields on digits

  /** An alternative whose first position rejects the character at `pos`
      does not match there. */
  lemma FirstAtomFails(p: Alternative, s: string, pos: nat)
    requires |p| > 0 && pos < |s| && !AtomMatches(p[0], s[pos])
    ensures !PatternAt(p, s, pos)
  {
    assert s[pos + 0] == s[pos];
  }

  /** The value of two decimal digits. */
  lemma TwoDigits(x: string)
    requires |x| == 2 && AllDigits(x)
    ensures DigitsValue(x) == 10 * (x[0] as int - '0' as int) + (x[1] as int - '0' as int)
  {
    assert x[..1][..0] == [];
    assert x[..1] == [x[0]];
  }

  ghost predicate DigitsAt(s: string, pos: nat, n: nat) {
    pos + n <= |s| && forall j | pos <= j < pos + n :: IsDigit(s[j])
  }

  lemma TwoAt(s: string, pos: nat)
    requires DigitsAt(s, pos, 2)
    ensures AllDigits(s[pos..pos + 2])
    ensures DigitsValue(s[pos..pos + 2]) == 10 * (s[pos] as int - '0' as int) + (s[pos + 1] as int - '0' as int)
  {
    var x := s[pos..pos + 2];
    assert x[0] == s[pos] && x[1] == s[pos + 1];
    assert AllDigits(x);
    TwoDigits(x);
  }

  /** The widths of the alternatives of each field. */
  lemma FieldWidths(w: nat, s: string, pos: nat)
    ensures AltOfWidth(Year, w, s, pos) ==> w == 4
    ensures AltOfWidth(Month, w, s, pos) ==> 1 <= w <= 2
    ensures AltOfWidth(Day, w, s, pos) ==> 1 <= w <= 2
    ensures AltOfWidth(Hour, w, s, pos) ==> 1 <= w <= 2
    ensures AltOfWidth(Minute, w, s, pos) ==> 1 <= w <= 2
    ensures AltOfWidth(Second, w, s, pos) ==> 1 <= w <= 2
    ensures AltOfWidth(Semicolon, w, s, pos) ==> w == 1 && s[pos] == ';'
  {
    if AltOfWidth(Semicolon, w, s, pos) {
      var a :| 0 <= a < |Semicolon| && |Semicolon[a]| == w && PatternAt(Semicolon[a], s, pos);
      assert AtomMatches(Semicolon[a][0], s[pos + 0]);
    }
  }

  /** A month 1 to 12 is matched by a two-digit alternative first. */
  lemma MonthFirst(s: string, pos: nat) returns (a: nat)
    requires DigitsAt(s, pos, 2) && 1 <= DigitsValue(s[pos..pos + 2]) <= 12
    ensures FirstMatching(Month, a, s, pos) && |Month[a]| == 2
  {
    TwoAt(s, pos);
    if s[pos] == '1' { a := 0; } else { a := 1; FirstAtomFails(Month[0], s, pos); }
  }

  /** A day 1 to 31 is matched by a two-digit alternative first. */
  lemma DayFirst(s: string, pos: nat) returns (a: nat)
    requires DigitsAt(s, pos, 2) && 1 <= DigitsValue(s[pos..pos + 2]) <= 31
    ensures FirstMatching(Day, a, s, pos) && |Day[a]| == 2
  {
    TwoAt(s, pos);
    if s[pos] == '3' {
      a := 0;
    } else if s[pos] == '0' {
      a := 2;
      FirstAtomFails(Day[0], s, pos);
      FirstAtomFails(Day[1], s, pos);
    } else {
      a := 1;
      FirstAtomFails(Day[0], s, pos);
    }
  }

  /** An hour 0 to 23 is matched by a two-digit alternative first. */
  lemma HourFirst(s: string, pos: nat) returns (a: nat)
    requires DigitsAt(s, pos, 2) && DigitsValue(s[pos..pos + 2]) <= 23
    ensures FirstMatching(Hour, a, s, pos) && |Hour[a]| == 2
  {
    TwoAt(s, pos);
    if s[pos] == '2' { a := 0; } else { a := 1; FirstAtomFails(Hour[0], s, pos); }
  }

  /** A minute 0 to 59 is matched by a two-digit alternative first. */
  lemma MinuteFirst(s: string, pos: nat) returns (a: nat)
    requires DigitsAt(s, pos, 2) && DigitsValue(s[pos..pos + 2]) <= 59
    ensures FirstMatching(Minute, a, s, pos) && |Minute[a]| == 2
  {
    TwoAt(s, pos);
    a := 0;
  }

  /** A second 0 to 61 is matched by a two-digit alternative first. */
  lemma SecondFirst(s: string, pos: nat) returns (a: nat)
    requires DigitsAt(s, pos, 2) && DigitsValue(s[pos..pos + 2]) <= 61
    ensures FirstMatching(Second, a, s, pos) && |Second[a]| == 2
  {
    TwoAt(s, pos);
    if s[pos] == '6' { a := 0; } else { a := 1; FirstAtomFails(Second[0], s, pos); }
  }

  // The two fixed shapes

  lemma StampDigits(s: string)
    requires StampShaped(s)
    ensures DigitsAt(s, 0, 8) && DigitsAt(s, 9, 6)
  {
    forall j | 0 <= j < 8 ensures IsDigit(s[j]) {
      assert s[j] == s[..8][j];
    }
    forall j | 9 <= j < 15 ensures IsDigit(s[j]) {
      assert s[j] == s[9..][j - 9];
    }
  }

  /** Four digits are one year piece, and the value C# reads from them. */
  lemma YearAt(s: string, pos: nat)
    requires DigitsAt(s, pos, 4)
    ensures AllDigits(s[pos..pos + 4]) && FirstMatching(Year, 0, s, pos)
  {
    var x := s[pos..pos + 4];
    assert forall j | 0 <= j < 4 :: x[j] == s[pos + j];
  }

  // One field of a search at a time: in range, each takes two digits

  lemma YearStep(fs: Format, i: nat, s: string, pos: nat, rest: seq<string>, end: nat)
    requires i < |fs| && fs[i] == Year && DigitsAt(s, pos, 4)
    requires Search(fs, i + 1, 0, s, pos + 4) == Some(Match(rest, end))
    ensures Search(fs, i, 0, s, pos) == Some(Match([s[pos..pos + 4]] + rest, end))
  {
    YearAt(s, pos);
    SearchFirst(fs, i, 0, 4, s, pos, rest, end);
  }

  lemma MonthStep(fs: Format, i: nat, s: string, pos: nat, rest: seq<string>, end: nat)
    requires i < |fs| && fs[i] == Month && DigitsAt(s, pos, 2) && 1 <= DigitsValue(s[pos..pos + 2]) <= 12
    requires Search(fs, i + 1, 0, s, pos + 2) == Some(Match(rest, end))
    ensures Search(fs, i, 0, s, pos) == Some(Match([s[pos..pos + 2]] + rest, end))
  {
    var a := MonthFirst(s, pos);
    SearchFirst(fs, i, a, 2, s, pos, rest, end);
  }

  lemma DayStep(fs: Format, i: nat, s: string, pos: nat, rest: seq<string>, end: nat)
    requires i < |fs| && fs[i] == Day && DigitsAt(s, pos, 2) && 1 <= DigitsValue(s[pos..pos + 2]) <= 31
    requires Search(fs, i + 1, 0, s, pos + 2) == Some(Match(rest, end))
    ensures Search(fs, i, 0, s, pos) == Some(Match([s[pos..pos + 2]] + rest, end))
  {
    var a := DayFirst(s, pos);
    SearchFirst(fs, i, a, 2, s, pos, rest, end);
  }

  lemma SemicolonStep(fs: Format, i: nat, s: string, pos: nat, rest: seq<string>, end: nat)
    requires i < |fs| && fs[i] == Semicolon && pos < |s| && s[pos] == ';'
    requires Search(fs, i + 1, 0, s, pos + 1) == Some(Match(rest, end))
    ensures Search(fs, i, 0, s, pos) == Some(Match([s[pos..pos + 1]] + rest, end))
  {
    assert FirstMatching(Semicolon, 0, s, pos);
    SearchFirst(fs, i, 0, 1, s, pos, rest, end);
  }

  lemma HourStep(fs: Format, i: nat, s: string, pos: nat, rest: seq<string>, end: nat)
    requires i < |fs| && fs[i] == Hour && DigitsAt(s, pos, 2) && DigitsValue(s[pos..pos + 2]) <= 23
    requires Search(fs, i + 1, 0, s, pos + 2) == Some(Match(rest, end))
    ensures Search(fs, i, 0, s, pos) == Some(Match([s[pos..pos + 2]] + rest, end))
  {
    var a := HourFirst(s, pos);
    SearchFirst(fs, i, a, 2, s, pos, rest, end);
  }

  lemma MinuteStep(fs: Format, i: nat, s: string, pos: nat, rest: seq<string>, end: nat)
    requires i < |fs| && fs[i] == Minute && DigitsAt(s, pos, 2) && DigitsValue(s[pos..pos + 2]) <= 59
    requires Search(fs, i + 1, 0, s, pos + 2) == Some(Match(rest, end))
    ensures Search(fs, i, 0, s, pos) == Some(Match([s[pos..pos + 2]] + rest, end))
  {
    var a := MinuteFirst(s, pos);
    SearchFirst(fs, i, a, 2, s, pos, rest, end);
  }

  lemma SecondStep(fs: Format, i: nat, s: string, pos: nat, rest: seq<string>, end: nat)
    requires i < |fs| && fs[i] == Second && DigitsAt(s, pos, 2) && DigitsValue(s[pos..pos + 2]) <= 61
    requires Search(fs, i + 1, 0, s, pos + 2) == Some(Match(rest, end))
    ensures Search(fs, i, 0, s, pos) == Some(Match([s[pos..pos + 2]] + rest, end))
  {
    var a := SecondFirst(s, pos);
    SearchFirst(fs, i, a, 2, s, pos, rest, end);
  }

  /** The time of a timestamp in range: each field takes two digits. */
  lemma {:induction false} TimeSearch(s: string)
    requires |s| == 15 && DigitsAt(s, 9, 6)
    requires DigitsValue(s[9..11]) <= 23 && DigitsValue(s[11..13]) <= 59 && DigitsValue(s[13..15]) <= 61
    ensures Search(StampFormat, 4, 0, s, 9) == Some(Match([s[9..11], s[11..13], s[13..15]], 15))
  {
    var t6 := [s[13..15]];
    SecondStep(StampFormat, 6, s, 13, [], 15);
    assert [s[13..15]] + [] == t6;
    var t5 := [s[11..13]] + t6;
    MinuteStep(StampFormat, 5, s, 11, t6, 15);
    HourStep(StampFormat, 4, s, 9, t5, 15);
    assert [s[9..11]] + t5 == [s[9..11], s[11..13], s[13..15]];
  }

  /** The date of a timestamp in range, then the semicolon: the date
      fields take two digits each. */
  lemma {:induction false} StampDateSearch(s: string, tail: seq<string>, end: nat)
    requires 9 <= |s| && DigitsAt(s, 0, 8) && s[8] == ';'
    requires 1 <= DigitsValue(s[4..6]) <= 12 && 1 <= DigitsValue(s[6..8]) <= 31
    requires Search(StampFormat, 4, 0, s, 9) == Some(Match(tail, end))
    ensures Search(StampFormat, 0, 0, s, 0) == Some(Match([s[0..4], s[4..6], s[6..8], s[8..9]] + tail, end))
  {
    var t3 := [s[8..9]] + tail;
    SemicolonStep(StampFormat, 3, s, 8, tail, end);
    var t2 := [s[6..8]] + t3;
    DayStep(StampFormat, 2, s, 6, t3, end);
    var t1 := [s[4..6]] + t2;
    MonthStep(StampFormat, 1, s, 4, t2, end);
    YearStep(StampFormat, 0, s, 0, t1, end);
    assert [s[0..4]] + t1 == [s[0..4], s[4..6], s[6..8], s[8..9]] + tail;
  }

  /** A timestamp in range: every field takes its two-digit alternative. */
  lemma StampSearch(s: string)
    requires |s| == 15 && DigitsAt(s, 0, 8) && s[8] == ';' && DigitsAt(s, 9, 6)
    requires 1 <= DigitsValue(s[4..6]) <= 12 && 1 <= DigitsValue(s[6..8]) <= 31
    requires DigitsValue(s[9..11]) <= 23 && DigitsValue(s[11..13]) <= 59 && DigitsValue(s[13..15]) <= 61
    ensures Search(StampFormat, 0, 0, s, 0) ==
      Some(Match([s[0..4], s[4..6], s[6..8], s[8..9], s[9..11], s[11..13], s[13..15]], 15))
  {
    TimeSearch(s);
    StampDateSearch(s, [s[9..11], s[11..13], s[13..15]], 15);
    assert [s[0..4], s[4..6], s[6..8], s[8..9]] + [s[9..11], s[11..13], s[13..15]]
        == [s[0..4], s[4..6], s[6..8], s[8..9], s[9..11], s[11..13], s[13..15]];
  }

  /** A date in range: month and day take their two-digit alternatives. */
  lemma {:induction false} DaySearch(s: string)
    requires |s| == 8 && DigitsAt(s, 0, 8)
    requires 1 <= DigitsValue(s[4..6]) <= 12 && 1 <= DigitsValue(s[6..8]) <= 31
    ensures Search(DayFormat, 0, 0, s, 0) == Some(Match([s[0..4], s[4..6], s[6..8]], 8))
  {
    var t2 := [s[6..8]];
    DayStep(DayFormat, 2, s, 6, [], 8);
    assert [s[6..8]] + [] == t2;
    var t1 := [s[4..6]] + t2;
    MonthStep(DayFormat, 1, s, 4, t2, 8);
    YearStep(DayFormat, 0, s, 0, t1, 8);
    assert [s[0..4]] + t1 == [s[0..4], s[4..6], s[6..8]];
  }

  // One field of a parse at a time

  /** The first piece of a parse, and the parse of the rest. */
  lemma ParsedPiece(fs: Format, i: nat, s: string, pos: nat, ps: seq<string>, end: nat) returns (w: nat)
    requires i < |fs| && Parses(fs, i, s, pos, ps, end)
    ensures |ps| > 0 && w == |ps[0]| && pos + w <= |s| && ps[0] == s[pos..pos + w]
    ensures AltOfWidth(fs[i], w, s, pos) && Parses(fs, i + 1, s, pos + w, ps[1..], end)
  {
    w := |ps[0]|;
  }

  /** Month and day take one or two characters each. */
  lemma {:induction false} MonthDayParsed(fs: Format, i: nat, s: string, pos: nat, ps: seq<string>, end: nat)
    returns (w1: nat, w2: nat)
    requires i + 2 <= |fs| && fs[i] == Month && fs[i + 1] == Day && Parses(fs, i, s, pos, ps, end)
    ensures 1 <= w1 <= 2 && 1 <= w2 <= 2 && |ps| >= 2 && pos + w1 + w2 <= |s|
    ensures ps[0] == s[pos..pos + w1] && ps[1] == s[pos + w1..pos + w1 + w2]
    ensures Parses(fs, i + 2, s, pos + w1 + w2, ps[2..], end)
  {
    w1 := ParsedPiece(fs, i, s, pos, ps, end);
    FieldWidths(w1, s, pos);
    w2 := ParsedPiece(fs, i + 1, s, pos + w1, ps[1..], end);
    FieldWidths(w2, s, pos + w1);
    assert ps[1..][1..] == ps[2..];
  }

  /** Hour, minute and second that end six characters on take two each. */
  lemma {:induction false} TimeParsed(fs: Format, i: nat, s: string, pos: nat, ps: seq<string>)
    requires i + 3 == |fs| && fs[i] == Hour && fs[i + 1] == Minute && fs[i + 2] == Second
    requires pos + 6 <= |s| && Parses(fs, i, s, pos, ps, pos + 6)
    ensures ps == [s[pos..pos + 2], s[pos + 2..pos + 4], s[pos + 4..pos + 6]]
  {
    var w1 := ParsedPiece(fs, i, s, pos, ps, pos + 6);
    FieldWidths(w1, s, pos);
    var w2 := ParsedPiece(fs, i + 1, s, pos + w1, ps[1..], pos + 6);
    FieldWidths(w2, s, pos + w1);
    var w3 := ParsedPiece(fs, i + 2, s, pos + w1 + w2, ps[1..][1..], pos + 6);
    FieldWidths(w3, s, pos + w1 + w2);
    assert Parses(fs, i + 3, s, pos + w1 + w2 + w3, ps[1..][1..][1..], pos + 6);
  }

  /** A parse of a fifteen-character timestamp that reaches the end takes
      two digits per field. */
  lemma {:induction false} StampParsed(s: string, ps: seq<string>)
    requires StampShaped(s) && Parses(StampFormat, 0, s, 0, ps, 15)
    ensures ps == [s[0..4], s[4..6], s[6..8], s[8..9], s[9..11], s[11..13], s[13..15]]
  {
    StampDigits(s);
    var w0 := ParsedPiece(StampFormat, 0, s, 0, ps, 15);
    FieldWidths(w0, s, 0);
    var w1, w2 := MonthDayParsed(StampFormat, 1, s, 4, ps[1..], 15);
    var w3 := ParsedPiece(StampFormat, 3, s, 4 + w1 + w2, ps[1..][2..], 15);
    FieldWidths(w3, s, 4 + w1 + w2);
    assert w1 == 2 && w2 == 2;
    TimeParsed(StampFormat, 4, s, 9, ps[1..][2..][1..]);
    assert ps == [ps[0], ps[1..][0], ps[1..][1]] + [ps[1..][2..][0]] + ps[1..][2..][1..];
  }

  /** A parse of eight digits that reaches the end takes two digits for
      month and day. */
  lemma {:induction false} DayParsed(s: string, ps: seq<string>)
    requires |s| == 8 && Parses(DayFormat, 0, s, 0, ps, 8)
    ensures ps == [s[0..4], s[4..6], s[6..8]]
  {
    var w0 := ParsedPiece(DayFormat, 0, s, 0, ps, 8);
    FieldWidths(w0, s, 0);
    var w1, w2 := MonthDayParsed(DayFormat, 1, s, 4, ps[1..], 8);
    assert ps == [ps[0], ps[1..][0], ps[1..][1]];
  }

  /** On a fifteen-character string the date-only format stops short. */
  lemma {:induction false} StampNotDay(s: string)
    requires |s| == 15
    ensures PyDay(s) == None
  {
    SearchSound(DayFormat, 0, 0, s, 0);
    if Search(DayFormat, 0, 0, s, 0).Some? {
      var m := Search(DayFormat, 0, 0, s, 0).value;
      var w0 := ParsedPiece(DayFormat, 0, s, 0, m.pieces, m.end);
      FieldWidths(w0, s, 0);
      var w1, w2 := MonthDayParsed(DayFormat, 1, s, 4, m.pieces[1..], m.end);
    }
  }

  // The readers on the fixed shapes

  /** The fields of a fixed-width timestamp: the values both readers
      compute from its pieces. */
  lemma StampValues(s: string)
    requires StampShaped(s)
    ensures DigitsAt(s, 0, 8) && DigitsAt(s, 9, 6)
    ensures s[..8][..4] == s[0..4] && s[..8][4..6] == s[4..6] && s[..8][6..] == s[6..8] && s[13..] == s[13..15]
    ensures IntOf(s[0..4]) == DigitsValue(s[0..4]) && IntOf(s[4..6]) == DigitsValue(s[4..6])
    ensures IntOf(s[6..8]) == DigitsValue(s[6..8]) && IntOf(s[9..11]) == DigitsValue(s[9..11])
    ensures IntOf(s[11..13]) == DigitsValue(s[11..13]) && IntOf(s[13..15]) == DigitsValue(s[13..15])
  {
    StampDigits(s);
    YearAt(s, 0);
    TwoAt(s, 4);
    TwoAt(s, 6);
    TwoAt(s, 9);
    TwoAt(s, 11);
    TwoAt(s, 13);
  }

  /** A timestamp the Python loader reads from a fifteen-character string
      is the one the exact format reads. */
  lemma {:induction false} StampBackward(s: string)
    requires StampShaped(s) && PyStamp(s).Some?
    ensures TryParseStamp(s) == PyStamp(s)
  {
    var m := Search(StampFormat, 0, 0, s, 0).value;
    SearchSound(StampFormat, 0, 0, s, 0);
    StampParsed(s, m.pieces);
    StampValues(s);
  }

  /** A timestamp the exact format reads is read the same way by the
      Python loader: every field takes its two-digit alternative first. */
  lemma {:induction false} StampForward(s: string)
    requires StampShaped(s) && TryParseStamp(s).Some?
    ensures PyStamp(s) == TryParseStamp(s)
  {
    StampValues(s);
    StampSearch(s);
  }

  /** The fields of an eight-digit date. */
  lemma DayValues(s: string)
    requires DayShaped(s)
    ensures DigitsAt(s, 0, 8) && s[..4] == s[0..4] && s[6..] == s[6..8]
    ensures IntOf(s[0..4]) == DigitsValue(s[0..4]) && IntOf(s[4..6]) == DigitsValue(s[4..6])
    ensures IntOf(s[6..8]) == DigitsValue(s[6..8])
  {
    YearAt(s, 0);
    TwoAt(s, 4);
    TwoAt(s, 6);
  }

  /** A date the Python loader reads from eight digits is the one the
      exact format reads. */
  lemma {:induction false} DayBackward(s: string)
    requires DayShaped(s) && PyDay(s).Some?
    ensures TryParseDay(s) == PyDay(s)
  {
    var m := Search(DayFormat, 0, 0, s, 0).value;
    SearchSound(DayFormat, 0, 0, s, 0);
    DayParsed(s, m.pieces);
    DayValues(s);
  }

  /** A date the exact format reads from eight digits is read the same
      way by the Python loader. */
  lemma {:induction false} DayForward(s: string)
    requires DayShaped(s) && TryParseDay(s).Some?
    ensures PyDay(s) == TryParseDay(s)
  {
    DayValues(s);
    DaySearch(s);
  }

  /** Without a semicolon the timestamp format never matches. */
  lemma DayNotStamp(s: string)
    requires DayShaped(s)
    ensures PyStamp(s) == None
  {
    forall b, q | 0 <= b < |Semicolon| && 0 <= q <= |s| ensures !PatternAt(Semicolon[b], s, q) {
      if q < |s| {
        assert IsDigit(s[q]);
        FirstAtomFails(Semicolon[b], s, q);
      }
    }
    SearchBlocked(StampFormat, 3, 0, 0, s, 0);
  }

  /** On the two fixed shapes the Python reader and the exact formats
      agree, both on what they read and on what they reject. */
  lemma FixedWidthAgrees(s: string)
    requires FixedWidth(s)
    ensures PyReadDate(s) == ReadDate(s)
  {
    if StampShaped(s) {
      if TryParseStamp(s).Some? { StampForward(s); } else if PyStamp(s).Some? { StampBackward(s); }
      StampNotDay(s);
    } else {
      DayNotStamp(s);
      if TryParseDay(s).Some? { DayForward(s); } else if PyDay(s).Some? { DayBackward(s); }
    }
  }

  /** `_parse_clean_date` against IbkrXmlLoader.ParseDate: on the fixed
      shapes they read the same timestamp and reject the same strings
      (where C# falls back to MinValue); every other string C# reads as
      MinValue, and whatever C# reads, Python reads alike. */
  lemma ParseDateAgrees(s: Option<string>)
    ensures s.Some? && FixedWidth(s.value) ==> (ParseCleanDate(s).Returned? <==> ReadDate(s.value).Some?)
    ensures s.Some? && FixedWidth(s.value) && ParseCleanDate(s).Returned? ==> ParseCleanDate(s).value == ParseDate(s)
    ensures s.Some? && !FixedWidth(s.value) ==> ParseDate(s) == MinValue
    ensures s.Some? && ReadDate(s.value).Some? ==> ParseCleanDate(s) == Returned(ParseDate(s))
  {
    if s.Some? {
      ReadDateShape(s.value);
      if FixedWidth(s.value) { FixedWidthAgrees(s.value); }
    }
  }

  // Where the Python reader reads more

  /** An alternative one of whose positions rejects its character does not
      match. */
  lemma AtomFails(p: Alternative, s: string, pos: nat, j: nat)
    requires j < |p| && pos + j < |s| && !AtomMatches(p[j], s[pos + j])
    ensures !PatternAt(p, s, pos)
  {
  }

  /** A month digit that cannot start a two-digit month. */
  lemma OneDigitMonthStep(fs: Format, i: nat, s: string, pos: nat, rest: seq<string>, end: nat)
    requires i < |fs| && fs[i] == Month && pos + 1 < |s|
    requires '2' <= s[pos] <= '9' || (s[pos] == '1' && !('0' <= s[pos + 1] <= '2'))
    requires Search(fs, i + 1, 0, s, pos + 1) == Some(Match(rest, end))
    ensures Search(fs, i, 0, s, pos) == Some(Match([s[pos..pos + 1]] + rest, end))
  {
    if s[pos] == '1' { AtomFails(Month[0], s, pos, 1); } else { AtomFails(Month[0], s, pos, 0); }
    AtomFails(Month[1], s, pos, 0);
    assert FirstMatching(Month, 2, s, pos) by { assert AtomMatches(Month[2][0], s[pos + 0]); }
    SearchFirst(fs, i, 2, 1, s, pos, rest, end);
  }

  /** A day digit in the last position. */
  lemma OneDigitDayStep(fs: Format, i: nat, s: string, pos: nat, rest: seq<string>, end: nat)
    requires i < |fs| && fs[i] == Day && pos + 1 == |s| && '1' <= s[pos] <= '9'
    requires Search(fs, i + 1, 0, s, pos + 1) == Some(Match(rest, end))
    ensures Search(fs, i, 0, s, pos) == Some(Match([s[pos..pos + 1]] + rest, end))
  {
    assert FirstMatching(Day, 3, s, pos) by { assert AtomMatches(Day[3][0], s[pos + 0]); }
    SearchFirst(fs, i, 3, 1, s, pos, rest, end);
  }

  /** An hour digit that cannot start a two-digit hour. */
  lemma OneDigitHourStep(fs: Format, i: nat, s: string, pos: nat, rest: seq<string>, end: nat)
    requires i < |fs| && fs[i] == Hour && pos < |s| && '3' <= s[pos] <= '9'
    requires Search(fs, i + 1, 0, s, pos + 1) == Some(Match(rest, end))
    ensures Search(fs, i, 0, s, pos) == Some(Match([s[pos..pos + 1]] + rest, end))
  {
    AtomFails(Hour[0], s, pos, 0);
    AtomFails(Hour[1], s, pos, 0);
    assert FirstMatching(Hour, 2, s, pos) by { assert AtomMatches(Hour[2][0], s[pos + 0]); }
    SearchFirst(fs, i, 2, 1, s, pos, rest, end);
  }

  /** The Python `int` of one digit. */
  lemma OneDigit(c: char)
    requires IsDigit(c)
    ensures IntOf([c]) == c as int - '0' as int
  {
    assert [c][..0] == [];
  }

  /** A year and a one-digit month and day: the date-only format matches
      all six characters. */
  lemma {:induction false} ShortDateSearch(s: string)
    requires |s| == 6 && DigitsAt(s, 0, 4) && '1' <= s[5] <= '9'
    requires '2' <= s[4] <= '9' || (s[4] == '1' && '3' <= s[5] <= '9')
    ensures Strptime(DayFormat, s) == Some([s[0..4], s[4..5], s[5..6]])
  {
    OneDigitDayStep(DayFormat, 2, s, 5, [], 6);
    assert [s[5..6]] + [] == [s[5..6]];
    OneDigitMonthStep(DayFormat, 1, s, 4, [s[5..6]], 6);
    assert [s[4..5]] + [s[5..6]] == [s[4..5], s[5..6]];
    YearStep(DayFormat, 0, s, 0, [s[4..5], s[5..6]], 6);
    assert [s[0..4]] + ([s[4..5]] + [s[5..6]]) == [s[0..4], s[4..5], s[5..6]];
  }

  /** Single-digit month and day: Python reads a year followed by a month
      and a day of one digit each, where C# falls back to MinValue. */
  lemma {:induction false} ShortDateDiverges(y: string, m: char, d: char)
    requires |y| == 4 && AllDigits(y) && DigitsValue(y) >= 1
    requires '1' <= d <= '9' && ('2' <= m <= '9' || (m == '1' && '3' <= d))
    ensures var s := y + [m, d];
      && ParseCleanDate(Some(s)) == Returned(DateTime(Date(DigitsValue(y), m as int - '0' as int, d as int - '0' as int), 23, 59, 59))
      && ParseDate(Some(s)) == MinValue
  {
    var s := y + [m, d];
    assert s[0..4] == y && s[4..5] == [m] && s[5..6] == [d];
    assert DigitsAt(s, 0, 4) by { assert forall j | 0 <= j < 4 :: s[j] == y[j]; }
    ShortDateSearch(s);
    YearAt(s, 0);
    OneDigit(m);
    OneDigit(d);
    forall b, q | 0 <= b < |Semicolon| && 0 <= q <= |s| ensures !PatternAt(Semicolon[b], s, q) {
      if q < |s| {
        assert s[q] == ';' ==> q >= 4;
        FirstAtomFails(Semicolon[b], s, q);
      }
    }
    SearchBlocked(StampFormat, 3, 0, 0, s, 0);
  }

  /** "202315" is 5 January 2023 to the Python loader. */
  lemma ShortDateExample()
    ensures ParseCleanDate(Some("202315")) == Returned(DateTime(Date(2023, 1, 5), 23, 59, 59))
    ensures ParseDate(Some("202315")) == MinValue
  {
    assert "2023" + ['1', '5'] == "202315";
    Year2023();
    ShortDateDiverges("2023", '1', '5');
  }

  /** A blank followed by a digit: no two-digit or one-digit alternative of
      the day starts with a blank, so the search takes the last one. */
  lemma BlankDayStep(fs: Format, i: nat, s: string, pos: nat, rest: seq<string>, end: nat)
    requires i < |fs| && fs[i] == Day && pos + 1 < |s| && s[pos] == ' ' && '1' <= s[pos + 1] <= '9'
    requires Search(fs, i + 1, 0, s, pos + 2) == Some(Match(rest, end))
    ensures Search(fs, i, 0, s, pos) == Some(Match([s[pos..pos + 2]] + rest, end))
  {
    FirstAtomFails(Day[0], s, pos);
    FirstAtomFails(Day[1], s, pos);
    FirstAtomFails(Day[2], s, pos);
    FirstAtomFails(Day[3], s, pos);
    assert FirstMatching(Day, 4, s, pos) by {
      assert AtomMatches(Day[4][0], s[pos + 0]) && AtomMatches(Day[4][1], s[pos + 1]);
    }
    SearchFirst(fs, i, 4, 2, s, pos, rest, end);
  }

  /** The Python `int` of a blank and one digit. */
  lemma BlankDigit(c: char)
    requires IsDigit(c)
    ensures IntOf([' ', c]) == c as int - '0' as int
  {
    assert [' ', c][1..] == [c];
    assert [c][..0] == [];
  }

  /** A year, a two-digit month, a blank and a digit: the date-only format
      matches all eight characters. */
  lemma {:induction false} BlankDaySearch(s: string)
    requires |s| == 8 && DigitsAt(s, 0, 6) && 1 <= DigitsValue(s[4..6]) <= 12 && s[6] == ' ' && '1' <= s[7] <= '9'
    ensures Strptime(DayFormat, s) == Some([s[0..4], s[4..6], s[6..8]])
  {
    BlankDayStep(DayFormat, 2, s, 6, [], 8);
    assert [s[6..8]] + [] == [s[6..8]];
    MonthStep(DayFormat, 1, s, 4, [s[6..8]], 8);
    assert [s[4..6]] + [s[6..8]] == [s[4..6], s[6..8]];
    YearStep(DayFormat, 0, s, 0, [s[4..6], s[6..8]], 8);
    assert [s[0..4]] + [s[4..6], s[6..8]] == [s[0..4], s[4..6], s[6..8]];
  }

  /** A blank before a one-digit day: Python reads a year, a two-digit
      month and the day, where C# falls back to MinValue. */
  lemma {:induction false} BlankDayDiverges(y: string, mm: string, d: char)
    requires |y| == 4 && AllDigits(y) && DigitsValue(y) >= 1
    requires |mm| == 2 && AllDigits(mm) && 1 <= DigitsValue(mm) <= 12
    requires '1' <= d <= '9'
    ensures var s := y + mm + [' ', d];
      && ParseCleanDate(Some(s)) == Returned(DateTime(Date(DigitsValue(y), DigitsValue(mm), d as int - '0' as int), 23, 59, 59))
      && ParseDate(Some(s)) == MinValue
  {
    var s := y + mm + [' ', d];
    assert s[0..4] == y && s[4..6] == mm && s[6..8] == [' ', d];
    assert DigitsAt(s, 0, 6) by {
      assert forall j | 0 <= j < 4 :: s[j] == y[j];
      assert forall j | 4 <= j < 6 :: s[j] == mm[j - 4];
    }
    BlankDaySearch(s);
    YearAt(s, 0);
    BlankDigit(d);
    forall b, q | 0 <= b < |Semicolon| && 0 <= q <= |s| ensures !PatternAt(Semicolon[b], s, q) {
      if q < |s| {
        assert s[q] == ';' ==> q >= 6;
        FirstAtomFails(Semicolon[b], s, q);
      }
    }
    SearchBlocked(StampFormat, 3, 0, 0, s, 0);
    assert !IsDigit(s[6]);
  }

  lemma Year2023()
    ensures AllDigits("2023") && DigitsValue("2023") == 2023
  {
    assert "2023"[..3] == "202" && "202"[..2] == "20" && "20"[..1] == "2" && "2"[..0] == "";
  }

  lemma Month01()
    ensures AllDigits("01") && DigitsValue("01") == 1
  {
    assert "01"[..1] == "0" && "0"[..0] == "";
  }

  /** "202301 5" is 5 January 2023 to the Python loader. */
  lemma BlankDayExample()
    ensures ParseCleanDate(Some("202301 5")) == Returned(DateTime(Date(2023, 1, 5), 23, 59, 59))
    ensures ParseDate(Some("202301 5")) == MinValue
  {
    assert "2023" + "01" + [' ', '5'] == "202301 5";
    Year2023();
    Month01();
    BlankDayDiverges("2023", "01", '5');
  }

  /** A date, the semicolon, a one-digit hour and two-digit minute and
      second: the timestamp format matches all fourteen characters. */
  lemma {:induction false} ShortHourSearch(s: string)
    requires |s| == 14 && DigitsAt(s, 0, 8) && s[8] == ';' && '3' <= s[9] <= '9' && DigitsAt(s, 10, 4)
    requires 1 <= DigitsValue(s[4..6]) <= 12 && 1 <= DigitsValue(s[6..8]) <= 31
    requires DigitsValue(s[10..12]) <= 59 && DigitsValue(s[12..14]) <= 59
    ensures Strptime(StampFormat, s) == Some([s[0..4], s[4..6], s[6..8], s[8..9], s[9..10], s[10..12], s[12..14]])
  {
    var t6 := [s[12..14]];
    SecondStep(StampFormat, 6, s, 12, [], 14);
    assert [s[12..14]] + [] == t6;
    var t5 := [s[10..12]] + t6;
    MinuteStep(StampFormat, 5, s, 10, t6, 14);
    var t4 := [s[9..10]] + t5;
    OneDigitHourStep(StampFormat, 4, s, 9, t5, 14);
    StampDateSearch(s, t4, 14);
    assert [s[0..4], s[4..6], s[6..8], s[8..9]] + t4 == [s[0..4], s[4..6], s[6..8], s[8..9], s[9..10], s[10..12], s[12..14]];
  }

  /** The timestamp the Python loader reads from such a string. */
  lemma {:induction false} ShortHourStamp(s: string)
    requires |s| == 14 && DigitsAt(s, 0, 8) && s[8] == ';' && '3' <= s[9] <= '9' && DigitsAt(s, 10, 4)
    requires ValidDate(Date(DigitsValue(s[0..4]), DigitsValue(s[4..6]), DigitsValue(s[6..8])))
    requires DigitsValue(s[10..12]) <= 59 && DigitsValue(s[12..14]) <= 59
    ensures PyStamp(s) == Some(DateTime(Date(DigitsValue(s[0..4]), DigitsValue(s[4..6]), DigitsValue(s[6..8])),
                                        s[9] as int - '0' as int, DigitsValue(s[10..12]), DigitsValue(s[12..14])))
  {
    ShortHourSearch(s);
    YearAt(s, 0);
    TwoAt(s, 4);
    TwoAt(s, 6);
    TwoAt(s, 10);
    TwoAt(s, 12);
    assert s[9..10] == [s[9]];
    OneDigit(s[9]);
  }

  /** A single-digit hour: Python reads a date, a semicolon, an hour of one
      digit and a two-digit minute and second, where C# falls back to
      MinValue. */
  lemma {:induction false} ShortHourDiverges(day: string, h: char, ms: string)
    requires DayShaped(day) && TryParseDay(day).Some?
    requires '3' <= h <= '9' && |ms| == 4 && AllDigits(ms)
    requires DigitsValue(ms[..2]) <= 59 && DigitsValue(ms[2..]) <= 59
    ensures var s := day + ";" + [h] + ms;
      && ParseCleanDate(Some(s)) == Returned(DateTime(TryParseDay(day).value, h as int - '0' as int, DigitsValue(ms[..2]), DigitsValue(ms[2..])))
      && ParseDate(Some(s)) == MinValue
  {
    var s := day + ";" + [h] + ms;
    assert s[8] == ';' && s[9] == h && s[10..12] == ms[..2] && s[12..14] == ms[2..];
    assert s[4..6] == day[4..6] && s[6..8] == day[6..] && s[0..4] == day[..4];
    assert DigitsAt(s, 0, 8) by { assert forall j | 0 <= j < 8 :: s[j] == day[j]; }
    assert DigitsAt(s, 10, 4) by { assert forall j | 10 <= j < 14 :: s[j] == ms[j - 10]; }
    ShortHourStamp(s);
  }

  /** 5 January 2023 in the date-only format. */
  lemma Day20230105()
    ensures TryParseDay("20230105") == Some(Date(2023, 1, 5))
  {
    var day := "20230105";
    assert day[..4] == "2023" && day[4..6] == "01" && day[6..] == "05";
    Year2023();
    assert DigitsValue("01") == 1 by { assert "01"[..1] == "0" && "0"[..0] == ""; }
    assert DigitsValue("05") == 5 by { assert "05"[..1] == "0" && "0"[..0] == ""; }
  }

  /** "20230105;93000" is 09:30:00 on 5 January 2023 to the Python loader. */
  lemma ShortHourExample()
    ensures ParseCleanDate(Some("20230105;93000")) == Returned(DateTime(Date(2023, 1, 5), 9, 30, 0))
    ensures ParseDate(Some("20230105;93000")) == MinValue
  {
    assert "20230105" + ";" + ['9'] + "3000" == "20230105;93000";
    Day20230105();
    assert DigitsValue("3000"[..2]) == 30 by { assert "3000"[..2] == "30" && "30"[..1] == "3" && "3"[..0] == ""; }
    assert DigitsValue("3000"[2..]) == 0 by { assert "3000"[2..] == "00" && "00"[..1] == "0" && "0"[..0] == ""; }
    ShortHourDiverges("20230105", '9', "3000");
  }
}
