/** The string primitives the loaders and providers rely on: ordinal
    substring search, splitting on a separator, and whitespace trimming. */
module Text {

  /** `t` occurs in `s` starting at index `i`. */
  ghost predicate OccursAt(s: string, t: string, i: int) {
    0 <= i && i + |t| <= |s| && s[i..i + |t|] == t
  }

  /** Ordinal `string.Contains` / Python `in` on strings. */
  function Contains(s: string, t: string): (b: bool)
    ensures b <==> exists i :: OccursAt(s, t, i)
    decreases |s|
  {
    if |s| < |t| then false
    else if s[..|t|] == t then
      assert OccursAt(s, t, 0);
      true
    else
      var b := Contains(s[1..], t);
      assert b ==> exists i :: OccursAt(s, t, i) by {
        if b {
          var i :| OccursAt(s[1..], t, i);
          assert s[1..][i..i + |t|] == s[i + 1..i + 1 + |t|];
          assert OccursAt(s, t, i + 1);
        }
      }
      assert (exists i :: OccursAt(s, t, i)) ==> b by {
        if exists i :: OccursAt(s, t, i) {
          var i :| OccursAt(s, t, i);
          assert i != 0;
          assert s[1..][i - 1..i - 1 + |t|] == s[i..i + |t|];
          assert OccursAt(s[1..], t, i - 1);
        }
      }
      b
  }

  /** A text still contains what its tail contains. */
  lemma ContainsInSuffix(a: string, b: string, t: string)
    requires Contains(b, t)
    ensures Contains(a + b, t)
  {
    var i :| OccursAt(b, t, i);
    assert (a + b)[|a| + i..|a| + i + |t|] == b[i..i + |t|];
    assert OccursAt(a + b, t, |a| + i);
  }

  /** A text that contains `t + u` contains `t`. */
  lemma ContainsPrefixOf(s: string, t: string, u: string)
    requires Contains(s, t + u)
    ensures Contains(s, t)
  {
    var i :| OccursAt(s, t + u, i);
    assert s[i..i + |t|] == (t + u)[..|t|];
    assert OccursAt(s, t, i);
  }

  /** A character outside the Basic Multilingual Plane, which UTF-16
      writes as a surrogate pair. */
  predicate IsAstral(ch: char) {
    ch as int >= 0x1_0000
  }

  /** The text lies inside the Basic Multilingual Plane. */
  predicate InBmp(s: string) {
    forall i | 0 <= i < |s| :: !IsAstral(s[i])
  }

  /** .NET `string.Length`: the number of UTF-16 code units, one per
      character inside the Basic Multilingual Plane and two per character
      beyond it. */
  function Utf16Length(s: string): (n: nat)
    ensures |s| <= n <= 2 * |s|
  {
    if s == [] then 0 else (if IsAstral(s[0]) then 2 else 1) + Utf16Length(s[1..])
  }

  /** The UTF-16 length is the number of characters exactly when every
      character lies inside the Basic Multilingual Plane. */
  lemma {:induction false} Utf16LengthIsLength(s: string)
    ensures Utf16Length(s) == |s| <==> InBmp(s)
  {
    if s != [] {
      Utf16LengthIsLength(s[1..]);
      assert forall i | 1 <= i < |s| :: s[i] == s[1..][i - 1];
    }
  }


  /** Joins fields with the separator between consecutive ones. */
  function Join(fields: seq<string>, sep: char): string
    requires |fields| >= 1
  {
    if |fields| == 1 then fields[0] else fields[0] + [sep] + Join(fields[1..], sep)
  }

  /** C# `string.Split(char)`: the maximal separator-free pieces, empty
      pieces included, so a string with k separators gives k + 1 fields. */
  function Split(s: string, sep: char): (fields: seq<string>)
    ensures |fields| >= 1
    ensures forall f <- fields :: sep !in f
  {
    if |s| == 0 then [""]
    else
      var rest := Split(s[1..], sep);
      assert s == [s[0]] + s[1..];
      if s[0] == sep then [""] + rest
      else [[s[0]] + rest[0]] + rest[1..]
  }

  /** A string with k separators splits into k + 1 fields. */
  lemma {:induction false} SplitCount(s: string, sep: char)
    ensures |Split(s, sep)| == 1 + multiset(s)[sep]
    decreases |s|
  {
    if |s| != 0 {
      SplitCount(s[1..], sep);
      assert s == [s[0]] + s[1..];
      assert multiset(s) == multiset([s[0]]) + multiset(s[1..]);
    }
  }

  /** Joining the fields of a split gives back the string. */
  lemma {:induction false} JoinSplit(s: string, sep: char)
    ensures Join(Split(s, sep), sep) == s
    decreases |s|
  {
    if |s| != 0 {
      var rest := Split(s[1..], sep);
      JoinSplit(s[1..], sep);
      if s[0] == sep {
        JoinSplitSeparator(s, sep, rest);
      } else {
        JoinSplitOther(s, sep, rest);
      }
    }
  }

  lemma JoinSplitSeparator(s: string, sep: char, rest: seq<string>)
    requires |s| > 0 && s[0] == sep && rest == Split(s[1..], sep)
    requires Join(rest, sep) == s[1..]
    ensures Join(Split(s, sep), sep) == s
  {
    var fields := Split(s, sep);
    assert fields == [""] + rest;
    assert fields[1..] == rest;
    assert Join(fields, sep) == [sep] + s[1..];
  }

  lemma JoinSplitOther(s: string, sep: char, rest: seq<string>)
    requires |s| > 0 && s[0] != sep && rest == Split(s[1..], sep)
    requires Join(rest, sep) == s[1..]
    ensures Join(Split(s, sep), sep) == s
  {
    var fields := Split(s, sep);
    assert fields == [[s[0]] + rest[0]] + rest[1..];
    if |rest| == 1 {
      assert Join(fields, sep) == [s[0]] + s[1..];
    } else {
      assert fields[1..] == rest[1..];
      assert Join(fields, sep) == [s[0]] + Join(rest, sep);
    }
  }

  lemma {:induction false} SplitWithoutSeparator(a: string, sep: char)
    requires sep !in a
    ensures Split(a, sep) == [a]
    decreases |a|
  {
    if |a| != 0 {
      assert sep !in a[1..] by { assert forall ch <- a[1..] :: ch in a; }
      SplitWithoutSeparator(a[1..], sep);
      assert [a[0]] + a[1..] == a;
    }
  }

  lemma {:induction false} SplitAtSeparator(a: string, b: string, sep: char)
    requires sep !in a
    ensures Split(a + [sep] + b, sep) == [a] + Split(b, sep)
    decreases |a|
  {
    var s := a + [sep] + b;
    if |a| == 0 {
      assert s[1..] == b;
    } else {
      assert sep !in a[1..] by { assert forall ch <- a[1..] :: ch in a; }
      assert s[1..] == a[1..] + [sep] + b;
      SplitAtSeparator(a[1..], b, sep);
      assert [a[0]] + a[1..] == a;
    }
  }

  lemma {:induction false} SplitJoin(fields: seq<string>, sep: char)
    requires |fields| >= 1
    requires forall f <- fields :: sep !in f
    ensures Split(Join(fields, sep), sep) == fields
    decreases |fields|
  {
    if |fields| == 1 {
      SplitWithoutSeparator(fields[0], sep);
    } else {
      SplitJoin(fields[1..], sep);
      SplitAtSeparator(fields[0], Join(fields[1..], sep), sep);
      assert [fields[0]] + fields[1..] == fields;
    }
  }

  /** The characters `char.IsWhiteSpace` accepts: the controls U+0009 to
      U+000D and U+0085, and the Unicode space, line and paragraph
      separators (categories Zs, Zl and Zp). */
  predicate IsWhiteSpace(ch: char) {
    || ('\t' <= ch <= '\r') || ch == '\U{0085}'
    || ch == ' ' || ch == '\U{00A0}' || ch == '\U{1680}'
    || ('\U{2000}' <= ch <= '\U{200A}')
    || ch == '\U{2028}' || ch == '\U{2029}' || ch == '\U{202F}' || ch == '\U{205F}' || ch == '\U{3000}'
  }

  /** `string.IsNullOrWhiteSpace` for a non-null string. */
  predicate IsBlank(s: string) {
    forall i | 0 <= i < |s| :: IsWhiteSpace(s[i])
  }

  function TrimStart(s: string): (r: string)
    ensures |r| <= |s| && r == s[|s| - |r|..]
    ensures forall i | 0 <= i < |s| - |r| :: IsWhiteSpace(s[i])
    ensures |r| > 0 ==> !IsWhiteSpace(r[0])
  {
    if |s| > 0 && IsWhiteSpace(s[0]) then
      var r := TrimStart(s[1..]);
      assert forall i | 1 <= i < |s| - |r| :: s[i] == s[1..][i - 1];
      r
    else s
  }

  function TrimEnd(s: string): (r: string)
    ensures |r| <= |s| && r == s[..|r|]
    ensures forall i | |r| <= i < |s| :: IsWhiteSpace(s[i])
    ensures |r| > 0 ==> !IsWhiteSpace(r[|r| - 1])
  {
    if |s| > 0 && IsWhiteSpace(s[|s| - 1]) then
      var r := TrimEnd(s[..|s| - 1]);
      assert forall i | |r| <= i < |s| - 1 :: s[i] == s[..|s| - 1][i];
      r
    else s
  }

  /** `string.Trim()`: drops leading and trailing whitespace. */
  function Trim(s: string): (r: string)
    ensures |r| <= |s|
    ensures |r| > 0 ==> !IsWhiteSpace(r[0]) && !IsWhiteSpace(r[|r| - 1])
  {
    TrimEnd(TrimStart(s))
  }

  /** The trimmed string is a piece of the original. */
  lemma TrimOccurs(s: string)
    ensures exists i :: OccursAt(s, Trim(s), i)
  {
    var a := TrimStart(s);
    var r := TrimEnd(a);
    var i := |s| - |a|;
    assert Trim(s) == r;
    assert r == a[..|r|];
    assert a == s[i..];
    assert s[i..][..|r|] == s[i..i + |r|];
    assert OccursAt(s, r, i);
  }

  /** Trimming leaves nothing exactly when the string is blank. */
  lemma TrimEmptyIffBlank(s: string)
    ensures Trim(s) == [] <==> IsBlank(s)
  {
    var a := TrimStart(s);
    var r := TrimEnd(a);
    assert Trim(s) == r;
    if r == [] {
      BlankWhenTrimmedAway(s, a);
    } else {
      var i := |s| - |a|;
      assert a == s[i..] && r == a[..|r|];
      assert s[i] == r[0] && !IsWhiteSpace(s[i]);
    }
  }

  lemma BlankWhenTrimmedAway(s: string, a: string)
    requires a == TrimStart(s) && TrimEnd(a) == []
    ensures IsBlank(s)
  {
    assert |a| == 0;
  }
}
