/**
 The string operations the release verifier relies on, stated over `seq<char>`:
 Python's substring test `needle in hay`, ASCII lower-casing, `str(n)` for
 integers, `sep.join(xs)`, and `s.replace("\n", " ")`. Each comes with the
 partner that pins down what it means: an occurrence-based definition of
 containment, a parser that inverts `str(n)`, and a splitter that inverts
 `join` on separator-free pieces.
 */
module Text {

  /* ---------------- substring containment ---------------- */

  /** `needle` occurs verbatim in `hay` starting at offset `i`. */
  predicate OccursAt(hay: string, needle: string, i: int) {
    0 <= i && i + |needle| <= |hay| && hay[i..i + |needle|] == needle
  }

  /** Python's `needle in hay` on strings, as a left-to-right scan. */
  function Contains(hay: string, needle: string): bool
    decreases |hay|
  {
    if needle <= hay then true
    else if hay == [] then false
    else Contains(hay[1..], needle)
  }

  /** The scan finds `needle` exactly when it occurs at some offset. */
  lemma {:induction false} ContainsIffOccurs(hay: string, needle: string)
    ensures Contains(hay, needle) <==> exists i :: OccursAt(hay, needle, i)
    decreases |hay|
  {
    if needle <= hay {
      assert OccursAt(hay, needle, 0);
    } else if hay != [] {
      ContainsIffOccurs(hay[1..], needle);
      ShiftOccurrence(hay, needle);
    }
  }

  /** When `needle` is not a prefix of `hay`, its occurrences in `hay` are exactly
      the occurrences in `hay[1..]`, shifted by one. */
  lemma ShiftOccurrence(hay: string, needle: string)
    requires hay != [] && !(needle <= hay)
    ensures (exists i :: OccursAt(hay, needle, i)) <==> (exists j :: OccursAt(hay[1..], needle, j))
  {
    if i :| OccursAt(hay, needle, i) {
      if i == 0 {
        assert false;
      }
      assert hay[1..][i - 1..i - 1 + |needle|] == hay[i..i + |needle|];
      assert OccursAt(hay[1..], needle, i - 1);
    }
    if j :| OccursAt(hay[1..], needle, j) {
      assert hay[j + 1..j + 1 + |needle|] == hay[1..][j..j + |needle|];
      assert OccursAt(hay, needle, j + 1);
    }
  }

  /** A string occurs in any string that extends it on either side. */
  lemma ContainsInContext(pre: string, needle: string, post: string)
    ensures Contains(pre + needle + post, needle)
  {
    var hay := pre + needle + post;
    assert hay[|pre|..|pre| + |needle|] == needle;
    assert OccursAt(hay, needle, |pre|);
    ContainsIffOccurs(hay, needle);
  }

  /** Containment is transitive: what occurs in `mid` occurs in anything that
      extends `mid` on either side. */
  lemma ContainsWithinContext(pre: string, mid: string, post: string, needle: string)
    requires Contains(mid, needle)
    ensures Contains(pre + mid + post, needle)
  {
    var hay := pre + mid + post;
    ContainsIffOccurs(mid, needle);
    var i :| OccursAt(mid, needle, i);
    assert hay[|pre| + i..|pre| + i + |needle|] == mid[i..i + |needle|];
    assert OccursAt(hay, needle, |pre| + i);
    ContainsIffOccurs(hay, needle);
  }

  /* ---------------- ASCII case folding ---------------- */

  predicate IsUpper(c: char) {
    'A' <= c <= 'Z'
  }

  /** `c.lower()` restricted to ASCII: upper-case letters map to lower case,
      every other character is left alone. */
  function LowerChar(c: char): char {
    if IsUpper(c) then (c as int - 'A' as int + 'a' as int) as char else c
  }

  /** `s.lower()` restricted to ASCII, character by character. */
  function Lower(s: string): (r: string)
    ensures |r| == |s|
    ensures forall i :: 0 <= i < |s| ==> r[i] == LowerChar(s[i])
  {
    if s == [] then [] else [LowerChar(s[0])] + Lower(s[1..])
  }

  /** Lower-casing leaves no upper-case letter behind, so doing it twice changes nothing. */
  lemma LowerIdempotent(s: string)
    ensures forall i :: 0 <= i < |s| ==> !IsUpper(Lower(s)[i])
    ensures Lower(Lower(s)) == Lower(s)
  {
  }

  predicate IsLower(c: char) {
    'a' <= c <= 'z'
  }

  /** `c.upper()` restricted to ASCII. */
  function UpperChar(c: char): char {
    if IsLower(c) then (c as int - 'a' as int + 'A' as int) as char else c
  }

  /** `s.upper()` restricted to ASCII, character by character. */
  function Upper(s: string): (r: string)
    ensures |r| == |s|
    ensures forall i :: 0 <= i < |s| ==> r[i] == UpperChar(s[i])
  {
    if s == [] then [] else [UpperChar(s[0])] + Upper(s[1..])
  }

  /** Lower-casing forgets every case distinction: a string, its upper-cased
      form and its lower-cased form all lower-case alike. */
  lemma LowerForgetsCase(s: string)
    ensures Lower(Upper(s)) == Lower(s)
    ensures Lower(Lower(s)) == Lower(s)
  {
    LowerIdempotent(s);
    forall i | 0 <= i < |s| ensures Lower(Upper(s))[i] == Lower(s)[i] {
      LowerUpperChar(s[i]);
    }
  }

  lemma LowerUpperChar(c: char)
    ensures LowerChar(UpperChar(c)) == LowerChar(c)
  {
    if IsLower(c) {
      assert IsUpper(UpperChar(c));
    }
  }

  /* ---------------- integers as decimal text ---------------- */

  predicate IsDigit(c: char) {
    '0' <= c <= '9'
  }

  predicate AllDigits(s: string) {
    forall i :: 0 <= i < |s| ==> IsDigit(s[i])
  }

  function DigitChar(d: nat): (c: char)
    requires d < 10
    ensures IsDigit(c) && c as int - '0' as int == d
  {
    ('0' as int + d) as char
  }

  /** Decimal rendering of a natural number, most significant digit first. */
  function NatToString(n: nat): (s: string)
    ensures |s| >= 1 && AllDigits(s)
    ensures s[0] == '0' ==> n == 0
    decreases n
  {
    if n < 10 then [DigitChar(n)] else NatToString(n / 10) + [DigitChar(n % 10)]
  }

  /** The value of a string of decimal digits. */
  function DigitsValue(s: string): nat
    requires AllDigits(s)
  {
    if s == [] then 0 else DigitsValue(s[..|s| - 1]) * 10 + (s[|s| - 1] as int - '0' as int)
  }

  /** Reading back the decimal rendering of `n` gives `n`. */
  lemma {:induction false} NatToStringRoundTrip(n: nat)
    ensures DigitsValue(NatToString(n)) == n
    decreases n
  {
    if n >= 10 {
      var s := NatToString(n);
      assert s[..|s| - 1] == NatToString(n / 10);
      NatToStringRoundTrip(n / 10);
    }
  }

  /** Python's `str(n)` for an integer: a minus sign before the digits of `-n` when negative. */
  function IntToString(n: int): (s: string)
    ensures |s| >= 1
    ensures n >= 0 <==> AllDigits(s)
    ensures n < 0 ==> s[0] == '-' && AllDigits(s[1..])
  {
    if n < 0 then
      var s := "-" + NatToString(-n);
      assert !IsDigit(s[0]);
      s
    else NatToString(n)
  }

  /** Parses what `IntToString` renders. */
  function ParseInt(s: string): int
  {
    if |s| > 0 && s[0] == '-' && AllDigits(s[1..]) then 0 - DigitsValue(s[1..]) as int
    else if AllDigits(s) then DigitsValue(s)
    else 0
  }

  /** `IntToString` loses nothing: parsing its output recovers the number, so
      distinct numbers render as distinct strings. */
  lemma IntToStringRoundTrip(n: int)
    ensures ParseInt(IntToString(n)) == n
  {
    var t := IntToString(n);
    if n < 0 {
      assert t[1..] == NatToString(-n);
      NatToStringRoundTrip(-n);
      assert |t| > 0 && t[0] == '-' && AllDigits(t[1..]);
      assert ParseInt(t) == 0 - DigitsValue(t[1..]) as int;
    } else {
      NatToStringRoundTrip(n);
      assert !(|t| > 0 && t[0] == '-');
    }
  }

  /** The rendering of an integer is on one line. */
  lemma IntToStringHasNoNewline(n: int)
    ensures '\n' !in IntToString(n)
  {
    var t := IntToString(n);
    if n < 0 {
      assert t == [t[0]] + t[1..];
    }
  }

  /* ---------------- join and split ---------------- */

  /** Python's `sep.join(xs)`. */
  function Join(xs: seq<string>, sep: string): string
  {
    if |xs| == 0 then "" else if |xs| == 1 then xs[0] else xs[0] + sep + Join(xs[1..], sep)
  }

  /** Python's `s.split(c)` for a one-character separator: the pieces between
      occurrences of `c`, always at least one. */
  function Split(s: string, c: char): (parts: seq<string>)
    ensures |parts| >= 1
    decreases |s|
  {
    if s == [] then [""]
    else
      var rest := Split(s[1..], c);
      if s[0] == c then [""] + rest else [[s[0]] + rest[0]] + rest[1..]
  }

  lemma {:induction false} SplitNoSeparator(a: string, c: char)
    requires c !in a
    ensures Split(a, c) == [a]
    decreases |a|
  {
    if a != [] {
      SplitNoSeparator(a[1..], c);
      assert [a[0]] + a[1..] == a;
    }
  }

  lemma {:induction false} SplitFirstPiece(a: string, b: string, c: char)
    requires c !in a
    ensures Split(a + [c] + b, c) == [a] + Split(b, c)
    decreases |a|
  {
    var s := a + [c] + b;
    if a == [] {
      assert s[1..] == b;
    } else {
      assert s[1..] == a[1..] + [c] + b;
      SplitFirstPiece(a[1..], b, c);
      assert [a[0]] + a[1..] == a;
    }
  }

  /** Splitting a join on its one-character separator gives the pieces back,
      provided no piece contains the separator. */
  lemma {:induction false} SplitJoin(xs: seq<string>, c: char)
    requires |xs| >= 1
    requires forall i :: 0 <= i < |xs| ==> c !in xs[i]
    ensures Split(Join(xs, [c]), c) == xs
    decreases |xs|
  {
    if |xs| == 1 {
      SplitNoSeparator(xs[0], c);
    } else {
      SplitFirstPiece(xs[0], Join(xs[1..], [c]), c);
      SplitJoin(xs[1..], c);
      assert [xs[0]] + xs[1..] == xs;
    }
  }

  /** Every character of `sep.join(xs)` comes from a piece or from the separator. */
  lemma {:induction false} JoinAvoids(xs: seq<string>, sep: string, c: char)
    requires c !in sep
    requires forall i :: 0 <= i < |xs| ==> c !in xs[i]
    ensures c !in Join(xs, sep)
    decreases |xs|
  {
    if |xs| > 1 {
      JoinAvoids(xs[1..], sep, c);
    }
  }

  /* ---------------- newline flattening ---------------- */

  /** Python's `s.replace("\n", " ")`. */
  function SpaceNewlines(s: string): (r: string)
    ensures |r| == |s|
    ensures '\n' !in r
    ensures forall i :: 0 <= i < |s| && s[i] != '\n' ==> r[i] == s[i]
    ensures forall i :: 0 <= i < |s| && s[i] == '\n' ==> r[i] == ' '
  {
    if s == [] then [] else [if s[0] == '\n' then ' ' else s[0]] + SpaceNewlines(s[1..])
  }
}
