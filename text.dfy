/** Character-level helpers shared by the pager, the WKT converter and the
    boundary-file converter: decimal rendering of page and line numbers,
    and the `implode` / `explode` pair of PHP over strings. */
module Text {

  import opened Wrappers

  predicate IsDigit(c: char) { '0' <= c <= '9' }

  predicate AllDigits(s: string) { forall i :: 0 <= i < |s| ==> IsDigit(s[i]) }

  function DigitChar(d: nat): (c: char)
    requires d < 10
    ensures IsDigit(c) && c as int - '0' as int == d
  {
    ('0' as int + d) as char
  }

  /** Decimal rendering of a natural number, as PHP's string conversion of
      an integer produces it: no sign, no leading zero. */
  function NatToString(n: nat): (s: string)
    ensures |s| >= 1 && AllDigits(s)
    ensures s[0] == '0' <==> n == 0
    decreases n
  {
    if n < 10 then [DigitChar(n)] else NatToString(n / 10) + [DigitChar(n % 10)]
  }

  /** Decimal rendering of any integer, with a leading '-' when negative. */
  function IntToString(i: int): (s: string)
    ensures i >= 0 ==> s == NatToString(i)
    ensures i < 0 ==> s == "-" + NatToString(-i)
  {
    if i < 0 then "-" + NatToString(-i) else NatToString(i)
  }

  /** The value of a string of decimal digits (the empty string reads as 0). */
  function DigitsValue(s: string): nat
    requires AllDigits(s)
  {
    if s == [] then 0
    else DigitsValue(s[..|s| - 1]) * 10 + (s[|s| - 1] as int - '0' as int)
  }

  /** Reading back a rendered number gives the number. */
  lemma {:induction false} NatToStringRoundTrip(n: nat)
    ensures DigitsValue(NatToString(n)) == n
  {
    if n >= 10 {
      var s := NatToString(n);
      assert s[..|s| - 1] == NatToString(n / 10);
      NatToStringRoundTrip(n / 10);
    }
  }

  /** PHP `implode(sep, parts)`. */
  function Join(parts: seq<string>, sep: string): string
  {
    if |parts| == 0 then ""
    else if |parts| == 1 then parts[0]
    else parts[0] + sep + Join(parts[1..], sep)
  }

  /** The first position at or after `k` where `sep` occurs in `s`. */
  function FirstIndex(s: string, sep: string, k: nat): (r: Option<nat>)
    requires |sep| > 0
    ensures r.Some? ==> k <= r.value && r.value + |sep| <= |s| && s[r.value..r.value + |sep|] == sep
    decreases |s| - k
  {
    if k + |sep| > |s| then None
    else if s[k..k + |sep|] == sep then Some(k)
    else FirstIndex(s, sep, k + 1)
  }

  /** PHP `explode(sep, s)`: the pieces between the occurrences of `sep`,
      scanning left to right; never empty. */
  function Explode(s: string, sep: string): (parts: seq<string>)
    requires |sep| > 0
    ensures |parts| >= 1
    decreases |s|
  {
    match FirstIndex(s, sep, 0)
    case None => [s]
    case Some(i) => [s[..i]] + Explode(s[i + |sep|..], sep)
  }

  predicate Free(s: string, c: char) { forall i :: 0 <= i < |s| ==> s[i] != c }

  lemma FreeConcat(a: string, b: string, c: char)
    requires Free(a, c) && Free(b, c)
    ensures Free(a + b, c)
  {
    forall i | 0 <= i < |a + b| ensures (a + b)[i] != c {
      if i >= |a| { assert (a + b)[i] == b[i - |a|]; }
    }
  }

  lemma {:induction false} FirstIndexAt(s: string, sep: string, k: nat, m: nat)
    requires |sep| > 0 && k <= m && m + |sep| <= |s| && s[m..m + |sep|] == sep
    requires forall j :: k <= j < m ==> s[j] != sep[0]
    ensures FirstIndex(s, sep, k) == Some(m)
    decreases m - k
  {
    if k < m {
      assert s[k..k + |sep|][0] == s[k];
      FirstIndexAt(s, sep, k + 1, m);
    }
  }

  lemma {:induction false} FirstIndexNone(s: string, sep: string, k: nat)
    requires |sep| > 0 && forall j :: k <= j < |s| ==> s[j] != sep[0]
    ensures FirstIndex(s, sep, k) == None
    decreases |s| - k
  {
    if k + |sep| <= |s| {
      assert s[k..k + |sep|][0] == s[k];
      FirstIndexNone(s, sep, k + 1);
    }
  }

  /** A character that occurs in no part and not in the separator does not
      occur in the joined string. */
  lemma {:induction false} JoinFree(parts: seq<string>, sep: string, c: char)
    requires forall p :: p in parts ==> Free(p, c)
    requires Free(sep, c)
    ensures Free(Join(parts, sep), c)
  {
    if |parts| == 1 {
      assert parts[0] in parts;
    } else if |parts| >= 2 {
      assert parts[0] in parts;
      JoinFree(parts[1..], sep, c);
      FreeConcat(parts[0], sep, c);
      FreeConcat(parts[0] + sep, Join(parts[1..], sep), c);
    }
  }

  /** A part free of the separator's first character, then the separator:
      `explode` splits exactly there. */
  lemma ExplodeStep(p0: string, rest: string, sep: string)
    requires |sep| > 0 && Free(p0, sep[0])
    ensures Explode(p0 + sep + rest, sep) == [p0] + Explode(rest, sep)
  {
    var s := p0 + sep + rest;
    assert FirstIndex(s, sep, 0) == Some(|p0|) by {
      assert s[|p0|..|p0| + |sep|] == sep;
      assert forall j :: 0 <= j < |p0| ==> s[j] == p0[j];
      FirstIndexAt(s, sep, 0, |p0|);
    }
    assert s[..|p0|] == p0;
    assert s[|p0| + |sep|..] == rest;
  }

  /** `explode` undoes `implode` when the separator's first character occurs
      in none of the parts. */
  lemma {:induction false} ExplodeJoin(parts: seq<string>, sep: string)
    requires |parts| >= 1 && |sep| > 0
    requires forall p :: p in parts ==> Free(p, sep[0])
    ensures Explode(Join(parts, sep), sep) == parts
  {
    if |parts| == 1 {
      assert parts[0] in parts;
      FirstIndexNone(parts[0], sep, 0);
    } else {
      assert parts[0] in parts;
      ExplodeStep(parts[0], Join(parts[1..], sep), sep);
      assert forall p :: p in parts[1..] ==> p in parts;
      ExplodeJoin(parts[1..], sep);
      assert parts == [parts[0]] + parts[1..];
    }
  }
}
