/** Values shared by the whole model: optional results, the engine's 3-vectors,
    the +-Infinity that min/max folds start from, and the decimal rendering of
    whole numbers that the tile URL and the location keys use. */
module Common {

  datatype Option<T> = None | Some(value: T)

  /** A point of render space (the engine's Vector3). */
  datatype Vec3 = Vec3(x: real, y: real, z: real)

  /** A real extended with the two infinities the source starts min/max folds from. */
  datatype Extended = NegInf | Finite(value: real) | PosInf

  /** `a < b` on extended reals, as JavaScript compares numbers with +-Infinity. */
  predicate Below(a: Extended, b: Extended)
  {
    match (a, b)
    case (NegInf, NegInf) => false
    case (NegInf, _) => true
    case (Finite(x), Finite(y)) => x < y
    case (Finite(_), PosInf) => true
    case _ => false
  }

  ghost predicate NoDup<T>(s: seq<T>)
  {
    forall i, j :: 0 <= i < j < |s| ==> s[i] != s[j]
  }

  function Max(a: real, b: real): real { if a < b then b else a }
  function Min(a: real, b: real): real { if a < b then a else b }

  predicate IsDigit(c: char) { '0' <= c <= '9' }

  function DigitChar(d: nat): (c: char)
    requires d < 10
    ensures IsDigit(c) && (c as int) - ('0' as int) == d
  {
    ['0', '1', '2', '3', '4', '5', '6', '7', '8', '9'][d]
  }

  /** Decimal digits of a natural number, most significant first, as JavaScript
      prints an integral number. */
  function NatToString(n: nat): (s: string)
    ensures |s| > 0
    ensures forall i :: 0 <= i < |s| ==> IsDigit(s[i])
    decreases n
  {
    if n < 10 then [DigitChar(n)] else NatToString(n / 10) + [DigitChar(n % 10)]
  }

  /** JavaScript's rendering of an integral number: a minus sign for negatives. */
  function IntToString(i: int): (s: string)
    ensures |s| > 0
    ensures forall k :: 0 < k < |s| ==> IsDigit(s[k])
    ensures (s[0] == '-') == (i < 0) && (i >= 0 ==> IsDigit(s[0]))
  {
    if i < 0 then "-" + NatToString(-i) else NatToString(i)
  }

  function DigitValue(c: char): (d: nat)
    requires IsDigit(c)
    ensures d < 10
  {
    (c as int) - ('0' as int)
  }

  /** Reading back a string of digits. */
  function ParseNat(s: string): nat
    requires forall i :: 0 <= i < |s| ==> IsDigit(s[i])
    decreases |s|
  {
    if s == [] then 0 else 10 * ParseNat(s[..|s| - 1]) + DigitValue(s[|s| - 1])
  }

  function ParseInt(s: string): int
    requires |s| > 0
    requires forall k :: 0 < k < |s| ==> IsDigit(s[k])
    requires s[0] == '-' || IsDigit(s[0])
  {
    if s[0] == '-' then -(ParseNat(s[1..]) as int) else ParseNat(s)
  }

  lemma {:induction false} NatToStringRoundTrip(n: nat)
    ensures ParseNat(NatToString(n)) == n
    decreases n
  {
    if n >= 10 {
      NatToStringRoundTrip(n / 10);
      var s := NatToString(n);
      assert s[..|s| - 1] == NatToString(n / 10);
    }
  }

  /** Distinct integers print differently, so a printed number identifies it. */
  lemma IntToStringRoundTrip(i: int)
    ensures ParseInt(IntToString(i)) == i
  {
    NatToStringRoundTrip(if i < 0 then -i else i);
    if i < 0 {
      assert IntToString(i)[1..] == NatToString(-i);
    }
  }

  lemma IntToStringInjective(a: int, b: int)
    ensures IntToString(a) == IntToString(b) ==> a == b
  {
    IntToStringRoundTrip(a);
    IntToStringRoundTrip(b);
  }

  /** A printed integer holds only digits and a leading minus sign. */
  lemma IntToStringAvoids(i: int, c: char)
    requires c != '-' && !IsDigit(c)
    ensures c !in IntToString(i)
  {
  }

  /** Joining two fields with a separator neither contains can be undone:
      the first occurrence of the separator marks the end of the first field. */
  lemma SplitAtSeparator(a: string, r: string, a': string, r': string, sep: char)
    requires sep !in a && sep !in a'
    requires a + [sep] + r == a' + [sep] + r'
    ensures a == a' && r == r'
  {
    var s := a + [sep] + r;
    var s' := a' + [sep] + r';
    FirstSeparator(a, r, sep);
    FirstSeparator(a', r', sep);
    assert |a| == |a'|;
    assert a == s[..|a|] && a' == s'[..|a'|];
    assert r == s[|a| + 1..] && r' == s'[|a'| + 1..];
  }

  lemma FirstSeparator(a: string, r: string, sep: char)
    requires sep !in a
    ensures (a + [sep] + r)[|a|] == sep
    ensures forall k :: 0 <= k < |a| ==> (a + [sep] + r)[k] != sep
  {
    forall k | 0 <= k < |a|
      ensures (a + [sep] + r)[k] != sep
    {
      assert (a + [sep] + r)[k] == a[k];
    }
  }

  lemma DropCommonPrefix(p: string, a: string, b: string)
    requires p + a == p + b
    ensures a == b
  {
    assert a == (p + a)[|p|..];
    assert b == (p + b)[|p|..];
  }

  lemma AppendAssoc<T>(p: seq<T>, q: seq<T>, r: seq<T>)
    ensures (p + q) + r == p + (q + r)
  {
  }
}
