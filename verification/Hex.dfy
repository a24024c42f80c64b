/** Hex text as the filters compare it: `isHexString`, `hexStripZeros` and `hexStringEq`. */
module Hex {
  import opened Js

  predicate IsHexDigit(c: char) {
    '0' <= c <= '9' || 'a' <= c <= 'f' || 'A' <= c <= 'F'
  }

  predicate AllHexDigits(digits: string) {
    forall i :: 0 <= i < |digits| ==> IsHexDigit(digits[i])
  }

  predicate IsHexString(s: string) {
    |s| >= 2 && s[0] == '0' && s[1] == 'x' && AllHexDigits(s[2..])
  }

  function StripZeros(digits: string): string {
    if digits != "" && digits[0] == '0' then StripZeros(digits[1..]) else digits
  }

  /** The digits of a hex string with the prefix and the leading zeros removed. */
  function Significant(s: string): string
    requires IsHexString(s)
  {
    StripZeros(s[2..])
  }

  /** `hexStringEq`: equality up to case and leading zeros, throwing on anything that is not hex. */
  function HexStringEq(a: string, b: string): Result<bool> {
    if !IsHexString(a) || !IsHexString(b) then Thrown("Inputs are not hex strings")
    else Ok(Lower("0x" + Significant(a)) == Lower("0x" + Significant(b)))
  }

  /** The number of hex digits of a 32-byte topic. */
  const TOPIC_DIGITS := 64

  /** A topic as the chain and the index store it: 32 bytes of lower-case hex. */
  predicate IsTopic(s: string) {
    IsHexString(s) && |s| == TOPIC_DIGITS + 2 && Lower(s) == s
  }

  function Zeros(n: nat): string {
    seq(n, _ => '0')
  }

  /** The stored topic a hex string denotes when its significant digits fit in 32 bytes. */
  function AsTopic(s: string): string
    requires IsHexString(s) && |Significant(s)| <= TOPIC_DIGITS
  {
    "0x" + (Zeros(TOPIC_DIGITS - |Significant(s)|) + Lower(Significant(s)))
  }

  lemma {:induction false} StripZerosSplits(d: string)
    ensures |StripZeros(d)| <= |d|
    ensures d == Zeros(|d| - |StripZeros(d)|) + StripZeros(d)
    ensures StripZeros(d) == "" || StripZeros(d)[0] != '0'
  {
    if d != "" && d[0] == '0' {
      StripZerosSplits(d[1..]);
      assert d == ['0'] + d[1..];
    }
  }

  lemma {:induction false} StripZerosOfPadded(n: nat, d: string)
    requires d == "" || d[0] != '0'
    ensures StripZeros(Zeros(n) + d) == d
  {
    if n == 0 {
      assert Zeros(n) + d == d;
    } else {
      assert (Zeros(n) + d)[1..] == Zeros(n - 1) + d;
      StripZerosOfPadded(n - 1, d);
    }
  }

  lemma {:induction false} StripZerosLower(d: string)
    ensures StripZeros(Lower(d)) == Lower(StripZeros(d))
  {
    if d != "" && d[0] == '0' {
      assert Lower(d)[1..] == Lower(d[1..]);
      StripZerosLower(d[1..]);
    }
  }

  lemma HexStringEqMeaning(a: string, b: string)
    requires IsHexString(a) && IsHexString(b)
    ensures HexStringEq(a, b) == Ok(Lower(Significant(a)) == Lower(Significant(b)))
  {
    var x, y := Significant(a), Significant(b);
    assert Lower("0x" + x)[2..] == Lower(x) && Lower("0x" + y)[2..] == Lower(y);
    assert Lower("0x" + x) == Lower("0x") + Lower(x);
    assert Lower("0x" + y) == Lower("0x") + Lower(y);
  }

  lemma LowerConcat(a: string, b: string)
    ensures Lower(a + b) == Lower(a) + Lower(b)
  {
  }

  /** A prefixed text is hex, or a topic, by its digits. */
  lemma PrefixedDigits(digits: string)
    ensures ("0x" + digits)[2..] == digits
    ensures IsHexString("0x" + digits) <==> AllHexDigits(digits)
    ensures IsTopic("0x" + digits) <==> AllHexDigits(digits) && |digits| == TOPIC_DIGITS && Lower(digits) == digits
  {
    assert ("0x" + digits)[2..] == digits;
    LowerConcat("0x", digits);
    assert Lower("0x") == "0x";
    assert Lower("0x" + digits)[2..] == Lower(digits);
  }

  lemma TopicIsPrefixed(s: string)
    requires IsTopic(s)
    ensures s == "0x" + s[2..]
  {
  }

  /** Among digits of one length, stripping zeros loses nothing. */
  lemma SameLengthSameStripped(x: string, y: string)
    requires |x| == |y|
    ensures StripZeros(x) == StripZeros(y) <==> x == y
  {
    StripZerosSplits(x);
    StripZerosSplits(y);
  }

  /** Stripping zeros loses nothing between stored topics: they compare equal only when identical. */
  lemma TopicsCompareExactly(a: string, b: string)
    requires IsTopic(a) && IsTopic(b)
    ensures HexStringEq(a, b) == Ok(a == b)
  {
    TopicIsPrefixed(a);
    TopicIsPrefixed(b);
    PrefixedDigits(a[2..]);
    PrefixedDigits(b[2..]);
    HexStringEqMeaning(a, b);
    StripZerosLower(a[2..]);
    StripZerosLower(b[2..]);
    SameLengthSameStripped(a[2..], b[2..]);
  }

  lemma SignificantAreHexDigits(s: string)
    requires IsHexString(s)
    ensures AllHexDigits(Significant(s)) && AllHexDigits(Lower(Significant(s)))
  {
    var d := Significant(s);
    StripZerosSplits(s[2..]);
    forall i | 0 <= i < |d| ensures IsHexDigit(d[i]) {
      assert s[2..][|s| - 2 - |d| + i] == d[i];
    }
  }

  lemma ZerosAreDigits(n: nat)
    ensures Lower(Zeros(n)) == Zeros(n) && AllHexDigits(Zeros(n))
  {
  }

  lemma PaddedIsTopic(n: nat, d: string)
    requires n + |d| == TOPIC_DIGITS && AllHexDigits(d) && Lower(d) == d && (d == "" || d[0] != '0')
    ensures IsTopic("0x" + (Zeros(n) + d)) && Significant("0x" + (Zeros(n) + d)) == d
  {
    ZerosAreDigits(n);
    LowerConcat(Zeros(n), d);
    PrefixedDigits(Zeros(n) + d);
    StripZerosOfPadded(n, d);
  }

  lemma {:induction false} StripZerosIgnoresPadding(n: nat, d: string)
    ensures StripZeros(Zeros(n) + d) == StripZeros(d)
  {
    if n == 0 {
      assert Zeros(n) + d == d;
    } else {
      assert (Zeros(n) + d)[1..] == Zeros(n - 1) + d;
      StripZerosIgnoresPadding(n - 1, d);
    }
  }

  /** The digits of a hex string in lower case, with zeros in front up to the given length. */
  function Padded(s: string, length: nat): string
    requires IsHexString(s) && |s| - 2 <= length
  {
    Zeros(length - (|s| - 2)) + Lower(s[2..])
  }

  /** Two hex strings compare equal exactly when their digits, padded to one length, agree up to case; other texts throw. */
  lemma HexStringEqIff(a: string, b: string, length: nat)
    ensures !IsHexString(a) || !IsHexString(b) ==> HexStringEq(a, b).Thrown?
    ensures IsHexString(a) && IsHexString(b) && |a| - 2 <= length && |b| - 2 <= length ==>
              HexStringEq(a, b) == Ok(Padded(a, length) == Padded(b, length))
  {
    if IsHexString(a) && IsHexString(b) && |a| - 2 <= length && |b| - 2 <= length {
      HexStringEqMeaning(a, b);
      StripZerosLower(a[2..]);
      StripZerosLower(b[2..]);
      StripZerosIgnoresPadding(length - (|a| - 2), Lower(a[2..]));
      StripZerosIgnoresPadding(length - (|b| - 2), Lower(b[2..]));
      SameLengthSameStripped(Padded(a, length), Padded(b, length));
    }
  }

  /** A hex string that fits compares equal to one stored topic, which is its padded form. */
  lemma FittingHexHasATopic(s: string)
    requires IsHexString(s) && |Significant(s)| <= TOPIC_DIGITS
    ensures IsTopic(AsTopic(s))
    ensures HexStringEq(s, AsTopic(s)) == Ok(true)
  {
    var d := Significant(s);
    StripZerosSplits(s[2..]);
    SignificantAreHexDigits(s);
    assert Lower(Lower(d)) == Lower(d);
    PaddedIsTopic(TOPIC_DIGITS - |d|, Lower(d));
    HexStringEqMeaning(s, AsTopic(s));
  }

  /** A hex string with more than 32 significant bytes equals no stored topic. */
  lemma LongHexHasNoTopic(s: string, t: string)
    requires IsHexString(s) && |Significant(s)| > TOPIC_DIGITS && IsTopic(t)
    ensures HexStringEq(s, t) == Ok(false)
  {
    HexStringEqMeaning(s, t);
    StripZerosSplits(t[2..]);
    assert |Lower(Significant(s))| > |Lower(Significant(t))|;
  }
}
