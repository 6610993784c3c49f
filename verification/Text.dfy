/** Classes of ASCII characters and the scanning functions of the C library that the parsers use. */
module Text {
  import opened Bytes

  predicate IsSpace(c: byte) { c == 32 || 9 <= c <= 13 }

  predicate IsDigit(c: byte) { 48 <= c <= 57 }

  predicate IsLabel(c: byte) { IsDigit(c) || 65 <= c <= 90 || 97 <= c <= 122 || c == 95 }

  predicate IsSpaceOrEquals(c: byte) { IsSpace(c) || c == 61 }

  datatype CharClass = Space | Label | Digit | SpaceOrEquals {
    predicate Has(c: byte) {
      match this
      case Space => IsSpace(c)
      case Label => IsLabel(c)
      case Digit => IsDigit(c)
      case SpaceOrEquals => IsSpaceOrEquals(c)
    }
  }

  /** The rest of s after its leading characters of a class. */
  function Skip(s: seq<byte>, cls: CharClass): (r: seq<byte>)
    ensures |r| <= |s|
    ensures r != [] ==> !cls.Has(r[0])
  {
    if |s| > 0 && cls.Has(s[0]) then Skip(s[1..], cls) else s
  }

  /** The value of the digits at the start of s, after v. */
  function Number(s: seq<byte>, v: nat): nat {
    if |s| > 0 && IsDigit(s[0]) then Number(s[1..], 10 * v + (s[0] - 48) as nat) else v
  }

  // ---------- What a number reads as ----------

  /** How a number is written. */
  function Decimal(n: nat): (r: seq<byte>)
    ensures |r| > 0 && forall k :: 0 <= k < |r| ==> 48 <= r[k] <= 57
  {
    if n < 10 then [48 + n as byte] else Decimal(n / 10) + [48 + (n % 10) as byte]
  }

  lemma {:induction false} NumberOfMore(a: seq<byte>, b: seq<byte>, v: nat)
    requires forall k :: 0 <= k < |a| ==> IsDigit(a[k])
    ensures Number(a + b, v) == Number(b, Number(a, v))
  {
    if |a| == 0 {
      assert a + b == b;
    } else {
      assert (a + b)[1..] == a[1..] + b;
      NumberOfMore(a[1..], b, 10 * v + (a[0] - 48) as nat);
    }
  }

  lemma {:induction false} NumberOfDecimal(n: nat)
    ensures Number(Decimal(n), 0) == n
  {
    if n >= 10 {
      NumberOfDecimal(n / 10);
      NumberOfMore(Decimal(n / 10), [48 + (n % 10) as byte], 0);
      assert Number([48 + (n % 10) as byte], n / 10) == Number([], 10 * (n / 10) + n % 10);
    } else {
      assert Number([48 + n as byte], 0) == Number([], n);
    }
  }

  lemma {:induction false} NumberOfZeros(zeros: seq<byte>)
    requires forall k :: 0 <= k < |zeros| ==> zeros[k] == 48
    ensures Number(zeros, 0) == 0
  {
    if |zeros| > 0 { NumberOfZeros(zeros[1..]); }
  }

  /** A number is read back, zeros before it and anything but a digit behind it notwithstanding. */
  lemma NumberRoundTrip(zeros: seq<byte>, n: nat, rest: seq<byte>)
    requires forall k :: 0 <= k < |zeros| ==> zeros[k] == 48
    requires |rest| > 0 ==> !IsDigit(rest[0])
    ensures Number(zeros + Decimal(n) + rest, 0) == n
  {
    NumberOfZeros(zeros);
    NumberOfDecimal(n);
    NumberOfMore(zeros, Decimal(n), 0);
    NumberOfMore(zeros + Decimal(n), rest, 0);
  }

  /** Skipping passes over what is in the class and nothing else. */
  lemma {:induction false} SkipsAll(a: seq<byte>, b: seq<byte>, cls: CharClass)
    requires forall k :: 0 <= k < |a| ==> cls.Has(a[k])
    requires |b| > 0 ==> !cls.Has(b[0])
    ensures Skip(a + b, cls) == b
  {
    if |a| == 0 {
      assert a + b == b;
    } else {
      assert (a + b)[1..] == a[1..] + b;
      SkipsAll(a[1..], b, cls);
    }
  }
}
