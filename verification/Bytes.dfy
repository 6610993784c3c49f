/** Machine-level vocabulary shared by several modules: bytes, C arithmetic helpers and the
    block copies of string.h. */
module Bytes {

  newtype byte = x: int | 0 <= x < 256

  const U32_MODULUS: nat := 0x1_0000_0000
  const U64_MODULUS: nat := 0x1_0000_0000_0000_0000

  datatype Option<+T> = None | Some(value: T)

  function Min(a: int, b: int): int { if a > b then b else a }

  function Max(a: int, b: int): int { if a > b then a else b }

  // ---------- Powers of two ----------

  ghost predicate IsPow2(n: nat)
    decreases n
  {
    n == 1 || (n > 1 && n % 2 == 0 && IsPow2(n / 2))
  }

  /** The first element of ret, 2*ret, 4*ret, ... that is not below `val`. */
  function DoubleUntil(ret: nat, val: nat): (r: nat)
    requires ret > 0
    ensures r >= val && r >= ret
    ensures r == ret || r / 2 < val
    decreases val - ret
  {
    if val > ret then DoubleUntil(2 * ret, val) else ret
  }

  function NextP2(val: nat): nat { DoubleUntil(1, val) }

  lemma {:induction false} DoublingKeepsPow2(ret: nat, val: nat)
    requires IsPow2(ret)
    ensures IsPow2(DoubleUntil(ret, val))
    decreases val - ret
  {
    if val > ret {
      assert (2 * ret) / 2 == ret;
      DoublingKeepsPow2(2 * ret, val);
    }
  }

  /** `next_p2` returns the least power of two that is not below its argument. */
  lemma {:induction false} NextP2IsLeastPow2(val: nat, p: nat)
    requires IsPow2(p) && p >= val
    ensures IsPow2(NextP2(val)) && val <= NextP2(val) <= p
  {
    DoublingKeepsPow2(1, val);
    if p < NextP2(val) {
      Pow2Gap(p, NextP2(val));
    }
  }

  lemma {:induction false} Pow2Gap(p: nat, q: nat)
    requires IsPow2(p) && IsPow2(q) && p < q
    ensures 2 * p <= q
    decreases p
  {
    if p > 1 { Pow2Gap(p / 2, q / 2); }
  }

  /** d is the least power of two that is not below n. */
  ghost predicate LeastPow2(d: nat, n: nat) {
    IsPow2(d) && d >= n && forall p: nat :: IsPow2(p) && p >= n ==> d <= p
  }

  lemma NextP2IsLeast(n: nat)
    ensures LeastPow2(NextP2(n), n)
  {
    DoublingKeepsPow2(1, n);
    forall p: nat | IsPow2(p) && p >= n ensures NextP2(n) <= p { NextP2IsLeastPow2(n, p); }
  }

  /** The loop over a 32-bit register: it ends, without wrapping, for every argument up to 2^31. */
  method ComputeNextP2(val: nat) returns (ret: nat)
    requires val <= U32_MODULUS / 2
    ensures ret == NextP2(val) < U32_MODULUS
  {
    ret := 1;
    while val > ret
      invariant 0 < ret < U32_MODULUS
      invariant DoubleUntil(ret, val) == NextP2(val)
      decreases val - ret
    {
      ret := (2 * ret) % U32_MODULUS;
    }
  }

  // ---------- Quotients ----------

  lemma QuotientIsUnique(a: nat, d: nat, q: nat, r: nat)
    requires d > 0 && r < d && a == q * d + r
    ensures a / d == q && a % d == r
  {
    var p := a / d;
    if p < q {
      assert (q - p) * d >= d by { ProductAtLeast(q - p, d); }
    } else if p > q {
      assert (p - q) * d >= d by { ProductAtLeast(p - q, d); }
    }
  }

  lemma ProductAtLeast(k: int, d: nat)
    requires k >= 1
    ensures k * d >= d
  {
    assert (k - 1) * d >= 0;
  }

  lemma DivStep(a: nat, d: nat)
    requires a >= d > 0
    ensures a / d == (a - d) / d + 1 && a % d == (a - d) % d
  {
    var q, r := (a - d) / d, (a - d) % d;
    assert (q + 1) * d == q * d + d;
    QuotientIsUnique(a, d, q + 1, r);
  }

  /** Positions in ascending order, n of them, all below `bound`. */
  ghost predicate Ascending(f: seq<nat>, n: nat, bound: nat) {
    |f| == n && (forall i, j :: 0 <= i < j < |f| ==> f[i] < f[j]) && (forall i :: 0 <= i < |f| ==> f[i] < bound)
  }

  // ---------- Block copies ----------

  method Memcpy<T>(dst: array<T>, to: nat, src: array<T>, from: nat, n: nat)
    requires dst != src && to + n <= dst.Length
    requires n == 0 || from + n <= src.Length
    modifies dst
    ensures dst[to..to + n] == if n == 0 then [] else old(src[from..from + n])
    ensures dst[..to] == old(dst[..to])
    ensures dst[to + n..] == old(dst[to + n..])
  {
    var i := 0;
    while i < n
      invariant 0 <= i <= n
      invariant forall k :: to <= k < to + i ==> dst[k] == old(src[k - to + from])
      invariant forall k :: 0 <= k < dst.Length && !(to <= k < to + i) ==> dst[k] == old(dst[k])
    {
      dst[to + i] := src[from + i];
      i := i + 1;
    }
  }

  /** `memmove` towards lower addresses inside one buffer. */
  method MoveDown<T>(buf: array<T>, to: nat, from: nat, n: nat)
    requires to <= from && from + n <= buf.Length
    modifies buf
    ensures buf[to..to + n] == old(buf[from..from + n])
    ensures buf[..to] == old(buf[..to])
    ensures buf[to + n..] == old(buf[to + n..])
  {
    var i := 0;
    while i < n
      invariant 0 <= i <= n
      invariant forall k :: to <= k < to + i ==> buf[k] == old(buf[k - to + from])
      invariant forall k :: 0 <= k < buf.Length && !(to <= k < to + i) ==> buf[k] == old(buf[k])
    {
      buf[to + i] := buf[from + i];
      i := i + 1;
    }
  }

  method Memset<T>(buf: array<T>, at: nat, value: T, n: nat)
    requires at + n <= buf.Length
    modifies buf
    ensures forall k :: at <= k < at + n ==> buf[k] == value
    ensures buf[..at] == old(buf[..at])
    ensures buf[at + n..] == old(buf[at + n..])
  {
    var i := 0;
    while i < n
      invariant 0 <= i <= n
      invariant forall k :: at <= k < at + i ==> buf[k] == value
      invariant forall k :: 0 <= k < buf.Length && !(at <= k < at + i) ==> buf[k] == old(buf[k])
    {
      buf[at + i] := value;
      i := i + 1;
    }
  }
}
