/** What the stages of afl-tmin do, said of the oracle and the bytes alone: which blocks, symbols and
    characters are replaced and which blocks are deleted, and how the stages follow each other. */
module TminMeaning {
  import opened Bytes
  import opened Config
  import opened Sweeps
  import opened Tmin

  // ---------- Block normalization ----------

  ghost predicate AllZeros(b: seq<byte>) { forall i :: 0 <= i < |b| ==> b[i] == 48 }

  function Zeros(n: nat): seq<byte> { seq(n, _ => 48) }

  /** The block [p, e) of s in the result: all '0' exactly if it was or if the oracle accepts it so, with
      the blocks before it as they have become and those behind it as they were; else unchanged. */
  ghost predicate BlockDecided(s: seq<byte>, r: seq<byte>, p: nat, e: nat, keep: Oracle)
    requires p <= e <= |s| == |r|
  {
    && (AllZeros(r[p..e]) <==> AllZeros(s[p..e]) || keep(r[..p] + Zeros(e - p) + s[e..]))
    && (AllZeros(r[p..e]) || r[p..e] == s[p..e])
  }

  lemma {:induction false} NormalizeDecides(s: seq<byte>, pos: nat, len: nat, keep: Oracle, r: seq<byte>)
    requires len > 0 && r == NormalizeFrom(s, pos, len, keep)
    ensures |r| == |s| && r[..Min(pos, |s|)] == s[..Min(pos, |s|)]
    ensures forall p: nat :: p < |s| && Aligned(p, pos, len) ==> BlockDecided(s, r, p, Min(p + len, |s|), keep)
    decreases |s| - pos
  {
    if pos < |s| {
      var e: nat := Min(pos + len, |s|);
      var t := NormalizeBlock(s, pos, e, keep);
      NormalizeDecides(t, pos + len, len, keep, r);
      FirstBlockDecided(s, t, r, pos, e, keep);
      forall p: nat | p < |s| && Aligned(p, pos, len) ensures BlockDecided(s, r, p, Min(p + len, |s|), keep) {
        if p != pos {
          AlignedIsBehind(p, pos + len, len);
          LaterBlockDecided(s, t, r, pos, e, p, Min(p + len, |s|), keep);
        }
      }
    }
  }

  lemma FirstBlockDecided(s: seq<byte>, t: seq<byte>, r: seq<byte>, p: nat, e: nat, keep: Oracle)
    requires p <= e <= |s| && t == NormalizeBlock(s, p, e, keep) && |r| == |s| && r[..e] == t[..e]
    ensures BlockDecided(s, r, p, e, keep) && r[..p] == s[..p]
  {
    var z := ZeroRange(s, p, e);
    assert z == s[..p] + Zeros(e - p) + s[e..];
    assert r[..p] == r[..e][..p] == t[..e][..p] == s[..p];
    assert r[p..e] == r[..e][p..] == t[..e][p..] == t[p..e];
    ZerosInRange(s, p, e);
    assert AllZeros(z[p..e]);
  }

  lemma ZerosInRange(s: seq<byte>, p: nat, e: nat)
    requires p <= e <= |s|
    ensures AllZeros(s[p..e]) <==> AllZero(s, p, e)
  {
    if AllZeros(s[p..e]) {
      forall i | p <= i < e ensures s[i] == ZERO { assert s[p..e][i - p] == s[i]; }
    }
  }

  lemma LaterBlockDecided(s: seq<byte>, t: seq<byte>, r: seq<byte>, from: nat, end: nat, p: nat, e: nat, keep: Oracle)
    requires from <= end <= p <= e <= |s| == |r| && t == NormalizeBlock(s, from, end, keep) && BlockDecided(t, r, p, e, keep)
    ensures BlockDecided(s, r, p, e, keep)
  {
    assert t[p..e] == s[p..e];
    assert t[e..] == s[e..];
  }

  // ---------- Block deletion ----------

  /** A sweep keeps exactly the blocks that are needed, given what is kept before and all that is behind. */
  lemma {:induction false} SweepKeepsNeeded(s: seq<byte>, pos: nat, d: nat, keep: Oracle, r: seq<byte>)
    requires d > 0 && pos <= |s| && r == DeletePlain(s, pos, d, keep)
    ensures r == Kept(s[..pos], s[pos..], d, keep)
    decreases |s| - pos
  {
    if pos == |s| {
      assert s[..pos] == s;
    } else {
      var rest, e: nat := s[pos..], Min(pos + d, |s|);
      assert Block(rest, d) == s[pos..e] && Behind(rest, d) == s[e..];
      assert s[..pos] + s[e..] == Without(s, pos, d);
      if keep(Without(s, pos, d)) {
        var u := Without(s, pos, d);
        assert u[..pos] == s[..pos] && u[pos..] == s[e..];
        SweepKeepsNeeded(u, pos, d, keep, r);
      } else {
        assert s[..pos] + s[pos..e] == s[..e];
        assert DeletePlain(s, pos + d, d, keep) == DeletePlain(s, e, d, keep);
        SweepKeepsNeeded(s, e, d, keep, r);
      }
    }
  }

  /** Sweeps with blocks of d, d/2, ..., 1 bytes. */
  ghost function Deleted(s: seq<byte>, d: nat, keep: Oracle): seq<byte>
    requires d > 0
    decreases d
  {
    if d == 1 then Kept([], s, 1, keep) else Deleted(Kept([], s, d, keep), d / 2, keep)
  }

  lemma {:induction false} NothingLeft(d: nat, keep: Oracle)
    requires d > 0
    ensures Deleted([], d, keep) == []
    decreases d
  {
    if d > 1 { NothingLeft(d / 2, keep); }
  }

  lemma {:induction false} DeleteAllDeletes(s: seq<byte>, d: nat, keep: Oracle)
    requires d > 0
    ensures DeleteAll(s, d, keep) == Deleted(s, d, keep)
    decreases d
  {
    var r := DeletePlain(s, 0, d, keep);
    ShortcutIsSound(s, 0, d, true, keep);
    SweepKeepsNeeded(s, 0, d, keep, r);
    assert s[..0] == [] && s[0..] == s;
    if d > 1 {
      if r == [] { NothingLeft(d / 2, keep); } else { DeleteAllDeletes(r, d / 2, keep); }
    }
  }

  // ---------- Symbols and characters ----------

  /** s with every occurrence of these symbols replaced by '0'. */
  function WithZeros(s: seq<byte>, symbols: set<byte>): (r: seq<byte>)
    ensures |r| == |s|
  {
    seq(|s|, i requires 0 <= i < |s| => if s[i] in symbols then 48 else s[i])
  }

  /** The symbols that are replaced: in ascending order each one that occurs and can be replaced along with
      the lower ones that were. */
  ghost predicate SymbolsChosen(s: seq<byte>, symbols: set<byte>, bound: nat, keep: Oracle) {
    forall c: byte :: c as nat < bound ==>
      (c in symbols <==> c != 48 && c in s && keep(WithZeros(s, (set a | a in symbols && a < c) + {c})))
  }

  ghost predicate SymbolsDecided(s: seq<byte>, r: seq<byte>, keep: Oracle) {
    exists symbols: set<byte> :: SymbolsChosen(s, symbols, 256, keep) && r == WithZeros(s, symbols)
  }

  lemma {:induction false} SymbolsDecide(s0: seq<byte>, s: seq<byte>, i: nat, done: set<byte>, keep: Oracle, r: seq<byte>)
    requires i <= 256 && s == WithZeros(s0, done) && r == SymbolsFrom(s, s0, i, keep)
    requires SymbolsChosen(s0, done, i, keep) && forall a :: a in done ==> a as nat < i
    ensures SymbolsDecided(s0, r, keep)
    decreases 256 - i
  {
    if i < 256 {
      var c := i as byte;
      var more := done + {c};
      assert (set a | a in done && a < c) + {c} == more;
      assert ZeroSymbol(s, c) == WithZeros(s0, more);
      var next := if c != ZERO && c in s0 && keep(ZeroSymbol(s, c)) then more else done;
      forall b: byte | b as nat < i + 1
        ensures b in next <==> b != 48 && b in s0 && keep(WithZeros(s0, (set a | a in next && a < b) + {b}))
      {
        assert (set a | a in next && a < b) == (set a | a in done && a < b);
      }
      SymbolsDecide(s0, WithZeros(s0, next), i + 1, next, keep, r);
    }
  }

  /** Every character, from the left: '0' instead if the oracle accepts it, with those before it as they
      have become. */
  ghost predicate CharsDecided(s: seq<byte>, r: seq<byte>, keep: Oracle) {
    && |r| == |s|
    && forall i :: 0 <= i < |s| ==> r[i] == if s[i] != 48 && keep(r[..i] + [48] + s[i + 1..]) then 48 else s[i]
  }

  lemma {:induction false} CharsDecide(s: seq<byte>, i: nat, keep: Oracle, r: seq<byte>)
    requires r == CharsFrom(s, i, keep)
    ensures |r| == |s| && r[..Min(i, |s|)] == s[..Min(i, |s|)]
    ensures forall k :: i <= k < |s| ==> r[k] == if s[k] != 48 && keep(r[..k] + [48] + s[k + 1..]) then 48 else s[k]
    decreases |s| - i
  {
    if i < |s| {
      var t := if s[i] != ZERO && keep(s[i := ZERO]) then s[i := ZERO] else s;
      CharsDecide(t, i + 1, keep, r);
      assert r[i] == r[..i + 1][i] == t[i];
      assert r[..i] == r[..i + 1][..i] == t[..i] == s[..i];
      assert s[i := ZERO] == r[..i] + [48] + s[i + 1..];
      forall k {:trigger t[k + 1..]} | i < k < |s| ensures t[k + 1..] == s[k + 1..] {}
    }
  }

  // ---------- The whole minimizer ----------

  /** From s, n more passes lead to the result: each deletes with blocks from a sixteenth of the length on,
      and unless a later pass deleted nothing replaces symbols and then characters. */
  ghost predicate Leads(n: nat, s: seq<byte>, first: bool, r: seq<byte>, exit: Exit, keep: Oracle)
    decreases n, 2
  {
    exists d: nat :: d > 0 && LeastPow2(d, |s| / 16) && After(n, s, Deleted(s, d, keep), first, r, exit, keep)
  }

  ghost predicate After(n: nat, s: seq<byte>, a: seq<byte>, first: bool, r: seq<byte>, exit: Exit, keep: Oracle)
    decreases n, 1
  {
    if !first && a == s then n == 0 && r == s && exit == NothingDeleted
    else exists b, c :: SymbolsDecided(a, b, keep) && CharsDecided(b, c, keep) && Ends(n, s, c, r, exit, keep)
  }

  ghost predicate Ends(n: nat, s: seq<byte>, c: seq<byte>, r: seq<byte>, exit: Exit, keep: Oracle)
    decreases n, 0
  {
    if c == s then n == 0 && r == s && exit == NothingChanged
    else n > 0 && Leads(n - 1, c, false, r, exit, keep)
  }

  lemma StagesDecide(a: seq<byte>, b: seq<byte>, c: seq<byte>, keep: Oracle)
    requires b == SymbolsFrom(a, a, 0, keep) && c == CharsFrom(b, 0, keep)
    ensures SymbolsDecided(a, b, keep) && CharsDecided(b, c, keep)
  {
    assert a == WithZeros(a, {});
    SymbolsDecide(a, a, 0, {}, keep, b);
    CharsDecide(b, 0, keep, c);
  }

  lemma PassIs(s: seq<byte>, first: bool, a: seq<byte>, c: seq<byte>, keep: Oracle, p: (seq<byte>, Exit))
    requires a == DeletePhase(s, keep) && c == SimplifyPhase(a, keep) && p == Passes(s, first, keep)
    ensures !first && a == s ==> p == (s, NothingDeleted)
    ensures first || a != s ==> if c != s then p == Passes(c, false, keep) && Measure(c) < Measure(s) else p == (s, NothingChanged)
  {
    PassImproves(s, keep);
  }

  lemma PassDeletes(s: seq<byte>, keep: Oracle, d: nat)
    requires d == NextP2(|s| / TRIM_START_STEPS)
    ensures d > 0 && LeastPow2(d, |s| / 16) && DeletePhase(s, keep) == Deleted(s, d, keep)
  {
    NextP2IsLeast(|s| / 16);
    DeleteAllDeletes(s, d, keep);
  }

  lemma {:induction false} PassesLead(s: seq<byte>, first: bool, keep: Oracle, p: (seq<byte>, Exit)) returns (n: nat)
    requires p == Passes(s, first, keep)
    ensures Leads(n, s, first, p.0, p.1, keep)
    decreases Measure(s)
  {
    var d, a := NextP2(|s| / TRIM_START_STEPS), DeletePhase(s, keep);
    var b, c := SymbolsFrom(a, a, 0, keep), SimplifyPhase(a, keep);
    PassIs(s, first, a, c, keep, p);
    PassDeletes(s, keep, d);
    StagesDecide(a, b, c, keep);
    n := 0;
    if (first || a != s) && c != s {
      n := PassesLead(c, false, keep, p);
      n := n + 1;
    }
    assert first || a != s ==> Ends(n, s, c, p.0, p.1, keep);
    assert After(n, s, a, first, p.0, p.1, keep);
  }

  lemma SetLenIsLeast(n: nat)
    ensures LeastPow2(SetLen(n), Max(n / 128, 4))
  {
    NextP2IsLeast(n / 128);
    assert IsPow2(4) by { assert IsPow2(2) && IsPow2(1); }
  }

  /** The whole minimizer in terms of the oracle and the bytes: its first stage decides every block of the
      least power of two that is at least four and makes at most 128 of them, and the passes over what that
      leaves lead to the result. */
  lemma MinimizedMeans(s: seq<byte>, keep: Oracle) returns (len: nat, z: seq<byte>, n: nat)
    ensures len > 0 && LeastPow2(len, Max(|s| / 128, 4))
    ensures |z| == |s| && forall p: nat :: p < |s| && p % len == 0 ==> BlockDecided(s, z, p, Min(p + len, |s|), keep)
    ensures Leads(n, z, true, Minimized(s, keep).0, Minimized(s, keep).1, keep)
  {
    len, z := SetLen(|s|), NormalizeFrom(s, 0, SetLen(|s|), keep);
    SetLenIsLeast(|s|);
    NormalizeDecides(s, 0, len, keep, z);
    forall p: nat | p < |s| && p % len == 0 ensures BlockDecided(s, z, p, Min(p + len, |s|), keep) {
      AlignedIsMultiple(p, 0, len);
    }
    n := PassesLead(z, true, keep, Minimized(s, keep));
  }
}
