/** The delta-debugging minimizer of afl-tmin: four kinds of simplification, repeated until
    a pass changes nothing.  The target program is the oracle `keep`: whether a candidate
    behaves like the original input. */
module Tmin {
  import opened Bytes
  import opened Config

  const TMIN_SET_MIN_SIZE: nat := 4
  const TMIN_SET_STEPS: nat := 128
  const TMIN_MAX_FILE: nat := 10 * 1024 * 1024
  const ZERO: byte := 48  // the character '0'

  type Oracle = seq<byte> -> bool

  // ---------- Candidates ----------

  /** `s` without the block of `len` bytes at `pos`; the block may stick out past the end. */
  function Without(s: seq<byte>, pos: nat, len: nat): seq<byte>
    requires pos <= |s|
  {
    s[..pos] + s[Min(pos + len, |s|)..]
  }

  /** `s` with every byte of [from, to) replaced by '0'. */
  function ZeroRange(s: seq<byte>, from: nat, to: nat): (r: seq<byte>)
    requires from <= to <= |s|
    ensures |r| == |s|
  {
    seq(|s|, i requires 0 <= i < |s| => if from <= i < to then ZERO else s[i])
  }

  /** `s` with every occurrence of `c` replaced by '0'. */
  function ZeroSymbol(s: seq<byte>, c: byte): (r: seq<byte>)
    ensures |r| == |s|
  {
    seq(|s|, i requires 0 <= i < |s| => if s[i] == c then ZERO else s[i])
  }

  // ---------- Stage 0: block normalization ----------

  predicate AllZero(s: seq<byte>, from: nat, to: nat)
    requires to <= |s|
  {
    forall i :: from <= i < to ==> s[i] == ZERO
  }

  /** One block: replaced by '0's unless it is all '0's already or the change is rejected. */
  function NormalizeBlock(s: seq<byte>, from: nat, to: nat, keep: Oracle): (r: seq<byte>)
    requires from <= to <= |s|
    ensures |r| == |s|
  {
    if !AllZero(s, from, to) && keep(ZeroRange(s, from, to)) then ZeroRange(s, from, to) else s
  }

  function NormalizeFrom(s: seq<byte>, pos: nat, setLen: nat, keep: Oracle): (r: seq<byte>)
    requires setLen > 0
    ensures |r| == |s|
    decreases |s| - pos
  {
    if pos >= |s| then s
    else NormalizeFrom(NormalizeBlock(s, pos, Min(pos + setLen, |s|), keep), pos + setLen, setLen, keep)
  }

  // ---------- Stage 1: block deletion ----------

  /** One sweep with blocks of `d` bytes, with the shortcut that skips a block equal to the
      block before it when that one was just found to be needed. */
  function DeleteFrom(s: seq<byte>, pos: nat, d: nat, prevDel: bool, keep: Oracle): (r: seq<byte>)
    requires d > 0
    requires !prevDel ==> d <= pos
    ensures |r| <= |s|
    decreases |s| - pos
  {
    if pos >= |s| then s
    else if !prevDel && pos + d < |s| && s[pos - d..pos] == s[pos..pos + d]
    then DeleteFrom(s, pos + d, d, prevDel, keep)
    else if keep(Without(s, pos, d)) then DeleteFrom(Without(s, pos, d), pos, d, true, keep)
    else DeleteFrom(s, pos + d, d, false, keep)
  }

  /** The same sweep without the shortcut. */
  function DeletePlain(s: seq<byte>, pos: nat, d: nat, keep: Oracle): (r: seq<byte>)
    requires d > 0
    ensures |r| <= |s|
    decreases |s| - pos
  {
    if pos >= |s| then s
    else if keep(Without(s, pos, d)) then DeletePlain(Without(s, pos, d), pos, d, keep)
    else DeletePlain(s, pos + d, d, keep)
  }

  function DeleteAll(s: seq<byte>, d: nat, keep: Oracle): (r: seq<byte>)
    requires d > 0
    ensures |r| <= |s|
    decreases d
  {
    var t := DeleteFrom(s, 0, d, true, keep);
    if d > 1 && |t| >= 1 then DeleteAll(t, d / 2, keep) else t
  }

  /** Deleting any aligned block of `d` bytes is rejected. */
  ghost predicate BlockMinimal(s: seq<byte>, d: nat, keep: Oracle)
    requires d > 0
  {
    forall p: nat :: p < |s| && p % d == 0 ==> !keep(Without(s, p, d))
  }

  /** Deleting any single byte is rejected. */
  ghost predicate OneMinimal(s: seq<byte>, keep: Oracle) {
    forall p: nat :: p < |s| ==> !keep(s[..p] + s[p + 1..])
  }

  lemma {:induction false} SkippedBlockIsRejectedCandidate(s: seq<byte>, pos: nat, d: nat)
    requires 0 < d <= pos && pos + d < |s|
    requires s[pos - d..pos] == s[pos..pos + d]
    ensures Without(s, pos, d) == Without(s, pos - d, d)
  {
    var a, b := Without(s, pos, d), Without(s, pos - d, d);
    forall i | 0 <= i < |a| ensures a[i] == b[i] {
      if pos - d <= i < pos {
        assert a[i] == s[i] == s[pos - d..pos][i - (pos - d)];
        assert b[i] == s[i + d] == s[pos..pos + d][i - (pos - d)];
      }
    }
  }

  /** The shortcut never changes the outcome of a sweep. */
  lemma {:induction false} ShortcutIsSound(s: seq<byte>, pos: nat, d: nat, prevDel: bool, keep: Oracle)
    requires d > 0
    requires !prevDel ==> d <= pos <= |s| + d - 1 && !keep(Without(s, pos - d, d))
    ensures DeleteFrom(s, pos, d, prevDel, keep) == DeletePlain(s, pos, d, keep)
    decreases |s| - pos
  {
    if pos < |s| {
      if !prevDel && pos + d < |s| && s[pos - d..pos] == s[pos..pos + d] {
        SkippedBlockIsRejectedCandidate(s, pos, d);
        ShortcutIsSound(s, pos + d, d, prevDel, keep);
      } else if keep(Without(s, pos, d)) {
        ShortcutIsSound(Without(s, pos, d), pos, d, true, keep);
      } else {
        ShortcutIsSound(s, pos + d, d, false, keep);
      }
    }
  }

  lemma SmallMultipleIsZero(k: int, d: nat)
    requires d > 0 && -(d as int) < k * d < d
    ensures k == 0
  {
    assert k >= 1 ==> k * d >= d;
    assert k <= -1 ==> k * d <= -1 * d;
  }

  lemma NextMultiple(p: nat, q: nat, d: nat)
    requires d > 0 && q % d == 0 && p % d == 0 && q <= p < q + d
    ensures p == q
  {
    assert p - q == (p / d - q / d) * d;
    SmallMultipleIsZero(p / d - q / d, d);
  }

  lemma StepKeepsAligned(p: nat, d: nat)
    requires d > 0 && p % d == 0
    ensures (p + d) % d == 0
  {
    var q, r := (p + d) / d, (p + d) % d;
    assert r == (p / d + 1 - q) * d;
    SmallMultipleIsZero(p / d + 1 - q, d);
  }

  /** A plain sweep that deletes nothing has rejected every aligned block. */
  lemma {:induction false} UnchangedSweepIsBlockMinimal(s: seq<byte>, pos: nat, d: nat, keep: Oracle)
    requires d > 0 && pos % d == 0
    requires |DeletePlain(s, pos, d, keep)| == |s|
    ensures DeletePlain(s, pos, d, keep) == s
    ensures forall p: nat :: pos <= p < |s| && p % d == 0 ==> !keep(Without(s, p, d))
    decreases |s| - pos
  {
    if pos < |s| {
      if !keep(Without(s, pos, d)) {
        StepKeepsAligned(pos, d);
        UnchangedSweepIsBlockMinimal(s, pos + d, d, keep);
        forall p: nat | pos <= p < |s| && p % d == 0 ensures !keep(Without(s, p, d)) {
          if p < pos + d { NextMultiple(p, pos, d); }
        }
      }
    }
  }

  /** What the whole deletion phase guarantees when it deletes nothing. */
  lemma {:induction false} UnchangedDeletionIsMinimal(s: seq<byte>, d: nat, keep: Oracle)
    requires IsPow2(d) && |DeleteAll(s, d, keep)| == |s|
    ensures DeleteAll(s, d, keep) == s
    ensures forall e: nat :: 1 <= e <= d && IsPow2(e) ==> BlockMinimal(s, e, keep)
    decreases d
  {
    ShortcutIsSound(s, 0, d, true, keep);
    UnchangedSweepIsBlockMinimal(s, 0, d, keep);
    assert BlockMinimal(s, d, keep);
    if d > 1 && |s| >= 1 {
      UnchangedDeletionIsMinimal(s, d / 2, keep);
      forall e: nat | 1 <= e <= d && IsPow2(e) ensures BlockMinimal(s, e, keep) {
        if d / 2 < e < d { Pow2Gap(e, d); }
      }
    }
  }

  lemma {:induction false} OneIsPow2BlockMinimal(s: seq<byte>, keep: Oracle)
    requires BlockMinimal(s, 1, keep)
    ensures OneMinimal(s, keep)
  {
    forall p: nat | p < |s| ensures !keep(s[..p] + s[p + 1..]) {
      assert Without(s, p, 1) == s[..p] + s[p + 1..];
      assert p % 1 == 0;
    }
  }

  // ---------- Stage 2: alphabet minimization ----------

  /** Candidates for the symbols i, i+1, ..., 255 of the alphabet `s0` had when the stage began. */
  function SymbolsFrom(s: seq<byte>, s0: seq<byte>, i: nat, keep: Oracle): (r: seq<byte>)
    requires i <= 256
    ensures |r| == |s|
    decreases 256 - i
  {
    if i == 256 then s
    else
      var c := i as byte;
      if c != ZERO && c in s0 && keep(ZeroSymbol(s, c))
      then SymbolsFrom(ZeroSymbol(s, c), s0, i + 1, keep)
      else SymbolsFrom(s, s0, i + 1, keep)
  }

  /** Replacing all occurrences of any one symbol by '0' is rejected. */
  ghost predicate SymbolMinimal(s: seq<byte>, keep: Oracle) {
    forall c: byte :: c != ZERO && c in s ==> !keep(ZeroSymbol(s, c))
  }

  // ---------- Stage 3: character minimization ----------

  function CharsFrom(s: seq<byte>, i: nat, keep: Oracle): (r: seq<byte>)
    ensures |r| == |s|
    decreases |s| - i
  {
    if i >= |s| then s
    else if s[i] != ZERO && keep(s[i := ZERO]) then CharsFrom(s[i := ZERO], i + 1, keep)
    else CharsFrom(s, i + 1, keep)
  }

  /** Replacing any single byte by '0' is rejected. */
  ghost predicate CharMinimal(s: seq<byte>, keep: Oracle) {
    forall i: nat :: i < |s| && s[i] != ZERO ==> !keep(s[i := ZERO])
  }

  // ---------- The measure ----------

  /** The number of bytes other than '0'. */
  function NonZero(s: seq<byte>): nat {
    if s == [] then 0 else (if s[0] == ZERO then 0 else 1) + NonZero(s[1..])
  }

  function Measure(s: seq<byte>): nat { |s| + NonZero(s) }

  /** `t` agrees with `s` except for bytes that became '0'. */
  ghost predicate Zeroed(t: seq<byte>, s: seq<byte>) {
    |t| == |s| && forall i: nat :: i < |s| ==> t[i] == s[i] || t[i] == ZERO
  }

  lemma {:induction false} ZeroingLowersNonZero(t: seq<byte>, s: seq<byte>)
    requires Zeroed(t, s)
    ensures NonZero(t) <= NonZero(s)
    ensures t != s ==> NonZero(t) < NonZero(s)
  {
    if s != [] {
      assert t[0] == s[0] || t[0] == ZERO;
      forall i: nat | i < |s[1..]| ensures t[1..][i] == s[1..][i] || t[1..][i] == ZERO {
        assert t[i + 1] == s[i + 1] || t[i + 1] == ZERO;
      }
      ZeroingLowersNonZero(t[1..], s[1..]);
      if t[1..] == s[1..] && t[0] == s[0] {
        assert t == [t[0]] + t[1..];
        assert s == [s[0]] + s[1..];
      }
    }
  }

  lemma {:induction false} NonZeroConcat(a: seq<byte>, b: seq<byte>)
    ensures NonZero(a + b) == NonZero(a) + NonZero(b)
  {
    if a == [] {
      assert a + b == b;
    } else {
      assert (a + b)[1..] == a[1..] + b;
      NonZeroConcat(a[1..], b);
    }
  }

  lemma NonZeroWithoutMiddle(a: seq<byte>, b: seq<byte>, c: seq<byte>)
    ensures NonZero(a + c) <= NonZero(a + (b + c))
  {
    NonZeroConcat(a, c);
    NonZeroConcat(a, b + c);
    NonZeroConcat(b, c);
  }

  lemma NonZeroOfWithout(s: seq<byte>, pos: nat, d: nat)
    requires pos <= |s|
    ensures NonZero(Without(s, pos, d)) <= NonZero(s)
  {
    var e: nat := Min(pos + d, |s|);
    Reassembled(s, pos, e);
    NonZeroWithoutMiddle(s[..pos], s[pos..e], s[e..]);
  }

  lemma Reassembled(s: seq<byte>, i: nat, j: nat)
    requires i <= j <= |s|
    ensures s[..i] + (s[i..j] + s[j..]) == s
  {
  }

  // ---------- What every stage keeps ----------

  /** `f` shows where each byte of `t` comes from in `s`. */
  ghost predicate EmbedsZeroed(f: seq<nat>, t: seq<byte>, s: seq<byte>) {
    Ascending(f, |t|, |s|) && forall i :: 0 <= i < |f| ==> t[i] == s[f[i]] || t[i] == ZERO
  }

  /** `t` is `s` with some bytes deleted and some others replaced by '0'. */
  ghost predicate Simplifies(t: seq<byte>, s: seq<byte>) {
    exists f: seq<nat> :: EmbedsZeroed(f, t, s)
  }

  ghost predicate Improves(t: seq<byte>, s: seq<byte>, keep: Oracle) {
    && Simplifies(t, s)
    && (keep(s) ==> keep(t))
    && |t| <= |s| && NonZero(t) <= NonZero(s)
    && (t != s ==> Measure(t) < Measure(s))
  }

  lemma ZeroedSimplifies(t: seq<byte>, s: seq<byte>)
    requires Zeroed(t, s)
    ensures Simplifies(t, s)
  {
    var f: seq<nat> := seq(|s|, i => i);
    assert EmbedsZeroed(f, t, s);
  }

  lemma WithoutSimplifies(s: seq<byte>, pos: nat, d: nat)
    requires pos <= |s|
    ensures Simplifies(Without(s, pos, d), s)
  {
    var e := Min(pos + d, |s|);
    var f: seq<nat> := seq(|Without(s, pos, d)|, i requires i >= 0 => if i < pos then i else i - pos + e);
    assert EmbedsZeroed(f, Without(s, pos, d), s);
  }

  lemma SimplifiesTransitive(t: seq<byte>, s: seq<byte>, u: seq<byte>)
    requires Simplifies(t, s) && Simplifies(s, u)
    ensures Simplifies(t, u)
  {
    var f: seq<nat> :| EmbedsZeroed(f, t, s);
    var g: seq<nat> :| EmbedsZeroed(g, s, u);
    var h: seq<nat> := seq(|f|, i requires 0 <= i < |f| => g[f[i]]);
    assert EmbedsZeroed(h, t, u);
  }

  lemma ImprovesTransitive(t: seq<byte>, s: seq<byte>, u: seq<byte>, keep: Oracle)
    requires Improves(t, s, keep) && Improves(s, u, keep)
    ensures Improves(t, u, keep)
  {
    SimplifiesTransitive(t, s, u);
  }

  lemma ZeroedImproves(t: seq<byte>, s: seq<byte>, keep: Oracle)
    requires Zeroed(t, s) && (t == s || keep(t))
    ensures Improves(t, s, keep)
  {
    ZeroedSimplifies(t, s);
    ZeroingLowersNonZero(t, s);
  }

  lemma WithoutImproves(s: seq<byte>, pos: nat, d: nat, keep: Oracle)
    requires pos < |s| && d > 0 && keep(Without(s, pos, d))
    ensures Improves(Without(s, pos, d), s, keep)
  {
    WithoutSimplifies(s, pos, d);
    NonZeroOfWithout(s, pos, d);
  }

  lemma NormalizeBlockImproves(s: seq<byte>, from: nat, to: nat, keep: Oracle)
    requires from <= to <= |s|
    ensures Improves(NormalizeBlock(s, from, to, keep), s, keep)
  {
    ZeroedImproves(NormalizeBlock(s, from, to, keep), s, keep);
  }

  lemma {:induction false} NormalizeImproves(s: seq<byte>, pos: nat, setLen: nat, keep: Oracle, r: seq<byte>)
    requires setLen > 0 && r == NormalizeFrom(s, pos, setLen, keep)
    ensures Improves(r, s, keep)
    decreases |s| - pos
  {
    if pos >= |s| {
      ZeroedImproves(s, s, keep);
    } else {
      var end: nat := Min(pos + setLen, |s|);
      var t := NormalizeBlock(s, pos, end, keep);
      NormalizeImproves(t, pos + setLen, setLen, keep, r);
      NormalizeBlockImproves(s, pos, end, keep);
      ImprovesTransitive(r, t, s, keep);
    }
  }

  lemma {:induction false} DeletePlainImproves(s: seq<byte>, pos: nat, d: nat, keep: Oracle, r: seq<byte>)
    requires d > 0 && r == DeletePlain(s, pos, d, keep)
    ensures Improves(r, s, keep)
    decreases |s| - pos
  {
    if pos >= |s| {
      ZeroedImproves(s, s, keep);
    } else if keep(Without(s, pos, d)) {
      var t := Without(s, pos, d);
      DeletePlainImproves(t, pos, d, keep, r);
      WithoutImproves(s, pos, d, keep);
      ImprovesTransitive(r, t, s, keep);
    } else {
      DeletePlainImproves(s, pos + d, d, keep, r);
    }
  }

  lemma {:induction false} DeleteAllImproves(s: seq<byte>, d: nat, keep: Oracle, r: seq<byte>)
    requires d > 0 && r == DeleteAll(s, d, keep)
    ensures Improves(r, s, keep)
    decreases d
  {
    var t := DeleteFrom(s, 0, d, true, keep);
    ShortcutIsSound(s, 0, d, true, keep);
    DeletePlainImproves(s, 0, d, keep, t);
    if d > 1 && |t| >= 1 {
      DeleteAllImproves(t, d / 2, keep, r);
      ImprovesTransitive(r, t, s, keep);
    }
  }

  lemma {:induction false} SymbolsImprove(s: seq<byte>, s0: seq<byte>, i: nat, keep: Oracle, r: seq<byte>)
    requires i <= 256 && r == SymbolsFrom(s, s0, i, keep)
    ensures Improves(r, s, keep)
    decreases 256 - i
  {
    if i == 256 {
      ZeroedImproves(s, s, keep);
    } else {
      var c := i as byte;
      if c != ZERO && c in s0 && keep(ZeroSymbol(s, c)) {
        var t := ZeroSymbol(s, c);
        SymbolsImprove(t, s0, i + 1, keep, r);
        ZeroedImproves(t, s, keep);
        ImprovesTransitive(r, t, s, keep);
      } else {
        SymbolsImprove(s, s0, i + 1, keep, r);
      }
    }
  }

  lemma {:induction false} CharsImprove(s: seq<byte>, i: nat, keep: Oracle, r: seq<byte>)
    requires r == CharsFrom(s, i, keep)
    ensures Improves(r, s, keep)
    decreases |s| - i
  {
    if i >= |s| {
      ZeroedImproves(s, s, keep);
    } else if s[i] != ZERO && keep(s[i := ZERO]) {
      var t := s[i := ZERO];
      CharsImprove(t, i + 1, keep, r);
      ZeroedImproves(t, s, keep);
      ImprovesTransitive(r, t, s, keep);
    } else {
      CharsImprove(s, i + 1, keep, r);
    }
  }

  // ---------- What an unchanged stage has shown ----------

  lemma AcceptedSymbolChanges(s: seq<byte>, i: nat, keep: Oracle)
    requires i < 256 && i as byte != ZERO && i as byte in s && keep(ZeroSymbol(s, i as byte))
    ensures SymbolsFrom(s, s, i, keep) != s
  {
    var z := ZeroSymbol(s, i as byte);
    var r := SymbolsFrom(z, s, i + 1, keep);
    assert SymbolsFrom(s, s, i, keep) == r;
    assert Measure(z) < Measure(s) by {
      var k :| 0 <= k < |s| && s[k] == i as byte;
      assert z[k] == ZERO;
      assert z != s;
      ZeroingLowersNonZero(z, s);
    }
    assert Measure(r) <= Measure(z) by { SymbolsImprove(z, s, i + 1, keep, r); }
  }

  lemma AcceptedCharChanges(s: seq<byte>, i: nat, keep: Oracle)
    requires i < |s| && s[i] != ZERO && keep(s[i := ZERO])
    ensures CharsFrom(s, i, keep) != s
  {
    var z := s[i := ZERO];
    var r := CharsFrom(z, i + 1, keep);
    assert CharsFrom(s, i, keep) == r;
    assert Measure(z) < Measure(s) by {
      assert z[i] != s[i];
      ZeroingLowersNonZero(z, s);
    }
    assert Measure(r) <= Measure(z) by { CharsImprove(z, i + 1, keep, r); }
  }

  lemma {:induction false} UnchangedSymbolsAreMinimal(s: seq<byte>, i: nat, keep: Oracle)
    requires i <= 256 && SymbolsFrom(s, s, i, keep) == s
    ensures forall c: byte :: i <= c as nat && c != ZERO && c in s ==> !keep(ZeroSymbol(s, c))
    decreases 256 - i
  {
    if i < 256 {
      var c := i as byte;
      if c != ZERO && c in s && keep(ZeroSymbol(s, c)) {
        AcceptedSymbolChanges(s, i, keep);
        assert false;
      }
      UnchangedSymbolsAreMinimal(s, i + 1, keep);
    }
  }

  lemma {:induction false} UnchangedCharsAreMinimal(s: seq<byte>, i: nat, keep: Oracle)
    requires CharsFrom(s, i, keep) == s
    ensures forall k: nat :: i <= k < |s| && s[k] != ZERO ==> !keep(s[k := ZERO])
    decreases |s| - i
  {
    if i < |s| {
      if s[i] != ZERO && keep(s[i := ZERO]) {
        AcceptedCharChanges(s, i, keep);
        assert false;
      }
      UnchangedCharsAreMinimal(s, i + 1, keep);
    }
  }

  // ---------- Passes ----------

  function DeletePhase(s: seq<byte>, keep: Oracle): seq<byte> {
    DeleteAll(s, NextP2(|s| / TRIM_START_STEPS), keep)
  }

  function SimplifyPhase(s: seq<byte>, keep: Oracle): seq<byte> {
    CharsFrom(SymbolsFrom(s, s, 0, keep), 0, keep)
  }

  lemma PassImproves(s: seq<byte>, keep: Oracle)
    ensures Improves(DeletePhase(s, keep), s, keep)
    ensures Improves(SimplifyPhase(DeletePhase(s, keep), keep), DeletePhase(s, keep), keep)
    ensures Improves(SimplifyPhase(DeletePhase(s, keep), keep), s, keep)
  {
    var a := DeletePhase(s, keep);
    var b := SymbolsFrom(a, a, 0, keep);
    var c := SimplifyPhase(a, keep);
    DeleteAllImproves(s, NextP2(|s| / TRIM_START_STEPS), keep, a);
    SymbolsImprove(a, a, 0, keep, b);
    CharsImprove(b, 0, keep, c);
    ImprovesTransitive(c, b, a, keep);
    ImprovesTransitive(c, a, s, keep);
  }

  /** Which of the two exits the pass loop took: a later pass that deleted nothing, or a pass
      in which no stage changed anything. */
  datatype Exit = NothingDeleted | NothingChanged

  function Passes(s: seq<byte>, first: bool, keep: Oracle): (r: (seq<byte>, Exit))
    decreases Measure(s)
  {
    PassImproves(s, keep);
    var a := DeletePhase(s, keep);
    if !first && a == s then (s, NothingDeleted)
    else
      var b := SimplifyPhase(a, keep);
      if b != s then Passes(b, false, keep) else (s, NothingChanged)
  }

  function SetLen(n: nat): nat { Max(NextP2(n / TMIN_SET_STEPS), TMIN_SET_MIN_SIZE) }

  function Minimized(s: seq<byte>, keep: Oracle): (seq<byte>, Exit) {
    Passes(NormalizeFrom(s, 0, SetLen(|s|), keep), true, keep)
  }

  // ---------- Theorems ----------

  lemma {:induction false} PassesImprove(s: seq<byte>, first: bool, keep: Oracle)
    ensures Improves(Passes(s, first, keep).0, s, keep)
    decreases Measure(s)
  {
    PassImproves(s, keep);
    var a := DeletePhase(s, keep);
    var b := SimplifyPhase(a, keep);
    if (!first && a == s) || b == s {
      ZeroedImproves(s, s, keep);
    } else {
      PassesImprove(b, false, keep);
      ImprovesTransitive(Passes(s, first, keep).0, b, s, keep);
    }
  }

  lemma {:induction false} PassesAreMinimal(s: seq<byte>, first: bool, keep: Oracle)
    ensures var (r, exit) := Passes(s, first, keep);
      && OneMinimal(r, keep)
      && (forall e: nat :: 1 <= e <= NextP2(|r| / TRIM_START_STEPS) && IsPow2(e) ==> BlockMinimal(r, e, keep))
      && (exit == NothingChanged ==> SymbolMinimal(r, keep) && CharMinimal(r, keep))
    decreases Measure(s)
  {
    PassImproves(s, keep);
    var a := DeletePhase(s, keep);
    var b := SimplifyPhase(a, keep);
    if a == s && (!first || b == s) {
      var d := NextP2(|s| / TRIM_START_STEPS);
      DoublingKeepsPow2(1, |s| / TRIM_START_STEPS);
      UnchangedDeletionIsMinimal(s, d, keep);
      OneIsPow2BlockMinimal(s, keep);
      if !(!first && a == s) {
        var c := SymbolsFrom(a, a, 0, keep);
        SymbolsImprove(a, a, 0, keep, c);
        CharsImprove(c, 0, keep, s);
        assert c == s;
        UnchangedSymbolsAreMinimal(s, 0, keep);
        UnchangedCharsAreMinimal(s, 0, keep);
      }
    } else {
      assert b != s;
      PassesAreMinimal(b, false, keep);
    }
  }

  /** No single byte can be deleted from the result, nor any block the deletion stage tries; and on the
      regular exit no symbol and no character can be simplified. */
  lemma {:induction false} MinimizedIsOneMinimal(s: seq<byte>, keep: Oracle)
    ensures var (r, exit) := Minimized(s, keep);
      && OneMinimal(r, keep)
      && (forall e: nat :: 1 <= e <= NextP2(|r| / TRIM_START_STEPS) && IsPow2(e) ==> BlockMinimal(r, e, keep))
      && (exit == NothingChanged ==> SymbolMinimal(r, keep) && CharMinimal(r, keep))
  {
    PassesAreMinimal(NormalizeFrom(s, 0, SetLen(|s|), keep), true, keep);
  }

  /** The result is accepted whenever the input is, is the input with bytes deleted or set to '0', and
      is smaller by the measure unless it is the input. */
  lemma MinimizedImproves(s: seq<byte>, keep: Oracle)
    ensures Improves(Minimized(s, keep).0, s, keep)
  {
    var n := NormalizeFrom(s, 0, SetLen(|s|), keep);
    NormalizeImproves(s, 0, SetLen(|s|), keep, n);
    PassesImprove(n, true, keep);
    ImprovesTransitive(Minimized(s, keep).0, n, s, keep);
  }

  // ---------- The early exit ----------

  lemma {:induction false} RejectedDeletionsChangeNothing(s: seq<byte>, pos: nat, d: nat, keep: Oracle)
    requires d > 0
    requires forall p: nat :: p < |s| ==> !keep(Without(s, p, d))
    ensures DeletePlain(s, pos, d, keep) == s
    decreases |s| - pos
  {
    if pos < |s| { RejectedDeletionsChangeNothing(s, pos + d, d, keep); }
  }

  lemma {:induction false} RejectedSymbolsChangeNothing(s: seq<byte>, i: nat, keep: Oracle)
    requires i <= 256
    requires forall c: byte :: c != ZERO && c in s ==> !keep(ZeroSymbol(s, c))
    ensures SymbolsFrom(s, s, i, keep) == s
    decreases 256 - i
  {
    if i < 256 { RejectedSymbolsChangeNothing(s, i + 1, keep); }
  }

  lemma {:induction false} RejectedCharsChangeNothing(s: seq<byte>, i: nat, keep: Oracle)
    requires CharMinimal(s, keep)
    ensures CharsFrom(s, i, keep) == s
    decreases |s| - i
  {
    if i < |s| { RejectedCharsChangeNothing(s, i + 1, keep); }
  }

  /** The two stages that the early exit skips would change nothing exactly if the result is minimal
      for symbols and characters as well. */
  lemma SimplifyIdlesIffMinimal(s: seq<byte>, keep: Oracle)
    ensures SimplifyPhase(s, keep) == s <==> SymbolMinimal(s, keep) && CharMinimal(s, keep)
  {
    var b := SymbolsFrom(s, s, 0, keep);
    SymbolsImprove(s, s, 0, keep, b);
    CharsImprove(b, 0, keep, CharsFrom(b, 0, keep));
    if SimplifyPhase(s, keep) == s {
      assert b == s;
      UnchangedSymbolsAreMinimal(s, 0, keep);
      UnchangedCharsAreMinimal(s, 0, keep);
    }
    if SymbolMinimal(s, keep) && CharMinimal(s, keep) {
      RejectedSymbolsChangeNothing(s, 0, keep);
      RejectedCharsChangeNothing(s, 0, keep);
    }
  }

  /** Putting bytes back that were set to '0' never makes the oracle reject what it accepts. */
  ghost predicate UndoSafe(keep: Oracle) {
    forall x: seq<byte>, y: seq<byte> :: Zeroed(y, x) && keep(y) ==> keep(x)
  }

  lemma ZeroedAfterSymbol(t: seq<byte>, s: seq<byte>, c: byte)
    requires Zeroed(t, s)
    ensures Zeroed(ZeroSymbol(t, c), ZeroSymbol(s, c))
  {
  }

  lemma {:induction false} SymbolsAreZeroed(s: seq<byte>, s0: seq<byte>, i: nat, keep: Oracle, r: seq<byte>)
    requires i <= 256 && r == SymbolsFrom(s, s0, i, keep)
    ensures Zeroed(r, s)
    decreases 256 - i
  {
    if i < 256 {
      var c := i as byte;
      var t := if c != ZERO && c in s0 && keep(ZeroSymbol(s, c)) then ZeroSymbol(s, c) else s;
      SymbolsAreZeroed(t, s0, i + 1, keep, r);
    }
  }

  lemma {:induction false} CharsAreZeroed(s: seq<byte>, i: nat, keep: Oracle, r: seq<byte>)
    requires r == CharsFrom(s, i, keep)
    ensures Zeroed(r, s) && forall k: nat :: k < i && k < |s| ==> r[k] == s[k]
    decreases |s| - i
  {
    if i < |s| {
      var t := if s[i] != ZERO && keep(s[i := ZERO]) then s[i := ZERO] else s;
      CharsAreZeroed(t, i + 1, keep, r);
    }
  }

  /** A character that was rejected stays rejected while others are set to '0'. */
  lemma {:induction false} SafeCharsAreMinimal(s: seq<byte>, i: nat, keep: Oracle, r: seq<byte>)
    requires UndoSafe(keep) && r == CharsFrom(s, i, keep)
    ensures forall k: nat :: i <= k < |r| && r[k] != ZERO ==> !keep(r[k := ZERO])
    decreases |s| - i
  {
    CharsAreZeroed(s, i, keep, r);
    if i < |s| {
      var t := if s[i] != ZERO && keep(s[i := ZERO]) then s[i := ZERO] else s;
      SafeCharsAreMinimal(t, i + 1, keep, r);
      CharsAreZeroed(t, i + 1, keep, r);
      assert Zeroed(r[i := ZERO], s[i := ZERO]);
    }
  }

  lemma SymbolIsGone(s: seq<byte>, c: byte, r: seq<byte>)
    requires c != ZERO && Zeroed(r, ZeroSymbol(s, c))
    ensures c !in r
  {
  }

  /** So does a symbol. */
  lemma {:induction false} SafeSymbolsAreMinimal(s: seq<byte>, s0: seq<byte>, i: nat, keep: Oracle, r: seq<byte>)
    requires i <= 256 && UndoSafe(keep) && Zeroed(r, SymbolsFrom(s, s0, i, keep))
    ensures forall c: byte :: i <= c as nat && c != ZERO && c in s0 && c in r ==> !keep(ZeroSymbol(r, c))
    decreases 256 - i
  {
    if i < 256 {
      var c := i as byte;
      var m := SymbolsFrom(s, s0, i, keep);
      var t := if c != ZERO && c in s0 && keep(ZeroSymbol(s, c)) then ZeroSymbol(s, c) else s;
      SafeSymbolsAreMinimal(t, s0, i + 1, keep, r);
      SymbolsAreZeroed(t, s0, i + 1, keep, m);
      assert Zeroed(r, t);
      ZeroedAfterSymbol(r, s, c);
      if c != ZERO && c in s0 && keep(ZeroSymbol(s, c)) { SymbolIsGone(s, c, r); }
    }
  }

  lemma ZeroedHasNoNewSymbol(t: seq<byte>, s: seq<byte>, c: byte)
    requires Zeroed(t, s) && c in t && c != ZERO
    ensures c in s
  {
    var k :| 0 <= k < |t| && t[k] == c;
    assert s[k] == c;
  }

  lemma SafeSimplifyIsMinimal(a: seq<byte>, keep: Oracle)
    requires UndoSafe(keep)
    ensures var r := SimplifyPhase(a, keep); SymbolMinimal(r, keep) && CharMinimal(r, keep)
  {
    var b := SymbolsFrom(a, a, 0, keep);
    var r := CharsFrom(b, 0, keep);
    CharsAreZeroed(b, 0, keep, r);
    SymbolsAreZeroed(a, a, 0, keep, b);
    SafeCharsAreMinimal(b, 0, keep, r);
    SafeSymbolsAreMinimal(a, a, 0, keep, r);
    forall c: byte | c != ZERO && c in r ensures !keep(ZeroSymbol(r, c)) {
      ZeroedHasNoNewSymbol(r, a, c);
    }
  }

  lemma {:induction false} SafePassesAreMinimal(s: seq<byte>, first: bool, keep: Oracle)
    requires UndoSafe(keep) && (!first ==> SymbolMinimal(s, keep) && CharMinimal(s, keep))
    ensures var r := Passes(s, first, keep).0; SymbolMinimal(r, keep) && CharMinimal(r, keep)
    decreases Measure(s)
  {
    PassImproves(s, keep);
    var a := DeletePhase(s, keep);
    var b := SimplifyPhase(a, keep);
    SafeSimplifyIsMinimal(a, keep);
    if (first || a != s) && b != s { SafePassesAreMinimal(b, false, keep); }
  }

  /** With such an oracle the early exit loses nothing: on both exits the result is minimal for
      symbols and characters, whatever the input. */
  lemma SafeOracleIsFullyMinimized(s: seq<byte>, keep: Oracle)
    requires UndoSafe(keep)
    ensures var (r, exit) := Minimized(s, keep); OneMinimal(r, keep) && SymbolMinimal(r, keep) && CharMinimal(r, keep)
  {
    MinimizedIsOneMinimal(s, keep);
    SafePassesAreMinimal(NormalizeFrom(s, 0, SetLen(|s|), keep), true, keep);
  }

  /** For any oracle: the result falls short exactly if the loop was left early and the stages that
      this skips would still have changed it. */
  lemma FullyMinimizedUnlessSkipped(s: seq<byte>, keep: Oracle)
    ensures var (r, exit) := Minimized(s, keep);
      !(SymbolMinimal(r, keep) && CharMinimal(r, keep)) <==> exit == NothingDeleted && SimplifyPhase(r, keep) != r
  {
    MinimizedIsOneMinimal(s, keep);
    SimplifyIdlesIffMinimal(Minimized(s, keep).0, keep);
  }

  const START: seq<byte> := [97, 99, 99]
  const REACHED: seq<byte> := [97, 48, 99]
  const MISSED: seq<byte> := [48, 48, 99]

  predicate KeepsThree(x: seq<byte>) { x == START || x == REACHED || x == MISSED }

  /** Every deletion from three bytes is rejected by an oracle that wants three bytes. */
  lemma NothingDeletedFromThree(s: seq<byte>, keep: Oracle)
    requires |s| == 3 && forall x: seq<byte> :: keep(x) ==> |x| == 3
    ensures DeletePhase(s, keep) == s
  {
    ShortcutIsSound(s, 0, 1, true, keep);
    RejectedDeletionsChangeNothing(s, 0, 1, keep);
  }

  lemma OnlyTheMiddleByteChanges(keep: Oracle)
    requires forall x: seq<byte> :: keep(x) <==> KeepsThree(x)
    ensures SimplifyPhase(START, keep) == REACHED
  {
    assert START[0] == 97 && START[1] == 99 && START[2] == 99;
    assert REACHED[0] == 97 && REACHED[1] == 48 && REACHED[2] == 99 && MISSED[0] == 48;
    forall c: byte | c != ZERO && c in START ensures !keep(ZeroSymbol(START, c)) {
      var z := ZeroSymbol(START, c);
      assert z[0] == 97 ==> z[2] == 48;
      assert z[1] == 48 ==> z[2] == 48;
    }
    RejectedSymbolsChangeNothing(START, 0, keep);
    assert START[0 := ZERO][1] == 99;
    assert START[1 := ZERO] == REACHED;
    assert REACHED[2 := ZERO][2] == 48;
    assert CharsFrom(REACHED, 2, keep) == REACHED;
    assert CharsFrom(START, 1, keep) == REACHED;
  }

  lemma NormalizingLeavesStart(keep: Oracle)
    requires forall x: seq<byte> :: keep(x) <==> KeepsThree(x)
    ensures NormalizeFrom(START, 0, SetLen(|START|), keep) == START
  {
    var z := ZeroRange(START, 0, 3);
    assert z[0] == 48 == z[2];
    assert START[0] == 97 && REACHED[0] == 97 && MISSED[2] == 99;
    assert !keep(z);
    assert SetLen(3) == 4;
    assert NormalizeBlock(START, 0, 3, keep) == START;
  }

  lemma PassesOfReached(keep: Oracle)
    requires forall x: seq<byte> :: keep(x) <==> KeepsThree(x)
    ensures Passes(REACHED, false, keep) == (REACHED, NothingDeleted)
  {
    NothingDeletedFromThree(REACHED, keep);
  }

  /** On the early exit the other two kinds of minimality are not promised: from START a pass
      zeroes the middle byte after the first was found to be needed, the next pass deletes
      nothing, and the first byte is never tried again although MISSED is accepted. */
  lemma EarlyExitNeedNotBeCharMinimal(keep: Oracle)
    requires forall x: seq<byte> :: keep(x) <==> KeepsThree(x)
    ensures Minimized(START, keep) == (REACHED, NothingDeleted) && !CharMinimal(REACHED, keep)
  {
    NormalizingLeavesStart(keep);
    NothingDeletedFromThree(START, keep);
    OnlyTheMiddleByteChanges(keep);
    PassesOfReached(keep);
    assert START[1] != REACHED[1];
    assert REACHED[0] != ZERO && REACHED[0 := ZERO] == MISSED;
  }
}
