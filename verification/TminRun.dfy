/** The minimizer as afl-tmin runs it: in place on the input buffer, with a scratch buffer for
    candidates.  Every stage is proved equal to its function in Tmin. */
module TminRun {
  import opened Bytes
  import opened Config
  import opened Tmin

  method NormalizeBlocks(inData: array<byte>, inLen: nat, tmpBuf: array<byte>, keep: Oracle)
    requires inData != tmpBuf && inLen <= inData.Length && inLen <= tmpBuf.Length
    requires inLen < TMIN_MAX_FILE
    modifies inData, tmpBuf
    ensures inData[..inLen] == NormalizeFrom(old(inData[..inLen]), 0, SetLen(inLen), keep)
  {
    var setLen := ComputeNextP2(inLen / TMIN_SET_STEPS);
    if setLen < TMIN_SET_MIN_SIZE { setLen := TMIN_SET_MIN_SIZE; }
    var setPos := 0;
    while setPos < inLen
      invariant setLen == SetLen(inLen)
      invariant NormalizeFrom(inData[..inLen], setPos, setLen, keep)
             == NormalizeFrom(old(inData[..inLen]), 0, setLen, keep)
      decreases inLen - setPos
    {
      var useLen: nat := Min(setLen, inLen - setPos);
      assert setPos + useLen == Min(setPos + setLen, inLen);
      NormalizeOne(inData, inLen, tmpBuf, setPos, useLen, keep);
      setPos := setPos + setLen;
    }
  }

  method NormalizeOne(inData: array<byte>, inLen: nat, tmpBuf: array<byte>, setPos: nat, useLen: nat, keep: Oracle)
    requires inData != tmpBuf && inLen <= inData.Length && inLen <= tmpBuf.Length
    requires setPos + useLen <= inLen
    modifies inData, tmpBuf
    ensures inData[..inLen] == NormalizeBlock(old(inData[..inLen]), setPos, setPos + useLen, keep)
  {
    ghost var s := inData[..inLen];
    var i := 0;
    while i < useLen && inData[setPos + i] == ZERO
      invariant 0 <= i <= useLen
      invariant AllZero(s, setPos, setPos + i)
    {
      i := i + 1;
    }
    assert i != useLen ==> s[setPos + i] != ZERO;
    if i != useLen {
      Memcpy(tmpBuf, 0, inData, 0, inLen);
      assert tmpBuf[..inLen] == s by { assert tmpBuf[0..0 + inLen] == s; }
      Memset(tmpBuf, setPos, ZERO, useLen);
      assert tmpBuf[..inLen] == ZeroRange(s, setPos, setPos + useLen);
      var res := keep(tmpBuf[..inLen]);
      if res {
        Memset(inData, setPos, ZERO, useLen);
        assert inData[..inLen] == ZeroRange(s, setPos, setPos + useLen);
      }
    }
  }

  method DeleteSweep(inData: array<byte>, inLen: nat, tmpBuf: array<byte>, delLen: nat, keep: Oracle)
    returns (outLen: nat, changed: bool)
    requires inData != tmpBuf && inLen <= inData.Length && inLen <= tmpBuf.Length && delLen > 0
    modifies inData, tmpBuf
    ensures outLen <= inLen && (changed <==> outLen < inLen)
    ensures inData[..outLen] == DeleteFrom(old(inData[..inLen]), 0, delLen, true, keep)
  {
    outLen, changed := inLen, false;
    var delPos, prevDel := 0, true;
    while delPos < outLen
      invariant outLen <= inLen && (changed <==> outLen < inLen)
      invariant !prevDel ==> delLen <= delPos
      invariant DeleteFrom(inData[..outLen], delPos, delLen, prevDel, keep)
             == DeleteFrom(old(inData[..inLen]), 0, delLen, true, keep)
      decreases outLen - delPos
    {
      ghost var s := inData[..outLen];
      var tailLen := Max(outLen - delPos - delLen, 0);
      if !prevDel && tailLen != 0 {
        assert s[delPos - delLen..delPos] == inData[delPos - delLen..delPos];
        assert s[delPos..delPos + delLen] == inData[delPos..delPos + delLen];
      }
      if !prevDel && tailLen != 0 && inData[delPos - delLen..delPos] == inData[delPos..delPos + delLen] {
        delPos := delPos + delLen;
        continue;
      }
      var res := TryDelete(inData, outLen, tmpBuf, delPos, delLen, tailLen, keep);
      if res {
        prevDel := true;
        outLen := delPos + tailLen;
        changed := true;
      } else {
        prevDel := false;
        delPos := delPos + delLen;
      }
    }
  }

  method TryDelete(inData: array<byte>, inLen: nat, tmpBuf: array<byte>, delPos: nat, delLen: nat, tailLen: nat,
                   keep: Oracle)
    returns (res: bool)
    requires inData != tmpBuf && inLen <= inData.Length && inLen <= tmpBuf.Length && delPos < inLen
    requires delLen > 0 && tailLen == Max(inLen - delPos - delLen, 0)
    modifies inData, tmpBuf
    ensures res == keep(Without(old(inData[..inLen]), delPos, delLen))
    ensures res ==> inData[..delPos + tailLen] == Without(old(inData[..inLen]), delPos, delLen)
    ensures !res ==> inData[..] == old(inData[..])
  {
    BuildCandidate(inData, inLen, tmpBuf, delPos, delLen, tailLen);
    var n := delPos + tailLen;
    res := keep(tmpBuf[..n]);
    if res {
      Memcpy(inData, 0, tmpBuf, 0, n);
      assert inData[..n] == tmpBuf[..n] by { assert inData[0..0 + n] == tmpBuf[0..0 + n]; }
    }
  }

  /** Head and tail around the block, in the scratch buffer. */
  method BuildCandidate(inData: array<byte>, inLen: nat, tmpBuf: array<byte>, delPos: nat, delLen: nat, tailLen: nat)
    requires inData != tmpBuf && inLen <= inData.Length && inLen <= tmpBuf.Length && delPos < inLen
    requires tailLen == Max(inLen - delPos - delLen, 0)
    modifies tmpBuf
    ensures tmpBuf[..delPos + tailLen] == Without(inData[..inLen], delPos, delLen)
  {
    Memcpy(tmpBuf, 0, inData, 0, delPos);
    assert tmpBuf[..delPos] == inData[..delPos] by { assert tmpBuf[0..0 + delPos] == inData[0..0 + delPos]; }
    Memcpy(tmpBuf, delPos, inData, delPos + delLen, tailLen);
    assert tmpBuf[..delPos + tailLen] == tmpBuf[..delPos] + tmpBuf[delPos..delPos + tailLen];
  }

  method DeleteBlocks(inData: array<byte>, inLen: nat, tmpBuf: array<byte>, keep: Oracle)
    returns (outLen: nat, changed: bool)
    requires inData != tmpBuf && inLen <= inData.Length && inLen <= tmpBuf.Length
    requires inLen < TMIN_MAX_FILE
    modifies inData, tmpBuf
    ensures outLen <= inLen && (changed <==> outLen < inLen)
    ensures inData[..outLen] == DeletePhase(old(inData[..inLen]), keep)
  {
    var delLen := ComputeNextP2(inLen / TRIM_START_STEPS);
    outLen, changed := DeleteSweep(inData, inLen, tmpBuf, delLen, keep);
    while delLen > 1 && outLen >= 1
      invariant delLen > 0 && outLen <= inLen && (changed <==> outLen < inLen)
      invariant DeletePhase(old(inData[..inLen]), keep)
             == if delLen > 1 && outLen >= 1 then DeleteAll(inData[..outLen], delLen / 2, keep) else inData[..outLen]
      decreases delLen
    {
      delLen := delLen / 2;
      var again: bool;
      outLen, again := DeleteSweep(inData, outLen, tmpBuf, delLen, keep);
      if again { changed := true; }
    }
  }

  method MinimizeSymbols(inData: array<byte>, inLen: nat, tmpBuf: array<byte>, keep: Oracle)
    returns (changed: bool)
    requires inData != tmpBuf && inLen <= inData.Length && inLen <= tmpBuf.Length
    modifies inData, tmpBuf
    ensures inData[..inLen] == SymbolsFrom(old(inData[..inLen]), old(inData[..inLen]), 0, keep)
    ensures changed <==> inData[..inLen] != old(inData[..inLen])
  {
    ghost var s0 := inData[..inLen];
    var alphaMap := CountSymbols(inData, inLen);
    var i := 0;
    changed := false;
    while i < 256
      invariant 0 <= i <= 256
      invariant forall c: nat :: c < 256 ==> (alphaMap[c] != 0 <==> c as byte in s0)
      invariant SymbolsFrom(inData[..inLen], s0, i, keep) == SymbolsFrom(s0, s0, 0, keep)
      invariant SymbolsReplaced(inData[..inLen], s0, i)
      invariant changed <==> inData[..inLen] != s0
    {
      if i as byte != ZERO && alphaMap[i] != 0 {
        ghost var s := inData[..inLen];
        Memcpy(tmpBuf, 0, inData, 0, inLen);
        assert tmpBuf[..inLen] == s by { assert tmpBuf[0..0 + inLen] == s; }
        ReplaceSymbol(tmpBuf, inLen, i as byte);
        var res := keep(tmpBuf[..inLen]);
        if res {
          Memcpy(inData, 0, tmpBuf, 0, inLen);
          assert inData[..inLen] == tmpBuf[..inLen] by { assert inData[0..0 + inLen] == tmpBuf[0..0 + inLen]; }
          changed := true;
          ReplacingChanges(s, s0, i);
        }
      }
      i := i + 1;
    }
  }

  /** `s` is `s0` with some of the symbols below `i` replaced by '0'. */
  ghost predicate SymbolsReplaced(s: seq<byte>, s0: seq<byte>, i: nat) {
    |s| == |s0| && forall k :: 0 <= k < |s| ==> s[k] == s0[k] || (s[k] == ZERO && s0[k] as nat < i)
  }

  lemma ReplacingChanges(s: seq<byte>, s0: seq<byte>, i: nat)
    requires SymbolsReplaced(s, s0, i) && i < 256 && i as byte != ZERO && i as byte in s0
    ensures ZeroSymbol(s, i as byte) != s0
    ensures SymbolsReplaced(ZeroSymbol(s, i as byte), s0, i + 1)
  {
    var k :| 0 <= k < |s0| && s0[k] == i as byte;
    assert s[k] == i as byte;
    assert ZeroSymbol(s, i as byte)[k] == ZERO;
  }

  method CountSymbols(inData: array<byte>, inLen: nat) returns (alphaMap: seq<nat>)
    requires inLen <= inData.Length
    ensures |alphaMap| == 256
    ensures forall c: nat :: c < 256 ==> alphaMap[c] == multiset(inData[..inLen])[c as byte]
    ensures forall c: nat :: c < 256 ==> (alphaMap[c] != 0 <==> c as byte in inData[..inLen])
  {
    alphaMap := seq(256, _ => 0);
    var i := 0;
    while i < inLen
      invariant 0 <= i <= inLen
      invariant |alphaMap| == 256
      invariant forall c: nat :: c < 256 ==> alphaMap[c] == multiset(inData[..i])[c as byte]
    {
      var c := inData[i] as int;
      alphaMap := alphaMap[c := alphaMap[c] + 1];
      assert inData[..i + 1] == inData[..i] + [inData[i]];
      i := i + 1;
    }
    forall c: nat | c < 256 ensures alphaMap[c] != 0 <==> c as byte in inData[..inLen] {
      assert c as byte in multiset(inData[..inLen]) <==> c as byte in inData[..inLen];
    }
  }

  method ReplaceSymbol(tmpBuf: array<byte>, inLen: nat, c: byte)
    requires inLen <= tmpBuf.Length
    modifies tmpBuf
    ensures tmpBuf[..inLen] == ZeroSymbol(old(tmpBuf[..inLen]), c)
  {
    var r := 0;
    while r < inLen
      invariant 0 <= r <= inLen
      invariant forall k :: 0 <= k < r ==> tmpBuf[k] == if old(tmpBuf[k]) == c then ZERO else old(tmpBuf[k])
      invariant forall k :: r <= k < tmpBuf.Length ==> tmpBuf[k] == old(tmpBuf[k])
    {
      if tmpBuf[r] == c { tmpBuf[r] := ZERO; }
      r := r + 1;
    }
  }

  method MinimizeChars(inData: array<byte>, inLen: nat, tmpBuf: array<byte>, keep: Oracle)
    returns (changed: bool)
    requires inData != tmpBuf && inLen <= inData.Length && inLen <= tmpBuf.Length
    modifies inData, tmpBuf
    ensures inData[..inLen] == CharsFrom(old(inData[..inLen]), 0, keep)
    ensures changed <==> inData[..inLen] != old(inData[..inLen])
  {
    changed := false;
    Memcpy(tmpBuf, 0, inData, 0, inLen);
    assert tmpBuf[..inLen] == inData[..inLen] by { assert tmpBuf[0..0 + inLen] == inData[0..0 + inLen]; }
    var i := 0;
    while i < inLen
      invariant 0 <= i <= inLen
      invariant tmpBuf[..inLen] == inData[..inLen]
      invariant CharsFrom(inData[..inLen], i, keep) == CharsFrom(old(inData[..inLen]), 0, keep)
      invariant forall k :: i <= k < inLen ==> inData[k] == old(inData[k])
      invariant !changed ==> inData[..inLen] == old(inData[..inLen])
      invariant changed ==> exists k :: 0 <= k < i && inData[k] == ZERO != old(inData[k])
    {
      ghost var s := inData[..inLen];
      var orig := tmpBuf[i];
      assert orig == tmpBuf[..inLen][i] == s[i];
      if orig != ZERO {
        tmpBuf[i] := ZERO;
        assert tmpBuf[..inLen] == s[i := ZERO];
        var res := keep(tmpBuf[..inLen]);
        if res {
          inData[i] := ZERO;
          changed := true;
          assert inData[..inLen] == s[i := ZERO];
        } else {
          tmpBuf[i] := orig;
          assert tmpBuf[..inLen] == s;
        }
      }
      i := i + 1;
    }
    if changed {
      ghost var k :| 0 <= k < inLen && inData[k] == ZERO != old(inData[k]);
      assert inData[..inLen][k] != old(inData[..inLen])[k];
    }
  }

  /** The change flags of the stages decide the pass loop exactly as the pass function does. */
  lemma PassCases(s: seq<byte>, first: bool, keep: Oracle)
    ensures var a := DeletePhase(s, keep); var b := SymbolsFrom(a, a, 0, keep); var c := CharsFrom(b, 0, keep);
      && (|a| == |s| ==> a == s)
      && (c == s <==> |a| == |s| && b == a && c == b)
      && (!first && a == s ==> Passes(s, first, keep) == (s, NothingDeleted))
      && (first || a != s ==>
            && (c == s ==> Passes(s, first, keep) == (s, NothingChanged))
            && (c != s ==> Passes(s, first, keep) == Passes(c, false, keep) && Measure(c) < Measure(s)))
  {
    var a := DeletePhase(s, keep);
    PassImproves(s, keep);
    var b := SymbolsFrom(a, a, 0, keep);
    SymbolsImprove(a, a, 0, keep, b);
    CharsImprove(b, 0, keep, CharsFrom(b, 0, keep));
    if |a| == |s| {
      DoublingKeepsPow2(1, |s| / TRIM_START_STEPS);
      UnchangedDeletionIsMinimal(s, NextP2(|s| / TRIM_START_STEPS), keep);
    }
  }

  /** One pass: deletion, then, unless a later pass deleted nothing, the other two stages. */
  method OnePass(inData: array<byte>, inLen: nat, tmpBuf: array<byte>, curPass: nat, keep: Oracle)
    returns (outLen: nat, changedAny: bool, finalize: bool)
    requires inData != tmpBuf && inLen <= inData.Length && inLen <= tmpBuf.Length
    requires inLen < TMIN_MAX_FILE && curPass >= 1
    modifies inData, tmpBuf
    ensures outLen <= inLen
    ensures var s, t, first := old(inData[..inLen]), inData[..outLen], curPass == 1;
      && (finalize ==> Passes(s, first, keep) == (t, NothingDeleted))
      && (!finalize && !changedAny ==> Passes(s, first, keep) == (t, NothingChanged))
      && (!finalize && changedAny ==> Passes(s, first, keep) == Passes(t, false, keep) && Measure(t) < Measure(s))
  {
    ghost var s := inData[..inLen];
    PassCases(s, curPass == 1, keep);
    outLen, changedAny := DeleteBlocks(inData, inLen, tmpBuf, keep);
    if curPass > 1 && !changedAny { return outLen, changedAny, true; }
    var symbols := MinimizeSymbols(inData, outLen, tmpBuf, keep);
    var chars := MinimizeChars(inData, outLen, tmpBuf, keep);
    if symbols || chars { changedAny := true; }
    finalize := false;
  }

  /** The whole minimizer.  It ends for every oracle, and computes `Minimized`. */
  method Minimize(inData: array<byte>, inLen: nat, keep: Oracle) returns (outLen: nat, exit: Exit)
    requires inLen <= inData.Length && inLen < TMIN_MAX_FILE
    modifies inData
    ensures outLen <= inLen
    ensures (inData[..outLen], exit) == Minimized(old(inData[..inLen]), keep)
  {
    var tmpBuf := new byte[inLen];
    NormalizeBlocks(inData, inLen, tmpBuf, keep);
    outLen := inLen;
    var curPass := 0;
    while true
      invariant outLen <= inLen
      invariant Passes(inData[..outLen], curPass == 0, keep) == Minimized(old(inData[..inLen]), keep)
      decreases Measure(inData[..outLen])
    {
      curPass := curPass + 1;
      var changedAny, finalize;
      outLen, changedAny, finalize := OnePass(inData, outLen, tmpBuf, curPass, keep);
      if finalize { return outLen, NothingDeleted; }
      if !changedAny { return outLen, NothingChanged; }
    }
  }
}
