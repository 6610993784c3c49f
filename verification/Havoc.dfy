/** The random stage of afl-fuzz: stacks of random changes to the scratch buffer, and splicing. */
module Havoc {
  import opened Redundancy
  import Bytes
  import opened Config
  import opened Stages
  import opened WordStages
  import opened Mutations

  // ---------- The scratch buffer ----------

  class Scratch {
    var outBuf: array<u8>
    var tempLen: nat
    var rolled: nat        // how often `random` has been asked
    const env: Env

    constructor (file: Input, env: Env)
      requires 1 <= |file| <= MAX_FILE && env.queueCycle > 0
      ensures Valid() && File() == file && fresh(outBuf)
      ensures this.env == env && rolled == 0
    {
      outBuf := new u8[|file|](i requires 0 <= i < |file| => file[i]);
      tempLen, rolled := |file|, 0;
      this.env := env;
    }

    /** The file is not empty and not too long, and the buffer can hold it. */
    ghost predicate Valid()
      reads this
    {
      1 <= tempLen <= outBuf.Length && tempLen <= MAX_FILE && env.queueCycle > 0
    }

    ghost function File(): Input
      requires Valid()
      reads this, outBuf
    {
      outBuf[..tempLen]
    }

    /** The file was s, and now it is s with the change that the rolls from k on decide on. */
    ghost predicate Did(c: Choice<Mutation>, s: Input)
      reads this, outBuf
    {
      Valid() && rolled == c.next && File() == Apply(c.value, s)
    }

    /** A random number below the limit. */
    method UR(limit: nat) returns (r: nat)
      requires limit > 0
      modifies `rolled
      ensures r == Die(env, old(rolled), limit) && rolled == old(rolled) + 1
    {
      r := Die(env, rolled, limit);
      rolled := rolled + 1;
    }

    /** In the first ten minutes and the first cycle only small blocks are chosen. */
    method ChooseRange() returns (minValue: nat, maxValue: nat)
      requires Valid()
      modifies `rolled
      ensures Choice(Range(minValue, maxValue), rolled) == BlockRange(env, old(rolled))
    {
      var rlim := if env.queueCycle > 3 then 3 else env.queueCycle;
      if !env.runOver10m { rlim := 1; }
      var which := UR(rlim);
      if which == 0 { return 1, HAVOC_BLK_SMALL; }
      if which == 1 { return HAVOC_BLK_SMALL, HAVOC_BLK_MEDIUM; }
      var often := UR(10);
      if often != 0 {
        return HAVOC_BLK_MEDIUM, HAVOC_BLK_LARGE;
      } else {
        return HAVOC_BLK_LARGE, HAVOC_BLK_XL;
      }
    }

    /** The length of a block, within the limit. */
    method ChooseBlockLen(limit: nat) returns (len: nat)
      requires Valid() && limit > 0
      modifies `rolled
      ensures Choice(len, rolled) == BlockLen(env, old(rolled), limit)
      ensures 1 <= len <= limit && len <= (if !env.runOver10m || env.queueCycle == 1 then 32 else if env.queueCycle == 2 then 128 else 32768)
    {
      var minValue, maxValue := ChooseRange();
      if minValue >= limit { minValue := 1; }
      if maxValue > limit { maxValue := limit; }
      var span := UR(maxValue - minValue + 1);
      len := minValue + span;
    }

    method GetBytes(from: nat, n: nat) returns (w: seq<u8>)
      requires Valid() && from + n <= tempLen
      ensures w == File()[from..from + n]
    {
      w := outBuf[from..from + n];
      ghost var s := outBuf[..tempLen];
      assert w == s[from..from + n];
    }

    /** Bytes inside the file are overwritten. */
    method PutBytes(pos: nat, w: seq<u8>)
      requires Valid() && pos + |w| <= tempLen
      modifies outBuf
      ensures File() == Overwrite(old(File()), pos, w)
    {
      ghost var s := outBuf[..];
      Store(outBuf, pos, w);
      assert Overwrite(s, pos, w)[..tempLen] == Overwrite(s[..tempLen], pos, w);
    }

    method DeleteBytes(from: nat, n: nat)
      requires Valid() && 1 <= n < tempLen && from + n <= tempLen
      modifies `tempLen, outBuf
      ensures Valid() && File() == old(File())[..from] + old(File())[from + n..]
    {
      ghost var s := outBuf[..tempLen];
      var tail := tempLen - from - n;
      Bytes.MoveDown(outBuf, from, from + n, tail);
      tempLen := tempLen - n;
      assert outBuf[..tempLen] == outBuf[..from] + outBuf[from..from + tail];
      assert s[from + n..] == old(outBuf[from + n..from + n + tail]);
    }

    /** Head, inserted part and tail go to a new buffer. */
    method InsertBytes(at: nat, w: seq<u8>)
      requires Valid() && at <= tempLen && tempLen + |w| <= MAX_FILE
      modifies `outBuf, `tempLen
      ensures Valid() && fresh(outBuf) && File() == Inserted(old(File()), at, w)
    {
      ghost var s := outBuf[..tempLen];
      var newBuf := new u8[tempLen + |w|];
      Store(newBuf, 0, outBuf[..at]);
      assert newBuf[..at] == s[..at];
      Store(newBuf, at, w);
      assert newBuf[..at] == s[..at] && newBuf[at..at + |w|] == w;
      Store(newBuf, at + |w|, outBuf[at..tempLen]);
      assert newBuf[..at] == s[..at] && newBuf[at..at + |w|] == w && newBuf[at + |w|..] == s[at..];
      assert newBuf[..] == newBuf[..at] + newBuf[at..at + |w|] + newBuf[at + |w|..];
      outBuf := newBuf;
      tempLen := tempLen + |w|;
    }

    // ---------- The cases ----------

    /** Case 0. */
    method FlipSomeBit()
      requires Valid()
      modifies `rolled, outBuf
      ensures Did(Choice(FlipOne(Die(env, old(rolled), 8 * tempLen)), old(rolled) + 1), old(File()))
    {
      var bit := UR(8 * tempLen);
      PutBytes(bit / 8, [outBuf[bit / 8] ^ FlipMask(bit % 8)]);
    }

    method SomeInteresting16() returns (w: seq<u8>)
      modifies `rolled
      ensures Choice(w, rolled) == SomeWord(env, old(rolled), 2)
    {
      var little := UR(2);
      var j := UR(|INTERESTING_16|);
      w := Either16(little != 0, INTERESTING_16[j]);
    }

    method SomeInteresting32() returns (w: seq<u8>)
      modifies `rolled
      ensures Choice(w, rolled) == SomeWord(env, old(rolled), 4)
    {
      var little := UR(2);
      var j := UR(|INTERESTING_32|);
      w := Either32(little != 0, INTERESTING_32[j]);
    }

    method SomeInteresting(width: nat) returns (w: seq<u8>)
      requires width == 1 || width == 2 || width == 4
      modifies `rolled
      ensures Choice(w, rolled) == SomeWord(env, old(rolled), width)
    {
      if width == 1 {
        var j := UR(|INTERESTING_8|);
        w := [INTERESTING_8[j]];
      } else if width == 2 {
        w := SomeInteresting16();
      } else {
        w := SomeInteresting32();
      }
    }

    /** Cases 1 to 3. */
    method SetInteresting(width: nat)
      requires Valid() && (width == 1 || width == 2 || width == 4)
      modifies `rolled, outBuf
      ensures Did(SetOf(env, old(rolled), old(File()), width), old(File()))
    {
      if tempLen >= width {
        ghost var s := File();
        ghost var w, pos := SetSomeWord(width);
        SetIs(env, old(rolled), s, width, w, rolled - 1, pos);
      }
    }

    method SetSomeWord(width: nat) returns (ghost w: seq<u8>, ghost pos: nat)
      requires Valid() && (width == 1 || width == 2 || width == 4) && width <= tempLen
      modifies `rolled, outBuf
      ensures Valid() && rolled > 0 && Choice(w, rolled - 1) == SomeWord(env, old(rolled), width)
      ensures pos == Die(env, rolled - 1, tempLen - width + 1) && File() == Overwrite(old(File()), pos, w)
    {
      var word := SomeInteresting(width);
      var at := UR(tempLen - width + 1);
      PutBytes(at, word);
      w, pos := word, at;
    }

    /** 1 + UR(ARITH_MAX) */
    method SomeStep() returns (n: u32)
      modifies `rolled
      ensures n == StepSize(env, old(rolled)) && rolled == old(rolled) + 1
    {
      var r := UR(ARITH_MAX as nat);
      n := r as u32 + 1;
    }

    method AddTo(pos: nat, n: u8)
      requires Valid() && pos < tempLen
      modifies outBuf
      ensures File() == Overwrite(old(File()), pos, [old(File())[pos] + n])
    {
      PutBytes(pos, [outBuf[pos] + n]);
    }

    /** Cases 4 and 5. */
    method StepByte(up: bool)
      requires Valid()
      modifies `rolled, outBuf
      ensures Did(StepByteOf(env, old(rolled), old(File()), up), old(File()))
    {
      var pos := UR(tempLen);
      var num := SomeStep();
      var n := Delta8(num, up);
      StepByteIs(env, old(rolled), File(), up, pos, num, n);
      AddTo(pos, n);
    }

    /** Cases 6 and 7. */
    method StepHalf(up: bool)
      requires Valid()
      modifies `rolled, outBuf
      ensures Did(StepHalfOf(env, old(rolled), old(File()), up), old(File()))
    {
      if tempLen < 2 { return; }
      var little := UR(2);
      var pos := UR(tempLen - 1);
      var num := SomeStep();
      var n := if up then num as u16 else 0 - num as u16;
      StepHalfIs(env, old(rolled), File(), up, little == 0, pos, num, n);
      PutBytes(pos, Store16(Stepped16(Load16(outBuf[pos], outBuf[pos + 1]), n, little == 0)));
    }

    /** Cases 8 and 9. */
    method StepWord(up: bool)
      requires Valid()
      modifies `rolled, outBuf
      ensures Did(StepWordOf(env, old(rolled), old(File()), up), old(File()))
    {
      if tempLen < 4 { return; }
      var little := UR(2);
      var pos := UR(tempLen - 3);
      var num := SomeStep();
      var n := if up then num else 0 - num;
      StepWordIs(env, old(rolled), File(), up, little == 0, pos, num, n);
      var x := Load32(outBuf[pos], outBuf[pos + 1], outBuf[pos + 2], outBuf[pos + 3]);
      PutBytes(pos, Store32(Stepped32(x, n, little == 0)));
    }

    /** Case 10. */
    method XorSomeByte()
      requires Valid()
      modifies `rolled, outBuf
      ensures Did(Choice(Xor(Die(env, old(rolled), tempLen), (1 + Die(env, old(rolled) + 1, 255)) as u8), old(rolled) + 2), old(File()))
    {
      var pos := UR(tempLen);
      var r := UR(255);
      var mask := (1 + r) as u8;
      PutBytes(pos, [outBuf[pos] ^ mask]);
    }

    /** Cases 11 and 12. */
    method DeleteBlock()
      requires Valid()
      modifies `rolled, `tempLen, outBuf
      ensures Did(DeleteOf(env, old(rolled), old(File())), old(File()))
    {
      if tempLen < 2 { return; }
      var delLen := ChooseBlockLen(tempLen - 1);
      var delFrom := UR(tempLen - delLen + 1);
      DeleteBytes(delFrom, delLen);
    }

    /** A constant: a random byte or one from the file. */
    method SomeFill() returns (b: u8)
      requires Valid()
      modifies `rolled
      ensures Choice(b, rolled) == FillOf(env, old(rolled), File())
    {
      var fresh' := UR(2);
      if fresh' != 0 {
        var r := UR(256);
        b := r as u8;
      } else {
        var pos := UR(tempLen);
        b := outBuf[pos];
      }
    }

    /** Case 13. */
    method InsertBlock()
      requires Valid()
      modifies `rolled, `tempLen, `outBuf
      ensures Did(InsertOf(env, old(rolled), old(File())), old(File())) && (outBuf == old(outBuf) || fresh(outBuf))
    {
      if tempLen + HAVOC_BLK_XL >= MAX_FILE { return; }
      ghost var s := File();
      var actuallyClone := UR(4);
      if actuallyClone != 0 {
        ghost var n, from, to := CloneBlock();
        CloneIs(env, old(rolled), s, n, rolled - 2, from, to);
      } else {
        InsertConstant();
      }
    }

    method CloneBlock() returns (ghost n: nat, ghost from: nat, ghost to: nat)
      requires Valid() && tempLen + HAVOC_BLK_XL < MAX_FILE
      modifies `rolled, `tempLen, `outBuf
      ensures Valid() && fresh(outBuf) && rolled > 1 && Choice(n, rolled - 2) == BlockLen(env, old(rolled), old(tempLen))
      ensures from == Die(env, rolled - 2, old(tempLen) - n + 1) && to == Die(env, rolled - 1, old(tempLen))
      ensures File() == Inserted(old(File()), to, old(File())[from..from + n])
    {
      var cloneLen := ChooseBlockLen(tempLen);
      var cloneFrom := UR(tempLen - cloneLen + 1);
      var cloneTo := UR(tempLen);
      var block := GetBytes(cloneFrom, cloneLen);
      InsertBytes(cloneTo, block);
      n, from, to := cloneLen, cloneFrom, cloneTo;
    }

    method InsertConstant()
      requires Valid() && tempLen + HAVOC_BLK_XL < MAX_FILE && rolled > 0 && Die(env, rolled - 1, 4) == 0
      modifies `rolled, `tempLen, `outBuf
      ensures Did(InsertOf(env, old(rolled) - 1, old(File())), old(File())) && fresh(outBuf)
    {
      var cloneLen := ChooseBlockLen(HAVOC_BLK_XL);
      ghost var next := rolled;
      var cloneTo := UR(tempLen);
      var b := SomeFill();
      InsertFillIs(env, old(rolled) - 1, File(), cloneLen, next, cloneTo, Choice(b, rolled));
      InsertBytes(cloneTo, Repeated(b, cloneLen));
    }

    /** Case 14. */
    method OverwriteBlock()
      requires Valid()
      modifies `rolled, outBuf
      ensures Did(OverwriteOf(env, old(rolled), old(File())), old(File()))
    {
      if tempLen < 2 { return; }
      var copyLen := ChooseBlockLen(tempLen - 1);
      var copyFrom := UR(tempLen - copyLen + 1);
      var copyTo := UR(tempLen - copyLen + 1);
      var chunk := UR(4);
      ghost var next := rolled - 3;
      if chunk != 0 {
        BlockCopyIs(env, old(rolled), File(), copyLen, next, copyFrom, copyTo);
        CopyBlock(copyFrom, copyTo, copyLen);
      } else {
        var b := SomeFill();
        BlockFillIs(env, old(rolled), File(), copyLen, next, copyTo, Choice(b, rolled));
        PutBytes(copyTo, Repeated(b, copyLen));
      }
    }

    method CopyBlock(copyFrom: nat, copyTo: nat, copyLen: nat)
      requires Valid() && 1 <= copyLen < tempLen && copyFrom + copyLen <= tempLen && copyTo + copyLen <= tempLen
      modifies outBuf
      ensures File() == Apply(Copy(copyFrom, copyTo, copyLen), old(File()))
    {
      CopyIsOverwrite(File(), copyFrom, copyTo, copyLen);
      if copyFrom == copyTo { return; }
      var block := GetBytes(copyFrom, copyLen);
      PutBytes(copyTo, block);
    }

    /** A token from either dictionary. */
    method SomeToken() returns (tok: seq<u8>)
      requires |env.extras| + |env.aExtras| > 0
      modifies `rolled
      ensures Choice(tok, rolled) == TokenOf(env, old(rolled))
    {
      var auto := |env.extras| == 0;
      if !auto && |env.aExtras| > 0 {
        var coin := UR(2);
        auto := coin != 0;
      }
      if auto {
        var j := UR(|env.aExtras|);
        tok := env.aExtras[j];
      } else {
        var j := UR(|env.extras|);
        tok := env.extras[j];
      }
    }

    /** Case 15. */
    method OverwriteWithToken()
      requires Valid() && |env.extras| + |env.aExtras| > 0
      modifies `rolled, outBuf
      ensures Did(OverTokenOf(env, old(rolled), old(File())), old(File()))
    {
      var tok := SomeToken();
      if |tok| > tempLen { return; }
      var insertAt := UR(tempLen - |tok| + 1);
      PutBytes(insertAt, tok);
    }

    /** Case 16. */
    method InsertSomeToken()
      requires Valid() && |env.extras| + |env.aExtras| > 0
      modifies `rolled, `tempLen, `outBuf
      ensures Did(InsertTokenOf(env, old(rolled), old(File())), old(File())) && (outBuf == old(outBuf) || fresh(outBuf))
    {
      var insertAt := UR(tempLen + 1);
      var tok := SomeToken();
      if tempLen + |tok| >= MAX_FILE { return; }
      InsertBytes(insertAt, tok);
    }

    /** One random change; the last two kinds only with a dictionary. */
    method MutateOnce() returns (ghost m: Mutation)
      requires Valid()
      modifies `rolled, `tempLen, `outBuf, outBuf
      ensures Choice(m, rolled) == ChangeOf(env, old(rolled), old(File()))
      ensures Valid() && File() == Apply(m, old(File())) && (outBuf == old(outBuf) || fresh(outBuf))
    {
      ghost var c := ChangeOf(env, rolled, File());
      var which := UR(if |env.extras| + |env.aExtras| > 0 then 17 else 15);
      PerformCase(which, c);
      m := c.value;
    }

    method PerformCase(which: nat, ghost c: Choice<Mutation>)
      requires Valid() && which < 17 && (which < 15 || |env.extras| + |env.aExtras| > 0)
      requires c == CaseOf(env, which, rolled, File())
      modifies `rolled, `tempLen, `outBuf, outBuf
      ensures Did(c, old(File())) && (outBuf == old(outBuf) || fresh(outBuf))
    {
      if which == 0 { FlipSomeBit(); }
      else if which == 1 { SetInteresting(1); }
      else if which == 2 { SetInteresting(2); }
      else if which == 3 { SetInteresting(4); }
      else if which == 4 { StepByte(false); }
      else if which == 5 { StepByte(true); }
      else if which == 6 { StepHalf(false); }
      else if which == 7 { StepHalf(true); }
      else if which == 8 { StepWord(false); }
      else if which == 9 { StepWord(true); }
      else if which == 10 { XorSomeByte(); }
      else if which <= 12 { DeleteBlock(); }
      else if which == 13 { InsertBlock(); }
      else if which == 14 { OverwriteBlock(); }
      else if which == 15 { OverwriteWithToken(); }
      else { InsertSomeToken(); }
    }

    /** A stack of changes, one after the other. */
    method MutateStack(count: nat) returns (ghost ms: seq<Mutation>)
      requires Valid()
      modifies `rolled, `tempLen, `outBuf, outBuf
      ensures Valid() && (outBuf == old(outBuf) || fresh(outBuf))
      ensures Choice(ms, rolled) == StackOf(env, old(rolled), count, old(File())) && File() == ApplyAll(ms, old(File()))
    {
      ms := [];
      ghost var s := File();
      for i := 0 to count
        invariant Valid() && (outBuf == old(outBuf) || fresh(outBuf))
        invariant Choice(ms, rolled) == StackOf(env, old(rolled), i, s) && File() == ApplyAll(ms, s)
      {
        OneMoreChange(env, rolled, s, ms);
        ghost var m := MutateOnce();
        ms := ms + [m];
      }
    }

    /** Back to the original size and content. */
    method RestoreFile(inBuf: array<u8>, len: nat)
      requires Valid() && 1 <= len <= inBuf.Length && len <= MAX_FILE && inBuf != outBuf
      modifies `tempLen, `outBuf, outBuf
      ensures Valid() && File() == inBuf[..len] && (outBuf == old(outBuf) || fresh(outBuf))
    {
      if tempLen < len {
        var grown := new u8[len];
        Store(grown, 0, outBuf[..tempLen]);
        outBuf := grown;
      }
      tempLen := len;
      Store(outBuf, 0, inBuf[..len]);
    }

    /** One round of the stage: a stack of 2 to 128 changes is run, and unless the entry is given up
        the buffer again holds the original. */
    method Round(b: Bench, inBuf: array<u8>) returns (abandon: bool, ghost ms: seq<Mutation>)
      requires Valid() && tempLen <= inBuf.Length && File() == inBuf[..tempLen] && inBuf != outBuf
      modifies `rolled, `tempLen, `outBuf, outBuf, b`log
      ensures Valid() && (outBuf == old(outBuf) || fresh(outBuf))
      ensures Choice(ms, rolled) == StackOf(env, old(rolled) + 1, StackSize(env, old(rolled)), old(File()))
      ensures |ms| in {2, 4, 8, 16, 32, 64, 128} && AllPossible(ms, old(File()), Tokens(env), MaxBlock(env))
      ensures b.log == old(b.log) + [ApplyAll(ms, old(File()))] && b.Obeyed(|old(b.log)|, abandon)
      ensures 1 <= |ApplyAll(ms, old(File()))| <= MAX_FILE
      ensures !abandon ==> File() == old(File()) && tempLen == old(tempLen)
    {
      var len := tempLen;
      var power := UR(7);
      var useStacking := if power == 0 then 2 else if power == 1 then 4 else if power == 2 then 8
                         else if power == 3 then 16 else if power == 4 then 32 else if power == 5 then 64 else 128;
      StackSizeIs(env, old(rolled), power);
      ms := MutateStack(useStacking);
      var cksum;
      abandon, cksum := b.Run(outBuf[..tempLen]);
      if abandon { return; }
      RestoreFile(inBuf, len);
    }
  }

  // ---------- Splicing ----------

  /** The first and the last place where two files differ, or -1. */
  method LocateDiffs(a: Input, b: Input, len: nat) returns (first: int, last: int)
    requires len <= |a| && len <= |b|
    ensures -1 <= first <= last < len && (first == -1 ==> last == -1)
    ensures first != -1 ==> a[first] != b[first] && a[last] != b[last]
    ensures forall k :: 0 <= k < len && a[k] != b[k] ==> first != -1 && first <= k <= last
  {
    first, last := -1, -1;
    for pos := 0 to len
      invariant first == -1 ==> last == -1 && forall k :: 0 <= k < pos ==> a[k] == b[k]
      invariant first != -1 ==>
        0 <= first <= last < pos && a[first] != b[first] && a[last] != b[last]
        && (forall k :: 0 <= k < first ==> a[k] == b[k]) && (forall k :: last < k < pos ==> a[k] == b[k])
    {
      if a[pos] != b[pos] {
        if first == -1 { first := pos; }
        last := pos;
      }
    }
  }

  /** Do the files differ in two places of their common length, at least one of them not among
      the first two? */
  ghost predicate Spliceable(cur: Input, target: Input) {
    exists i, j :: 0 <= i < j < |cur| && 2 <= j < |target| && cur[i] != target[i] && cur[j] != target[j]
  }

  /** The first place where the two files differ. */
  ghost predicate FirstDifference(cur: Input, target: Input, i: nat) {
    i < |cur| && i < |target| && cur[i] != target[i] && cur[..i] == target[..i]
  }

  /** The last place where they differ. */
  ghost predicate LastDifference(cur: Input, target: Input, j: nat) {
    && j < |cur| && j < |target| && cur[j] != target[j]
    && forall k :: j < k < |cur| && k < |target| ==> cur[k] == target[k]
  }

  /** The head of the current file is put before the tail of the target, with a difference at or before
      the split and another one behind it.  The result always differs from the current file; it is
      the target itself exactly if the split is at the first place where the two differ. */
  method Splice(cur: Input, target: Input, roll: nat) returns (spliced: Bytes.Option<Input>, splitAt: nat)
    ensures spliced.Some? <==> Spliceable(cur, target)
    ensures spliced.Some? ==>
      splitAt < |cur| && splitAt < |target| && spliced.value == cur[..splitAt] + target[splitAt..]
      && spliced.value != cur && (spliced.value == target <==> FirstDifference(cur, target, splitAt))
    ensures spliced.Some? ==> exists i, j :: 0 <= i <= splitAt < j < |cur| && j < |target|
                                             && cur[i] != target[i] && cur[j] != target[j]
    ensures spliced.Some? ==> forall i: nat, j: nat :: FirstDifference(cur, target, i) && LastDifference(cur, target, j)
                                             ==> i < j && splitAt == i + roll % (j - i)
  {
    splitAt := 0;
    var fDiff, lDiff := LocateDiffs(cur, target, if |cur| > |target| then |target| else |cur|);
    if fDiff < 0 || lDiff < 2 || fDiff == lDiff {
      NotSpliceable(cur, target, fDiff, lDiff);
      return Bytes.None, splitAt;
    }
    splitAt := fDiff + roll % (lDiff - fDiff);
    var newBuf := cur[..splitAt] + target[splitAt..];
    assert newBuf[lDiff] == target[lDiff];
    forall i: nat, j: nat | FirstDifference(cur, target, i) && LastDifference(cur, target, j)
      ensures i < j && splitAt == i + roll % (j - i)
    {
      DifferencesAre(cur, target, fDiff, lDiff, i, j);
    }
    SplitAtFirstDifference(cur, target, fDiff, splitAt, newBuf);
    return Bytes.Some(newBuf), splitAt;
  }

  lemma SplitAtFirstDifference(cur: Input, target: Input, first: nat, splitAt: nat, newBuf: Input)
    requires FirstDifference(cur, target, first) && first <= splitAt < |cur| && splitAt < |target|
    requires newBuf == cur[..splitAt] + target[splitAt..]
    ensures newBuf == target <==> FirstDifference(cur, target, splitAt)
  {
    assert target == target[..splitAt] + target[splitAt..];
    if first < splitAt {
      assert newBuf[first] == cur[first];
      assert cur[..splitAt][first] != target[..splitAt][first];
    }
  }

  lemma DifferencesAre(cur: Input, target: Input, first: nat, last: nat, i: nat, j: nat)
    requires first <= last < |cur| && last < |target| && cur[first] != target[first] && cur[last] != target[last]
    requires forall k :: 0 <= k < |cur| && k < |target| && cur[k] != target[k] ==> first <= k <= last
    requires FirstDifference(cur, target, i) && LastDifference(cur, target, j)
    ensures i == first && j == last
  {
    assert forall k :: 0 <= k < i ==> cur[k] == cur[..i][k] == target[..i][k];
  }

  lemma NotSpliceable(cur: Input, target: Input, first: int, last: int)
    requires -1 <= first <= last < |cur| && last < |target| && (first == -1 || last < 2 || first == last)
    requires forall k :: 0 <= k < |cur| && k < |target| && cur[k] != target[k] ==> first <= k <= last && first != -1
    ensures !Spliceable(cur, target)
  {
  }
}
