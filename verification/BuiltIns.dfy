/** What becomes of the built-in values of 16 and 32 bits that afl-fuzz stores at every effective
    position in either byte order.  Its filters leave out a value if a bit flip, arithmetic or a shorter
    value makes the same change.  By the end of the stage each of these values has been run, by some
    stage or other, unless the change straddles two neighbouring bytes; then it never is.  The stages
    before that may have run it are those of Deterministic, WordFilters and WordLosses, and all of them
    come in the order given by Deterministic; what is said here is said of the whole list of executions. */
module BuiltIns {
  import opened Redundancy
  import opened Stages
  import opened WordStages
  import opened Deterministic
  import opened WordValues
  import opened WordFilters
  import opened WordLosses
  import opened WordTries

  // ---------- Single bytes ----------

  lemma NearByteIsRun(s: Input, eff: seq<bool>, p: nat, b: u8)
    requires p < |s| && |eff| == EffLen(|s|) && eff[p / 8] && b != s[p] && Within8(s[p], b)
    ensures IsRun(s, eff, s[p := b])
  {
    Arith8SkipsOnlyRepeats(s, eff, p, b);
    if RunByFlips(s, s[p := b]) {
      FlippedIsRun(s, eff, s[p := b]);
    } else {
      StageIsRun(s, eff, s[p := b], Arith8);
    }
  }

  lemma BuiltInByteIsRun(s: Input, eff: seq<bool>, p: nat, b: u8)
    requires p < |s| && |eff| == EffLen(|s|) && eff[p / 8] && b != s[p] && b in INTERESTING_8
    ensures IsRun(s, eff, s[p := b])
  {
    Interest8SkipsOnlyRepeats(s, eff, p, b);
    if RunByFlips(s, s[p := b]) {
      FlippedIsRun(s, eff, s[p := b]);
    } else if s[p := b] in StageRuns(s, Arith8, eff) {
      StageIsRun(s, eff, s[p := b], Arith8);
    } else {
      StageIsRun(s, eff, s[p := b], Interest8);
    }
  }

  // ---------- Half words ----------

  /** A place in a file: everything about the half word at position i that the lemmas need. */
  ghost predicate AtHalf(s: Input, eff: seq<bool>, i: nat, w: seq<u8>, o: u16) {
    && i + 1 < |s| && |eff| == EffLen(|s|) && eff[i / 8] && eff[(i + 1) / 8]
    && w == s[i..i + 2] && o == Load16(w[0], w[1])
  }

  lemma HalfValues(s: Input, eff: seq<bool>, i: nat, w: seq<u8>, o: u16)
    requires AtHalf(s, eff, i, w, o)
    ensures w[0] == s[i] && w[1] == s[i + 1] && o == Load16(s[i], s[i + 1])
  {
  }

  lemma OneByteOfHalf(s: Input, i: nat, w: seq<u8>, u: seq<u8>, k: nat)
    requires i + 1 < |s| && w == s[i..i + 2] && |u| == 2 && k < 2 && u == w[k := u[k]]
    ensures Overwrite(s, i, u) == s[i + k := u[k]]
  {
  }

  lemma NoSameHalf(w: seq<u8>, o: u16, v: u16)
    requires |w| == 2 && o == Load16(w[0], w[1]) && v != o
    ensures Store16(v) != w
  {
    StoredHalf(w, o);
    Stored16IsLoaded(v, o);
  }

  lemma FlippedHalfIsRun(s: Input, eff: seq<bool>, i: nat, w: seq<u8>, o: u16, v: u16, d: u16)
    requires AtHalf(s, eff, i, w, o) && v != o && d == o ^ v && FlipPattern(d as u32) && !Straddles(d)
    ensures IsRun(s, eff, Overwrite(s, i, Store16(v)))
  {
    HalfValues(s, eff, i, w, o);
    FlipFilter16(s, eff, i, o, v, d);
    EarlyRunIsRun(s, eff, Overwrite(s, i, Store16(v)));
  }

  lemma NearHalfIsRun(s: Input, eff: seq<bool>, i: nat, w: seq<u8>, o: u16, v: u16, d: u16)
    requires AtHalf(s, eff, i, w, o) && v != o && d == o ^ v && NearHalves(o, v) && !Straddles(d)
    ensures IsRun(s, eff, Overwrite(s, i, Store16(v)))
  {
    HalfValues(s, eff, i, w, o);
    var way, j := NearIsStep(o, v);
    Arith16LosesOnlyStraddlers(s, eff, i, way, o, j, v, d);
  }

  lemma NearInHalf(s: Input, eff: seq<bool>, i: nat, w: seq<u8>, o: u16, v: u16, d: u16, u: seq<u8>)
    requires AtHalf(s, eff, i, w, o) && v != o && d == o ^ v && u == Store16(v) && ArithPattern(w, u) && !Straddles(d)
    ensures IsRun(s, eff, Overwrite(s, i, u))
  {
    NoSameHalf(w, o, v);
    if k: nat :| OnlyDifference(w, u, k) && Within8(w[k], u[k]) {
      OneByteOfHalf(s, i, w, u, k);
      NearByteIsRun(s, eff, i + k, u[k]);
    } else {
      NearHalfIsRun(s, eff, i, w, o, v, d);
    }
  }

  lemma ByteInHalf(s: Input, eff: seq<bool>, i: nat, w: seq<u8>, o: u16, v: u16, u: seq<u8>, k: nat, b: u8)
    requires AtHalf(s, eff, i, w, o) && v != o && u == Store16(v) && k < 2 && u == w[k := b] && b in INTERESTING_8
    ensures IsRun(s, eff, Overwrite(s, i, u))
  {
    NoSameHalf(w, o, v);
    OneByteOfHalf(s, i, w, u, k);
    BuiltInByteIsRun(s, eff, i + k, b);
  }

  lemma StoredInHalf(w: seq<u8>, u: seq<u8>, checkLe: bool) returns (byte: bool, k: nat, j: nat)
    requires |w| == |u| == 2 && u != w && InterestPattern(w, u, checkLe)
    ensures byte ==> k < 2 && j < |INTERESTING_8| && u == w[k := INTERESTING_8[j]]
    ensures !byte ==> checkLe && j < |INTERESTING_16| && u == Store16(INTERESTING_16[j])
  {
    if m: nat, n: nat :| m < 2 && n < |INTERESTING_8| && ByteStored(w, u, m, INTERESTING_8[n]) {
      byte, k, j := true, m, n;
    } else {
      var m: nat, n: nat :| m < 1 && n < |INTERESTING_16| && HalfStored(w, u, m, INTERESTING_16[n]);
      WholeHalf(w, INTERESTING_16[n]);
      byte, k, j := false, m, n;
    }
  }

  lemma WholeHalf(w: seq<u8>, half: u16)
    requires |w| == 2
    ensures PutHalf(w, 0, half) == Store16(half)
  {
    var x := Store16(half);
    assert PutHalf(w, 0, half) == [x[0], x[1]] == x;
  }

  /** A half word that a filter for flips, arithmetic and single bytes leaves out. */
  ghost predicate IsEarlier16(w: seq<u8>, d: u16, u: seq<u8>)
    requires |w| == |u| == 2
  {
    FlipPattern(d as u32) || ArithPattern(w, u) || InterestPattern(w, u, false)
  }

  lemma EarlierHalfIsRun(s: Input, eff: seq<bool>, i: nat, w: seq<u8>, o: u16, v: u16, d: u16, u: seq<u8>)
    requires AtHalf(s, eff, i, w, o) && v != o && d == o ^ v && u == Store16(v) && !Straddles(d) && IsEarlier16(w, d, u)
    ensures IsRun(s, eff, Overwrite(s, i, u))
  {
    if FlipPattern(d as u32) {
      FlippedHalfIsRun(s, eff, i, w, o, v, d);
    } else if ArithPattern(w, u) {
      NearInHalf(s, eff, i, w, o, v, d, u);
    } else {
      NoSameHalf(w, o, v);
      var byte, k, j := StoredInHalf(w, u, false);
      ByteInHalf(s, eff, i, w, o, v, u, k, INTERESTING_8[j]);
    }
  }

  lemma HalfIsRun(s: Input, eff: seq<bool>, i: nat, w: seq<u8>, o: u16, u: seq<u8>)
    requires AtHalf(s, eff, i, w, o) && Put(u) in Tries(Interest16, w)
    ensures IsRun(s, eff, Overwrite(s, i, u))
  {
    WordIsRun(s, Interest16, eff, i, u);
    StageIsRun(s, eff, Overwrite(s, i, u), Interest16);
  }

  lemma {:induction false} PairIsTried(w: seq<u8>, vals: seq<u16>, n: nat, k: nat, x: Try)
    requires |w| == 2 && k < n <= |vals| && x in Interest16Pair(w, vals[k])
    ensures x in Interest16Tries(w, vals, n)
  {
    InConcatenation(x, Interest16Tries(w, vals, n - 1), Interest16Pair(w, vals[n - 1]));
    if k < n - 1 { PairIsTried(w, vals, n - 1, k, x); }
  }

  lemma InPair16(w: seq<u8>, v: u16, z: u16)
    requires |w| == 2 && z == Swap16(v)
    ensures !Redundant16(w, v, false) ==> Put(Store16(v)) in Interest16Pair(w, v)
    ensures v != z && !Redundant16(w, z, true) ==> Put(Store16(z)) in Interest16Pair(w, v)
  {
    OneOfTwo(Unless(Redundant16(w, v, false), Store16(v)), Interest16Pair(w, v)[0], Interest16Pair(w, v)[1]);
    OneOfTwo(Unless(v == z || Redundant16(w, z, true), Store16(z)), Interest16Pair(w, v)[0], Interest16Pair(w, v)[1]);
  }

  lemma RedundantLow16(w: seq<u8>, o: u16, v: u16, d: u16, u: seq<u8>)
    requires |w| == 2 && o == Load16(w[0], w[1]) && d == o ^ v && u == Store16(v)
    ensures Redundant16(w, v, false) <==> IsEarlier16(w, d, u)
  {
  }

  lemma RedundantHigh16(w: seq<u8>, o: u16, v: u16, d: u16, u: seq<u8>) returns (j: nat)
    requires |w| == 2 && o == Load16(w[0], w[1]) && d == o ^ v && u == Store16(v) && u != w
    requires Redundant16(w, v, true) && !IsEarlier16(w, d, u)
    ensures j < |INTERESTING_16| && v == INTERESTING_16[j]
  {
    var byte, k;
    byte, k, j := StoredInHalf(w, u, true);
    if byte {
      assert ByteStored(w, u, k, INTERESTING_8[j]);
    } else {
      Stored16IsLoaded(v, INTERESTING_16[j]);
    }
  }

  lemma LittleIsTried16(w: seq<u8>, k: nat, v: u16)
    requires |w| == 2 && k < |INTERESTING_16| && v == INTERESTING_16[k] && !Redundant16(w, v, false)
    ensures Put(Store16(v)) in Tries(Interest16, w)
  {
    InPair16(w, v, Swap16(v));
    PairIsTried(w, INTERESTING_16, |INTERESTING_16|, k, Put(Store16(v)));
  }

  lemma BigIsTried16(w: seq<u8>, k: nat, z: u16, v: u16)
    requires |w| == 2 && k < |INTERESTING_16| && z == INTERESTING_16[k] && v == Swap16(z) && v != z
    requires !Redundant16(w, v, true)
    ensures Put(Store16(v)) in Tries(Interest16, w)
  {
    InPair16(w, z, v);
    PairIsTried(w, INTERESTING_16, |INTERESTING_16|, k, Put(Store16(v)));
  }

  /** Low byte first. */
  lemma LittleHalfIsRun(s: Input, eff: seq<bool>, i: nat, w: seq<u8>, o: u16, v: u16, d: u16, k: nat)
    requires AtHalf(s, eff, i, w, o) && v != o && d == o ^ v && !Straddles(d)
    requires k < |INTERESTING_16| && v == INTERESTING_16[k]
    ensures IsRun(s, eff, Overwrite(s, i, Store16(v)))
  {
    RedundantLow16(w, o, v, d, Store16(v));
    if IsEarlier16(w, d, Store16(v)) {
      EarlierHalfIsRun(s, eff, i, w, o, v, d, Store16(v));
    } else {
      LittleIsTried16(w, k, v);
      HalfIsRun(s, eff, i, w, o, Store16(v));
    }
  }

  /** High byte first: what is left out because it is a built-in value low byte first, is one. */
  lemma BigHalfIsRun(s: Input, eff: seq<bool>, i: nat, w: seq<u8>, o: u16, v: u16, d: u16, k: nat, z: u16)
    requires AtHalf(s, eff, i, w, o) && v != o && d == o ^ v && !Straddles(d)
    requires k < |INTERESTING_16| && z == INTERESTING_16[k] && v == Swap16(z) && v != z
    ensures IsRun(s, eff, Overwrite(s, i, Store16(v)))
  {
    if IsEarlier16(w, d, Store16(v)) {
      EarlierHalfIsRun(s, eff, i, w, o, v, d, Store16(v));
    } else if Redundant16(w, v, true) {
      NoSameHalf(w, o, v);
      var j := RedundantHigh16(w, o, v, d, Store16(v));
      LittleHalfIsRun(s, eff, i, w, o, v, d, j);
    } else {
      BigIsTried16(w, k, z, v);
      HalfIsRun(s, eff, i, w, o, Store16(v));
    }
  }

  /** A built-in half word, in one byte order or the other. */
  predicate BuiltIn16(v: u16) { exists k :: 0 <= k < |INTERESTING_16| && (v == INTERESTING_16[k] || v == Swap16(INTERESTING_16[k])) }

  lemma BuiltInHalfIsRun(s: Input, eff: seq<bool>, i: nat, w: seq<u8>, o: u16, v: u16, d: u16)
    requires AtHalf(s, eff, i, w, o) && v != o && d == o ^ v && !Straddles(d) && BuiltIn16(v)
    ensures IsRun(s, eff, Overwrite(s, i, Store16(v)))
  {
    var k: nat :| k < |INTERESTING_16| && (v == INTERESTING_16[k] || v == Swap16(INTERESTING_16[k]));
    var z := INTERESTING_16[k];
    if v == z {
      LittleHalfIsRun(s, eff, i, w, o, v, d, k);
    } else {
      BigHalfIsRun(s, eff, i, w, o, v, d, k, z);
    }
  }

  /** Of the built-in half words at effective bytes, in either byte order, exactly those are lost whose
      change straddles the two bytes: all others have been run when the stage is over. */
  lemma Interest16LosesOnlyStraddlers(s: Input, eff: seq<bool>, i: nat, o: u16, v: u16, d: u16)
    requires i + 1 < |s| && |eff| == EffLen(|s|) && eff[i / 8] && eff[(i + 1) / 8]
    requires o == Load16(s[i], s[i + 1]) && v != o && BuiltIn16(v) && d == o ^ v
    ensures Overwrite(s, i, Store16(v)) in FlipRuns(s) + WordRuns(s, eff, Kinds(|s|, false)) <==> !Straddles(d)
  {
    if Straddles(d) {
      StraddlerIsNeverRun(s, eff, i, o, v, d);
    } else {
      BuiltInHalfIsRun(s, eff, i, s[i..i + 2], o, v, d);
    }
  }

  // ---------- Two neighbouring bytes of a word ----------

  /** Is nothing changed but the bytes k and k + 1? */
  ghost predicate OnlyPair(w: seq<u8>, u: seq<u8>, k: nat) {
    |w| == |u| == 4 && k < 3 && forall j :: 0 <= j < 4 && j != k && j != k + 1 ==> u[j] == w[j]
  }

  predicate HalfDelta(w: seq<u8>, u: seq<u8>, k: nat, c: u16)
    requires k + 1 < |w| == |u|
  {
    c == Load16(w[k], w[k + 1]) ^ Load16(u[k], u[k + 1])
  }

  /** Is the change one of the bytes k and k + 1, and does its pattern straddle them? */
  ghost predicate StraddlesAt(w: seq<u8>, u: seq<u8>, k: nat) {
    OnlyPair(w, u, k) && forall c {:trigger HalfDelta(w, u, k, c)} :: HalfDelta(w, u, k, c) ==> Straddles(c)
  }

  ghost predicate StraddlesInWord(w: seq<u8>, u: seq<u8>) {
    StraddlesAt(w, u, 0) || StraddlesAt(w, u, 1) || StraddlesAt(w, u, 2)
  }

  ghost predicate AtWord(s: Input, eff: seq<bool>, i: nat, w: seq<u8>) {
    i + 3 < |s| && |eff| == EffLen(|s|) && AllEffective(eff, i, 4) && w == s[i..i + 4]
  }

  /** A change of two neighbouring bytes of a word is one of the half word that they are. */
  lemma PairFile(s: Input, eff: seq<bool>, i: nat, w: seq<u8>, u: seq<u8>, k: nat, h: u16, g: u16)
    requires AtWord(s, eff, i, w) && OnlyPair(w, u, k) && h == Load16(w[k], w[k + 1]) && g == Load16(u[k], u[k + 1])
    ensures AtHalf(s, eff, i + k, [w[k], w[k + 1]], h) && Overwrite(s, i, u) == Overwrite(s, i + k, Store16(g))
    ensures u != w ==> g != h
  {
    StoredHalf([u[k], u[k + 1]], g);
    StoredHalf([w[k], w[k + 1]], h);
    OverwrittenPair(s, i, w, u, k);
    assert s[i + k..i + k + 2] == [w[k], w[k + 1]];
  }

  lemma OverwrittenPair(s: Input, i: nat, w: seq<u8>, u: seq<u8>, k: nat)
    requires i + 3 < |s| && w == s[i..i + 4] && OnlyPair(w, u, k)
    ensures Overwrite(s, i, u) == Overwrite(s, i + k, [u[k], u[k + 1]])
  {
    var f, r := Overwrite(s, i, u), Overwrite(s, i + k, [u[k], u[k + 1]]);
    forall j | 0 <= j < |s| ensures f[j] == r[j] {
      assert i <= j < i + 4 ==> f[j] == u[j - i] && s[j] == w[j - i];
    }
  }

  lemma StraddlesIffPattern(w: seq<u8>, u: seq<u8>, k: nat, c: u16)
    requires OnlyPair(w, u, k) && c == Load16(w[k], w[k + 1]) ^ Load16(u[k], u[k + 1])
    ensures StraddlesAt(w, u, k) <==> Straddles(c)
  {
    assert HalfDelta(w, u, k, c);
    assert forall x :: HalfDelta(w, u, k, x) ==> x == c;
  }

  /** Where a half word is h, the file with g in its place is run. */
  ghost predicate HalfRuns(s: Input, eff: seq<bool>, h: u16, g: u16)
    requires |s| > 0 && |eff| == EffLen(|s|)
  {
    forall i, w {:trigger AtHalf(s, eff, i, w, h)} :: AtHalf(s, eff, i, w, h) ==> IsRun(s, eff, Overwrite(s, i, Store16(g)))
  }

  lemma FlipRuns16(s: Input, eff: seq<bool>, h: u16, g: u16, c: u16)
    requires |s| > 0 && |eff| == EffLen(|s|) && g != h && c == h ^ g && !Straddles(c) && FlipPattern(c as u32)
    ensures HalfRuns(s, eff, h, g)
  {
    forall i, w {:trigger AtHalf(s, eff, i, w, h)} | AtHalf(s, eff, i, w, h) ensures IsRun(s, eff, Overwrite(s, i, Store16(g))) {
      FlippedHalfIsRun(s, eff, i, w, h, g, c);
    }
  }

  lemma NearRuns16(s: Input, eff: seq<bool>, h: u16, g: u16, c: u16)
    requires |s| > 0 && |eff| == EffLen(|s|) && g != h && c == h ^ g && !Straddles(c) && NearHalves(h, g)
    ensures HalfRuns(s, eff, h, g)
  {
    forall i, w {:trigger AtHalf(s, eff, i, w, h)} | AtHalf(s, eff, i, w, h) ensures IsRun(s, eff, Overwrite(s, i, Store16(g))) {
      NearHalfIsRun(s, eff, i, w, h, g, c);
    }
  }

  lemma BuiltInRuns16(s: Input, eff: seq<bool>, h: u16, g: u16, c: u16)
    requires |s| > 0 && |eff| == EffLen(|s|) && g != h && c == h ^ g && !Straddles(c) && BuiltIn16(g)
    ensures HalfRuns(s, eff, h, g)
  {
    forall i, w {:trigger AtHalf(s, eff, i, w, h)} | AtHalf(s, eff, i, w, h) ensures IsRun(s, eff, Overwrite(s, i, Store16(g))) {
      BuiltInHalfIsRun(s, eff, i, w, h, g, c);
    }
  }

  lemma PairIsRun(s: Input, eff: seq<bool>, i: nat, w: seq<u8>, u: seq<u8>, k: nat, h: u16, g: u16)
    requires AtWord(s, eff, i, w) && OnlyPair(w, u, k) && h == Load16(w[k], w[k + 1]) && g == Load16(u[k], u[k + 1])
    requires HalfRuns(s, eff, h, g)
    ensures IsRun(s, eff, Overwrite(s, i, u))
  {
    PairFile(s, eff, i, w, u, k, h, g);
  }

  lemma StraddledPairIsNotRun(s: Input, eff: seq<bool>, i: nat, w: seq<u8>, u: seq<u8>, k: nat, h: u16, g: u16, c: u16)
    requires AtWord(s, eff, i, w) && OnlyPair(w, u, k) && Straddles(c)
    requires h == Load16(w[k], w[k + 1]) && g == Load16(u[k], u[k + 1]) && c == h ^ g
    ensures !IsRun(s, eff, Overwrite(s, i, u))
  {
    PairFile(s, eff, i, w, u, k, h, g);
    StraddlerIsNeverRun(s, eff, i + k, h, g, c);
  }

  // ---------- Words ----------

  lemma FlipPosition(d: u32)
    requires FlipPattern(d) && d != 0xffff_ffff
    ensures d & 0xffff_0000 == 0 || d & 0xff00_00ff == 0 || d & 0xffff == 0
  {
  }

  lemma MiddleFlip(d: u32, p: u32)
    requires FlipPattern(d) && d & 0xff00_00ff == 0 && p == (d >> 8) & 0xffff
    ensures FlipPattern(p)
  {
  }

  lemma HighFlip(d: u32, p: u32)
    requires FlipPattern(d) && d & 0xffff == 0 && p == d >> 16
    ensures FlipPattern(p)
  {
  }

  lemma LowHalf(a: u8, b: u8, c: u8, e: u8, o: u32, h: u16)
    requires o == Load32(a, b, c, e) && h == Load16(a, b)
    ensures h as u32 == o & 0xffff
  {
  }

  lemma MiddleHalf(a: u8, b: u8, c: u8, e: u8, o: u32, h: u16)
    requires o == Load32(a, b, c, e) && h == Load16(b, c)
    ensures h as u32 == (o >> 8) & 0xffff
  {
  }

  lemma HighHalf(a: u8, b: u8, c: u8, e: u8, o: u32, h: u16)
    requires o == Load32(a, b, c, e) && h == Load16(c, e)
    ensures h as u32 == o >> 16
  {
  }

  lemma MiddleXor(o: u32, v: u32, d: u32, h: u16, g: u16, p: u16)
    requires h as u32 == (o >> 8) & 0xffff && g as u32 == (v >> 8) & 0xffff && d == o ^ v && p == h ^ g
    ensures p as u32 == (d >> 8) & 0xffff
  {
  }

  lemma HighXor(o: u32, v: u32, d: u32, h: u16, g: u16, p: u16)
    requires h as u32 == o >> 16 && g as u32 == v >> 16 && d == o ^ v && p == h ^ g
    ensures p as u32 == d >> 16
  {
  }

  lemma SameUpper(a: u8, b: u8, c: u8, e: u8, a': u8, b': u8, c': u8, e': u8, o: u32, v: u32, d: u32)
    requires o == Load32(a, b, c, e) && v == Load32(a', b', c', e') && d == o ^ v
    ensures d & 0xffff_0000 == 0 <==> c' == c && e' == e
  {
  }

  lemma SameOuter(a: u8, b: u8, c: u8, e: u8, a': u8, b': u8, c': u8, e': u8, o: u32, v: u32, d: u32)
    requires o == Load32(a, b, c, e) && v == Load32(a', b', c', e') && d == o ^ v
    ensures d & 0xff00_00ff == 0 <==> a' == a && e' == e
  {
  }

  lemma SameLower(a: u8, b: u8, c: u8, e: u8, a': u8, b': u8, c': u8, e': u8, o: u32, v: u32, d: u32)
    requires o == Load32(a, b, c, e) && v == Load32(a', b', c', e') && d == o ^ v
    ensures d & 0xffff == 0 <==> a' == a && b' == b
  {
  }

  /** The numbers that two words hold, and the pattern in which they differ. */
  ghost predicate Words(w: seq<u8>, u: seq<u8>, o: u32, v: u32, d: u32) {
    && |w| == |u| == 4 && d == o ^ v
    && o == Load32(w[0], w[1], w[2], w[3]) && v == Load32(u[0], u[1], u[2], u[3])
  }

  lemma LowIsAll(o: u32, v: u32, d: u32, h: u16, g: u16, p: u16)
    requires h as u32 == o & 0xffff && g as u32 == v & 0xffff && d == o ^ v && p == h ^ g && d & 0xffff_0000 == 0
    ensures p as u32 == d
  {
  }

  lemma LowFlipPattern(o: u32, v: u32, d: u32, h: u16, g: u16, p: u16)
    requires h as u32 == o & 0xffff && g as u32 == v & 0xffff && d == o ^ v && p == h ^ g
    requires FlipPattern(d) && d & 0xffff_0000 == 0
    ensures FlipPattern(p as u32)
  {
    LowIsAll(o, v, d, h, g, p);
  }

  lemma LowPairFlip(a: u8, b: u8, c: u8, e: u8, a': u8, b': u8, c': u8, e': u8, o: u32, v: u32, d: u32, h: u16, g: u16, p: u16)
    requires o == Load32(a, b, c, e) && v == Load32(a', b', c', e') && d == o ^ v && FlipPattern(d) && d & 0xffff_0000 == 0
    requires h == Load16(a, b) && g == Load16(a', b') && p == h ^ g
    ensures FlipPattern(p as u32)
  {
    LowHalf(a, b, c, e, o, h);
    LowHalf(a', b', c', e', v, g);
    LowFlipPattern(o, v, d, h, g, p);
  }

  lemma LowFlipIsOfPair(w: seq<u8>, u: seq<u8>, o: u32, v: u32, d: u32, h: u16, g: u16, p: u16)
    requires Words(w, u, o, v, d) && FlipPattern(d) && d & 0xffff_0000 == 0
    requires h == Load16(w[0], w[1]) && g == Load16(u[0], u[1]) && p == h ^ g
    ensures FlipPattern(p as u32)
  {
    LowPairFlip(w[0], w[1], w[2], w[3], u[0], u[1], u[2], u[3], o, v, d, h, g, p);
  }

  lemma LowPairOnly(w: seq<u8>, u: seq<u8>, o: u32, v: u32, d: u32)
    requires Words(w, u, o, v, d) && d & 0xffff_0000 == 0
    ensures OnlyPair(w, u, 0)
  {
    SameUpper(w[0], w[1], w[2], w[3], u[0], u[1], u[2], u[3], o, v, d);
  }

  lemma MiddleFlipPattern(o: u32, v: u32, d: u32, h: u16, g: u16, p: u16)
    requires h as u32 == (o >> 8) & 0xffff && g as u32 == (v >> 8) & 0xffff && d == o ^ v && p == h ^ g
    requires FlipPattern(d) && d & 0xff00_00ff == 0
    ensures FlipPattern(p as u32)
  {
    MiddleXor(o, v, d, h, g, p);
    MiddleFlip(d, p as u32);
  }

  lemma MiddlePairFlip(a: u8, b: u8, c: u8, e: u8, a': u8, b': u8, c': u8, e': u8, o: u32, v: u32, d: u32, h: u16, g: u16, p: u16)
    requires o == Load32(a, b, c, e) && v == Load32(a', b', c', e') && d == o ^ v && FlipPattern(d) && d & 0xff00_00ff == 0
    requires h == Load16(b, c) && g == Load16(b', c') && p == h ^ g
    ensures FlipPattern(p as u32)
  {
    MiddleHalf(a, b, c, e, o, h);
    MiddleHalf(a', b', c', e', v, g);
    MiddleFlipPattern(o, v, d, h, g, p);
  }

  lemma MiddleFlipIsOfPair(w: seq<u8>, u: seq<u8>, o: u32, v: u32, d: u32, h: u16, g: u16, p: u16)
    requires Words(w, u, o, v, d) && FlipPattern(d) && d & 0xff00_00ff == 0
    requires h == Load16(w[1], w[2]) && g == Load16(u[1], u[2]) && p == h ^ g
    ensures FlipPattern(p as u32)
  {
    MiddlePairFlip(w[0], w[1], w[2], w[3], u[0], u[1], u[2], u[3], o, v, d, h, g, p);
  }

  lemma MiddlePairOnly(w: seq<u8>, u: seq<u8>, o: u32, v: u32, d: u32)
    requires Words(w, u, o, v, d) && d & 0xff00_00ff == 0
    ensures OnlyPair(w, u, 1)
  {
    SameOuter(w[0], w[1], w[2], w[3], u[0], u[1], u[2], u[3], o, v, d);
  }

  lemma HighFlipPattern(o: u32, v: u32, d: u32, h: u16, g: u16, p: u16)
    requires h as u32 == o >> 16 && g as u32 == v >> 16 && d == o ^ v && p == h ^ g
    requires FlipPattern(d) && d & 0xffff == 0
    ensures FlipPattern(p as u32)
  {
    HighXor(o, v, d, h, g, p);
    HighFlip(d, p as u32);
  }

  lemma HighPairFlip(a: u8, b: u8, c: u8, e: u8, a': u8, b': u8, c': u8, e': u8, o: u32, v: u32, d: u32, h: u16, g: u16, p: u16)
    requires o == Load32(a, b, c, e) && v == Load32(a', b', c', e') && d == o ^ v && FlipPattern(d) && d & 0xffff == 0
    requires h == Load16(c, e) && g == Load16(c', e') && p == h ^ g
    ensures FlipPattern(p as u32)
  {
    HighHalf(a, b, c, e, o, h);
    HighHalf(a', b', c', e', v, g);
    HighFlipPattern(o, v, d, h, g, p);
  }

  lemma HighFlipIsOfPair(w: seq<u8>, u: seq<u8>, o: u32, v: u32, d: u32, h: u16, g: u16, p: u16)
    requires Words(w, u, o, v, d) && FlipPattern(d) && d & 0xffff == 0
    requires h == Load16(w[2], w[3]) && g == Load16(u[2], u[3]) && p == h ^ g
    ensures FlipPattern(p as u32)
  {
    HighPairFlip(w[0], w[1], w[2], w[3], u[0], u[1], u[2], u[3], o, v, d, h, g, p);
  }

  lemma HighPairOnly(w: seq<u8>, u: seq<u8>, o: u32, v: u32, d: u32)
    requires Words(w, u, o, v, d) && d & 0xffff == 0
    ensures OnlyPair(w, u, 2)
  {
    SameLower(w[0], w[1], w[2], w[3], u[0], u[1], u[2], u[3], o, v, d);
  }

  lemma OfWord(w: seq<u8>, u: seq<u8>, k: nat, c: u16)
    requires OnlyPair(w, u, k) && !StraddlesInWord(w, u) && c == Load16(w[k], w[k + 1]) ^ Load16(u[k], u[k + 1])
    ensures !Straddles(c)
  {
    StraddlesIffPattern(w, u, k, c);
  }

  /** The pair k of a word: what it was, what it is, and in which pattern they differ. */
  ghost predicate Pair(w: seq<u8>, u: seq<u8>, k: nat, h: u16, g: u16, c: u16) {
    && OnlyPair(w, u, k) && u != w
    && h == Load16(w[k], w[k + 1]) && g == Load16(u[k], u[k + 1]) && c == h ^ g
  }

  lemma PairFacts(w: seq<u8>, u: seq<u8>, k: nat, h: u16, g: u16, c: u16)
    requires Pair(w, u, k, h, g, c) && !StraddlesInWord(w, u)
    ensures g != h && !Straddles(c)
  {
    OfWord(w, u, k, c);
    StoredHalf([u[k], u[k + 1]], g);
    StoredHalf([w[k], w[k + 1]], h);
  }

  lemma FlippedPairIsRun(s: Input, eff: seq<bool>, i: nat, w: seq<u8>, u: seq<u8>, k: nat, h: u16, g: u16, c: u16)
    requires AtWord(s, eff, i, w) && Pair(w, u, k, h, g, c) && !StraddlesInWord(w, u) && FlipPattern(c as u32)
    ensures IsRun(s, eff, Overwrite(s, i, u))
  {
    PairFacts(w, u, k, h, g, c);
    FlipRuns16(s, eff, h, g, c);
    PairIsRun(s, eff, i, w, u, k, h, g);
  }

  lemma NearPairIsRun(s: Input, eff: seq<bool>, i: nat, w: seq<u8>, u: seq<u8>, k: nat, h: u16, g: u16, c: u16)
    requires AtWord(s, eff, i, w) && Pair(w, u, k, h, g, c) && !StraddlesInWord(w, u) && NearHalves(h, g)
    ensures IsRun(s, eff, Overwrite(s, i, u))
  {
    PairFacts(w, u, k, h, g, c);
    NearRuns16(s, eff, h, g, c);
    PairIsRun(s, eff, i, w, u, k, h, g);
  }

  lemma BuiltInPairIsRun(s: Input, eff: seq<bool>, i: nat, w: seq<u8>, u: seq<u8>, k: nat, h: u16, g: u16, c: u16)
    requires AtWord(s, eff, i, w) && Pair(w, u, k, h, g, c) && !StraddlesInWord(w, u) && BuiltIn16(g)
    ensures IsRun(s, eff, Overwrite(s, i, u))
  {
    PairFacts(w, u, k, h, g, c);
    BuiltInRuns16(s, eff, h, g, c);
    PairIsRun(s, eff, i, w, u, k, h, g);
  }

  lemma FlipOfSomePair(w: seq<u8>, u: seq<u8>, o: u32, v: u32, d: u32) returns (k: nat, h: u16, g: u16, c: u16)
    requires Words(w, u, o, v, d) && u != w && FlipPattern(d) && d != 0xffff_ffff
    ensures Pair(w, u, k, h, g, c) && FlipPattern(c as u32)
  {
    FlipPosition(d);
    k := if d & 0xffff_0000 == 0 then 0 else if d & 0xff00_00ff == 0 then 1 else 2;
    h, g := Load16(w[k], w[k + 1]), Load16(u[k], u[k + 1]);
    c := h ^ g;
    if d & 0xffff_0000 == 0 {
      LowPairOnly(w, u, o, v, d);
      LowFlipIsOfPair(w, u, o, v, d, h, g, c);
    } else if d & 0xff00_00ff == 0 {
      MiddlePairOnly(w, u, o, v, d);
      MiddleFlipIsOfPair(w, u, o, v, d, h, g, c);
    } else {
      HighPairOnly(w, u, o, v, d);
      HighFlipIsOfPair(w, u, o, v, d, h, g, c);
    }
  }

  lemma FullWordIsRun(s: Input, eff: seq<bool>, i: nat, w: seq<u8>, u: seq<u8>, o: u32, v: u32, d: u32)
    requires AtWord(s, eff, i, w) && Words(w, u, o, v, d) && u == Store32(v) && d == 0xffff_ffff
    ensures IsRun(s, eff, Overwrite(s, i, u))
  {
    FullFlipIsRun32(s, eff, i, o, v, d);
    RunByWordsIsRun(s, eff, Overwrite(s, i, u));
  }

  lemma FlippedWordIsRun(s: Input, eff: seq<bool>, i: nat, w: seq<u8>, u: seq<u8>, o: u32, v: u32, d: u32)
    requires AtWord(s, eff, i, w) && Words(w, u, o, v, d) && u == Store32(v) && u != w
    requires FlipPattern(d) && !StraddlesInWord(w, u)
    ensures IsRun(s, eff, Overwrite(s, i, u))
  {
    if d == 0xffff_ffff {
      FullWordIsRun(s, eff, i, w, u, o, v, d);
    } else {
      var k, h, g, c := FlipOfSomePair(w, u, o, v, d);
      FlippedPairIsRun(s, eff, i, w, u, k, h, g, c);
    }
  }

  lemma OneByteOfWord(s: Input, i: nat, w: seq<u8>, u: seq<u8>, k: nat)
    requires i + 3 < |s| && w == s[i..i + 4] && |u| == 4 && k < 4 && u == w[k := u[k]]
    ensures Overwrite(s, i, u) == s[i + k := u[k]]
  {
  }

  lemma EffectiveByte(eff: seq<bool>, i: nat, k: nat)
    requires AllEffective(eff, i, 4) && k < 4
    ensures (i + k) / 8 < |eff| && eff[(i + k) / 8]
  {
  }

  lemma DifferenceIsUpdate(w: seq<u8>, u: seq<u8>, k: nat)
    requires |w| == |u| == 4 && OnlyDifference(w, u, k)
    ensures k < 4 && u == w[k := u[k]] && u[k] != w[k]
  {
  }

  lemma ByteOfWord(s: Input, eff: seq<bool>, i: nat, w: seq<u8>, u: seq<u8>, k: nat, a: u8, b: u8)
    requires AtWord(s, eff, i, w) && k < 4 && a == w[k] && u == w[k := b]
    ensures i + k < |s| && s[i + k] == a && (i + k) / 8 < |eff| && eff[(i + k) / 8] && Overwrite(s, i, u) == s[i + k := b]
  {
    OneByteOfWord(s, i, w, u, k);
    EffectiveByte(eff, i, k);
  }

  lemma NearByteOfWord(s: Input, eff: seq<bool>, i: nat, w: seq<u8>, u: seq<u8>, k: nat, a: u8, b: u8)
    requires AtWord(s, eff, i, w) && k < 4 && a == w[k] && u == w[k := b] && b != a && Within8(a, b)
    ensures IsRun(s, eff, Overwrite(s, i, u))
  {
    ByteOfWord(s, eff, i, w, u, k, a, b);
    NearByteIsRun(s, eff, i + k, b);
  }

  lemma SameHalf(a: u8, b: u8, c: u8, e: u8)
    requires Load16(a, b) == Load16(c, e)
    ensures a == c && b == e
  {
    StoredBytes16(a, b, Load16(a, b));
    StoredBytes16(c, e, Load16(c, e));
  }

  lemma HalvesOf(w: Word)
    requires |w| == 4
    ensures Halves(w) == [Load16(w[0], w[1]), Load16(w[2], w[3])]
  {
  }

  lemma NearHalfOfWord(w: seq<u8>, u: seq<u8>, k: nat) returns (p: nat, h: u16, g: u16, c: u16)
    requires |w| == |u| == 4 && u != w
    requires OnlyDifference(Halves(w), Halves(u), k) && NearHalves(Halves(w)[k], Halves(u)[k])
    ensures Pair(w, u, p, h, g, c) && NearHalves(h, g)
  {
    HalvesOf(w);
    HalvesOf(u);
    h, g := Halves(w)[k], Halves(u)[k];
    c := h ^ g;
    if k == 0 {
      p := 0;
      assert Halves(w)[1] == Halves(u)[1];
      SameHalf(w[2], w[3], u[2], u[3]);
    } else {
      p := 2;
      assert Halves(w)[0] == Halves(u)[0];
      SameHalf(w[0], w[1], u[0], u[1]);
    }
  }

  lemma LostStepStraddles(w: seq<u8>, u: seq<u8>, o: u32, v: u32, d: u32, h: u16, g: u16, c: u16)
    requires Words(w, u, o, v, d) && d == 0x1e0
    requires h == Load16(w[0], w[1]) && g == Load16(u[0], u[1]) && c == h ^ g
    ensures StraddlesInWord(w, u)
  {
    LowPairOnly(w, u, o, v, d);
    LowHalf(w[0], w[1], w[2], w[3], o, h);
    LowHalf(u[0], u[1], u[2], u[3], v, g);
    LowIsAll(o, v, d, h, g, c);
    StraddlesListed(c);
    StraddlesIffPattern(w, u, 0, c);
  }

  lemma NearWordIsRun(s: Input, eff: seq<bool>, i: nat, w: seq<u8>, u: seq<u8>, o: u32, v: u32, d: u32)
    requires AtWord(s, eff, i, w) && Words(w, u, o, v, d) && u == Store32(v) && v != o && NearWords(o, v)
    requires !StraddlesInWord(w, u)
    ensures IsRun(s, eff, Overwrite(s, i, u))
  {
    if d == 0x1e0 { LostStepStraddles(w, u, o, v, d, Load16(w[0], w[1]), Load16(u[0], u[1]), Load16(w[0], w[1]) ^ Load16(u[0], u[1])); }
    var way, j := NearIsStep32(o, v);
    Arith32LosesOnlyStraddlers(s, eff, i, way, o, j, v, d);
  }

  lemma NearInWord(s: Input, eff: seq<bool>, i: nat, w: seq<u8>, u: seq<u8>, o: u32, v: u32, d: u32)
    requires AtWord(s, eff, i, w) && Words(w, u, o, v, d) && u == Store32(v) && u != w && v != o
    requires ArithPattern(w, u) && !StraddlesInWord(w, u)
    ensures IsRun(s, eff, Overwrite(s, i, u))
  {
    if k: nat :| OnlyDifference(w, u, k) && Within8(w[k], u[k]) {
      DifferenceIsUpdate(w, u, k);
      NearByteOfWord(s, eff, i, w, u, k, w[k], u[k]);
    } else if k: nat :| OnlyDifference(Halves(w), Halves(u), k) && NearHalves(Halves(w)[k], Halves(u)[k]) {
      var p, h, g, c := NearHalfOfWord(w, u, k);
      NearPairIsRun(s, eff, i, w, u, p, h, g, c);
    } else {
      NearWordIsRun(s, eff, i, w, u, o, v, d);
    }
  }

  // ---------- Words that store a shorter value ----------

  lemma BuiltInByteOfWord(s: Input, eff: seq<bool>, i: nat, w: seq<u8>, u: seq<u8>, k: nat, b: u8)
    requires AtWord(s, eff, i, w) && u != w && k < 4 && u == w[k := b] && b in INTERESTING_8
    ensures IsRun(s, eff, Overwrite(s, i, u))
  {
    ByteOfWord(s, eff, i, w, u, k, w[k], b);
    BuiltInByteIsRun(s, eff, i + k, b);
  }

  lemma PutHalfIsPair(w: seq<u8>, u: seq<u8>, k: nat, g: u16)
    requires |w| == 4 && k < 3 && u == PutHalf(w, k, g)
    ensures OnlyPair(w, u, k) && g == Load16(u[k], u[k + 1])
  {
    var x := Store16(g);
    assert u[k] == x[0] && u[k + 1] == x[1];
  }

  lemma BuiltInHalfOfWord(s: Input, eff: seq<bool>, i: nat, w: seq<u8>, u: seq<u8>, k: nat, g: u16)
    requires AtWord(s, eff, i, w) && u != w && k < 3 && u == PutHalf(w, k, g) && BuiltIn16(g) && !StraddlesInWord(w, u)
    ensures IsRun(s, eff, Overwrite(s, i, u))
  {
    PutHalfIsPair(w, u, k, g);
    var h := Load16(w[k], w[k + 1]);
    BuiltInPairIsRun(s, eff, i, w, u, k, h, g, h ^ g);
  }

  lemma StoredHalfIs(w: seq<u8>, u: seq<u8>, k: nat, j: nat) returns (g: u16)
    requires |w| == |u| == 4 && k < 3 && j < |INTERESTING_16| && HalfStored(w, u, k, INTERESTING_16[j])
    ensures u == PutHalf(w, k, g) && BuiltIn16(g)
  {
    g := if u == PutHalf(w, k, INTERESTING_16[j]) then INTERESTING_16[j] else Swap16(INTERESTING_16[j]);
  }

  /** A word that a filter for flips, arithmetic and shorter values leaves out. */
  ghost predicate IsEarlier32(w: seq<u8>, d: u32, u: seq<u8>)
    requires |w| == |u| == 4
  {
    FlipPattern(d) || ArithPattern(w, u) || InterestPattern(w, u, false)
  }

  lemma ShorterValueIsRun(s: Input, eff: seq<bool>, i: nat, w: seq<u8>, u: seq<u8>)
    requires AtWord(s, eff, i, w) && |u| == 4 && u != w && InterestPattern(w, u, false) && !StraddlesInWord(w, u)
    ensures IsRun(s, eff, Overwrite(s, i, u))
  {
    if k: nat, j: nat :| k < 4 && j < |INTERESTING_8| && ByteStored(w, u, k, INTERESTING_8[j]) {
      BuiltInByteOfWord(s, eff, i, w, u, k, INTERESTING_8[j]);
    } else {
      var k: nat, j: nat :| k < 3 && j < |INTERESTING_16| && HalfStored(w, u, k, INTERESTING_16[j]);
      var g := StoredHalfIs(w, u, k, j);
      BuiltInHalfOfWord(s, eff, i, w, u, k, g);
    }
  }

  lemma EarlierWordIsRun(s: Input, eff: seq<bool>, i: nat, w: seq<u8>, u: seq<u8>, o: u32, v: u32, d: u32)
    requires AtWord(s, eff, i, w) && Words(w, u, o, v, d) && u == Store32(v) && u != w && v != o
    requires IsEarlier32(w, d, u) && !StraddlesInWord(w, u)
    ensures IsRun(s, eff, Overwrite(s, i, u))
  {
    if FlipPattern(d) {
      FlippedWordIsRun(s, eff, i, w, u, o, v, d);
    } else if ArithPattern(w, u) {
      NearInWord(s, eff, i, w, u, o, v, d);
    } else {
      ShorterValueIsRun(s, eff, i, w, u);
    }
  }

  // ---------- Words that interest 32/8 tries ----------

  lemma TriedWordIsRun(s: Input, eff: seq<bool>, i: nat, w: seq<u8>, u: seq<u8>)
    requires AtWord(s, eff, i, w) && Put(u) in Tries(Interest32, w)
    ensures IsRun(s, eff, Overwrite(s, i, u))
  {
    EffectiveByte(eff, i, 0);
    WordIsRun(s, Interest32, eff, i, u);
    StageIsRun(s, eff, Overwrite(s, i, u), Interest32);
  }

  lemma OneMorePair(w: seq<u8>, vals: seq<u32>, n: nat, x: Try)
    requires |w| == 4 && n < |vals|
    ensures x in Interest32Tries(w, vals, n + 1) <==> x in Interest32Tries(w, vals, n) || x in Interest32Pair(w, vals[n])
  {
    InConcatenation(x, Interest32Tries(w, vals, n), Interest32Pair(w, vals[n]));
  }

  lemma {:induction false} Lasts(holds: nat -> bool, a: nat, b: nat)
    requires a <= b && holds(a) && forall m: nat :: a <= m < b && holds(m) ==> holds(m + 1)
    ensures holds(b)
    decreases b - a
  {
    if a < b { Lasts(holds, a + 1, b); }
  }

  ghost function TriedBy(w: seq<u8>, vals: seq<u32>, x: Try): nat -> bool
    requires |w| == 4
  {
    (m: nat) => m <= |vals| && x in Interest32Tries(w, vals, m)
  }

  lemma StillTried32(w: seq<u8>, vals: seq<u32>, x: Try, m: nat)
    requires |w| == 4 && m < |vals| && TriedBy(w, vals, x)(m)
    ensures TriedBy(w, vals, x)(m + 1)
  {
    OneMorePair(w, vals, m, x);
  }

  lemma PairIsTried32(w: seq<u8>, vals: seq<u32>, k: nat, x: Try)
    requires |w| == 4 && k < |vals| && x in Interest32Pair(w, vals[k])
    ensures TriedBy(w, vals, x)(|vals|)
  {
    OneMorePair(w, vals, k, x);
    forall m: nat | k + 1 <= m < |vals| && TriedBy(w, vals, x)(m) ensures TriedBy(w, vals, x)(m + 1) {
      StillTried32(w, vals, x, m);
    }
    Lasts(TriedBy(w, vals, x), k + 1, |vals|);
  }

  lemma InPair32(w: seq<u8>, v: u32, z: u32)
    requires |w| == 4 && z == Swap32(v)
    ensures !Redundant32(w, v, false) ==> Put(Store32(v)) in Interest32Pair(w, v)
    ensures v != z && !Redundant32(w, z, true) ==> Put(Store32(z)) in Interest32Pair(w, v)
  {
    OneOfTwo(Unless(Redundant32(w, v, false), Store32(v)), Interest32Pair(w, v)[0], Interest32Pair(w, v)[1]);
    OneOfTwo(Unless(v == z || Redundant32(w, z, true), Store32(z)), Interest32Pair(w, v)[0], Interest32Pair(w, v)[1]);
  }

  lemma RedundantLow32(w: seq<u8>, o: u32, v: u32, d: u32, u: seq<u8>)
    requires Words(w, u, o, v, d) && u == Store32(v)
    ensures Redundant32(w, v, false) <==> IsEarlier32(w, d, u)
  {
  }

  lemma Stored32IsLoaded(v: u32, z: u32)
    requires Store32(v) == Store32(z)
    ensures v == z
  {
    var w := Store32(v);
    assert v == Load32(w[0], w[1], w[2], w[3]) == z;
  }

  lemma OnlyWhole(w: seq<u8>, u: seq<u8>) returns (j: nat)
    requires |w| == |u| == 4 && InterestPattern(w, u, true) && !InterestPattern(w, u, false)
    ensures j < |INTERESTING_32| && u == Store32(INTERESTING_32[j])
  {
    j :| 0 <= j < |INTERESTING_32| && u == Store32(INTERESTING_32[j]);
  }

  lemma RedundantHigh32(w: seq<u8>, o: u32, v: u32, d: u32, u: seq<u8>) returns (j: nat)
    requires Words(w, u, o, v, d) && u == Store32(v) && Redundant32(w, v, true) && !IsEarlier32(w, d, u)
    ensures j < |INTERESTING_32| && v == INTERESTING_32[j]
  {
    j := OnlyWhole(w, u);
    Stored32IsLoaded(v, INTERESTING_32[j]);
  }

  lemma LittleIsTried32(w: seq<u8>, k: nat, v: u32)
    requires |w| == 4 && k < |INTERESTING_32| && v == INTERESTING_32[k] && !Redundant32(w, v, false)
    ensures Put(Store32(v)) in Tries(Interest32, w)
  {
    InPair32(w, v, Swap32(v));
    PairIsTried32(w, INTERESTING_32, k, Put(Store32(v)));
  }

  lemma BigIsTried32(w: seq<u8>, k: nat, z: u32, v: u32)
    requires |w| == 4 && k < |INTERESTING_32| && z == INTERESTING_32[k] && v == Swap32(z) && v != z
    requires !Redundant32(w, v, true)
    ensures Put(Store32(v)) in Tries(Interest32, w)
  {
    InPair32(w, z, v);
    PairIsTried32(w, INTERESTING_32, k, Put(Store32(v)));
  }

  /** Low byte first. */
  lemma LittleWordIsRun(s: Input, eff: seq<bool>, i: nat, w: seq<u8>, u: seq<u8>, o: u32, v: u32, d: u32, k: nat)
    requires AtWord(s, eff, i, w) && Words(w, u, o, v, d) && u == Store32(v) && u != w && v != o && !StraddlesInWord(w, u)
    requires k < |INTERESTING_32| && v == INTERESTING_32[k]
    ensures IsRun(s, eff, Overwrite(s, i, u))
  {
    RedundantLow32(w, o, v, d, u);
    if IsEarlier32(w, d, u) {
      EarlierWordIsRun(s, eff, i, w, u, o, v, d);
    } else {
      LittleIsTried32(w, k, v);
      TriedWordIsRun(s, eff, i, w, u);
    }
  }

  /** High byte first: what is left out because it is a built-in value low byte first, is one. */
  lemma BigWordIsRun(s: Input, eff: seq<bool>, i: nat, w: seq<u8>, u: seq<u8>, o: u32, v: u32, d: u32, k: nat, z: u32)
    requires AtWord(s, eff, i, w) && Words(w, u, o, v, d) && u == Store32(v) && u != w && v != o && !StraddlesInWord(w, u)
    requires k < |INTERESTING_32| && z == INTERESTING_32[k] && v == Swap32(z) && v != z
    ensures IsRun(s, eff, Overwrite(s, i, u))
  {
    if IsEarlier32(w, d, u) {
      EarlierWordIsRun(s, eff, i, w, u, o, v, d);
    } else if Redundant32(w, v, true) {
      var j := RedundantHigh32(w, o, v, d, u);
      LittleWordIsRun(s, eff, i, w, u, o, v, d, j);
    } else {
      BigIsTried32(w, k, z, v);
      TriedWordIsRun(s, eff, i, w, u);
    }
  }

  /** A built-in word, in one byte order or the other. */
  predicate BuiltIn32(v: u32) { exists k :: 0 <= k < |INTERESTING_32| && (v == INTERESTING_32[k] || v == Swap32(INTERESTING_32[k])) }

  lemma BuiltInWordIsRun(s: Input, eff: seq<bool>, i: nat, w: seq<u8>, u: seq<u8>, o: u32, v: u32, d: u32)
    requires AtWord(s, eff, i, w) && Words(w, u, o, v, d) && u == Store32(v) && u != w && v != o && !StraddlesInWord(w, u)
    requires BuiltIn32(v)
    ensures IsRun(s, eff, Overwrite(s, i, u))
  {
    var k: nat :| k < |INTERESTING_32| && (v == INTERESTING_32[k] || v == Swap32(INTERESTING_32[k]));
    var z := INTERESTING_32[k];
    if v == z {
      LittleWordIsRun(s, eff, i, w, u, o, v, d, k);
    } else {
      BigWordIsRun(s, eff, i, w, u, o, v, d, k, z);
    }
  }

  lemma StraddledWordIsNotRun(s: Input, eff: seq<bool>, i: nat, w: seq<u8>, u: seq<u8>, k: nat)
    requires AtWord(s, eff, i, w) && StraddlesAt(w, u, k)
    ensures !IsRun(s, eff, Overwrite(s, i, u))
  {
    var h, g := Load16(w[k], w[k + 1]), Load16(u[k], u[k + 1]);
    StraddlesIffPattern(w, u, k, h ^ g);
    StraddledPairIsNotRun(s, eff, i, w, u, k, h, g, h ^ g);
  }

  lemma DifferentNumbers(w: seq<u8>, u: seq<u8>, o: u32, v: u32)
    requires |w| == 4 && o == Load32(w[0], w[1], w[2], w[3]) && u == Store32(v) && u != w
    ensures v != o
  {
    StoredWord(w, o);
  }

  /** Of the built-in words at effective bytes, in either byte order, exactly those are lost whose
      change is one of two neighbouring bytes and straddles them: all others have been run when the
      stage is over. */
  lemma Interest32LosesOnlyStraddlers(s: Input, eff: seq<bool>, i: nat, w: seq<u8>, v: u32)
    requires i + 3 < |s| && |eff| == EffLen(|s|) && AllEffective(eff, i, 4)
    requires w == s[i..i + 4] && Store32(v) != w && BuiltIn32(v)
    ensures Overwrite(s, i, Store32(v)) in FlipRuns(s) + WordRuns(s, eff, Kinds(|s|, false))
       <==> !StraddlesInWord(w, Store32(v))
  {
    var u, o := Store32(v), Load32(w[0], w[1], w[2], w[3]);
    if StraddlesInWord(w, u) {
      StraddledWordIsNotRun(s, eff, i, w, u, if StraddlesAt(w, u, 0) then 0 else if StraddlesAt(w, u, 1) then 1 else 2);
    } else {
      DifferentNumbers(w, u, o, v);
      BuiltInWordIsRun(s, eff, i, w, u, o, v, o ^ v);
    }
  }
}
