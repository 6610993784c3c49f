/** The random changes of afl-fuzz's last stage: what they do to a file, which of them can be made, and
    how the random numbers decide on one.  The numbers are an arbitrary stream, so that what is said of
    a change that some stream leads to is said of every change the stage can make, and the other way
    round.  The buffer on which the changes are made in place is in Havoc. */
module Mutations {
  import opened Redundancy
  import opened Config
  import opened Stages
  import opened WordStages

  const HAVOC_BLK_SMALL: nat := 32
  const HAVOC_BLK_MEDIUM: nat := 128
  const HAVOC_BLK_LARGE: nat := 1500
  const HAVOC_BLK_XL: nat := 32768

  // ---------- Changes to a file ----------

  datatype Mutation =
    | Nothing
    | FlipOne(bit: nat)
    | SetWord(pos: nat, w: seq<u8>)
    | Add8(pos: nat, n8: u8)
    | Add16(pos: nat, n16: u16, big: bool)
    | Add32(pos: nat, n32: u32, big: bool)
    | Xor(pos: nat, mask: u8)
    | Delete(from: nat, n: nat)
    | Clone(from: nat, to: nat, n: nat)
    | InsertFill(to: nat, n: nat, fill: u8)
    | Copy(from: nat, to: nat, n: nat)
    | Fill(to: nat, n: nat, fill: u8)
    | OverToken(at: nat, tok: seq<u8>)
    | InsertToken(at: nat, tok: seq<u8>)

  /** A step of 1 to ARITH_MAX, up or down. */
  predicate Step8(n: u8) { n != 0 && Within8(n, 0) }

  predicate Step16(n: u16) { n != 0 && Within16(n, 0) }

  predicate Step32(n: u32) { n != 0 && Within32(n, 0) }

  predicate InterestingWord(w: seq<u8>) {
    || (|w| == 1 && w[0] in INTERESTING_8)
    || (|w| == 2 && (Load16(w[0], w[1]) in INTERESTING_16 || Swap16(Load16(w[0], w[1])) in INTERESTING_16))
    || (|w| == 4 && (Load32(w[0], w[1], w[2], w[3]) in INTERESTING_32
                     || Swap32(Load32(w[0], w[1], w[2], w[3])) in INTERESTING_32))
  }

  /** Can the stage make this change to s, given the dictionary and the largest block? */
  ghost predicate Possible(m: Mutation, s: Input, toks: set<seq<u8>>, maxBlock: nat) {
    match m
    case Nothing => |s| < 4 || |s| + HAVOC_BLK_XL >= MAX_FILE
                 || exists t :: t in toks && (|t| > |s| || |s| + |t| >= MAX_FILE)
    case FlipOne(bit) => bit < 8 * |s|
    case SetWord(pos, w) => pos + |w| <= |s| && InterestingWord(w)
    case Add8(pos, n) => pos < |s| && Step8(n)
    case Add16(pos, n, _) => pos + 2 <= |s| && Step16(n)
    case Add32(pos, n, _) => pos + 4 <= |s| && Step32(n)
    case Xor(pos, mask) => pos < |s| && mask != 0
    case Delete(from, n) => 1 <= n < |s| && n <= maxBlock && from + n <= |s|
    case Clone(from, to, n) => 1 <= n <= maxBlock && from + n <= |s| && to < |s| && |s| + HAVOC_BLK_XL < MAX_FILE
    case InsertFill(to, n, _) => 1 <= n <= maxBlock && to < |s| && |s| + HAVOC_BLK_XL < MAX_FILE
    case Copy(from, to, n) => 1 <= n < |s| && n <= maxBlock && from + n <= |s| && to + n <= |s|
    case Fill(to, n, _) => 1 <= n < |s| && n <= maxBlock && to + n <= |s|
    case OverToken(at, tok) => tok in toks && at + |tok| <= |s|
    case InsertToken(at, tok) => tok in toks && at <= |s| && |s| + |tok| < MAX_FILE
  }

  function Repeated(b: u8, n: nat): seq<u8> { seq(n, _ => b) }

  function Stepped16(x: u16, n: u16, big: bool): u16 { if big then Swap16(Swap16(x) + n) else x + n }

  function Stepped32(x: u32, n: u32, big: bool): u32 { if big then Swap32(Swap32(x) + n) else x + n }

  /** The file after a change. */
  function Apply(m: Mutation, s: Input): Input {
    match m
    case Nothing => s
    case FlipOne(bit) => if bit < 8 * |s| then Flip(s, bit) else s
    case SetWord(pos, w) => Overwrite(s, pos, w)
    case Add8(pos, n) => if pos < |s| then s[pos := s[pos] + n] else s
    case Add16(pos, n, big) =>
      if pos + 2 > |s| then s
      else Overwrite(s, pos, Store16(Stepped16(Load16(s[pos], s[pos + 1]), n, big)))
    case Add32(pos, n, big) =>
      if pos + 4 > |s| then s
      else Overwrite(s, pos, Store32(Stepped32(Load32(s[pos], s[pos + 1], s[pos + 2], s[pos + 3]), n, big)))
    case Xor(pos, mask) => if pos < |s| then s[pos := s[pos] ^ mask] else s
    case Delete(from, n) => if from + n <= |s| then s[..from] + s[from + n..] else s
    case Clone(from, to, n) => if from + n <= |s| then Inserted(s, to, s[from..from + n]) else s
    case InsertFill(to, n, fill) => Inserted(s, to, Repeated(fill, n))
    case Copy(from, to, n) => if from + n <= |s| then Overwrite(s, to, s[from..from + n]) else s
    case Fill(to, n, fill) => Overwrite(s, to, Repeated(fill, n))
    case OverToken(at, tok) => Overwrite(s, at, tok)
    case InsertToken(at, tok) => Inserted(s, at, tok)
  }

  /** No change empties the file or makes it too long. */
  lemma SizeStaysInBounds(m: Mutation, s: Input, toks: set<seq<u8>>, maxBlock: nat)
    requires 1 <= |s| <= MAX_FILE && maxBlock <= HAVOC_BLK_XL && Possible(m, s, toks, maxBlock)
    ensures 1 <= |Apply(m, s)| <= MAX_FILE
  {
  }

  /** Bit flips, steps and masks are never lost: they change the file. */
  lemma SmallChangesShow(m: Mutation, s: Input, toks: set<seq<u8>>, maxBlock: nat)
    requires Possible(m, s, toks, maxBlock)
    requires m.FlipOne? || m.Add8? || m.Add16? || m.Add32? || m.Xor?
    ensures Apply(m, s) != s
  {
    match m
    case FlipOne(bit) => assert Apply(m, s)[bit / 8] == s[bit / 8] ^ FlipMask(bit % 8);
    case Add8(pos, n) => assert Apply(m, s)[pos] == s[pos] + n;
    case Xor(pos, mask) => assert Apply(m, s)[pos] == s[pos] ^ mask;
    case Add16(pos, n, big) => Add16Shows(s, pos, n, big);
    case Add32(pos, n, big) => Add32Shows(s, pos, n, big);
    case _ =>
  }

  lemma Add16Shows(s: Input, pos: nat, n: u16, big: bool)
    requires pos + 2 <= |s| && n != 0
    ensures Apply(Add16(pos, n, big), s) != s
  {
    var x := Load16(s[pos], s[pos + 1]);
    var y := Stepped16(x, n, big);
    Step16Shows(x, n, big, y);
    Word16Shows(s, pos, x, y);
  }

  lemma Word16Shows(s: Input, pos: nat, x: u16, y: u16)
    requires pos + 2 <= |s| && x == Load16(s[pos], s[pos + 1]) && x != y
    ensures Overwrite(s, pos, Store16(y)) != s
  {
    var w := Store16(y);
    var t := Overwrite(s, pos, w);
    assert t[pos] == w[0] && t[pos + 1] == w[1];
  }

  lemma Add32Shows(s: Input, pos: nat, n: u32, big: bool)
    requires pos + 4 <= |s| && n != 0
    ensures Apply(Add32(pos, n, big), s) != s
  {
    Step32Shows(Load32(s[pos], s[pos + 1], s[pos + 2], s[pos + 3]), n, big);
    Sum32Shows(s, pos, n, big);
  }

  lemma Sum32Shows(s: Input, pos: nat, n: u32, big: bool)
    requires pos + 4 <= |s|
    requires var x := Load32(s[pos], s[pos + 1], s[pos + 2], s[pos + 3]); Stepped32(x, n, big) != x
    ensures Apply(Add32(pos, n, big), s) != s
  {
    var x := Load32(s[pos], s[pos + 1], s[pos + 2], s[pos + 3]);
    var y := Stepped32(x, n, big);
    Word32Shows(s, pos, x, y);
  }

  lemma Word32Shows(s: Input, pos: nat, x: u32, y: u32)
    requires pos + 4 <= |s| && x == Load32(s[pos], s[pos + 1], s[pos + 2], s[pos + 3]) && x != y
    ensures Overwrite(s, pos, Store32(y)) != s
  {
    var w := Store32(y);
    var t := Overwrite(s, pos, w);
    assert t[pos] == w[0] && t[pos + 1] == w[1] && t[pos + 2] == w[2] && t[pos + 3] == w[3];
  }

  lemma Step16Shows(x: u16, n: u16, big: bool, y: u16)
    requires n != 0 && y == Stepped16(x, n, big)
    ensures y != x
  {
  }

  lemma Step32Shows(x: u32, n: u32, big: bool)
    requires n != 0
    ensures Stepped32(x, n, big) != x
  {
    if big {
      SwappedSumShows(x, n);
    } else {
      SumShows(x, n, x + n);
    }
  }

  predicate SwappedSum(x: u32, n: u32, z: u32, t: u32) { z == Swap32(x) && t == z + n }

  lemma SwappedSumShows(x: u32, n: u32)
    requires n != 0
    ensures Swap32(Swap32(x) + n) != x
  {
    forall z, t | SwappedSum(x, n, z, t) ensures Swap32(t) != x {
      SumShows(z, n, t);
      SwapSeparates(x, z, t, Swap32(t));
    }
    assert SwappedSum(x, n, Swap32(x), Swap32(x) + n);
  }

  lemma SwapSeparates(x: u32, z: u32, t: u32, y: u32)
    requires z == Swap32(x) && y == Swap32(t) && t != z
    ensures y != x
  {
  }

  lemma SumShows(z: u32, n: u32, t: u32)
    requires t == z + n && n != 0
    ensures t != z
  {
  }

  /** The file after all changes, in order. */
  function ApplyAll(ms: seq<Mutation>, s: Input): Input {
    if |ms| == 0 then s else Apply(ms[|ms| - 1], ApplyAll(ms[..|ms| - 1], s))
  }

  ghost predicate AllPossible(ms: seq<Mutation>, s: Input, toks: set<seq<u8>>, maxBlock: nat) {
    |ms| > 0 ==>
      && AllPossible(ms[..|ms| - 1], s, toks, maxBlock)
      && Possible(ms[|ms| - 1], ApplyAll(ms[..|ms| - 1], s), toks, maxBlock)
  }

  // ---------- Which change the random numbers make ----------

  /** What a round depends on besides the file.  The answers of `random` may be any numbers. */
  datatype Env = Env(extras: seq<seq<u8>>, aExtras: seq<seq<u8>>, queueCycle: nat, runOver10m: bool, dice: nat -> nat)

  ghost function Tokens(e: Env): set<seq<u8>> { (set t | t in e.extras) + (set t | t in e.aExtras) }

  /** In the first ten minutes and in the first cycle blocks are small. */
  function MaxBlock(e: Env): nat {
    if !e.runOver10m || e.queueCycle <= 1 then 32 else if e.queueCycle == 2 then 128 else 32768
  }

  /** A choice, and the number of the next roll. */
  datatype Choice<T> = Choice(value: T, next: nat)

  /** Roll k for a number below the limit. */
  function Die(e: Env, k: nat, limit: nat): (r: nat)
    requires limit > 0
    ensures r < limit
  {
    e.dice(k) % limit
  }

  datatype Range = Range(min: nat, max: nat)

  function BlockRange(e: Env, k: nat): (r: Choice<Range>)
    requires e.queueCycle > 0
    ensures 1 <= r.value.min <= r.value.max <= HAVOC_BLK_XL
  {
    var rlim := if !e.runOver10m then 1 else if e.queueCycle > 3 then 3 else e.queueCycle;
    var which := Die(e, k, rlim);
    if which == 0 then Choice(Range(1, HAVOC_BLK_SMALL), k + 1)
    else if which == 1 then Choice(Range(HAVOC_BLK_SMALL, HAVOC_BLK_MEDIUM), k + 1)
    else if Die(e, k + 1, 10) != 0 then Choice(Range(HAVOC_BLK_MEDIUM, HAVOC_BLK_LARGE), k + 2)
    else Choice(Range(HAVOC_BLK_LARGE, HAVOC_BLK_XL), k + 2)
  }

  function Within(r: Range, limit: nat): (w: Range)
    requires limit > 0 && 1 <= r.min <= r.max
    ensures 1 <= w.min <= w.max <= limit && w.max <= r.max
  {
    Range(if r.min >= limit then 1 else r.min, if r.max > limit then limit else r.max)
  }

  /** The length of a block. */
  function BlockLen(e: Env, k: nat, limit: nat): (r: Choice<nat>)
    requires limit > 0 && e.queueCycle > 0
    ensures 1 <= r.value <= limit && r.value <= MaxBlock(e)
  {
    var c := BlockRange(e, k);
    var w := Within(c.value, limit);
    Choice(w.min + Die(e, c.next, w.max - w.min + 1), c.next + 1)
  }

  /** A value in one byte order or the other. */
  function Either16(little: bool, v: u16): (w: seq<u8>)
    ensures |w| == 2
  {
    Store16(if little then v else Swap16(v))
  }

  function Either32(little: bool, v: u32): (w: seq<u8>)
    ensures |w| == 4
  {
    Store32(if little then v else Swap32(v))
  }

  function SomeWord(e: Env, k: nat, width: nat): (r: Choice<seq<u8>>)
    requires width == 1 || width == 2 || width == 4
    ensures |r.value| == width
  {
    if width == 1 then Choice([INTERESTING_8[Die(e, k, |INTERESTING_8|)]], k + 1)
    else if width == 2 then
      Choice(Either16(Die(e, k, 2) != 0, INTERESTING_16[Die(e, k + 1, |INTERESTING_16|)]), k + 2)
    else
      Choice(Either32(Die(e, k, 2) != 0, INTERESTING_32[Die(e, k + 1, |INTERESTING_32|)]), k + 2)
  }

  function SetOf(e: Env, k: nat, s: Input, width: nat): Choice<Mutation>
    requires width == 1 || width == 2 || width == 4
  {
    if |s| < width then Choice(Nothing, k)
    else
      var w := SomeWord(e, k, width);
      Choice(SetWord(Die(e, w.next, |s| - width + 1), w.value), w.next + 1)
  }

  /** 1 + UR(ARITH_MAX) */
  function StepSize(e: Env, k: nat): (n: u32)
    ensures 1 <= n <= 35
  {
    Die(e, k, ARITH_MAX as nat) as u32 + 1
  }

  /** A step up or down. */
  function Delta8(num: u32, up: bool): u8
    requires num <= 35
  {
    if up then num as u8 else 0 - num as u8
  }

  function StepByteOf(e: Env, k: nat, s: Input, up: bool): Choice<Mutation>
    requires |s| > 0
  {
    var num := StepSize(e, k + 1);
    Choice(Add8(Die(e, k, |s|), Delta8(num, up)), k + 2)
  }

  function StepHalfOf(e: Env, k: nat, s: Input, up: bool): Choice<Mutation> {
    if |s| < 2 then Choice(Nothing, k)
    else
      var num := StepSize(e, k + 2);
      Choice(Add16(Die(e, k + 1, |s| - 1), if up then num as u16 else 0 - num as u16, Die(e, k, 2) == 0), k + 3)
  }

  function StepWordOf(e: Env, k: nat, s: Input, up: bool): Choice<Mutation> {
    if |s| < 4 then Choice(Nothing, k)
    else
      var num := StepSize(e, k + 2);
      Choice(Add32(Die(e, k + 1, |s| - 3), if up then num else 0 - num, Die(e, k, 2) == 0), k + 3)
  }

  function DeleteOf(e: Env, k: nat, s: Input): Choice<Mutation>
    requires e.queueCycle > 0
  {
    if |s| < 2 then Choice(Nothing, k)
    else
      var n := BlockLen(e, k, |s| - 1);
      Choice(Delete(Die(e, n.next, |s| - n.value + 1), n.value), n.next + 1)
  }

  /** A random byte, or one of the file. */
  function FillOf(e: Env, k: nat, s: Input): Choice<u8>
    requires |s| > 0
  {
    Choice(if Die(e, k, 2) != 0 then Die(e, k + 1, 256) as u8 else s[Die(e, k + 1, |s|)], k + 2)
  }

  function InsertOf(e: Env, k: nat, s: Input): Choice<Mutation>
    requires e.queueCycle > 0 && |s| > 0
  {
    if |s| + HAVOC_BLK_XL >= MAX_FILE then Choice(Nothing, k)
    else if Die(e, k, 4) != 0 then
      var n := BlockLen(e, k + 1, |s|);
      Choice(Clone(Die(e, n.next, |s| - n.value + 1), Die(e, n.next + 1, |s|), n.value), n.next + 2)
    else
      var n := BlockLen(e, k + 1, HAVOC_BLK_XL);
      var b := FillOf(e, n.next + 1, s);
      Choice(InsertFill(Die(e, n.next, |s|), n.value, b.value), b.next)
  }

  function OverwriteOf(e: Env, k: nat, s: Input): Choice<Mutation>
    requires e.queueCycle > 0
  {
    if |s| < 2 then Choice(Nothing, k)
    else
      var n := BlockLen(e, k, |s| - 1);
      var from, to := Die(e, n.next, |s| - n.value + 1), Die(e, n.next + 1, |s| - n.value + 1);
      if Die(e, n.next + 2, 4) != 0 then Choice(Copy(from, to, n.value), n.next + 3)
      else
        var b := FillOf(e, n.next + 3, s);
        Choice(Fill(to, n.value, b.value), b.next)
  }

  function TokenOf(e: Env, k: nat): (r: Choice<seq<u8>>)
    requires |e.extras| + |e.aExtras| > 0
    ensures r.value in Tokens(e)
  {
    if |e.extras| == 0 then Choice(e.aExtras[Die(e, k, |e.aExtras|)], k + 1)
    else if |e.aExtras| == 0 then Choice(e.extras[Die(e, k, |e.extras|)], k + 1)
    else if Die(e, k, 2) != 0 then Choice(e.aExtras[Die(e, k + 1, |e.aExtras|)], k + 2)
    else Choice(e.extras[Die(e, k + 1, |e.extras|)], k + 2)
  }

  function OverTokenOf(e: Env, k: nat, s: Input): Choice<Mutation>
    requires |e.extras| + |e.aExtras| > 0
  {
    var tok := TokenOf(e, k);
    if |tok.value| > |s| then Choice(Nothing, tok.next)
    else Choice(OverToken(Die(e, tok.next, |s| - |tok.value| + 1), tok.value), tok.next + 1)
  }

  function InsertTokenOf(e: Env, k: nat, s: Input): Choice<Mutation>
    requires |e.extras| + |e.aExtras| > 0
  {
    var tok := TokenOf(e, k + 1);
    if |s| + |tok.value| >= MAX_FILE then Choice(Nothing, tok.next)
    else Choice(InsertToken(Die(e, k, |s| + 1), tok.value), tok.next)
  }

  function CaseOf(e: Env, which: nat, k: nat, s: Input): Choice<Mutation>
    requires |s| > 0 && e.queueCycle > 0 && (which < 15 || |e.extras| + |e.aExtras| > 0)
  {
    if which == 0 then Choice(FlipOne(Die(e, k, 8 * |s|)), k + 1)
    else if which == 1 then SetOf(e, k, s, 1)
    else if which == 2 then SetOf(e, k, s, 2)
    else if which == 3 then SetOf(e, k, s, 4)
    else if which == 4 then StepByteOf(e, k, s, false)
    else if which == 5 then StepByteOf(e, k, s, true)
    else if which == 6 then StepHalfOf(e, k, s, false)
    else if which == 7 then StepHalfOf(e, k, s, true)
    else if which == 8 then StepWordOf(e, k, s, false)
    else if which == 9 then StepWordOf(e, k, s, true)
    else if which == 10 then Choice(Xor(Die(e, k, |s|), (1 + Die(e, k + 1, 255)) as u8), k + 2)
    else if which <= 12 then DeleteOf(e, k, s)
    else if which == 13 then InsertOf(e, k, s)
    else if which == 14 then OverwriteOf(e, k, s)
    else if which == 15 then OverTokenOf(e, k, s)
    else InsertTokenOf(e, k, s)
  }

  function WhichCase(e: Env, k: nat): nat { Die(e, k, if |e.extras| + |e.aExtras| > 0 then 17 else 15) }

  /** One random change; the last two kinds only with a dictionary. */
  function ChangeOf(e: Env, k: nat, s: Input): Choice<Mutation>
    requires |s| > 0 && e.queueCycle > 0
  {
    CaseOf(e, WhichCase(e, k), k + 1, s)
  }

  // ---------- What a method has to do for a choice ----------

  lemma SetIs(e: Env, k: nat, s: Input, width: nat, w: seq<u8>, next: nat, pos: nat)
    requires (width == 1 || width == 2 || width == 4) && |s| >= width
    requires Choice(w, next) == SomeWord(e, k, width) && pos == Die(e, next, |s| - width + 1)
    ensures SetOf(e, k, s, width) == Choice(SetWord(pos, w), next + 1)
    ensures Apply(SetWord(pos, w), s) == Overwrite(s, pos, w) && pos + |w| <= |s|
  {
  }

  lemma StepByteIs(e: Env, k: nat, s: Input, up: bool, pos: nat, num: u32, n: u8)
    requires |s| > 0 && pos == Die(e, k, |s|) && num == StepSize(e, k + 1) && n == Delta8(num, up)
    ensures StepByteOf(e, k, s, up) == Choice(Add8(pos, n), k + 2)
    ensures Apply(Add8(pos, n), s) == Overwrite(s, pos, [s[pos] + n])
  {
  }

  lemma StepHalfIs(e: Env, k: nat, s: Input, up: bool, big: bool, pos: nat, num: u32, n: u16)
    requires |s| >= 2 && big == (Die(e, k, 2) == 0) && pos == Die(e, k + 1, |s| - 1) && num == StepSize(e, k + 2)
    requires n == if up then num as u16 else 0 - num as u16
    ensures StepHalfOf(e, k, s, up) == Choice(Add16(pos, n, big), k + 3)
    ensures Apply(Add16(pos, n, big), s) == Overwrite(s, pos, Store16(Stepped16(Load16(s[pos], s[pos + 1]), n, big)))
  {
  }

  lemma StepWordIs(e: Env, k: nat, s: Input, up: bool, big: bool, pos: nat, num: u32, n: u32)
    requires |s| >= 4 && big == (Die(e, k, 2) == 0) && pos == Die(e, k + 1, |s| - 3) && num == StepSize(e, k + 2)
    requires n == if up then num else 0 - num
    ensures StepWordOf(e, k, s, up) == Choice(Add32(pos, n, big), k + 3)
    ensures Apply(Add32(pos, n, big), s)
         == Overwrite(s, pos, Store32(Stepped32(Load32(s[pos], s[pos + 1], s[pos + 2], s[pos + 3]), n, big)))
  {
  }

  lemma CloneIs(e: Env, k: nat, s: Input, n: nat, next: nat, from: nat, to: nat)
    requires |s| > 0 && |s| + HAVOC_BLK_XL < MAX_FILE && e.queueCycle > 0 && Die(e, k, 4) != 0
    requires Choice(n, next) == BlockLen(e, k + 1, |s|) && from == Die(e, next, |s| - n + 1) && to == Die(e, next + 1, |s|)
    ensures InsertOf(e, k, s) == Choice(Clone(from, to, n), next + 2) && |s| + n <= MAX_FILE
    ensures Apply(Clone(from, to, n), s) == Inserted(s, to, s[from..from + n])
  {
  }

  lemma InsertFillIs(e: Env, k: nat, s: Input, n: nat, next: nat, to: nat, b: Choice<u8>)
    requires |s| > 0 && |s| + HAVOC_BLK_XL < MAX_FILE && e.queueCycle > 0 && Die(e, k, 4) == 0
    requires Choice(n, next) == BlockLen(e, k + 1, HAVOC_BLK_XL) && to == Die(e, next, |s|) && b == FillOf(e, next + 1, s)
    ensures InsertOf(e, k, s) == Choice(InsertFill(to, n, b.value), b.next) && |s| + n <= MAX_FILE
    ensures Apply(InsertFill(to, n, b.value), s) == Inserted(s, to, Repeated(b.value, n))
  {
  }

  lemma CopyIsOverwrite(s: Input, from: nat, to: nat, n: nat)
    requires from + n <= |s| && to + n <= |s|
    ensures Apply(Copy(from, to, n), s) == Overwrite(s, to, s[from..from + n])
    ensures from == to ==> Apply(Copy(from, to, n), s) == s
  {
  }

  lemma BlockCopyIs(e: Env, k: nat, s: Input, n: nat, next: nat, from: nat, to: nat)
    requires |s| >= 2 && e.queueCycle > 0 && Choice(n, next) == BlockLen(e, k, |s| - 1)
    requires from == Die(e, next, |s| - n + 1) && to == Die(e, next + 1, |s| - n + 1) && Die(e, next + 2, 4) != 0
    ensures OverwriteOf(e, k, s) == Choice(Copy(from, to, n), next + 3)
  {
  }

  lemma BlockFillIs(e: Env, k: nat, s: Input, n: nat, next: nat, to: nat, b: Choice<u8>)
    requires |s| >= 2 && e.queueCycle > 0 && Choice(n, next) == BlockLen(e, k, |s| - 1)
    requires to == Die(e, next + 1, |s| - n + 1) && Die(e, next + 2, 4) == 0 && b == FillOf(e, next + 3, s)
    ensures OverwriteOf(e, k, s) == Choice(Fill(to, n, b.value), b.next)
    ensures Apply(Fill(to, n, b.value), s) == Overwrite(s, to, Repeated(b.value, n))
  {
  }

  /** The number of changes in a stack. */
  function StackSize(e: Env, k: nat): (n: nat)
    ensures n in {2, 4, 8, 16, 32, 64, 128}
  {
    [2, 4, 8, 16, 32, 64, 128][Die(e, k, 7)]
  }

  lemma StackSizeIs(e: Env, k: nat, power: nat)
    requires power == Die(e, k, 7)
    ensures StackSize(e, k) == if power == 0 then 2 else if power == 1 then 4 else if power == 2 then 8
                               else if power == 3 then 16 else if power == 4 then 32 else if power == 5 then 64 else 128
  {
  }

  /** A stack of changes, each decided on when those before it have been made. */
  function StackOf(e: Env, k: nat, count: nat, s: Input): (r: Choice<seq<Mutation>>)
    requires 1 <= |s| <= MAX_FILE && e.queueCycle > 0
    ensures |r.value| == count && AllPossible(r.value, s, Tokens(e), MaxBlock(e))
    ensures 1 <= |ApplyAll(r.value, s)| <= MAX_FILE
  {
    if count == 0 then Choice([], k)
    else
      var r := StackOf(e, k, count - 1, s);
      var m := ChangeOf(e, r.next, ApplyAll(r.value, s));
      OneMoreChange(e, r.next, s, r.value);
      Choice(r.value + [m.value], m.next)
  }

  lemma OneMoreChange(e: Env, k: nat, s: Input, ms: seq<Mutation>)
    requires 1 <= |s| <= MAX_FILE && e.queueCycle > 0 && AllPossible(ms, s, Tokens(e), MaxBlock(e))
    requires 1 <= |ApplyAll(ms, s)| <= MAX_FILE
    ensures var more := ms + [ChangeOf(e, k, ApplyAll(ms, s)).value];
            && AllPossible(more, s, Tokens(e), MaxBlock(e)) && 1 <= |ApplyAll(more, s)| <= MAX_FILE
            && ApplyAll(more, s) == Apply(more[|ms|], ApplyAll(ms, s))
  {
    var m := ChangeOf(e, k, ApplyAll(ms, s)).value;
    ChangeIsPossible(e, k, ApplyAll(ms, s));
    SizeStaysInBounds(m, ApplyAll(ms, s), Tokens(e), MaxBlock(e));
    assert (ms + [m])[..|ms|] == ms;
  }

  // ---------- Exactly the possible changes can be rolled ----------

  lemma CaseIsPossible(e: Env, which: nat, k: nat, s: Input)
    requires 1 <= |s| && e.queueCycle > 0 && (which < 15 || |e.extras| + |e.aExtras| > 0)
    ensures Possible(CaseOf(e, which, k, s).value, s, Tokens(e), MaxBlock(e))
  {
    if which == 4 || which == 5 {
      StepByteIsPossible(e, k, s, which == 5);
    } else if which == 6 || which == 7 {
      StepHalfIsPossible(e, k, s, which == 7);
    } else if which == 8 || which == 9 {
      StepWordIsPossible(e, k, s, which == 9);
    } else if 1 <= which <= 3 {
      SetIsPossible(e, k, s, if which == 1 then 1 else if which == 2 then 2 else 4);
    } else {
      OtherIsPossible(e, which, k, s);
    }
  }

  lemma EitherIsInteresting(little: bool, v: u16, w: seq<u8>)
    requires v in INTERESTING_16 && w == Either16(little, v)
    ensures InterestingWord(w)
  {
    SwapTwice16(v, Swap16(v));
  }

  lemma EitherWordIsInteresting(little: bool, v: u32, w: seq<u8>)
    requires v in INTERESTING_32 && w == Either32(little, v)
    ensures InterestingWord(w)
  {
    SwapTwice32(v, Swap32(v));
  }

  lemma SetIsPossible(e: Env, k: nat, s: Input, width: nat)
    requires |s| > 0 && (width == 1 || width == 2 || width == 4)
    ensures Possible(SetOf(e, k, s, width).value, s, Tokens(e), MaxBlock(e))
  {
    if |s| >= width {
      var w := SomeWord(e, k, width).value;
      if width == 2 {
        EitherIsInteresting(Die(e, k, 2) != 0, INTERESTING_16[Die(e, k + 1, |INTERESTING_16|)], w);
      } else if width == 4 {
        EitherWordIsInteresting(Die(e, k, 2) != 0, INTERESTING_32[Die(e, k + 1, |INTERESTING_32|)], w);
      }
    }
  }

  lemma OtherIsPossible(e: Env, which: nat, k: nat, s: Input)
    requires 1 <= |s| && e.queueCycle > 0 && (which < 15 || |e.extras| + |e.aExtras| > 0) && (which == 0 || which > 9)
    ensures Possible(CaseOf(e, which, k, s).value, s, Tokens(e), MaxBlock(e))
  {
  }

  lemma StepByteIsPossible(e: Env, k: nat, s: Input, up: bool)
    requires |s| > 0
    ensures Possible(StepByteOf(e, k, s, up).value, s, Tokens(e), MaxBlock(e))
  {
    StepsOf(StepSize(e, k + 1));
  }

  lemma StepHalfIsPossible(e: Env, k: nat, s: Input, up: bool)
    ensures Possible(StepHalfOf(e, k, s, up).value, s, Tokens(e), MaxBlock(e))
  {
    StepsOf(StepSize(e, k + 2));
  }

  lemma StepWordIsPossible(e: Env, k: nat, s: Input, up: bool)
    ensures Possible(StepWordOf(e, k, s, up).value, s, Tokens(e), MaxBlock(e))
  {
    StepsOf(StepSize(e, k + 2));
  }

  lemma StepsOf(num: u32)
    requires 1 <= num <= 35
    ensures Step8(num as u8) && Step8(0 - num as u8)
    ensures Step16(num as u16) && Step16(0 - num as u16)
    ensures Step32(num) && Step32(0 - num)
  {
  }

  /** The next rolls show these numbers. */
  ghost predicate Shows(dice: nat -> nat, k: nat, l: seq<nat>) {
    forall j :: 0 <= j < |l| ==> dice(k + j) == l[j]
  }

  function FromList(l: seq<nat>, k: nat): nat -> nat { (j: nat) => if k <= j < k + |l| then l[j - k] else 0 }

  lemma ListShows(l: seq<nat>, k: nat)
    ensures Shows(FromList(l, k), k, l)
  {
  }

  lemma ShowsParts(dice: nat -> nat, k: nat, a: seq<nat>, b: seq<nat>)
    requires Shows(dice, k, a + b)
    ensures Shows(dice, k, a) && Shows(dice, k + |a|, b)
  {
    forall j | 0 <= j < |a| ensures dice(k + j) == a[j] { assert (a + b)[j] == a[j]; }
    forall j | 0 <= j < |b| ensures dice(k + |a| + j) == b[j] { assert (a + b)[|a| + j] == b[j]; }
  }

  lemma ShownDie(e: Env, k: nat, l: seq<nat>, j: nat, limit: nat)
    requires Shows(e.dice, k, l) && j < |l| && l[j] < limit
    ensures Die(e, k + j, limit) == l[j]
  {
  }

  /** The rolls for a block of n bytes. */
  function BlockRolls(n: nat): (l: seq<nat>)
    requires n > 0
  {
    if n <= 32 then [0, n - 1] else if n <= 128 then [1, n - 32] else if n <= 1500 then [2, 1, n - 128] else [2, 0, n - 1500]
  }

  lemma BlockIsRolled(e: Env, k: nat, limit: nat, n: nat)
    requires e.queueCycle > 0 && 1 <= n <= limit && n <= MaxBlock(e) && Shows(e.dice, k, BlockRolls(n))
    ensures BlockLen(e, k, limit) == Choice(n, k + |BlockRolls(n)|)
  {
    var l := BlockRolls(n);
    var rlim := if !e.runOver10m then 1 else if e.queueCycle > 3 then 3 else e.queueCycle;
    ShownDie(e, k, l, 0, rlim);
    if n > 128 { ShownDie(e, k, l, 1, 10); }
    var w := Within(BlockRange(e, k).value, limit);
    ShownDie(e, k, l, |l| - 1, w.max - w.min + 1);
  }

  /** The roll for the case itself. */
  lemma CaseIsRolled(e: Env, k: nat, l: seq<nat>, which: nat)
    requires which < 17 && (which < 15 || |e.extras| + |e.aExtras| > 0) && Shows(e.dice, k, [which] + l)
    ensures WhichCase(e, k) == which && Shows(e.dice, k + 1, l)
  {
    ShowsParts(e.dice, k, [which], l);
    ShownDie(e, k, [which], 0, if |e.extras| + |e.aExtras| > 0 then 17 else 15);
  }

  lemma FlipIsRolled(e: Env, k: nat, s: Input, bit: nat)
    requires |s| > 0 && e.queueCycle > 0 && bit < 8 * |s| && Shows(e.dice, k, [bit])
    ensures CaseOf(e, 0, k, s).value == FlipOne(bit)
  {
    ShownDie(e, k, [bit], 0, 8 * |s|);
  }

  lemma XorIsRolled(e: Env, k: nat, s: Input, pos: nat, mask: u8, l: seq<nat>)
    requires |s| > 0 && e.queueCycle > 0 && pos < |s| && mask != 0 && l == [pos, mask as nat - 1] && Shows(e.dice, k, l)
    ensures CaseOf(e, 10, k, s).value == Xor(pos, mask)
  {
    ShownDie(e, k, l, 0, |s|);
    ShownDie(e, k, l, 1, 255);
  }

  lemma ByteIsRolled(e: Env, k: nat, s: Input, pos: nat, j: nat, l: seq<nat>)
    requires |s| > 0 && e.queueCycle > 0 && pos < |s| && j < |INTERESTING_8| && l == [j, pos] && Shows(e.dice, k, l)
    ensures SetOf(e, k, s, 1).value == SetWord(pos, [INTERESTING_8[j]])
  {
    ShownDie(e, k, l, 0, |INTERESTING_8|);
    ShownDie(e, k, l, 1, |s|);
  }

  lemma HalfIsRolled(e: Env, k: nat, s: Input, pos: nat, little: bool, j: nat, l: seq<nat>)
    requires e.queueCycle > 0 && pos + 2 <= |s| && j < |INTERESTING_16|
    requires l == [if little then 1 else 0, j, pos] && Shows(e.dice, k, l)
    ensures SetOf(e, k, s, 2).value
         == SetWord(pos, Store16(if little then INTERESTING_16[j] else Swap16(INTERESTING_16[j])))
  {
    ShownDie(e, k, l, 0, 2);
    ShownDie(e, k, l, 1, |INTERESTING_16|);
    ShownDie(e, k, l, 2, |s| - 1);
  }

  lemma WordIsRolled(e: Env, k: nat, s: Input, pos: nat, little: bool, j: nat, l: seq<nat>)
    requires e.queueCycle > 0 && pos + 4 <= |s| && j < |INTERESTING_32|
    requires l == [if little then 1 else 0, j, pos] && Shows(e.dice, k, l)
    ensures SetOf(e, k, s, 4).value
         == SetWord(pos, Store32(if little then INTERESTING_32[j] else Swap32(INTERESTING_32[j])))
  {
    ShownDie(e, k, l, 0, 2);
    ShownDie(e, k, l, 1, |INTERESTING_32|);
    ShownDie(e, k, l, 2, |s| - 3);
  }

  lemma StepIsRolled(e: Env, k: nat, l: seq<nat>, j: nat, num: u32)
    requires 1 <= num <= 35 && j < |l| && l[j] == num as nat - 1 && Shows(e.dice, k, l)
    ensures StepSize(e, k + j) == num
  {
    ShownDie(e, k, l, j, ARITH_MAX as nat);
  }

  lemma StepByteIsRolled(e: Env, k: nat, s: Input, pos: nat, up: bool, num: u32, l: seq<nat>)
    requires e.queueCycle > 0 && pos < |s| && 1 <= num <= 35 && l == [pos, num as nat - 1] && Shows(e.dice, k, l)
    ensures StepByteOf(e, k, s, up).value == Add8(pos, if up then num as u8 else 0 - num as u8)
  {
    ShownDie(e, k, l, 0, |s|);
    StepIsRolled(e, k, l, 1, num);
  }

  lemma StepHalfIsRolled(e: Env, k: nat, s: Input, pos: nat, up: bool, big: bool, num: u32, l: seq<nat>)
    requires e.queueCycle > 0 && pos + 2 <= |s| && 1 <= num <= 35
    requires l == [if big then 0 else 1, pos, num as nat - 1] && Shows(e.dice, k, l)
    ensures StepHalfOf(e, k, s, up).value == Add16(pos, if up then num as u16 else 0 - num as u16, big)
  {
    ShownDie(e, k, l, 0, 2);
    ShownDie(e, k, l, 1, |s| - 1);
    StepIsRolled(e, k, l, 2, num);
  }

  lemma StepWordIsRolled(e: Env, k: nat, s: Input, pos: nat, up: bool, big: bool, num: u32, l: seq<nat>)
    requires e.queueCycle > 0 && pos + 4 <= |s| && 1 <= num <= 35
    requires l == [if big then 0 else 1, pos, num as nat - 1] && Shows(e.dice, k, l)
    ensures StepWordOf(e, k, s, up).value == Add32(pos, if up then num else 0 - num, big)
  {
    ShownDie(e, k, l, 0, 2);
    ShownDie(e, k, l, 1, |s| - 3);
    StepIsRolled(e, k, l, 2, num);
  }

  lemma DeleteIsRolled(e: Env, k: nat, s: Input, from: nat, n: nat)
    requires e.queueCycle > 0 && 1 <= n < |s| && n <= MaxBlock(e) && from + n <= |s|
    requires Shows(e.dice, k, BlockRolls(n) + [from])
    ensures DeleteOf(e, k, s).value == Delete(from, n)
  {
    ShowsParts(e.dice, k, BlockRolls(n), [from]);
    BlockIsRolled(e, k, |s| - 1, n);
    ShownDie(e, k + |BlockRolls(n)|, [from], 0, |s| - n + 1);
  }

  lemma FillIsRolled(e: Env, k: nat, s: Input, fill: u8)
    requires |s| > 0 && Shows(e.dice, k, [1, fill as nat])
    ensures FillOf(e, k, s) == Choice(fill, k + 2)
  {
    ShownDie(e, k, [1, fill as nat], 0, 2);
    ShownDie(e, k, [1, fill as nat], 1, 256);
  }

  lemma CloneIsRolled(e: Env, k: nat, s: Input, from: nat, to: nat, n: nat)
    requires e.queueCycle > 0 && 1 <= n && n <= MaxBlock(e) && from + n <= |s| && to < |s| && |s| + HAVOC_BLK_XL < MAX_FILE
    requires Shows(e.dice, k, [1] + (BlockRolls(n) + [from, to]))
    ensures InsertOf(e, k, s).value == Clone(from, to, n)
  {
    ShowsParts(e.dice, k, [1], BlockRolls(n) + [from, to]);
    ShowsParts(e.dice, k + 1, BlockRolls(n), [from, to]);
    ShownDie(e, k, [1], 0, 4);
    BlockIsRolled(e, k + 1, |s|, n);
    var next := k + 1 + |BlockRolls(n)|;
    ShownDie(e, next, [from, to], 0, |s| - n + 1);
    ShownDie(e, next, [from, to], 1, |s|);
  }

  lemma InsertFillIsRolled(e: Env, k: nat, s: Input, to: nat, n: nat, fill: u8)
    requires e.queueCycle > 0 && 1 <= n && n <= MaxBlock(e) && to < |s| && |s| + HAVOC_BLK_XL < MAX_FILE
    requires Shows(e.dice, k, [0] + (BlockRolls(n) + ([to] + [1, fill as nat])))
    ensures InsertOf(e, k, s).value == InsertFill(to, n, fill)
  {
    ShowsParts(e.dice, k, [0], BlockRolls(n) + ([to] + [1, fill as nat]));
    ShowsParts(e.dice, k + 1, BlockRolls(n), [to] + [1, fill as nat]);
    ShownDie(e, k, [0], 0, 4);
    BlockIsRolled(e, k + 1, HAVOC_BLK_XL, n);
    var next := k + 1 + |BlockRolls(n)|;
    ConstantIsRolled(e, next, s, to, fill);
    InsertFillIs(e, k, s, n, next, to, Choice(fill, next + 3));
  }

  lemma ConstantIsRolled(e: Env, next: nat, s: Input, to: nat, fill: u8)
    requires to < |s| && Shows(e.dice, next, [to] + [1, fill as nat])
    ensures Die(e, next, |s|) == to && FillOf(e, next + 1, s) == Choice(fill, next + 3)
  {
    ShowsParts(e.dice, next, [to], [1, fill as nat]);
    ShownDie(e, next, [to], 0, |s|);
    FillIsRolled(e, next + 1, s, fill);
  }

  lemma CopyIsRolled(e: Env, k: nat, s: Input, from: nat, to: nat, n: nat)
    requires e.queueCycle > 0 && 1 <= n < |s| && n <= MaxBlock(e) && from + n <= |s| && to + n <= |s|
    requires Shows(e.dice, k, BlockRolls(n) + [from, to, 1])
    ensures OverwriteOf(e, k, s).value == Copy(from, to, n)
  {
    ShowsParts(e.dice, k, BlockRolls(n), [from, to, 1]);
    BlockIsRolled(e, k, |s| - 1, n);
    var next := k + |BlockRolls(n)|;
    ShownDie(e, next, [from, to, 1], 0, |s| - n + 1);
    ShownDie(e, next, [from, to, 1], 1, |s| - n + 1);
    ShownDie(e, next, [from, to, 1], 2, 4);
  }

  lemma BlockFillIsRolled(e: Env, k: nat, s: Input, to: nat, n: nat, fill: u8)
    requires e.queueCycle > 0 && 1 <= n < |s| && n <= MaxBlock(e) && to + n <= |s|
    requires Shows(e.dice, k, BlockRolls(n) + ([0, to, 0] + [1, fill as nat]))
    ensures OverwriteOf(e, k, s).value == Fill(to, n, fill)
  {
    ShowsParts(e.dice, k, BlockRolls(n), [0, to, 0] + [1, fill as nat]);
    BlockIsRolled(e, k, |s| - 1, n);
    var next := k + |BlockRolls(n)|;
    ShowsParts(e.dice, next, [0, to, 0], [1, fill as nat]);
    ShownDie(e, next, [0, to, 0], 0, |s| - n + 1);
    ShownDie(e, next, [0, to, 0], 1, |s| - n + 1);
    ShownDie(e, next, [0, to, 0], 2, 4);
    FillIsRolled(e, next + 3, s, fill);
  }

  lemma UserTokenIsRolled(e: Env, k: nat, j: nat, l: seq<nat>)
    requires j < |e.extras| && l == (if |e.aExtras| == 0 then [j] else [0, j]) && Shows(e.dice, k, l)
    ensures TokenOf(e, k) == Choice(e.extras[j], k + |l|)
  {
    if |e.aExtras| > 0 { ShownDie(e, k, l, 0, 2); }
    ShownDie(e, k, l, |l| - 1, |e.extras|);
  }

  lemma AutoTokenIsRolled(e: Env, k: nat, j: nat, l: seq<nat>)
    requires j < |e.aExtras| && l == (if |e.extras| == 0 then [j] else [1, j]) && Shows(e.dice, k, l)
    ensures TokenOf(e, k) == Choice(e.aExtras[j], k + |l|)
  {
    if |e.extras| > 0 { ShownDie(e, k, l, 0, 2); }
    ShownDie(e, k, l, |l| - 1, |e.aExtras|);
  }

  /** These rolls choose the token. */
  ghost predicate TokenRolls(e: Env, tok: seq<u8>, l: seq<nat>) {
    forall dice: nat -> nat, k: nat :: Shows(dice, k, l) && |e.extras| + |e.aExtras| > 0
      ==> TokenOf(e.(dice := dice), k) == Choice(tok, k + |l|)
  }

  lemma SomeTokenRolls(e: Env, tok: seq<u8>) returns (l: seq<nat>)
    requires tok in Tokens(e)
    ensures TokenRolls(e, tok, l) && |e.extras| + |e.aExtras| > 0
  {
    if tok in e.extras {
      var j: nat :| j < |e.extras| && e.extras[j] == tok;
      l := if |e.aExtras| == 0 then [j] else [0, j];
      forall dice: nat -> nat, k: nat | Shows(dice, k, l) ensures TokenOf(e.(dice := dice), k) == Choice(tok, k + |l|) {
        UserTokenIsRolled(e.(dice := dice), k, j, l);
      }
    } else {
      var j: nat :| j < |e.aExtras| && e.aExtras[j] == tok;
      l := if |e.extras| == 0 then [j] else [1, j];
      forall dice: nat -> nat, k: nat | Shows(dice, k, l) ensures TokenOf(e.(dice := dice), k) == Choice(tok, k + |l|) {
        AutoTokenIsRolled(e.(dice := dice), k, j, l);
      }
    }
  }

  lemma OverTokenIsRolled(e: Env, k: nat, s: Input, at: nat, tok: seq<u8>, l: seq<nat>)
    requires |e.extras| + |e.aExtras| > 0 && TokenRolls(e, tok, l) && at + |tok| <= |s| && Shows(e.dice, k, l + [at])
    ensures OverTokenOf(e, k, s).value == OverToken(at, tok)
  {
    ShowsParts(e.dice, k, l, [at]);
    assert e.(dice := e.dice) == e;
    ShownDie(e, k + |l|, [at], 0, |s| - |tok| + 1);
  }

  lemma InsertTokenIsRolled(e: Env, k: nat, s: Input, at: nat, tok: seq<u8>, l: seq<nat>)
    requires |e.extras| + |e.aExtras| > 0 && TokenRolls(e, tok, l) && at <= |s| && |s| + |tok| < MAX_FILE
    requires Shows(e.dice, k, [at] + l)
    ensures InsertTokenOf(e, k, s).value == InsertToken(at, tok)
  {
    ShowsParts(e.dice, k, [at], l);
    assert e.(dice := e.dice) == e;
    ShownDie(e, k, [at], 0, |s| + 1);
  }

  lemma LongTokenIsRolled(e: Env, k: nat, s: Input, tok: seq<u8>, l: seq<nat>)
    requires |e.extras| + |e.aExtras| > 0 && TokenRolls(e, tok, l)
    ensures |tok| > |s| && Shows(e.dice, k, l) ==> OverTokenOf(e, k, s).value == Nothing
    ensures |s| + |tok| >= MAX_FILE && Shows(e.dice, k + 1, l) ==> InsertTokenOf(e, k, s).value == Nothing
  {
    assert e.(dice := e.dice) == e;
  }

  /** Dice that show a case and what follows. */
  lemma Prepared(e: Env, k: nat, which: nat, l: seq<nat>) returns (d: Env)
    requires which < 17 && (which < 15 || |e.extras| + |e.aExtras| > 0)
    ensures d == e.(dice := d.dice) && WhichCase(d, k) == which && Shows(d.dice, k + 1, l)
    ensures MaxBlock(d) == MaxBlock(e) && Tokens(d) == Tokens(e)
  {
    d := e.(dice := FromList([which] + l, k));
    ListShows([which] + l, k);
    CaseIsRolled(d, k, l, which);
  }

  lemma SomeSetIsRolled(e: Env, k: nat, s: Input, pos: nat, w: seq<u8>) returns (d: Env)
    requires |s| > 0 && e.queueCycle > 0 && pos + |w| <= |s| && InterestingWord(w)
    ensures d == e.(dice := d.dice) && ChangeOf(d, k, s).value == SetWord(pos, w)
  {
    if |w| == 1 {
      var j: nat :| j < |INTERESTING_8| && INTERESTING_8[j] == w[0];
      d := Prepared(e, k, 1, [j, pos]);
      ByteIsRolled(d, k + 1, s, pos, j, [j, pos]);
      assert w == [INTERESTING_8[j]];
    } else if |w| == 2 {
      d := SomeHalfIsRolled(e, k, s, pos, w, Load16(w[0], w[1]));
    } else {
      d := SomeWordIsRolled(e, k, s, pos, w, Load32(w[0], w[1], w[2], w[3]));
    }
  }

  lemma LoadedIsStored16(w: seq<u8>, x: u16)
    requires |w| == 2 && x == Load16(w[0], w[1])
    ensures Store16(x) == w
  {
    LoadedBytes16(w[0], w[1], x);
    var u := Store16(x);
    assert u == [u[0], u[1]];
  }

  lemma LoadedBytes16(a: u8, b: u8, x: u16)
    requires x == Load16(a, b)
    ensures (x & 0xff) as u8 == a && (x >> 8) as u8 == b
  {
  }

  lemma LoadedIsStored32(w: seq<u8>, x: u32)
    requires |w| == 4 && x == Load32(w[0], w[1], w[2], w[3])
    ensures Store32(x) == w
  {
    LoadedBytes32(w[0], w[1], w[2], w[3], x);
    var u := Store32(x);
    assert u == [u[0], u[1], u[2], u[3]];
  }

  lemma LoadedBytes32(a: u8, b: u8, c: u8, d: u8, x: u32)
    requires x == Load32(a, b, c, d)
    ensures (x & 0xff) as u8 == a && ((x >> 8) & 0xff) as u8 == b && ((x >> 16) & 0xff) as u8 == c && (x >> 24) as u8 == d
  {
  }

  lemma SwapTwice16(x: u16, y: u16)
    requires y == Swap16(x)
    ensures x == Swap16(y)
  {
  }

  lemma SwapTwice32(x: u32, y: u32)
    requires y == Swap32(x)
    ensures x == Swap32(y)
  {
  }

  lemma SomeHalfIsRolled(e: Env, k: nat, s: Input, pos: nat, w: seq<u8>, x: u16) returns (d: Env)
    requires |s| > 0 && e.queueCycle > 0 && |w| == 2 && pos + 2 <= |s| && x == Load16(w[0], w[1]) && InterestingWord(w)
    ensures d == e.(dice := d.dice) && ChangeOf(d, k, s).value == SetWord(pos, w)
  {
    LoadedIsStored16(w, x);
    SwapTwice16(x, Swap16(x));
    var little := x in INTERESTING_16;
    var j: nat :| j < |INTERESTING_16| && INTERESTING_16[j] == if little then x else Swap16(x);
    var l := [if little then 1 else 0, j, pos];
    d := Prepared(e, k, 2, l);
    HalfIsRolled(d, k + 1, s, pos, little, j, l);
  }

  lemma SomeWordIsRolled(e: Env, k: nat, s: Input, pos: nat, w: seq<u8>, x: u32) returns (d: Env)
    requires |s| > 0 && e.queueCycle > 0 && |w| == 4 && pos + 4 <= |s| && x == Load32(w[0], w[1], w[2], w[3]) && InterestingWord(w)
    ensures d == e.(dice := d.dice) && ChangeOf(d, k, s).value == SetWord(pos, w)
  {
    LoadedIsStored32(w, x);
    SwapTwice32(x, Swap32(x));
    var little := x in INTERESTING_32;
    var j: nat :| j < |INTERESTING_32| && INTERESTING_32[j] == if little then x else Swap32(x);
    var l := [if little then 1 else 0, j, pos];
    d := Prepared(e, k, 3, l);
    WordIsRolled(d, k + 1, s, pos, little, j, l);
  }

  lemma Signed8(n: u8) returns (up: bool, num: u32)
    requires Step8(n)
    ensures 1 <= num <= 35 && n == if up then num as u8 else 0 - num as u8
  {
    up := n as u32 <= 35;
    num := if up then n as u32 else (0 - n) as u32;
  }

  lemma Signed16(n: u16) returns (up: bool, num: u32)
    requires Step16(n)
    ensures 1 <= num <= 35 && n == if up then num as u16 else 0 - num as u16
  {
    up := n as u32 <= 35;
    num := if up then n as u32 else (0 - n) as u32;
  }

  lemma Signed32(n: u32) returns (up: bool, num: u32)
    requires Step32(n)
    ensures 1 <= num <= 35 && n == if up then num else 0 - num
  {
    up := n <= 35;
    num := if up then n else 0 - n;
  }

  lemma SomeByteStepIsRolled(e: Env, k: nat, s: Input, pos: nat, n: u8) returns (d: Env)
    requires e.queueCycle > 0 && pos < |s| && Step8(n)
    ensures d == e.(dice := d.dice) && ChangeOf(d, k, s).value == Add8(pos, n)
  {
    var up, num := Signed8(n);
    d := Prepared(e, k, if up then 5 else 4, [pos, num as nat - 1]);
    StepByteIsRolled(d, k + 1, s, pos, up, num, [pos, num as nat - 1]);
  }

  lemma SomeHalfStepIsRolled(e: Env, k: nat, s: Input, pos: nat, n: u16, big: bool) returns (d: Env)
    requires e.queueCycle > 0 && pos + 2 <= |s| && Step16(n)
    ensures d == e.(dice := d.dice) && ChangeOf(d, k, s).value == Add16(pos, n, big)
  {
    var up, num := Signed16(n);
    var l := [if big then 0 else 1, pos, num as nat - 1];
    d := Prepared(e, k, if up then 7 else 6, l);
    StepHalfIsRolled(d, k + 1, s, pos, up, big, num, l);
  }

  lemma SomeWordStepIsRolled(e: Env, k: nat, s: Input, pos: nat, n: u32, big: bool) returns (d: Env)
    requires e.queueCycle > 0 && pos + 4 <= |s| && Step32(n)
    ensures d == e.(dice := d.dice) && ChangeOf(d, k, s).value == Add32(pos, n, big)
  {
    var up, num := Signed32(n);
    var l := [if big then 0 else 1, pos, num as nat - 1];
    d := Prepared(e, k, if up then 9 else 8, l);
    StepWordIsRolled(d, k + 1, s, pos, up, big, num, l);
  }

  lemma SomeBlockIsRolled(e: Env, k: nat, s: Input, m: Mutation) returns (d: Env)
    requires |s| > 0 && e.queueCycle > 0 && Possible(m, s, Tokens(e), MaxBlock(e))
    requires m.Delete? || m.Clone? || m.InsertFill? || m.Copy? || m.Fill?
    ensures d == e.(dice := d.dice) && ChangeOf(d, k, s).value == m
  {
    match m
    case Delete(from, n) =>
      d := Prepared(e, k, 11, BlockRolls(n) + [from]);
      DeleteIsRolled(d, k + 1, s, from, n);
    case Clone(from, to, n) =>
      d := Prepared(e, k, 13, [1] + (BlockRolls(n) + [from, to]));
      CloneIsRolled(d, k + 1, s, from, to, n);
    case InsertFill(to, n, fill) =>
      d := Prepared(e, k, 13, [0] + (BlockRolls(n) + ([to] + [1, fill as nat])));
      InsertFillIsRolled(d, k + 1, s, to, n, fill);
    case Copy(from, to, n) =>
      d := Prepared(e, k, 14, BlockRolls(n) + [from, to, 1]);
      CopyIsRolled(d, k + 1, s, from, to, n);
    case Fill(to, n, fill) =>
      d := Prepared(e, k, 14, BlockRolls(n) + ([0, to, 0] + [1, fill as nat]));
      BlockFillIsRolled(d, k + 1, s, to, n, fill);
  }

  lemma RollsOfOther(e: Env, dice: nat -> nat, tok: seq<u8>, l: seq<nat>)
    requires TokenRolls(e, tok, l)
    ensures TokenRolls(e.(dice := dice), tok, l)
  {
    forall other: nat -> nat, k: nat | Shows(other, k, l) && |e.extras| + |e.aExtras| > 0
      ensures TokenOf(e.(dice := dice).(dice := other), k) == Choice(tok, k + |l|)
    {
      assert e.(dice := dice).(dice := other) == e.(dice := other);
    }
  }

  lemma SomeTokenIsRolled(e: Env, k: nat, s: Input, m: Mutation) returns (d: Env)
    requires |s| > 0 && e.queueCycle > 0 && Possible(m, s, Tokens(e), MaxBlock(e)) && (m.OverToken? || m.InsertToken?)
    ensures d == e.(dice := d.dice) && ChangeOf(d, k, s).value == m
  {
    var l := SomeTokenRolls(e, m.tok);
    if m.OverToken? {
      d := Prepared(e, k, 15, l + [m.at]);
      RollsOfOther(e, d.dice, m.tok, l);
      OverTokenIsRolled(d, k + 1, s, m.at, m.tok, l);
    } else {
      d := Prepared(e, k, 16, [m.at] + l);
      RollsOfOther(e, d.dice, m.tok, l);
      InsertTokenIsRolled(d, k + 1, s, m.at, m.tok, l);
    }
  }

  lemma NothingIsRolled(e: Env, k: nat, s: Input) returns (d: Env)
    requires |s| > 0 && e.queueCycle > 0 && Possible(Nothing, s, Tokens(e), MaxBlock(e))
    ensures d == e.(dice := d.dice) && ChangeOf(d, k, s).value == Nothing
  {
    if |s| < 4 {
      d := Prepared(e, k, 3, []);
    } else if |s| + HAVOC_BLK_XL >= MAX_FILE {
      d := Prepared(e, k, 13, []);
    } else {
      var tok :| tok in Tokens(e) && (|tok| > |s| || |s| + |tok| >= MAX_FILE);
      d := UnfitTokenIsRolled(e, k, s, tok);
    }
  }

  lemma UnfitTokenIsRolled(e: Env, k: nat, s: Input, tok: seq<u8>) returns (d: Env)
    requires |s| > 0 && e.queueCycle > 0 && tok in Tokens(e) && (|tok| > |s| || |s| + |tok| >= MAX_FILE)
    ensures d == e.(dice := d.dice) && ChangeOf(d, k, s).value == Nothing
  {
    var l := SomeTokenRolls(e, tok);
    if |tok| > |s| {
      d := Prepared(e, k, 15, l);
    } else {
      d := Prepared(e, k, 16, [0] + l);
      ShowsParts(d.dice, k + 1, [0], l);
    }
    RollsOfOther(e, d.dice, tok, l);
    LongTokenIsRolled(d, k + 1, s, tok, l);
  }

  lemma PossibleIsRolled(e: Env, k: nat, s: Input, m: Mutation) returns (d: Env)
    requires |s| > 0 && e.queueCycle > 0 && Possible(m, s, Tokens(e), MaxBlock(e))
    ensures d == e.(dice := d.dice) && ChangeOf(d, k, s).value == m
  {
    match m
    case Nothing => d := NothingIsRolled(e, k, s);
    case FlipOne(bit) =>
      d := Prepared(e, k, 0, [bit]);
      FlipIsRolled(d, k + 1, s, bit);
    case SetWord(pos, w) => d := SomeSetIsRolled(e, k, s, pos, w);
    case Xor(pos, mask) =>
      d := Prepared(e, k, 10, [pos, mask as nat - 1]);
      XorIsRolled(d, k + 1, s, pos, mask, [pos, mask as nat - 1]);
    case Add8(pos, n) => d := SomeByteStepIsRolled(e, k, s, pos, n);
    case Add16(pos, n, big) => d := SomeHalfStepIsRolled(e, k, s, pos, n, big);
    case Add32(pos, n, big) => d := SomeWordStepIsRolled(e, k, s, pos, n, big);
    case OverToken(_, _) => d := SomeTokenIsRolled(e, k, s, m);
    case InsertToken(_, _) => d := SomeTokenIsRolled(e, k, s, m);
    case _ => d := SomeBlockIsRolled(e, k, s, m);
  }

  /** Some random numbers make the change exactly if it is possible. */
  lemma PossibleIffRolled(e: Env, k: nat, s: Input, m: Mutation)
    requires |s| > 0 && e.queueCycle > 0
    ensures Possible(m, s, Tokens(e), MaxBlock(e)) <==> exists dice: nat -> nat :: ChangeOf(e.(dice := dice), k, s).value == m
  {
    if Possible(m, s, Tokens(e), MaxBlock(e)) {
      var d := PossibleIsRolled(e, k, s, m);
    }
    forall dice: nat -> nat | ChangeOf(e.(dice := dice), k, s).value == m
      ensures Possible(m, s, Tokens(e), MaxBlock(e))
    {
      ChangeIsPossible(e.(dice := dice), k, s);
    }
  }

  lemma ChangeIsPossible(e: Env, k: nat, s: Input)
    requires |s| > 0 && e.queueCycle > 0
    ensures Possible(ChangeOf(e, k, s).value, s, Tokens(e), MaxBlock(e))
  {
    CaseIsPossible(e, WhichCase(e, k), k + 1, s);
  }
}
