/** What the word stages of afl-fuzz try, said without their carry tests.  A step counts as one of a
    longer word only if it changes both halves of it, whatever the byte order; all others are steps of
    a part, and are left to the stages before.  And a stage runs exactly what it tries at the positions
    where some byte has an effect: a position none of whose bytes is flagged is passed over, and one
    flagged byte is enough for the whole word.  The stages of single bytes are in Deterministic, those
    with built-in values in BuiltIns; here are the two of arithmetic on half words and on words. */
module WordTries {
  import opened Redundancy
  import opened Stages
  import opened WordStages
  import opened Deterministic
  import opened WordValues
  import opened WordFilters
  import opened WordLosses

  // ---------- Where a stage runs its candidates ----------

  /** f is s with a candidate for position j written over it, and some byte there has an effect. */
  ghost predicate IsCandidate(s: Input, kind: Kind, eff: seq<bool>, f: Input, j: nat, w: seq<u8>) {
    && j + Width(kind) <= |s| && |w| == Width(kind) && f == s[..j] + w + s[j + |w|..]
    && Put(w) in Tries(kind, s[j..j + |w|])
    && exists k :: j <= k < j + |w| && k / 8 < |eff| && eff[k / 8]
  }

  lemma SomeByteEffective(eff: seq<bool>, j: nat, n: nat)
    requires (n == 1 || n == 2 || n == 4) && (j + n - 1) / 8 < |eff|
    ensures Effective(eff, j, n) <==> exists k :: j <= k < j + n && k / 8 < |eff| && eff[k / 8]
  {
  }

  lemma TriedIsEffective(s: Input, kind: Kind, eff: seq<bool>, j: nat, x: Try)
    requires j + Width(kind) <= |s| && |eff| == EffLen(|s|) && x in TriesAt(s, kind, eff, j) && x.Put?
    ensures Effective(eff, j, Width(kind))
  {
  }

  lemma TriedIsCandidate(s: Input, kind: Kind, eff: seq<bool>, f: Input, j: nat, x: Try)
    requires j + Width(kind) <= |s| && |eff| == EffLen(|s|) && x in TriesAt(s, kind, eff, j) && x.Put?
    requires f == Overwrite(s, j, x.w)
    ensures IsCandidate(s, kind, eff, f, j, x.w)
  {
    PlanFits(s, kind, eff, j, x);
    TriedIsEffective(s, kind, eff, j, x);
    SomeByteEffective(eff, j, Width(kind));
  }

  lemma CandidateOrigin(s: Input, kind: Kind, eff: seq<bool>, f: Input) returns (j: nat, w: seq<u8>)
    requires Width(kind) <= |s| && |eff| == EffLen(|s|) && f in StageRuns(s, kind, eff)
    ensures IsCandidate(s, kind, eff, f, j, w)
  {
    var plan, x := Plan(s, kind, eff), Skip;
    PlanIsPlan(s, kind, eff, plan);
    j, x := RunOrigin(s, kind, eff, plan, f);
    TriedIsCandidate(s, kind, eff, f, j, x);
    w := x.w;
  }

  lemma CandidateIsRun(s: Input, kind: Kind, eff: seq<bool>, f: Input, j: nat, w: seq<u8>)
    requires Width(kind) <= |s| && |eff| == EffLen(|s|) && IsCandidate(s, kind, eff, f, j, w)
    ensures f in StageRuns(s, kind, eff)
  {
    SomeByteEffective(eff, j, Width(kind));
    WordIsRun(s, kind, eff, j, w);
  }

  /** A stage runs exactly its candidates. */
  lemma StageRunsCandidates(s: Input, kind: Kind, eff: seq<bool>, f: Input)
    requires Width(kind) <= |s| && |eff| == EffLen(|s|)
    ensures f in StageRuns(s, kind, eff) <==> exists j, w :: IsCandidate(s, kind, eff, f, j, w)
  {
    if f in StageRuns(s, kind, eff) {
      var j, w := CandidateOrigin(s, kind, eff, f);
    }
    forall j: nat, w | IsCandidate(s, kind, eff, f, j, w) ensures f in StageRuns(s, kind, eff) {
      CandidateIsRun(s, kind, eff, f, j, w);
    }
  }

  // ---------- Steps of half words ----------

  lemma UpCarries(o: u16, j: u16, v: u16, d: u16)
    requires 1 <= j <= 35 && v == Sum(o, j) && d == o ^ v
    ensures !((o & 0xff) + j <= 0xff) <==> BothChange(d)
  {
  }

  lemma DownCarries(o: u16, j: u16, v: u16, d: u16)
    requires 1 <= j <= 35 && v == Difference(o, j) && d == o ^ v
    ensures !(o & 0xff >= j) <==> BothChange(d)
  {
  }

  /** Do both bytes change? */
  predicate BothChange(d: u16) { d & 0xff != 0 && d & 0xff00 != 0 }

  lemma SwappedUpper16(d: u16, e: u16)
    requires e == Swap16(d)
    ensures e & 0xff == 0 <==> d & 0xff00 == 0
  {
  }

  lemma ChangeOfParts(d: u16, low: bool, high: bool)
    requires low <==> d & 0xff != 0
    requires high <==> d & 0xff00 != 0
    ensures BothChange(d) <==> low && high
  {
  }

  lemma SwappedChange(d: u16, e: u16)
    requires e == Swap16(d)
    ensures BothChange(e) <==> BothChange(d)
  {
    var low, high := d & 0xff != 0, d & 0xff00 != 0;
    SwappedParts16(d, e);
    SwappedUpper16(d, e);
    ChangeOfParts(d, low, high);
    ChangeOfParts(e, high, low);
  }

  lemma SwappedBoth(o: u16, v: u16, x: u16, y: u16, d: u16, e: u16)
    requires x == Swap16(o) && y == Swap16(v) && d == o ^ v && e == x ^ y
    ensures BothChange(e) <==> BothChange(d)
  {
    SwappedDifference16(o, v, x, y, d, e);
    SwappedChange(d, e);
  }

  lemma SwappedUpCarries(x: u16, j: u16, y: u16, high: u16, e: u16)
    requires 1 <= j <= 35 && y == Sum(x, j) && high == x & 0xff && e == x ^ y
    ensures !(high + j <= 0xff) <==> BothChange(e)
  {
  }

  lemma SwappedDownCarries(x: u16, j: u16, y: u16, high: u16, e: u16)
    requires 1 <= j <= 35 && y == Difference(x, j) && high == x & 0xff && e == x ^ y
    ensures !(high >= j) <==> BothChange(e)
  {
  }

  lemma BigUpCarries(o: u16, j: u16, v: u16, d: u16, x: u16, y: u16)
    requires 1 <= j <= 35 && x == Swap16(o) && y == Swap16(v) && y == Sum(x, j) && d == o ^ v
    ensures !((o >> 8) + j <= 0xff) <==> BothChange(d)
  {
    var e := x ^ y;
    LowOfSwapped16(o, x);
    SwappedUpCarries(x, j, y, o >> 8, e);
    SwappedBoth(o, v, x, y, d, e);
  }

  lemma BigDownCarries(o: u16, j: u16, v: u16, d: u16, x: u16, y: u16)
    requires 1 <= j <= 35 && x == Swap16(o) && y == Swap16(v) && y == Difference(x, j) && d == o ^ v
    ensures !(o >> 8 >= j) <==> BothChange(d)
  {
    var e := x ^ y;
    LowOfSwapped16(o, x);
    SwappedDownCarries(x, j, y, o >> 8, e);
    SwappedBoth(o, v, x, y, d, e);
  }

  lemma BigUpStepCarries(o: u16, j: u16, v: u16, d: u16)
    requires 1 <= j <= 35 && v == Stepped(BigUp, o, j) && d == o ^ v
    ensures Carries(BigUp, o, j) <==> BothChange(d)
  {
    var x, y := Swap16(o), Swap16(v);
    SwapBack(Sum(x, j), v, y);
    BigUpCarries(o, j, v, d, x, y);
  }

  lemma BigDownStepCarries(o: u16, j: u16, v: u16, d: u16)
    requires 1 <= j <= 35 && v == Stepped(BigDown, o, j) && d == o ^ v
    ensures Carries(BigDown, o, j) <==> BothChange(d)
  {
    var x, y := Swap16(o), Swap16(v);
    SwapBack(Difference(x, j), v, y);
    BigDownCarries(o, j, v, d, x, y);
  }

  /** A step reaches beyond the byte it starts in exactly if both bytes change. */
  lemma CarriesIffBothChange(way: Way, o: u16, j: u16, v: u16, d: u16)
    requires 1 <= j <= 35 && v == Stepped(way, o, j) && d == o ^ v
    ensures Carries(way, o, j) <==> BothChange(d)
  {
    match way
    case Up => UpCarries(o, j, v, d);
    case Down => DownCarries(o, j, v, d);
    case BigUp => BigUpStepCarries(o, j, v, d);
    case BigDown => BigDownStepCarries(o, j, v, d);
  }

  // ---------- What arith 16/8 tries ----------

  lemma WithinIsDistance16(o: u16, v: u16, up: u16, down: u16)
    requires up == Difference(v, o) && down == Difference(o, v)
    ensures Within16(o, v) <==> up <= 35 || down <= 35
  {
  }

  lemma UpDistance(o: u16, j: u16, v: u16, up: u16)
    requires 1 <= j <= 35 && v == Sum(o, j) && up == Difference(v, o)
    ensures up == j
  {
  }

  lemma DownDistance(o: u16, j: u16, v: u16, down: u16)
    requires 1 <= j <= 35 && v == Difference(o, j) && down == Difference(o, v)
    ensures down == j
  {
  }

  lemma NoDistance(o: u16, v: u16, up: u16)
    requires up == Difference(v, o) && v != o
    ensures up != 0
  {
  }

  lemma DistanceUp(o: u16, v: u16, up: u16)
    requires up == Difference(v, o) && 1 <= up <= 35
    ensures v == Sum(o, up)
  {
  }

  lemma DistanceDown(o: u16, v: u16, down: u16)
    requires down == Difference(o, v) && 1 <= down <= 35
    ensures v == Difference(o, down)
  {
  }

  lemma UpIsNear(o: u16, j: u16, v: u16)
    requires 1 <= j <= 35 && v == Sum(o, j)
    ensures Within16(o, v)
  {
    var up, down := Difference(v, o), Difference(o, v);
    UpDistance(o, j, v, up);
    WithinIsDistance16(o, v, up, down);
  }

  lemma DownIsNear(o: u16, j: u16, v: u16)
    requires 1 <= j <= 35 && v == Difference(o, j)
    ensures Within16(o, v)
  {
    var up, down := Difference(v, o), Difference(o, v);
    DownDistance(o, j, v, down);
    WithinIsDistance16(o, v, up, down);
  }

  lemma NearIsStepped(o: u16, v: u16, up: u16, down: u16)
    requires up == Difference(v, o) && down == Difference(o, v) && 1 <= up && 1 <= down && (up <= 35 || down <= 35)
    ensures (1 <= up <= 35 && v == Sum(o, up)) || (1 <= down <= 35 && v == Difference(o, down))
  {
    if up <= 35 { DistanceUp(o, v, up); } else { DistanceDown(o, v, down); }
  }

  lemma NearIsUp(o: u16, v: u16, up: u16, down: u16)
    requires up == Difference(v, o) && down == Difference(o, v) && v != o && Within16(o, v)
    ensures (1 <= up <= 35 && v == Sum(o, up)) || (1 <= down <= 35 && v == Difference(o, down))
  {
    WithinIsDistance16(o, v, up, down);
    NoDistance(o, v, up);
    NoDistance(v, o, down);
    NearIsStepped(o, v, up, down);
  }

  lemma BigUpIsNear(o: u16, j: u16, v: u16, x: u16, y: u16)
    requires 1 <= j <= 35 && x == Swap16(o) && y == Sum(x, j) && v == Swap16(y)
    ensures Within16(x, Swap16(v))
  {
    SwapBack(y, v, Swap16(v));
    UpIsNear(x, j, y);
  }

  lemma BigDownIsNear(o: u16, j: u16, v: u16, x: u16, y: u16)
    requires 1 <= j <= 35 && x == Swap16(o) && y == Difference(x, j) && v == Swap16(y)
    ensures Within16(x, Swap16(v))
  {
    SwapBack(y, v, Swap16(v));
    DownIsNear(x, j, y);
  }

  lemma StepIsNear(way: Way, o: u16, j: u16, v: u16)
    requires 1 <= j <= 35 && v == Stepped(way, o, j)
    ensures NearHalves(o, v)
  {
    match way
    case Up => UpIsNear(o, j, v);
    case Down => DownIsNear(o, j, v);
    case BigUp => BigUpIsNear(o, j, v, Swap16(o), Sum(Swap16(o), j));
    case BigDown => BigDownIsNear(o, j, v, Swap16(o), Difference(Swap16(o), j));
  }

  lemma UpIsStep(o: u16, j: u16, v: u16)
    requires v == Sum(o, j)
    ensures v == Stepped(Up, o, j)
  {
  }

  lemma DownIsStep(o: u16, j: u16, v: u16)
    requires v == Difference(o, j)
    ensures v == Stepped(Down, o, j)
  {
  }

  lemma LittleNearIsStep(o: u16, v: u16, up: u16, down: u16) returns (way: Way, j: u16)
    requires up == Difference(v, o) && down == Difference(o, v) && v != o && Within16(o, v)
    ensures 1 <= j <= 35 && v == Stepped(way, o, j)
  {
    NearIsUp(o, v, up, down);
    if 1 <= up <= 35 && v == Sum(o, up) {
      UpIsStep(o, up, v);
      return Up, up;
    } else {
      DownIsStep(o, down, v);
      return Down, down;
    }
  }

  lemma SwapDiffers(o: u16, v: u16, x: u16, y: u16)
    requires x == Swap16(o) && y == Swap16(v) && v != o
    ensures x != y && v == Swap16(y)
  {
  }

  lemma BigNearIsStep(o: u16, v: u16, x: u16, y: u16) returns (way: Way, j: u16)
    requires v != o && x == Swap16(o) && y == Swap16(v) && Within16(x, y)
    ensures 1 <= j <= 35 && v == Stepped(way, o, j)
  {
    var up, down := Difference(y, x), Difference(x, y);
    SwapDiffers(o, v, x, y);
    NearIsUp(x, y, up, down);
    if 1 <= up <= 35 && y == Sum(x, up) { way, j := BigUp, up; } else { way, j := BigDown, down; }
  }

  lemma NearIsStep(o: u16, v: u16) returns (way: Way, j: u16)
    requires v != o && NearHalves(o, v)
    ensures 1 <= j <= 35 && v == Stepped(way, o, j)
  {
    if Within16(o, v) {
      way, j := LittleNearIsStep(o, v, Difference(v, o), Difference(o, v));
    } else {
      way, j := BigNearIsStep(o, v, Swap16(o), Swap16(v));
    }
  }

  predicate IsStep(way: Way, o: u16, j: u16, v: u16, carries: bool) {
    v == Stepped(way, o, j) && carries == Carries(way, o, j)
  }

  /** The step leads to v, and to nothing else. */
  ghost predicate LeadsTo(way: Way, o: u16, j: u16, v: u16, carries: bool) {
    forall u, b {:trigger IsStep(way, o, j, u, b)} :: IsStep(way, o, j, u, b) ==> u == v && b == carries
  }

  lemma StepLeadsTo(way: Way, o: u16, j: u16, v: u16, carries: bool)
    requires v == Stepped(way, o, j) && carries == Carries(way, o, j)
    ensures LeadsTo(way, o, j, v, carries)
  {
  }

  lemma LeadsToStep(way: Way, o: u16, j: u16, v: u16, carries: bool)
    requires LeadsTo(way, o, j, v, carries)
    ensures v == Stepped(way, o, j) && carries == Carries(way, o, j)
  {
    assert IsStep(way, o, j, Stepped(way, o, j), Carries(way, o, j));
  }

  lemma FourSteps(o: u16, j: u16, p: u16, k: bool, q: u16, l: bool, r: u16, m: bool, t: u16, n: bool)
    requires p == Stepped(Up, o, j) && q == Stepped(Down, o, j) && r == Stepped(BigUp, o, j) && t == Stepped(BigDown, o, j)
    requires k == !Carries(Up, o, j) && l == !Carries(Down, o, j) && m == !Carries(BigUp, o, j) && n == !Carries(BigDown, o, j)
    ensures Arith16Step(o, j) == [Filtered16(o, p, k), Filtered16(o, q, l), Filtered16(o, r, m), Filtered16(o, t, n)]
    ensures LeadsTo(Up, o, j, p, !k) && LeadsTo(Down, o, j, q, !l)
    ensures LeadsTo(BigUp, o, j, r, !m) && LeadsTo(BigDown, o, j, t, !n)
  {
    Arith16StepIs(o, j, p, k, q, l, r, m, t, n);
    StepLeadsTo(Up, o, j, p, !k);
    StepLeadsTo(Down, o, j, q, !l);
    StepLeadsTo(BigUp, o, j, r, !m);
    StepLeadsTo(BigDown, o, j, t, !n);
  }

  lemma StepChoices(o: u16, j: u16) returns (p: u16, k: bool, q: u16, l: bool, r: u16, m: bool, t: u16, n: bool)
    ensures Arith16Step(o, j) == [Filtered16(o, p, k), Filtered16(o, q, l), Filtered16(o, r, m), Filtered16(o, t, n)]
    ensures LeadsTo(Up, o, j, p, !k) && LeadsTo(Down, o, j, q, !l)
    ensures LeadsTo(BigUp, o, j, r, !m) && LeadsTo(BigDown, o, j, t, !n)
  {
    p, k, q, l := Stepped(Up, o, j), !Carries(Up, o, j), Stepped(Down, o, j), !Carries(Down, o, j);
    r, m, t, n := Stepped(BigUp, o, j), !Carries(BigUp, o, j), Stepped(BigDown, o, j), !Carries(BigDown, o, j);
    FourSteps(o, j, p, k, q, l, r, m, t, n);
  }

  lemma TriedLeadsTo(o: u16, j: u16, v: u16, flip: bool) returns (way: Way)
    requires Put(Store16(v)) in Arith16Step(o, j) && flip == FlipPattern((o ^ v) as u32)
    ensures LeadsTo(way, o, j, v, true) && !flip
  {
    var p, k, q, l, r, m, t, n := StepChoices(o, j);
    StepOfFour(o, v, flip, p, k, q, l, r, m, t, n);
    way := if v == p && !k then Up else if v == q && !l then Down else if v == r && !m then BigUp else BigDown;
  }

  lemma TriedIsCarry(o: u16, j: u16, v: u16) returns (way: Way)
    requires Put(Store16(v)) in Arith16Step(o, j)
    ensures v == Stepped(way, o, j) && Carries(way, o, j) && !FlipPattern((o ^ v) as u32)
  {
    way := TriedLeadsTo(o, j, v, FlipPattern((o ^ v) as u32));
    LeadsToStep(way, o, j, v, true);
  }

  lemma Tried16(o: seq<u8>, x: u16, v: u16)
    requires |o| == 2 && x == Load16(o[0], o[1]) && Put(Store16(v)) in Tries(Arith16, o)
    ensures NearHalves(x, v) && BothChange(x ^ v) && !FlipPattern((x ^ v) as u32)
  {
    var m := FlattenOrigin(ArithSteps(Arith16, o), ARITH_STEPS, Put(Store16(v)));
    var j := NumberedStep(m);
    var way := TriedIsCarry(x, j, v);
    CarriesIffBothChange(way, x, j, v, x ^ v);
    StepIsNear(way, x, j, v);
  }

  lemma NumberedStep(m: nat) returns (j: u16)
    requires 1 <= m <= ARITH_STEPS
    ensures j == m as u16 && 1 <= j <= 35
  {
    j := m as u16;
  }

  lemma IsTried16(o: seq<u8>, x: u16, v: u16)
    requires |o| == 2 && x == Load16(o[0], o[1])
    requires NearHalves(x, v) && BothChange(x ^ v) && !FlipPattern((x ^ v) as u32)
    ensures Put(Store16(v)) in Tries(Arith16, o)
  {
    var way, j := NearIsStep(x, v);
    CarriesIffBothChange(way, x, j, v, x ^ v);
    CarryIsTried(way, x, j, v);
    var m := StepNumber(j);
    assert Put(Store16(v)) in ArithSteps(Arith16, o)(m);
    FlattenMember(ArithSteps(Arith16, o), ARITH_STEPS, Put(Store16(v)), m);
  }

  /** For a half word arith 16/8 tries exactly the values at most ARITH_MAX away in either byte order
      that change both bytes and are not taken for a bit flip. */
  lemma Arith16Has(o: seq<u8>, x: u16, v: u16)
    requires |o| == 2 && x == Load16(o[0], o[1])
    ensures Put(Store16(v)) in Tries(Arith16, o) <==>
              (Within16(x, v) || Within16(Swap16(x), Swap16(v)))
              && (x ^ v) & 0xff != 0 && (x ^ v) & 0xff00 != 0 && !FlipPattern((x ^ v) as u32)
  {
    if Put(Store16(v)) in Tries(Arith16, o) {
      Tried16(o, x, v);
    }
    if NearHalves(x, v) && BothChange(x ^ v) && !FlipPattern((x ^ v) as u32) {
      IsTried16(o, x, v);
    }
  }

  // ---------- What arith 32/8 tries ----------

  /** Do both halves change? */
  predicate BothHalvesChange(d: u32) { d & 0xffff != 0 && d & 0xffff_0000 != 0 }

  lemma LongChange(d: u32)
    requires d & 0x1_ffc0 == 0x1_ffc0 || Swap32(d) & 0x1_ffc0 == 0x1_ffc0
    ensures BothHalvesChange(d)
  {
  }

  lemma NoUpCarry(o: u32, j: u32, v: u32, d: u32)
    requires 1 <= j <= 35 && v == Sum32(o, j) && (o & 0xffff) + j <= 0xffff && d == o ^ v
    ensures d & 0xffff_0000 == 0
  {
  }

  lemma NoDownCarry(o: u32, j: u32, v: u32, d: u32)
    requires 1 <= j <= 35 && v == Difference32(o, j) && o & 0xffff >= j && d == o ^ v
    ensures d & 0xffff_0000 == 0
  {
  }

  lemma SwappedLow(d: u32, e: u32)
    requires e == Swap32(d) && e & 0xffff_0000 == 0
    ensures d & 0xffff == 0
  {
  }

  lemma NoBigCarry(o: u32, v: u32, d: u32, x: u32, y: u32, e: u32)
    requires x == Swap32(o) && y == Swap32(v) && d == o ^ v && e == x ^ y && e & 0xffff_0000 == 0
    ensures d & 0xffff == 0
  {
    SwappedDelta(o, v, x, y, d, e);
    SwappedLow(d, e);
  }

  lemma NoBigUpCarry(o: u32, j: u32, v: u32, d: u32, x: u32, y: u32)
    requires 1 <= j <= 35 && x == Swap32(o) && y == Swap32(v) && y == Sum32(x, j) && (x & 0xffff) + j <= 0xffff && d == o ^ v
    ensures d & 0xffff == 0
  {
    NoUpCarry(x, j, y, x ^ y);
    NoBigCarry(o, v, d, x, y, x ^ y);
  }

  lemma NoBigDownCarry(o: u32, j: u32, v: u32, d: u32, x: u32, y: u32)
    requires 1 <= j <= 35 && x == Swap32(o) && y == Swap32(v) && y == Difference32(x, j) && x & 0xffff >= j && d == o ^ v
    ensures d & 0xffff == 0
  {
    NoDownCarry(x, j, y, x ^ y);
    NoBigCarry(o, v, d, x, y, x ^ y);
  }

  lemma BigUpWithin(o: u32, j: u32, v: u32, d: u32)
    requires 1 <= j <= 35 && v == Stepped32(BigUp, o, j) && d == o ^ v && !Carries32(BigUp, o, j)
    ensures d & 0xffff == 0
  {
    var x, y := Swap32(o), Swap32(v);
    SwapBack32(Sum32(x, j), v, y);
    NoBigUpCarry(o, j, v, d, x, y);
  }

  lemma BigDownWithin(o: u32, j: u32, v: u32, d: u32)
    requires 1 <= j <= 35 && v == Stepped32(BigDown, o, j) && d == o ^ v && !Carries32(BigDown, o, j)
    ensures d & 0xffff == 0
  {
    var x, y := Swap32(o), Swap32(v);
    SwapBack32(Difference32(x, j), v, y);
    NoBigDownCarry(o, j, v, d, x, y);
  }

  lemma StepWithinHalf(way: Way, o: u32, j: u32, v: u32, d: u32)
    requires 1 <= j <= 35 && v == Stepped32(way, o, j) && d == o ^ v && !Carries32(way, o, j)
    ensures d & 0xffff == 0 || d & 0xffff_0000 == 0
  {
    match way
    case Up => NoUpCarry(o, j, v, d);
    case Down => NoDownCarry(o, j, v, d);
    case BigUp => BigUpWithin(o, j, v, d);
    case BigDown => BigDownWithin(o, j, v, d);
  }

  lemma CarryChangesBoth(way: Way, o: u32, j: u32, v: u32, d: u32)
    requires 1 <= j <= 35 && v == Stepped32(way, o, j) && d == o ^ v && Carries32(way, o, j)
    ensures BothHalvesChange(d)
  {
    CarryDelta(way, o, j, v, d);
    LongChange(d);
  }

  lemma OneHalfOnly(d: u32)
    requires d & 0xffff == 0 || d & 0xffff_0000 == 0
    ensures !BothHalvesChange(d)
  {
  }

  /** A step reaches beyond the half it starts in exactly if both halves change. */
  lemma CarriesIffBothHalvesChange(way: Way, o: u32, j: u32, v: u32, d: u32)
    requires 1 <= j <= 35 && v == Stepped32(way, o, j) && d == o ^ v
    ensures Carries32(way, o, j) <==> BothHalvesChange(d)
  {
    if Carries32(way, o, j) {
      CarryChangesBoth(way, o, j, v, d);
    } else {
      StepWithinHalf(way, o, j, v, d);
      OneHalfOnly(d);
    }
  }

  lemma Reach32(a: u32, b: u32, d: u32)
    requires d == Difference32(a, b)
    ensures (a - b) as u32 <= ARITH_MAX <==> d <= 35
  {
  }

  lemma WithinIsDistance32(o: u32, v: u32, up: u32, down: u32)
    requires up == Difference32(v, o) && down == Difference32(o, v)
    ensures Within32(o, v) <==> up <= 35 || down <= 35
  {
    Reach32(o, v, down);
    Reach32(v, o, up);
  }

  lemma UpDistance32(o: u32, j: u32, v: u32, up: u32)
    requires 1 <= j <= 35 && v == Sum32(o, j) && up == Difference32(v, o)
    ensures up == j
  {
  }

  lemma NoDistance32(o: u32, v: u32, up: u32)
    requires up == Difference32(v, o) && v != o
    ensures up != 0
  {
  }

  lemma DistanceUp32(o: u32, v: u32, up: u32)
    requires up == Difference32(v, o) && 1 <= up <= 35
    ensures v == Sum32(o, up)
  {
  }

  lemma DistanceDown32(o: u32, v: u32, down: u32)
    requires down == Difference32(o, v) && 1 <= down <= 35
    ensures v == Difference32(o, down)
  {
  }

  lemma UpIsNear32(o: u32, j: u32, v: u32)
    requires 1 <= j <= 35 && v == Sum32(o, j)
    ensures Within32(o, v)
  {
    var up, down := Difference32(v, o), Difference32(o, v);
    UpDistance32(o, j, v, up);
    WithinIsDistance32(o, v, up, down);
  }

  lemma DownDistance32(o: u32, j: u32, v: u32, x: u32)
    requires v == Difference32(o, j) && x == Difference32(o, v) && 1 <= j <= 35
    ensures x == j
  {
  }

  lemma DownIsNear32(o: u32, j: u32, v: u32)
    requires 1 <= j <= 35 && v == Difference32(o, j)
    ensures Within32(o, v)
  {
    var up, down := Difference32(v, o), Difference32(o, v);
    DownDistance32(o, j, v, down);
    WithinIsDistance32(o, v, up, down);
  }

  lemma NearIsStepped32(o: u32, v: u32, up: u32, down: u32)
    requires up == Difference32(v, o) && down == Difference32(o, v) && 1 <= up && 1 <= down && (up <= 35 || down <= 35)
    ensures (1 <= up <= 35 && v == Sum32(o, up)) || (1 <= down <= 35 && v == Difference32(o, down))
  {
    if up <= 35 { DistanceUp32(o, v, up); } else { DistanceDown32(o, v, down); }
  }

  lemma NearIsUp32(o: u32, v: u32, up: u32, down: u32)
    requires up == Difference32(v, o) && down == Difference32(o, v) && v != o && Within32(o, v)
    ensures (1 <= up <= 35 && v == Sum32(o, up)) || (1 <= down <= 35 && v == Difference32(o, down))
  {
    WithinIsDistance32(o, v, up, down);
    NoDistance32(o, v, up);
    NoDistance32(v, o, down);
    NearIsStepped32(o, v, up, down);
  }

  lemma BigUpIsNear32(o: u32, j: u32, v: u32, x: u32, y: u32)
    requires 1 <= j <= 35 && x == Swap32(o) && y == Sum32(x, j) && v == Swap32(y)
    ensures Within32(x, Swap32(v))
  {
    SwapBack32(y, v, Swap32(v));
    UpIsNear32(x, j, y);
  }

  lemma BigDownIsNear32(o: u32, j: u32, v: u32, x: u32, y: u32)
    requires 1 <= j <= 35 && x == Swap32(o) && y == Difference32(x, j) && v == Swap32(y)
    ensures Within32(x, Swap32(v))
  {
    SwapBack32(y, v, Swap32(v));
    DownIsNear32(x, j, y);
  }

  lemma StepIsNear32(way: Way, o: u32, j: u32, v: u32)
    requires 1 <= j <= 35 && v == Stepped32(way, o, j)
    ensures NearWords(o, v)
  {
    match way
    case Up => UpIsNear32(o, j, v);
    case Down => DownIsNear32(o, j, v);
    case BigUp => BigUpIsNear32(o, j, v, Swap32(o), Sum32(Swap32(o), j));
    case BigDown => BigDownIsNear32(o, j, v, Swap32(o), Difference32(Swap32(o), j));
  }

  lemma UpIsStep32(o: u32, j: u32, v: u32)
    requires v == Sum32(o, j)
    ensures v == Stepped32(Up, o, j)
  {
  }

  lemma DownIsStep32(o: u32, j: u32, v: u32)
    requires v == Difference32(o, j)
    ensures v == Stepped32(Down, o, j)
  {
  }

  lemma LittleStep32(o: u32, v: u32, up: u32, down: u32) returns (way: Way, j: u32)
    requires (1 <= up <= 35 && v == Sum32(o, up)) || (1 <= down <= 35 && v == Difference32(o, down))
    ensures 1 <= j <= 35 && v == Stepped32(way, o, j)
  {
    if 1 <= up <= 35 && v == Sum32(o, up) {
      UpIsStep32(o, up, v);
      return Up, up;
    } else {
      DownIsStep32(o, down, v);
      return Down, down;
    }
  }

  lemma SwapDiffers32(o: u32, v: u32, x: u32, y: u32)
    requires x == Swap32(o) && y == Swap32(v) && v != o
    ensures x != y && v == Swap32(y)
  {
  }

  lemma BigUpIsStep32(o: u32, j: u32, v: u32, x: u32, y: u32)
    requires x == Swap32(o) && y == Sum32(x, j) && v == Swap32(y)
    ensures v == Stepped32(BigUp, o, j)
  {
  }

  lemma BigDownIsStep32(o: u32, j: u32, v: u32, x: u32, y: u32)
    requires x == Swap32(o) && y == Difference32(x, j) && v == Swap32(y)
    ensures v == Stepped32(BigDown, o, j)
  {
  }

  lemma BigStep32(o: u32, v: u32, x: u32, y: u32, up: u32, down: u32) returns (way: Way, j: u32)
    requires x == Swap32(o) && v == Swap32(y)
    requires (1 <= up <= 35 && y == Sum32(x, up)) || (1 <= down <= 35 && y == Difference32(x, down))
    ensures 1 <= j <= 35 && v == Stepped32(way, o, j)
  {
    if 1 <= up <= 35 && y == Sum32(x, up) {
      BigUpIsStep32(o, up, v, x, y);
      return BigUp, up;
    } else {
      BigDownIsStep32(o, down, v, x, y);
      return BigDown, down;
    }
  }

  lemma NearIsStep32(o: u32, v: u32) returns (way: Way, j: u32)
    requires v != o && NearWords(o, v)
    ensures 1 <= j <= 35 && v == Stepped32(way, o, j)
  {
    if Within32(o, v) {
      var up, down := Difference32(v, o), Difference32(o, v);
      NearIsUp32(o, v, up, down);
      way, j := LittleStep32(o, v, up, down);
    } else {
      var x, y := Swap32(o), Swap32(v);
      SwapDiffers32(o, v, x, y);
      var up, down := Difference32(y, x), Difference32(x, y);
      NearIsUp32(x, y, up, down);
      way, j := BigStep32(o, v, x, y, up, down);
    }
  }

  lemma Filtered32Is(o: u32, u: u32, skip: bool, v: u32, flip: bool)
    requires flip == FlipPattern(o ^ v) && Put(Store32(v)) == Filtered32(o, u, skip)
    ensures v == u && !skip && !flip
  {
    var w, x := Store32(v), Store32(u);
    assert w == x;
    assert v == Load32(w[0], w[1], w[2], w[3]) == u;
  }

  lemma OfTwo(x: Try, a: Try, b: Try)
    requires x in [a, b]
    ensures x == a || x == b
  {
  }

  /** What arith 32/8 tries: values near by, with changes in both halves, that are not taken for flips. */
  predicate Tryable32(x: u32, v: u32) { NearWords(x, v) && BothHalvesChange(x ^ v) && !FlipPattern(x ^ v) }

  lemma CarryIsTryable(way: Way, o: u32, j: u32, v: u32)
    requires 1 <= j <= 35 && v == Stepped32(way, o, j) && Carries32(way, o, j) && !FlipPattern(o ^ v)
    ensures Tryable32(o, v)
  {
    CarriesIffBothHalvesChange(way, o, j, v, o ^ v);
    StepIsNear32(way, o, j, v);
  }

  lemma UpTried(o: u32, j: u32, v: u32)
    requires 1 <= j <= 35 && Put(Store32(v)) == Filtered32(o, o + j, (o & 0xffff) + j <= 0xffff)
    ensures Tryable32(o, v)
  {
    Filtered32Is(o, o + j, (o & 0xffff) + j <= 0xffff, v, FlipPattern(o ^ v));
    CarryIsTryable(Up, o, j, v);
  }

  lemma DownTried(o: u32, j: u32, v: u32)
    requires 1 <= j <= 35 && Put(Store32(v)) == Filtered32(o, o - j, o & 0xffff >= j)
    ensures Tryable32(o, v)
  {
    Filtered32Is(o, o - j, o & 0xffff >= j, v, FlipPattern(o ^ v));
    CarryIsTryable(Down, o, j, v);
  }

  lemma BigTried(way: Way, o: u32, j: u32, v: u32, r: u32, m: bool)
    requires r == Stepped32(way, o, j) && m == !Carries32(way, o, j)
    requires 1 <= j <= 35 && Put(Store32(v)) == Filtered32(o, r, m)
    ensures Tryable32(o, v)
  {
    Filtered32Is(o, r, m, v, FlipPattern(o ^ v));
    CarryIsTryable(way, o, j, v);
  }

  lemma BigUpForm(o: u32, j: u32, r: u32, m: bool)
    requires r == Swap32(Sum32(Swap32(o), j)) && m == ((Swap32(o) & 0xffff) + j <= 0xffff)
    ensures r == Stepped32(BigUp, o, j) && m == !Carries32(BigUp, o, j)
  {
  }

  lemma BigDownForm(o: u32, j: u32, t: u32, n: bool)
    requires t == Swap32(Difference32(Swap32(o), j)) && n == (Swap32(o) & 0xffff >= j)
    ensures t == Stepped32(BigDown, o, j) && n == !Carries32(BigDown, o, j)
  {
  }

  lemma BigUpTried(o: u32, j: u32, v: u32, s: u32, r: u32, m: bool)
    requires s == Swap32(o) && r == Swap32(Sum32(s, j)) && m == ((s & 0xffff) + j <= 0xffff)
    requires 1 <= j <= 35 && Put(Store32(v)) == Filtered32(o, r, m)
    ensures Tryable32(o, v)
  {
    BigUpForm(o, j, r, m);
    BigTried(BigUp, o, j, v, r, m);
  }

  lemma BigDownTried(o: u32, j: u32, v: u32, s: u32, t: u32, n: bool)
    requires s == Swap32(o) && t == Swap32(Difference32(s, j)) && n == (s & 0xffff >= j)
    requires 1 <= j <= 35 && Put(Store32(v)) == Filtered32(o, t, n)
    ensures Tryable32(o, v)
  {
    BigDownForm(o, j, t, n);
    BigTried(BigDown, o, j, v, t, n);
  }

  lemma LowTried(o: u32, j: u32, v: u32)
    requires 1 <= j <= 35 && Put(Store32(v)) in Arith32Low(o, j)
    ensures Tryable32(o, v)
  {
    OfTwo(Put(Store32(v)), Arith32Low(o, j)[0], Arith32Low(o, j)[1]);
    if Put(Store32(v)) == Arith32Low(o, j)[0] { UpTried(o, j, v); } else { DownTried(o, j, v); }
  }

  lemma HighTried(o: u32, j: u32, v: u32, s: u32, r: u32, m: bool, t: u32, n: bool)
    requires s == Swap32(o) && 1 <= j <= 35 && Put(Store32(v)) in Arith32High(o, s, j)
    requires r == Swap32(Sum32(s, j)) && m == ((s & 0xffff) + j <= 0xffff)
    requires t == Swap32(Difference32(s, j)) && n == (s & 0xffff >= j)
    ensures Tryable32(o, v)
  {
    High32Is(o, j, s, r, m, t, n);
    OfTwo(Put(Store32(v)), Filtered32(o, r, m), Filtered32(o, t, n));
    if Put(Store32(v)) == Filtered32(o, r, m) { BigUpTried(o, j, v, s, r, m); } else { BigDownTried(o, j, v, s, t, n); }
  }

  lemma TriedInHigh(o: u32, j: u32, v: u32, s: u32)
    requires s == Swap32(o) && 1 <= j <= 35 && Put(Store32(v)) in Arith32High(o, s, j)
    ensures Tryable32(o, v)
  {
    HighTried(o, j, v, s, Swap32(Sum32(s, j)), (s & 0xffff) + j <= 0xffff, Swap32(Difference32(s, j)), s & 0xffff >= j);
  }

  lemma NumberedStep32(m: nat) returns (j: u32)
    requires 1 <= m <= ARITH_STEPS
    ensures j == m as u32 && 1 <= j <= 35
  {
    j := m as u32;
  }

  lemma Tried32(o: seq<u8>, x: u32, v: u32)
    requires |o| == 4 && x == Load32(o[0], o[1], o[2], o[3]) && Put(Store32(v)) in Tries(Arith32, o)
    ensures NearWords(x, v) && BothHalvesChange(x ^ v) && !FlipPattern(x ^ v)
  {
    var m := FlattenOrigin(ArithSteps(Arith32, o), ARITH_STEPS, Put(Store32(v)));
    var j := NumberedStep32(m);
    InConcatenation(Put(Store32(v)), Arith32Low(x, j), Arith32High(x, Swap32(x), j));
    if Put(Store32(v)) in Arith32Low(x, j) { LowTried(x, j, v); } else { TriedInHigh(x, j, v, Swap32(x)); }
  }

  lemma NoChange32(x: u32, v: u32)
    requires BothHalvesChange(x ^ v)
    ensures v != x
  {
  }

  lemma IsTried32(o: seq<u8>, x: u32, v: u32)
    requires |o| == 4 && x == Load32(o[0], o[1], o[2], o[3])
    requires NearWords(x, v) && BothHalvesChange(x ^ v) && !FlipPattern(x ^ v)
    ensures Put(Store32(v)) in Tries(Arith32, o)
  {
    NoChange32(x, v);
    var way, j := NearIsStep32(x, v);
    CarriesIffBothHalvesChange(way, x, j, v, x ^ v);
    CarryIsTried32(way, x, j, v);
    StepIsTry32(o, x, j, Put(Store32(v)));
  }

  /** For a word arith 32/8 tries exactly the values at most ARITH_MAX away in either byte order that
      change both halves and are not taken for a bit flip. */
  lemma Arith32Has(o: seq<u8>, x: u32, v: u32)
    requires |o| == 4 && x == Load32(o[0], o[1], o[2], o[3])
    ensures Put(Store32(v)) in Tries(Arith32, o) <==>
              (Within32(x, v) || Within32(Swap32(x), Swap32(v)))
              && (x ^ v) & 0xffff != 0 && (x ^ v) & 0xffff_0000 != 0 && !FlipPattern(x ^ v)
  {
    if Put(Store32(v)) in Tries(Arith32, o) {
      Tried32(o, x, v);
    }
    if NearWords(x, v) && BothHalvesChange(x ^ v) && !FlipPattern(x ^ v) {
      IsTried32(o, x, v);
    }
  }
}
