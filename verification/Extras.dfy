/** The dictionary stages of afl-fuzz: tokens written over every position and inserted at every
    position of the file. */
module Extras {
  import opened Redundancy
  import opened Stages
  import opened WordStages
  import opened AutoDict
  import opened Config
  import opened Deterministic

  const MAX_DET_EXTRAS: nat := 200

  /** Is some block under the n bytes from position i on set in the effector map? */
  predicate SpanEffective(eff: seq<bool>, i: nat, n: nat)
    requires n > 0 && (i + n - 1) / 8 < |eff|
  {
    true in eff[i / 8..(i + n - 1) / 8 + 1]
  }

  /** Everything a stage over `s` depends on; `dice` holds the positions i and tokens j that
      chance skips. */
  datatype Job = Job(s: Input, toks: seq<seq<u8>>, eff: seq<bool>, dice: set<(nat, nat)>) {
    ghost predicate Valid() {
      && |eff| == EffLen(|s|) && ByLength(toks)
      && forall j :: 0 <= j < |toks| ==> 0 < |toks[j]| <= MAX_DICT_FILE
    }

    /** May token j be tried at position i at all? */
    predicate Eligible(i: nat, j: nat)
      requires i < |s| && j < |toks| && |toks[j]| > 0 && |eff| == EffLen(|s|)
    {
      (i, j) !in dice && |toks[j]| <= |s| - i && SpanEffective(eff, i, |toks[j]|)
    }
  }

  // ---------- Writing over ----------

  /** After some tokens at one position: the files run and the last token written. */
  datatype Progress = Progress(runs: seq<Input>, last: seq<u8>)

  /** The first n tokens at position i: a token that is already there is not run. */
  ghost function OverAt(job: Job, i: nat, n: nat): (r: Progress)
    requires job.Valid() && i < |job.s| && n <= |job.toks|
    ensures |r.runs| <= n && i + |r.last| <= |job.s|
    ensures n > 0 ==> |r.last| <= |job.toks[n - 1]|
    ensures n == 0 ==> r.last == []
  {
    if n == 0 then Progress([], [])
    else
      var before, tok := OverAt(job, i, n - 1), job.toks[n - 1];
      if job.Eligible(i, n - 1) && Overwrite(job.s, i, before.last)[i..i + |tok|] != tok
      then Progress(before.runs + [Overwrite(job.s, i, tok)], tok)
      else before
  }

  /** All tokens at the positions before i. */
  ghost function OverRuns(job: Job, i: nat): seq<Input>
    requires job.Valid() && i <= |job.s|
  {
    if i == 0 then [] else OverRuns(job, i - 1) + OverAt(job, i - 1, |job.toks|).runs
  }

  /** No eligible token is missed: writing it over gives a file that is run, or the file itself. */
  lemma EligibleTokensAreRun(job: Job, i: nat, n: nat, j: nat, f: Input)
    requires job.Valid() && i < |job.s| && j < n <= |job.toks| && job.Eligible(i, j)
    requires f == Overwrite(job.s, i, job.toks[j])
    ensures f == job.s || f in OverAt(job, i, n).runs
  {
    LastTokenIsRun(job, i, j, f);
    if f != job.s { RunsGrow(job, i, j + 1, n, f); }
  }

  lemma SpanIsEffective(eff: seq<bool>, i: nat, n: nat)
    requires n > 0 && (i + n - 1) / 8 < |eff|
    ensures SpanEffective(eff, i, n) <==> exists k :: i <= k < i + n && k / 8 < |eff| && eff[k / 8]
  {
    if SpanEffective(eff, i, n) {
      var part := eff[i / 8..(i + n - 1) / 8 + 1];
      var j: nat :| j < |part| && part[j];
      var b := i / 8 + j;
      var k := if 8 * b < i then i else 8 * b;
      assert eff[k / 8] && i <= k < i + n;
    }
    forall k | i <= k < i + n && eff[k / 8] ensures SpanEffective(eff, i, n) {
      assert eff[i / 8..(i + n - 1) / 8 + 1][k / 8 - i / 8] == eff[k / 8];
    }
  }

  lemma {:induction false} RunIsEligible(job: Job, i: nat, n: nat, f: Input) returns (j: nat)
    requires job.Valid() && i < |job.s| && n <= |job.toks| && f in OverAt(job, i, n).runs
    ensures j < n && job.Eligible(i, j) && f == Overwrite(job.s, i, job.toks[j])
  {
    if f in OverAt(job, i, n - 1).runs {
      j := RunIsEligible(job, i, n - 1, f);
    } else {
      j := n - 1;
    }
  }

  ghost predicate AreRuns(parts: seq<seq<Input>>, job: Job) {
    && job.Valid() && |parts| == |job.s|
    && forall i: nat {:trigger OverAt(job, i, |job.toks|)} :: i < |parts| ==> OverAt(job, i, |job.toks|).runs == parts[i]
  }

  lemma OneMorePart(job: Job, parts: seq<seq<Input>>, n: nat)
    requires AreRuns(parts, job) && n < |parts|
    ensures OverRuns(job, n + 1) == OverRuns(job, n) + parts[n]
  {
    assert OverAt(job, n, |job.toks|).runs == parts[n];
  }

  lemma {:induction false} OverRunsAreParts(job: Job, parts: seq<seq<Input>>, n: nat)
    requires AreRuns(parts, job) && n <= |parts|
    ensures OverRuns(job, n) == Concatenated(parts, n)
  {
    if n > 0 {
      OverRunsAreParts(job, parts, n - 1);
      OneMorePart(job, parts, n - 1);
    }
  }

  ghost function RunsAt(job: Job): (parts: seq<seq<Input>>)
    requires job.Valid()
    ensures AreRuns(parts, job)
  {
    seq(|job.s|, i requires 0 <= i < |job.s| => OverAt(job, i, |job.toks|).runs)
  }

  /** f is the file with token j written over it at position i: chance did not skip it, it fits, and some
      byte under it has an effect. */
  ghost predicate IsWritten(job: Job, f: Input, i: nat, j: nat) {
    && i < |job.s| && j < |job.toks| && (i, j) !in job.dice && i + |job.toks[j]| <= |job.s|
    && (exists k :: i <= k < i + |job.toks[j]| && k / 8 < |job.eff| && job.eff[k / 8])
    && f == job.s[..i] + job.toks[j] + job.s[i + |job.toks[j]|..]
  }

  lemma RunIsWritten(job: Job, parts: seq<seq<Input>>, f: Input) returns (i: nat, j: nat)
    requires AreRuns(parts, job) && f in OverRuns(job, |job.s|)
    ensures IsWritten(job, f, i, j)
  {
    OverRunsAreParts(job, parts, |parts|);
    i := InPart(parts, |parts|, f);
    assert OverAt(job, i, |job.toks|).runs == parts[i];
    j := RunIsEligible(job, i, |job.toks|, f);
    SpanIsEffective(job.eff, i, |job.toks[j]|);
  }

  lemma WrittenIsRun(job: Job, parts: seq<seq<Input>>, f: Input, i: nat, j: nat)
    requires AreRuns(parts, job) && IsWritten(job, f, i, j) && f != job.s
    ensures f in OverRuns(job, |job.s|)
  {
    SpanIsEffective(job.eff, i, |job.toks[j]|);
    EligibleTokensAreRun(job, i, |job.toks|, j, f);
    assert OverAt(job, i, |job.toks|).runs == parts[i];
    PartIsConcatenated(parts, |parts|, i, f);
    OverRunsAreParts(job, parts, |parts|);
  }

  /** Of the files that differ from the original the stage runs exactly these. */
  lemma OverwritesExactly(job: Job, f: Input)
    requires job.Valid() && f != job.s
    ensures f in OverRuns(job, |job.s|) <==> exists i: nat, j: nat :: IsWritten(job, f, i, j)
  {
    var parts := RunsAt(job);
    if f in OverRuns(job, |job.s|) {
      var i, j := RunIsWritten(job, parts, f);
    }
    forall i: nat, j: nat | IsWritten(job, f, i, j) ensures f in OverRuns(job, |job.s|) {
      WrittenIsRun(job, parts, f, i, j);
    }
  }

  lemma RunsGrow(job: Job, i: nat, m: nat, n: nat, f: Input)
    requires job.Valid() && i < |job.s| && m <= n <= |job.toks| && f in OverAt(job, i, m).runs
    ensures f in OverAt(job, i, n).runs
  {
    for k := m to n
      invariant f in OverAt(job, i, k).runs
    {
      RunsStay(job, i, k + 1, f);
    }
  }

  lemma LastTokenIsRun(job: Job, i: nat, j: nat, f: Input)
    requires job.Valid() && i < |job.s| && j < |job.toks| && job.Eligible(i, j)
    requires f == Overwrite(job.s, i, job.toks[j])
    ensures f == job.s || f in OverAt(job, i, j + 1).runs
  {
    var before, tok := OverAt(job, i, j), job.toks[j];
    if Overwrite(job.s, i, before.last)[i..i + |tok|] == tok {
      LastIsRun(job, i, j);
      AlreadyThere(job.s, i, before.last, tok);
      if f != job.s { RunsStay(job, i, j + 1, f); }
    }
  }

  lemma RunsStay(job: Job, i: nat, n: nat, f: Input)
    requires job.Valid() && i < |job.s| && 0 < n <= |job.toks| && f in OverAt(job, i, n - 1).runs
    ensures f in OverAt(job, i, n).runs
  {
  }

  lemma AlreadyThere(s: Input, i: nat, last: seq<u8>, tok: seq<u8>)
    requires |last| <= |tok| && i + |tok| <= |s| && Overwrite(s, i, last)[i..i + |tok|] == tok
    ensures Overwrite(s, i, tok) == Overwrite(s, i, last)
  {
    LongerCovers(s, i, last, tok);
    var cur := Overwrite(s, i, last);
    assert cur == cur[..i] + tok + cur[i + |tok|..];
  }

  lemma {:induction false} LastIsRun(job: Job, i: nat, n: nat)
    requires job.Valid() && i < |job.s| && n <= |job.toks|
    ensures Overwrite(job.s, i, OverAt(job, i, n).last) == job.s
         || Overwrite(job.s, i, OverAt(job, i, n).last) in OverAt(job, i, n).runs
  {
    if n == 0 {
      assert Overwrite(job.s, i, []) == job.s;
    } else {
      LastIsRun(job, i, n - 1);
    }
  }

  /** Why the order by length matters: a longer token hides a shorter one completely. */
  lemma LongerCovers(s: Input, i: nat, short: seq<u8>, long: seq<u8>)
    requires |short| <= |long| && i + |long| <= |s|
    ensures Overwrite(Overwrite(s, i, short), i, long) == Overwrite(s, i, long)
  {
  }

  // ---------- Writing over, in place ----------

  /** The bench after the first n tokens at position i, counted from log `before` and counters
      `cur` and `max`. */
  ghost predicate Writing(b: Bench, s: Input, i: nat, n: nat, p: Progress, before: seq<Input>, cur: int, max: int)
    reads b, b.outBuf
  {
    && b.outBuf[..] == Overwrite(s, i, p.last)
    && b.log == before + p.runs
    && b.stageCur == cur + |p.runs| && b.stageMax == max - (n - |p.runs|)
  }

  /** `steps` holds the progress after each number of tokens. */
  ghost predicate AreSteps(steps: seq<Progress>, job: Job, i: nat) {
    && job.Valid() && i < |job.s| && |steps| == |job.toks| + 1
    && forall n: nat {:trigger OverAt(job, i, n)} :: n < |steps| ==> OverAt(job, i, n) == steps[n]
  }

  ghost function StepsAt(job: Job, i: nat): (steps: seq<Progress>)
    requires job.Valid() && i < |job.s|
    ensures AreSteps(steps, job, i)
  {
    seq(|job.toks| + 1, n requires 0 <= n <= |job.toks| => OverAt(job, i, n))
  }

  /** Token j at position i.  `lastLen` is the length of the last token written. */
  method TryToken(b: Bench, i: nat, j: nat, tok: seq<u8>, eff: seq<bool>, dice: set<(nat, nat)>, lastLen: nat,
                  ghost job: Job, ghost steps: seq<Progress>, ghost before: seq<Input>, ghost cur: int, ghost max: int)
    returns (abandon: bool, lastLen': nat)
    requires AreSteps(steps, job, i) && job.eff == eff && job.dice == dice && j < |job.toks| && tok == job.toks[j]
    requires Writing(b, job.s, i, j, steps[j], before, cur, max) && lastLen == |steps[j].last|
    modifies b, b.outBuf
    ensures b.Obeyed(|old(b.log)|, abandon)
    ensures !abandon ==> Writing(b, job.s, i, j + 1, steps[j + 1], before, cur, max) && lastLen' == |steps[j + 1].last|
  {
    abandon, lastLen' := false, lastLen;
    assert OverAt(job, i, j) == steps[j] && OverAt(job, i, j + 1) == steps[j + 1];
    if (i, j) in dice || |tok| > b.outBuf.Length - i || b.outBuf[i..i + |tok|] == tok || !SpanEffective(eff, i, |tok|) {
      b.stageMax := b.stageMax - 1;
      return;
    }
    lastLen' := |tok|;
    LongerCovers(job.s, i, steps[j].last, tok);
    Store(b.outBuf, i, tok);
    var cksum;
    abandon, cksum := b.Run(b.outBuf[..]);
    if abandon { return; }
    b.stageCur := b.stageCur + 1;
  }

  /** All tokens at position i, after which the file is restored from the original. */
  method OverwriteAt(b: Bench, inBuf: array<u8>, i: nat, toks: seq<seq<u8>>, eff: seq<bool>, dice: set<(nat, nat)>,
                     ghost job: Job)
    returns (abandon: bool, ghost ran: seq<Input>)
    requires job.Valid() && job == Job(inBuf[..], toks, eff, dice) && i < |job.s|
    requires b.outBuf != inBuf && b.outBuf[..] == job.s
    modifies b, b.outBuf
    ensures b.Obeyed(|old(b.log)|, abandon)
    ensures OverRuns(job, i + 1) == OverRuns(job, i) + ran
    ensures !abandon ==> b.outBuf[..] == job.s && b.log == old(b.log) + ran
    ensures !abandon ==> b.stageCur == old(b.stageCur) + |ran|
    ensures !abandon ==> b.stageMax == old(b.stageMax) - |toks| + |ran|
  {
    var lastLen;
    ghost var steps := StepsAt(job, i);
    ghost var p := OverAt(job, i, |toks|);
    ran := p.runs;
    assert OverAt(job, i, 0) == steps[0];
    abandon, lastLen := TryTokens(b, i, toks, eff, dice, job, steps);
    if abandon { return; }
    RestoreToken(b, inBuf, i, lastLen, job.s, p.last);
  }

  method TryTokens(b: Bench, i: nat, toks: seq<seq<u8>>, eff: seq<bool>, dice: set<(nat, nat)>, ghost job: Job,
                   ghost steps: seq<Progress>)
    returns (abandon: bool, lastLen: nat)
    requires AreSteps(steps, job, i) && job.toks == toks && job.eff == eff && job.dice == dice
    requires b.outBuf[..] == job.s && steps[0] == Progress([], [])
    modifies b, b.outBuf
    ensures b.Obeyed(|old(b.log)|, abandon)
    ensures !abandon ==> Writing(b, job.s, i, |toks|, steps[|toks|], old(b.log), old(b.stageCur), old(b.stageMax))
    ensures !abandon ==> lastLen == |steps[|toks|].last|
  {
    lastLen := 0;
    abandon := false;
    assert Overwrite(job.s, i, []) == job.s;
    for j := 0 to |toks|
      invariant b.Obeyed(|old(b.log)|, false)
      invariant Writing(b, job.s, i, j, steps[j], old(b.log), old(b.stageCur), old(b.stageMax))
      invariant lastLen == |steps[j].last|
    {
      abandon, lastLen :=
        TryToken(b, i, j, toks[j], eff, dice, lastLen, job, steps, old(b.log), old(b.stageCur), old(b.stageMax));
      if abandon { return; }
    }
  }

  method RestoreToken(b: Bench, inBuf: array<u8>, i: nat, lastLen: nat, ghost s: Input, ghost last: seq<u8>)
    requires b.outBuf != inBuf && inBuf[..] == s && i + lastLen <= |s| && lastLen == |last|
    requires b.outBuf[..] == Overwrite(s, i, last)
    modifies b.outBuf
    ensures b.outBuf[..] == s
  {
    LongerCovers(s, i, last, s[i..i + lastLen]);
    Store(b.outBuf, i, inBuf[i..i + lastLen]);
    assert Overwrite(s, i, s[i..i + lastLen]) == s;
  }

  /** The bench when the positions before i are done and the files `ran` were run for them. */
  ghost predicate StageAt(b: Bench, job: Job, i: nat, before: seq<Input>, ran: seq<Input>)
    reads b, b.outBuf
  {
    && i <= |job.s| && b.outBuf[..] == job.s
    && b.log == before + ran
    && b.stageCur == |ran|
    && b.stageMax == Share(|job.toks|, |job.s| - i) + |ran|
  }

  method OverwriteNext(b: Bench, inBuf: array<u8>, i: nat, toks: seq<seq<u8>>, eff: seq<bool>, dice: set<(nat, nat)>,
                       ghost job: Job, ghost before: seq<Input>, ghost ran: seq<Input>)
    returns (abandon: bool, ghost ran': seq<Input>)
    requires job.Valid() && job == Job(inBuf[..], toks, eff, dice) && i < |job.s|
    requires b.outBuf != inBuf && StageAt(b, job, i, before, ran) && ran == OverRuns(job, i)
    modifies b, b.outBuf
    ensures b.Obeyed(|old(b.log)|, abandon)
    ensures !abandon ==> StageAt(b, job, i + 1, before, ran') && ran' == OverRuns(job, i + 1)
  {
    ghost var more;
    abandon, more := OverwriteAt(b, inBuf, i, toks, eff, dice, job);
    ran' := ran + more;
    assert Share(|toks|, |job.s| - i) == |toks| + Share(|toks|, |job.s| - (i + 1));
  }

  /** The stages ext_UO and ext_AO: the file is restored, exactly the files of the job are run, and
      the counters agree with the number of executions. */
  method OverwriteStage(b: Bench, inBuf: array<u8>, toks: seq<seq<u8>>, eff: seq<bool>, dice: set<(nat, nat)>,
                        ghost job: Job)
    returns (abandon: bool)
    requires job.Valid() && job == Job(inBuf[..], toks, eff, dice)
    requires b.outBuf != inBuf && b.outBuf[..] == job.s
    modifies b, b.outBuf
    ensures b.Obeyed(|old(b.log)|, abandon)
    ensures !abandon ==> b.Complete(job.s, old(b.log), OverRuns(job, |job.s|))
  {
    b.stageCur, b.stageMax := 0, |toks| * b.outBuf.Length;
    ShareIsProduct(|toks|, b.outBuf.Length);
    abandon := false;
    ghost var ran: seq<Input> := [];
    for i := 0 to b.outBuf.Length
      invariant b.Obeyed(|old(b.log)|, false)
      invariant StageAt(b, job, i, old(b.log), ran) && ran == OverRuns(job, i)
    {
      abandon, ran := OverwriteNext(b, inBuf, i, toks, eff, dice, job, old(b.log), ran);
      if abandon { return; }
    }
  }

  /** User tokens: beyond MAX_DET_EXTRAS of them, chance skips some. */
  method OverwriteUserExtras(b: Bench, inBuf: array<u8>, extras: seq<seq<u8>>, eff: seq<bool>, unlucky: set<(nat, nat)>,
                             ghost job: Job)
    returns (abandon: bool)
    requires job.Valid() && job == Job(inBuf[..], extras, eff, if |extras| > MAX_DET_EXTRAS then unlucky else {})
    requires b.outBuf != inBuf && b.outBuf[..] == job.s
    modifies b, b.outBuf
    ensures b.Obeyed(|old(b.log)|, abandon)
    ensures !abandon ==> b.Complete(job.s, old(b.log), OverRuns(job, |job.s|))
  {
    abandon := OverwriteStage(b, inBuf, extras, eff, if |extras| > MAX_DET_EXTRAS then unlucky else {}, job);
  }

  /** The tokens of the automatic table that are in use. */
  function UsedTokens(aExtras: seq<Extra>): seq<seq<u8>> {
    seq(InUse(|aExtras|), k requires 0 <= k < InUse(|aExtras|) => aExtras[k].data)
  }

  /** Automatic tokens: the arrangement of the table puts those in use in order of length. */
  method OverwriteAutoExtras(b: Bench, inBuf: array<u8>, aExtras: seq<Extra>, eff: seq<bool>, ghost job: Job)
    returns (abandon: bool)
    requires Arranged(aExtras) && |eff| == EffLen(inBuf.Length)
    requires forall k :: 0 <= k < |aExtras| ==> 0 < |aExtras[k].data| <= MAX_DICT_FILE
    requires job == Job(inBuf[..], UsedTokens(aExtras), eff, {})
    requires b.outBuf != inBuf && b.outBuf[..] == job.s
    modifies b, b.outBuf
    ensures b.Obeyed(|old(b.log)|, abandon)
    ensures job.Valid()
    ensures !abandon ==> b.Complete(job.s, old(b.log), OverRuns(job, |job.s|))
  {
    abandon := OverwriteStage(b, inBuf, UsedTokens(aExtras), eff, {}, job);
  }

  // ---------- Inserting ----------

  /** The files run for the first n tokens at position i. */
  function InsertAt(s: Input, toks: seq<seq<u8>>, i: nat, n: nat): (r: seq<Input>)
    requires i <= |s| && n <= |toks|
    ensures |r| <= n
  {
    if n == 0 then []
    else
      InsertAt(s, toks, i, n - 1) +
        if |s| + |toks[n - 1]| > MAX_FILE then [] else [Inserted(s, i, toks[n - 1])]
  }

  /** The files run for the positions before i. */
  function InsertRuns(s: Input, toks: seq<seq<u8>>, i: nat): seq<Input>
    requires i <= |s| + 1
  {
    if i == 0 then [] else InsertRuns(s, toks, i - 1) + InsertAt(s, toks, i - 1, |toks|)
  }

  /** f is the file with token j inserted at position i, and not too long. */
  ghost predicate IsInserted(s: Input, toks: seq<seq<u8>>, f: Input, i: nat, j: nat) {
    i <= |s| && j < |toks| && |s| + |toks[j]| <= 0x10_0000 && f == s[..i] + toks[j] + s[i..]
  }

  lemma {:induction false} InInsertAt(s: Input, toks: seq<seq<u8>>, f: Input, i: nat, n: nat)
    requires i <= |s| && n <= |toks|
    ensures f in InsertAt(s, toks, i, n) <==> exists j: nat :: j < n && IsInserted(s, toks, f, i, j)
  {
    if n > 0 {
      InInsertAt(s, toks, f, i, n - 1);
      assert f in InsertAt(s, toks, i, n) <==> f in InsertAt(s, toks, i, n - 1) || IsInserted(s, toks, f, i, n - 1);
    }
  }

  lemma {:induction false} InInsertRuns(s: Input, toks: seq<seq<u8>>, f: Input, n: nat)
    requires n <= |s| + 1
    ensures f in InsertRuns(s, toks, n) <==> exists i: nat, j: nat :: i < n && IsInserted(s, toks, f, i, j)
  {
    if n > 0 {
      InInsertRuns(s, toks, f, n - 1);
      InInsertAt(s, toks, f, n - 1, |toks|);
      assert f in InsertRuns(s, toks, n) <==> f in InsertRuns(s, toks, n - 1) || f in InsertAt(s, toks, n - 1, |toks|);
    }
  }

  /** The stage runs exactly these. */
  lemma InsertsExactly(s: Input, toks: seq<seq<u8>>, f: Input)
    ensures f in InsertRuns(s, toks, |s| + 1) <==> exists i: nat, j: nat :: IsInserted(s, toks, f, i, j)
  {
    InInsertRuns(s, toks, f, |s| + 1);
  }

  /** Token and tail go behind the head that is already in the scratch buffer. */
  method TryInsertion(b: Bench, exTmp: array<u8>, i: nat, tok: seq<u8>) returns (abandon: bool)
    requires exTmp != b.outBuf && i <= b.outBuf.Length && |tok| <= MAX_DICT_FILE
    requires exTmp.Length == b.outBuf.Length + MAX_DICT_FILE && exTmp[..i] == b.outBuf[..i]
    modifies exTmp, b
    ensures b.Obeyed(|old(b.log)|, abandon)
    ensures exTmp[..i] == old(exTmp[..i])
    ensures b.outBuf.Length + |tok| > MAX_FILE ==> !abandon
    ensures !abandon ==>
      var ran := if b.outBuf.Length + |tok| > MAX_FILE then [] else [Inserted(b.outBuf[..], i, tok)];
      && b.log == old(b.log) + ran
      && b.stageCur == old(b.stageCur) + |ran| && b.stageMax == old(b.stageMax) - (1 - |ran|)
  {
    abandon := false;
    var len := b.outBuf.Length;
    if len + |tok| > MAX_FILE {
      b.stageMax := b.stageMax - 1;
      return;
    }
    Store(exTmp, i, tok);
    assert exTmp[..i] == b.outBuf[..i] && exTmp[i..i + |tok|] == tok;
    Store(exTmp, i + |tok|, b.outBuf[i..]);
    assert exTmp[..i] == b.outBuf[..i] && exTmp[i..i + |tok|] == tok && exTmp[i + |tok|..len + |tok|] == b.outBuf[i..];
    assert exTmp[..len + |tok|] == Inserted(b.outBuf[..], i, tok);
    var cksum;
    abandon, cksum := b.Run(exTmp[..len + |tok|]);
    if abandon { return; }
    b.stageCur := b.stageCur + 1;
  }

  method InsertTokensAt(b: Bench, exTmp: array<u8>, i: nat, toks: seq<seq<u8>>) returns (abandon: bool)
    requires exTmp != b.outBuf && i <= b.outBuf.Length
    requires forall j :: 0 <= j < |toks| ==> |toks[j]| <= MAX_DICT_FILE
    requires exTmp.Length == b.outBuf.Length + MAX_DICT_FILE && exTmp[..i] == b.outBuf[..i]
    modifies exTmp, b
    ensures b.Obeyed(|old(b.log)|, abandon)
    ensures exTmp[..i] == old(exTmp[..i])
    ensures !abandon ==> b.log == old(b.log) + InsertAt(b.outBuf[..], toks, i, |toks|)
    ensures !abandon ==> b.stageCur == old(b.stageCur) + |InsertAt(b.outBuf[..], toks, i, |toks|)|
    ensures !abandon ==> b.stageMax == old(b.stageMax) - |toks| + |InsertAt(b.outBuf[..], toks, i, |toks|)|
  {
    abandon := false;
    ghost var s := b.outBuf[..];
    for j := 0 to |toks|
      invariant b.Obeyed(|old(b.log)|, false)
      invariant exTmp[..i] == old(exTmp[..i])
      invariant b.log == old(b.log) + InsertAt(s, toks, i, j)
      invariant b.stageCur == old(b.stageCur) + |InsertAt(s, toks, i, j)|
      invariant b.stageMax == old(b.stageMax) - j + |InsertAt(s, toks, i, j)|
    {
      abandon := TryInsertion(b, exTmp, i, toks[j]);
      if abandon { return; }
    }
  }

  /** The bench when the positions before i are done, and the head that the scratch buffer holds. */
  ghost predicate InsertedUpTo(b: Bench, exTmp: array<u8>, s: Input, toks: seq<seq<u8>>, i: nat, before: seq<Input>)
    requires i <= |s| + 1
    reads b, b.outBuf, exTmp
  {
    var ran, head: nat := InsertRuns(s, toks, i), if i > |s| then |s| else i;
    && b.outBuf[..] == s && exTmp != b.outBuf && exTmp.Length == |s| + MAX_DICT_FILE
    && exTmp[..head] == s[..head]
    && b.log == before + ran
    && b.stageCur == |ran|
    && b.stageMax + |toks| == Share(|toks|, |s| + 1 - i) + |ran|
  }

  method InsertNext(b: Bench, exTmp: array<u8>, toks: seq<seq<u8>>, i: nat, ghost s: Input, ghost before: seq<Input>)
    returns (abandon: bool)
    requires i <= |s| && InsertedUpTo(b, exTmp, s, toks, i, before)
    requires forall j :: 0 <= j < |toks| ==> |toks[j]| <= MAX_DICT_FILE
    modifies b, exTmp
    ensures b.Obeyed(|old(b.log)|, abandon)
    ensures !abandon ==> InsertedUpTo(b, exTmp, s, toks, i + 1, before)
  {
    abandon := InsertTokensAt(b, exTmp, i, toks);
    if abandon { return; }
    if i < b.outBuf.Length {
      exTmp[i] := b.outBuf[i];
      assert exTmp[..i + 1] == s[..i] + [s[i]] == s[..i + 1];
    }
  }

  /** The stage ext_UI.  Its maximum is computed for one position too few: it ends with more
      executions than announced, by exactly the number of tokens. */
  method InsertStage(b: Bench, toks: seq<seq<u8>>) returns (abandon: bool)
    requires forall j :: 0 <= j < |toks| ==> |toks[j]| <= MAX_DICT_FILE
    modifies b
    ensures b.Obeyed(|old(b.log)|, abandon)
    ensures !abandon ==>
      var ran := InsertRuns(b.outBuf[..], toks, b.outBuf.Length + 1);
      b.log == old(b.log) + ran && b.stageCur == |ran| == b.stageMax + |toks|
  {
    var len := b.outBuf.Length;
    ghost var s := b.outBuf[..];
    b.stageCur, b.stageMax := 0, |toks| * len;
    ShareIsProduct(|toks|, len);
    var exTmp := new u8[len + MAX_DICT_FILE];
    abandon := false;
    for i := 0 to len + 1
      invariant b.Obeyed(|old(b.log)|, false)
      invariant InsertedUpTo(b, exTmp, s, toks, i, old(b.log))
    {
      abandon := InsertNext(b, exTmp, toks, i, s, old(b.log));
      if abandon { return; }
    }
  }
}
