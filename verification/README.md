# A verified model of AFL and of DAFL's proximity scheduling

DAFL is AFL 2.57b with a seed queue that is ordered by a proximity score taken from a data-flow
graph. This project models the parts of the fuzzer and of its companion tools that have state worth
an invariant, and proves what they promise.

- **Seed scheduling** (`Scheduler`, `Queue`): the queue as a linked list in descending order of score,
  the index with every hundredth entry, the cache of the first unhandled entry, the start of a session
  and the main loop.
- **Coverage bookkeeping** (`Coverage`, `SaveCase`, `TopRated`): virgin maps, the scans that look at
  eight bytes at a time, what is queued and which crashes and hangs are kept, the best entry for every
  map index with reference counts, and the greedy favoured set with its counters.
- **Both together** (`FuzzLoop`): a session whose finds feed the queue, so that the bounds on cycles
  hold without assumptions about what is found.
- **Minimizers** (`Tmin`, `TminRun`, `TminMeaning`, `Trim`, `Sweeps`): the delta-debugging loops of afl-tmin
  and of the trimmer, and what they decide about every block, symbol and character.
- **Mutation** (`Redundancy`, `AutoTokens`, `AutoDict`, `Stages`, `WordStages`, `Deterministic`,
  `WordValues`, `WordFilters`, `WordLosses`, `WordTries`, `BuiltIns`, `Extras`, `Mutations`, `Havoc`):
  the deterministic stages with their filters, effector map and token detector, the two dictionaries,
  the random stage and splicing.
- **Fork server** (`ForkServer`): fuzzer, server, persistent children and timer as a step relation.
- **Smaller tools** (`TokenCap`, `Dislocator`, `Dfg`): the token printer and the dictionary parser that
  reads what it prints, the guard-page allocator, and the way of a proximity score from the graph
  through the instrumented blocks to the fuzzer.

`Config`, `Bytes` and `Text` hold shared constants, C arithmetic, block copies and character classes.

## How things are represented

Where the program changes things in place, the model does: buffers are arrays, the queue is a chain of
objects, counters are fields. Each such method is proved against a function or a predicate on values,
and the theorems are lemmas about those. Everything the target program does is a parameter: an oracle
(`keep` in afl-tmin, `Target` in the trimmer) where the program treats it as deterministic, and an
arbitrary stream of outcomes (`world` in the deterministic stages) where nothing need be assumed.
The answers of `random` in the random stage are an arbitrary stream of numbers (`Env.dice`), reduced
below the limit as `UR` does; where C leaves open in which order two random numbers of one statement are
drawn, the model draws the value first. The rolls that make a dictionary stage skip a token are an
arbitrary set (`unlucky`, `dice`). The answer of the kernel to a request for pages, and the
outcomes and traces of calibration and confirmation runs, are arguments. A ghost field holds the
abstract value of a class.

Bytes are the newtype `byte` where only their value matters and `bv8` (`u8`) where bits do. A word of
2 or 4 bytes is the sequence of its bytes in memory, lowest first, as on the machines AFL's casts
assume. Sums that may wrap are written with an explicit modulus.

The word stages first decide about all candidates of a position and then run them; the original decides
about each just before it runs it. The two agree because the decision depends on the original bytes
only.

## Findings

- afl-tmin may leave by the early exit after a pass that deleted nothing. Its result then still admits
  no deletion of a single byte, but a byte that could be replaced by '0' may be left
  (`Tmin.EarlyExitNeedNotBeCharMinimal`). It is fully minimal for every input if the oracle never
  rejects an accepted file because bytes set to '0' are put back
  (`Tmin.SafeOracleIsFullyMinimized`). For any oracle the result falls short exactly if the loop was left
  by that exit and the two stages it skips would have changed the file
  (`Tmin.FullyMinimizedUnlessSkipped`).
- `sort_queue` leaves the cache of the first unhandled entry set. In the first cycle the head is
  therefore fuzzed twice exactly when the first time queues nothing (`Scheduler.SortedStartRepeatsHead`).
- The lookup of a splicing target by its number finds that entry exactly if the number is below 102400;
  from there on it counts past the end of the queue (`Queue.LookupIsExact`, `Queue.LookupRunsOff`).
- With the arithmetic stages off, interest 8/8 still skips the values that arithmetic would have
  tried, so that they are never tried at all (`Deterministic.Interest8WithoutArith`,
  `Deterministic.LostInterestingValue`).
- The bit-flip filter is meant to leave out what a flip has run. For single bytes it is exact
  (`Deterministic.FlipFilterIsExact`). In a half word it also takes four changes that straddle the two
  bytes for flips, because walking flips go from the highest bit of each byte while half words are
  stored low byte first (`WordFilters.FlipFilter16`). No deterministic stage ever runs these
  (`WordFilters.StraddlersAreNeverRun`). Of the steps of arith 16/8 and 32/8 at effective bytes
  exactly those by 32 that carry from 7 to 8, or back, in the bits above the fifth are lost
  (`WordFilters.Arith16LosesOnlyStraddlers`, `WordLosses.Arith32LosesOnlyStraddlers`), such as the one
  from 224 to 256 (`WordFilters.LostStep`). Of the built-in values of 16 and 32 bits at effective bytes
  exactly those are lost whose change straddles two neighbouring bytes in this way
  (`BuiltIns.Interest16LosesOnlyStraddlers`, `BuiltIns.Interest32LosesOnlyStraddlers`).
- The trimmer leaves an entry as it is exactly if no single block of any of its sizes could be left out
  (`Trim.NothingTrimmedIffNoneGoes`).
- The comment of the dictionary parser promises labels with dashes; the code stops at a dash, so that such a
  line is malformed. The model follows the code.
- The stage that inserts user tokens announces one position too few; it ends with more executions than
  its maximum, by exactly the number of tokens (`Extras.InsertStage`).
- The comparison of automatic tokens with the 16-bit built-in values is dead code, because every token
  has at least three bytes (`AutoDict.TokensMeetOnlyWords`). It compares an unsigned number with signed
  ones; of all tokens of two bytes only -128 stored low byte first would escape it
  (`AutoDict.OnlyOneHalfIsMissed`).
- A text token that starts with a NUL is printed as an empty keyword, which the dictionary parser
  rejects; every other printed token is read back (`TokenCap.DumpRoundTrip`).
- The progress display of the trimmer announces one execution too many when the step divides the
  length (`Trim.SweepRunsAgainstMax`).
- A splice never reproduces the current input but reproduces the target exactly when the split falls on
  the first difference (`Havoc.Splice`).

## Model

| member | source | states |
|---|---|---|
| Tmin.MinimizedIsOneMinimal | DAFL/afl-tmin.c:479-642 | for every input and oracle, the oracle rejects the deletion of any single byte of the result, on both exits, and of any aligned block of any power-of-two size up to the largest one tried; on the regular exit it also rejects zeroing any symbol or any character |
| Tmin.MinimizedImproves | DAFL/afl-tmin.c:423-660 | the result is accepted if the input is, is the input with bytes deleted or set to '0', and if it differs its length plus number of bytes other than '0' is smaller |
| Tmin.SkippedBlockIsRejectedCandidate | DAFL/afl-tmin.c:515-521 | removing a block that equals the block before it gives the very candidate that was rejected for that block |
| Tmin.ShortcutIsSound | DAFL/afl-tmin.c:515-521 | the sweep with the skip of repeated blocks computes the same as the sweep without it |
| Tmin.UnchangedSweepIsBlockMinimal | DAFL/afl-tmin.c:502-543 | a sweep that deletes nothing has had every aligned block rejected |
| Tmin.UnchangedDeletionIsMinimal | DAFL/afl-tmin.c:488-550 | a deletion phase that deletes nothing proves minimality for all its block sizes, one included |
| Tmin.PassesAreMinimal | DAFL/afl-tmin.c:479-642 | the minimality of the result from any pass of the loop on |
| Tmin.PassesImprove | DAFL/afl-tmin.c:479-642 | every number of passes keeps the oracle's acceptance and lowers the measure unless nothing changes |
| Tmin.NormalizeImproves | DAFL/afl-tmin.c:445-472 | block normalization keeps acceptance and length, and lowers the measure unless nothing changes |
| Tmin.DeleteAllImproves | DAFL/afl-tmin.c:488-550 | all deletion sweeps together keep acceptance and lower the measure unless nothing changes |
| Tmin.SymbolsImprove | DAFL/afl-tmin.c:577-600 | so does alphabet minimization |
| Tmin.CharsImprove | DAFL/afl-tmin.c:616-635 | so does character minimization |
| Tmin.UnchangedSymbolsAreMinimal | DAFL/afl-tmin.c:577-600 | an alphabet stage without effect has had every symbol rejected |
| Tmin.UnchangedCharsAreMinimal | DAFL/afl-tmin.c:616-635 | a character stage without effect has had every character rejected |
| Tmin.EarlyExitNeedNotBeCharMinimal | DAFL/afl-tmin.c:557 | an oracle and an input for which the early exit leaves a character that could be simplified |
| Tmin.SafeOracleIsFullyMinimized | DAFL/afl-tmin.c:423-660 | if the oracle never rejects what it accepts because bytes set to '0' are put back, the result is minimal for bytes, symbols and characters on both exits, whatever the input |
| Tmin.FullyMinimizedUnlessSkipped | DAFL/afl-tmin.c:423-660 | for any oracle and input: the result is not minimal for symbols and characters exactly if the early exit was taken and the two stages it skips would have changed the result |
| Tmin.SimplifyIdlesIffMinimal | DAFL/afl-tmin.c:564-638 | the two simplifying stages change nothing exactly if the oracle rejects every replacement of a symbol or a character by '0' |
| TminMeaning.MinimizedMeans | DAFL/afl-tmin.c:423-660 | the whole minimizer in terms of the oracle and the bytes: which blocks of which size become '0', which blocks are then deleted, which symbols and characters become '0', and when it ends, with the block sizes as least powers of two of a 128th and a 16th of the length |
| TminMeaning.NormalizeDecides | DAFL/afl-tmin.c:445-472 | every block of stage 0 is all '0' in the result exactly if it was or the oracle accepts it so, with the result before it and the input behind it; otherwise it is unchanged |
| TminMeaning.SweepKeepsNeeded | DAFL/afl-tmin.c:502-543 | a deletion sweep drops a block exactly if the oracle accepts what was kept before it with all that is behind it |
| TminMeaning.DeleteAllDeletes | DAFL/afl-tmin.c:488-550 | the deletion phase is that for blocks of half the size each time, down to one byte |
| TminMeaning.SymbolsDecide | DAFL/afl-tmin.c:577-600 | in ascending order each symbol that occurs is replaced exactly if the oracle accepts that along with the lower ones that were |
| TminMeaning.CharsDecide | DAFL/afl-tmin.c:616-635 | each character becomes '0' exactly if the oracle accepts that with those before it as they have become |
| Sweeps.NothingGoes | DAFL/afl-fuzz.c:4629-4677 | a sweep changes nothing exactly if no single aligned block can go from the file as it is |
| TminRun.NormalizeBlocks | DAFL/afl-tmin.c:440-472 | the in-place stage computes the normalization whose decisions `TminMeaning.NormalizeDecides` states block by block |
| TminRun.DeleteSweep | DAFL/afl-tmin.c:498-543 | the in-place sweep with `prev_del` computes the deletion function and reports a change exactly if it shortened the input |
| TminRun.TryDelete | DAFL/afl-tmin.c:524-541 | the candidate in the scratch buffer is the input without the block; the input becomes it if accepted and stays if not |
| TminRun.DeleteBlocks | DAFL/afl-tmin.c:488-550 | halving block sizes in place computes the deletion phase |
| TminRun.CountSymbols | DAFL/afl-tmin.c:567-573 | the alphabet map counts the occurrences of every byte value |
| TminRun.MinimizeSymbols | DAFL/afl-tmin.c:567-600 | the in-place stage, with the map computed once, is the alphabet function; the change flag is exact |
| TminRun.MinimizeChars | DAFL/afl-tmin.c:616-635 | the in-place stage with two buffers kept in step is the character function; the change flag is exact |
| TminRun.PassCases | DAFL/afl-tmin.c:479-642 | the change flags of the stages decide between the two exits and another pass as comparing contents would, and another pass means a smaller measure |
| TminRun.OnePass | DAFL/afl-tmin.c:479-642 | one pass in place leads to the same final result and exit as the pass function from where it leaves off |
| TminRun.Minimize | DAFL/afl-tmin.c:423-660 | the whole minimizer ends for every oracle and leaves the minimized input in the buffer |
| Bytes.NextP2IsLeastPow2 | DAFL/afl-tmin.c:412-418 | the doubling loop finds the least power of two that is not below its argument |
| Bytes.ComputeNextP2 | DAFL/afl-fuzz.c:4579-4585 | in a 32-bit register the loop ends without wrapping for every argument up to 2^31 |
| Trim.TrimmedIsTrim | DAFL/afl-fuzz.c:4592-4709 | the trimmed entry is a subsequence of the original with the first four bytes intact, not shorter than four bytes unless the original was, and if anything went the checksum is that of the original |
| Trim.SweepTrims | DAFL/afl-fuzz.c:4629-4677 | one sweep keeps everything before its first position and the checksum |
| Trim.RoundsTrim | DAFL/afl-fuzz.c:4620-4681 | all rounds with shrinking steps do |
| Trim.SweepRunsAgainstMax | DAFL/afl-fuzz.c:4627-4677 | a sweep makes floor(len / step) executions whatever their outcome, less one when the step divides the length |
| Trim.TrimmedMeans | DAFL/afl-fuzz.c:4592-4709 | entries below five bytes stay; any other goes through sweeps with steps from a 16th of the least power of two not below its length, at least four, halved down to a 1024th; a block goes exactly if the trace without it has the checksum, and an execution that asks for it ends the trim |
| Trim.SweepKeepsNeeded | DAFL/afl-fuzz.c:4629-4677 | a sweep drops a block exactly if the trace of what was kept before it with all that is behind it has the checksum |
| Trim.NothingTrimmedIffNoneGoes | DAFL/afl-fuzz.c:4592-4709 | the trimmer changes nothing exactly if no block of any of these sizes, at any multiple of the size behind the first, can go |
| Trim.WriteWithGap | DAFL/afl-fuzz.c:2622-2648 | what the target reads is the buffer without the gap |
| Trim.TryRemove | DAFL/afl-fuzz.c:4634-4668 | the buffer after the move is the file that was run; an interrupted run changes nothing |
| Trim.TrimBlock | DAFL/afl-fuzz.c:4631-4675 | one step keeps the relation between the buffer and the sweep of the original |
| Trim.TrimSweep | DAFL/afl-fuzz.c:4622-4677 | the sweep in place computes the sweep function, counts its executions and saves a trace exactly if something went |
| Trim.TrimCase | DAFL/afl-fuzz.c:4592-4709 | the trimmer in place computes the trimmed entry of `Trim.TrimmedMeans`, or when interrupted leaves a trim of it; the saved trace has the entry's checksum and exists exactly if the entry changed |
| Scheduler.InsertPos | DAFL/afl-fuzz.c:813-845 | the position is behind all leading entries with no lower score and before one with a lower score |
| Scheduler.InsertKeepsDescending | DAFL/afl-fuzz.c:807-849 | insertion keeps descending order |
| Scheduler.InsertKeepsOrdered | DAFL/afl-fuzz.c:807-849 | insertion keeps the order by score and, among equals, by age |
| Scheduler.InsertAddsOne | DAFL/afl-fuzz.c:807-849 | insertion adds the newcomer and loses nothing |
| Scheduler.InsertIsStable | DAFL/afl-fuzz.c:807-849 | among the entries of any one score the newcomer becomes the last |
| Scheduler.SortedIsStableSort | DAFL/afl-fuzz.c:880-899 | inserting all entries one by one sorts them by descending score, keeps them all and keeps the order of equals |
| Scheduler.StableSortIsUnique | DAFL/afl-fuzz.c:880-899 | there is only one such arrangement |
| Scheduler.SortedSeeds | DAFL/afl-fuzz.c:880-899 | sorting the calibrated seeds, numbered as they were read, gives the order by score and age with distinct numbers and nothing handled |
| Scheduler.TurnKeepsInv | DAFL/afl-fuzz.c:8201-8263 | a turn of the main loop fuzzes the first unhandled entry, which was not handled before, and ends with the first unhandled entry as the current one, or none exactly if all are handled |
| Scheduler.TurnKeepsQueueOk | DAFL/afl-fuzz.c:8201-8263 | from any orderly queue, the startup states included, a turn leads to an orderly one |
| Scheduler.TakenIsBestUnhandled | DAFL/afl-fuzz.c:8239-8262 | the entry that is fuzzed has the highest score of the unhandled ones and is the oldest among equals |
| Scheduler.TurnKeepsScores | DAFL/afl-fuzz.c:8201-8263 | after a turn the queue holds what it held with the same scores, and the finds, numbered on, with theirs; a turn without a current entry counts a new cycle |
| Scheduler.RunKeepsInv | DAFL/afl-fuzz.c:8201-8263 | the loop invariant holds after every turn of every run |
| Scheduler.AfterTurns | DAFL/afl-fuzz.c:8201-8263 | after n turns of a cycle exactly the n entries taken are handled, all different, and entries plus virgin bits have not grown |
| Scheduler.CycleIsBounded | DAFL/afl-fuzz.c:8201-8263 | no cycle takes an entry twice, and no cycle has more turns than there were entries and virgin bits at its start |
| Scheduler.CompletedCycleTakesAll | DAFL/afl-fuzz.c:8201-8263 | a completed cycle has taken every entry there is at its end exactly once, those added on the way included |
| Scheduler.SortedStartRepeatsHead | DAFL/afl-fuzz.c:8184-8262 | from the state left by the sort the head is chosen again exactly if fuzzing it queued nothing, and the invariant holds from the second turn on at the latest |
| Scheduler.SecondTurnOfHead | DAFL/afl-fuzz.c:8256-8262 | the repeated turn of the head establishes the invariant |
| Queue.SeedQueue.SortedInsert | DAFL/afl-fuzz.c:807-849 | on the linked list: insertion at the right place, the index names every hundredth node, and the cache is the first unhandled node unless the queue was empty |
| Queue.SeedQueue.Traverse | DAFL/afl-fuzz.c:826-848 | one traversal rebuilds index and cache and makes the insertion unless it was made at the head |
| Queue.SeedQueue.InsertHere | DAFL/afl-fuzz.c:836-844 | the link is made behind the right node and only once |
| Queue.SeedQueue.AddToQueue | DAFL/afl-fuzz.c:853-876 | adding an entry to the list is adding it to the abstract queue, with its length and the next number |
| Queue.SeedQueue.BeginTurn | DAFL/afl-fuzz.c:8207-8214 | without a current entry a new cycle starts at the head with all flags cleared |
| Queue.SeedQueue.TakeCurrent | DAFL/afl-fuzz.c:8240-8241 | the current entry counts as handled and nothing else changes |
| Queue.SeedQueue.AdvanceCurrent | DAFL/afl-fuzz.c:8256-8262 | the cached entry or else the next unhandled one from the current on becomes current, and the cache is emptied |
| Queue.SeedQueue.MainTurn | DAFL/afl-fuzz.c:8201-8263 | from any orderly queue a turn on the linked list is a turn of the abstract scheduler, keeps its invariant if it held, and queues entries of the given lengths |
| Queue.SeedQueue.Lookup | DAFL/afl-fuzz.c:6706-6717 | for every number of an entry: the entry where the jump and the steps lead, or that they lead beyond the end |
| Queue.LookupIsExact | DAFL/afl-fuzz.c:6706-6717 | that is the entry with this number exactly if idx / 100 < 1024, and then at most 99 steps are made |
| Queue.LookupRunsOff | DAFL/afl-fuzz.c:6706-6717 | from 102400 on the steps lead beyond the end of any queue of up to 400 million entries |
| Queue.SeedQueue.SortQueue | DAFL/afl-fuzz.c:880-899 | taking the list apart and inserting its nodes computes the stable sort; the cache names the head's first unhandled entry if there are two or more |
| Queue.SeedQueue.ReadSeeds | DAFL/afl-fuzz.c:1517-1610 | the seeds are queued in the order in which they are read, numbered from 0 |
| Queue.SeedQueue.DryRun | DAFL/afl-fuzz.c:2836-2960 | calibration gives every entry its score and changes nothing else |
| Queue.SeedQueue.Startup | DAFL/afl-fuzz.c:8158-8184 | reading, calibrating and sorting lead to the start state for one seed and to the sorted start state for more |
| FuzzLoop.RunOne | DAFL/afl-fuzz.c:3256-3308 | an execution is queued exactly if it has the expected outcome and a class no recorded trace had, and is paid for with a virgin bit |
| FuzzLoop.RunAll | DAFL/afl-fuzz.c:4716-4760 | the finds are, in order, exactly the executions with the expected outcome and a class that nothing recorded before had; their scores and lengths are reported, and each is paid for with a virgin bit |
| FuzzLoop.FuzzTurn | DAFL/afl-fuzz.c:8201-8263 | a turn with real executions is a turn of the abstract scheduler, queues exactly the finds of its executions with their scores and lengths, and keeps queue and session in agreement |
| FuzzLoop.Begin | DAFL/afl-fuzz.c:8158-8184 | the start of a session joins queue and session in one of the start states |
| FuzzLoop.Fuzz | DAFL/afl-fuzz.c:8201-8263 | for any executions the turns of a session are a run of the abstract scheduler that adds in every turn exactly the finds of that turn, and the entries it adds never exceed the virgin bits there were |
| Coverage.PackAnd | DAFL/afl-fuzz.c:993-1026 | the 64-bit AND of packed bytes is the AND of every byte |
| Coverage.PackAndNot | DAFL/afl-fuzz.c:993-1026 | clearing bits in a packed word clears them in every byte |
| Coverage.PackIsZero | DAFL/afl-fuzz.c:993-1026 | a packed word is zero exactly if all its bytes are |
| Coverage.HasNewBits | DAFL/afl-fuzz.c:969-1036 | the word-wise scan returns 2 for an index hit for the first time, 1 for other virgin bits hit, 0 for none, and clears exactly the bits of the trace |
| Coverage.CompareWords | DAFL/afl-fuzz.c:993-998 | the quick test on two words finds out whether any of their bytes has something new |
| Coverage.PristineByteHit | DAFL/afl-fuzz.c:1000-1019 | the test on bytes finds out whether one is hit whose virgin byte is untouched |
| Coverage.VirginByte | DAFL/afl-fuzz.c:969-1036 | over a whole run from all ones: a virgin byte is untouched iff no trace hit the index, and a class bit is virgin iff no trace had that class there |
| Coverage.NoveltyOverRun | DAFL/afl-fuzz.c:969-1036 | over a whole run: 2 iff the trace hits an index no earlier one hit; 1 or 2 iff it has a hit-count class no earlier one had there |
| Coverage.SimplifiedNoveltyOverRun | DAFL/afl-fuzz.c:3327-3334 | for simplified traces: something is new iff the trace hits an index no earlier one hit or misses one that all earlier ones hit |
| Coverage.ClearingLowersBitCount | DAFL/afl-fuzz.c:993-1026 | recording something new lowers the number of virgin bits, and recording never raises it |
| Coverage.ClassifyCounts | DAFL/afl-fuzz.c:1249-1273 | with the 16-bit table and zero words skipped, every count becomes its class |
| Coverage.ClassesAreRanges | DAFL/afl-fuzz.c:1217-1229 | a class is no bit for a count of 0 and one bit otherwise, the same for 4 to 7, 8 to 15, 16 to 31, 32 to 127 and from 128 on, and a higher one for higher ranges |
| Coverage.PairLookup | DAFL/afl-fuzz.c:1234-1245 | the table for pairs classifies both counts |
| Coverage.SimplifyTrace | DAFL/afl-fuzz.c:1155-1183 | word by word, every byte becomes 0x80 if hit and 0x01 if not |
| Coverage.UniqueMap.Examine | DAFL/afl-fuzz.c:3388-3398 | a trace counts as new exactly if it differs from all examined before: an index none of them hit, or a miss where all hit |
| SaveCase.QueueMap.Record | DAFL/afl-fuzz.c:3264-3272 | the verdict in terms of all traces recorded since the start, paid for with a virgin bit when it is not 0 |
| SaveCase.RecordFacts | DAFL/afl-fuzz.c:3264-3272 | the same on values |
| SaveCase.Session.KeepAsCrash | DAFL/afl-fuzz.c:3376-3425 | every crash is counted; below the cap it is kept iff it is distinguished from every crash examined before |
| SaveCase.Session.KeepAsHang | DAFL/afl-fuzz.c:3311-3374 | below the cap a distinguished hang is kept when no second run is needed or it times out too; a second run that crashes is judged as a crash instead |
| SaveCase.Session.ConfirmHang | DAFL/afl-fuzz.c:3337-3362 | a new hang, unless the timeout was generous already, is kept iff a second run times out too; a crash of that run is judged as a crash |
| SaveCase.Session.Calibrate | DAFL/afl-fuzz.c:2698-2791 | for any runs: the traces recorded, the one left behind and the outcome, up to the run that ends calibration; an entry not yet counted counts as new coverage iff one of the traces hits a new index |
| SaveCase.CalibrationMeans | DAFL/afl-fuzz.c:2698-2791 | which runs count, which traces are recorded and in which order, which trace is left and which outcome is reported, in terms of the runs |
| SaveCase.Session.QueueIfNew | DAFL/afl-fuzz.c:3264-3308 | queued iff it has a class no recorded trace had; counted as new coverage iff it or a trace of its calibration hits a new index |
| SaveCase.Session.SaveIfInteresting | DAFL/afl-fuzz.c:3256-3440 | the decision for every outcome in terms of all traces recorded and examined before, what calibration and the decision record and examine, and the session invariant that queue additions never exceed the virgin bits used up |
| SaveCase.Session.VerdictMeans | DAFL/afl-fuzz.c:3308-3440 | the verdict case by case: what is a crash, a hang or fatal, and what is examined, with the caps of 5000 crashes and 500 hangs |
| SaveCase.SamplesAreCapped | DAFL/afl-fuzz.c:3325-3385 | at the cap nothing is examined or kept any more |
| TopRated.MinimizeBits | DAFL/afl-fuzz.c:1316-1330 | the compacted trace has bit i set iff index i is hit |
| TopRated.PicksCover | DAFL/afl-fuzz.c:1410-1436 | the picked winners cover every index that has a winner |
| TopRated.PicksContribute | DAFL/afl-fuzz.c:1410-1436 | every pick covers an index the earlier picks left open, so that none is picked twice |
| TopRated.PicksAreGreedy | DAFL/afl-fuzz.c:1410-1436 | every pick is the winner of the first index that has one and that the earlier picks left open |
| TopRated.FavouredSetCovers | DAFL/afl-fuzz.c:1391-1441 | the favoured set is a cover in which every pick contributed, and the greedy one |
| TopRated.ScoringKeepsMinimal | DAFL/afl-fuzz.c:1340-1382 | if every slot holds the cheapest of the entries scored so far, it does after one more is scored |
| TopRated.WinnerIsCheaper | DAFL/afl-fuzz.c:1340-1382 | an entry takes a slot exactly if it hits the index and its `exec_us * len`, as an unsigned 64-bit number, is not larger than that of the holder |
| TopRated.MinimalIsCheapest | DAFL/afl-fuzz.c:1340-1382 | the holder of a slot has the smallest of these numbers |
| TopRated.ScoreBoard.TakeSlot | DAFL/afl-fuzz.c:1358-1376 | a slot changes hands: reference counts stay exact and a compacted trace is held exactly while its count is positive, also when an entry displaces itself |
| TopRated.ScoreBoard.ReleaseSlot | DAFL/afl-fuzz.c:1358-1366 | giving up a slot lowers the holder's count by one and frees its trace with the last one |
| TopRated.ScoreBoard.UpdateBitmapScore | DAFL/afl-fuzz.c:1340-1382 | exactly the slots the entry hits and where it is no worse become its own; a change is flagged |
| TopRated.ScoreBoard.Calibrated | DAFL/afl-fuzz.c:2757-2778 | after a calibration every slot holds the cheapest scored entry that hits its index; a change is flagged, so that the favoured set is current or flagged as stale |
| TopRated.ScoreBoard.Trimmed | DAFL/afl-fuzz.c:4696-4702 | the same after a trim, which makes the entry cheaper |
| TopRated.ScoreBoard.Rescore | DAFL/afl-fuzz.c:1340-1382 | one more entry is scored: all slots stay cheapest, a change is flagged |
| TopRated.ScoreBoard.AddEntry | DAFL/afl-fuzz.c:853-876 | a newcomer is counted as not fuzzed and keeps all counts and references exact |
| TopRated.ScoreBoard.FuzzedOnce | DAFL/afl-fuzz.c:6778-6785 | the pending counters go down exactly when an entry is fuzzed for the first time, stay true and do not underflow |
| TopRated.ScoreBoard.CullQueue | DAFL/afl-fuzz.c:1391-1441 | whether or not a score changed: afterwards the favoured set is the set of greedy picks, every index with a winner is hit by a favoured entry, and all counters are true |
| TopRated.ScoreBoard.FavouritesHit | DAFL/afl-fuzz.c:1410-1436 | if the favoured entries are the picks, every index with a winner is hit by one of them |
| TopRated.ScoreBoard.VisitSlot | DAFL/afl-fuzz.c:1413-1436 | one slot of the greedy computation |
| TopRated.ScoreBoard.PickWinner | DAFL/afl-fuzz.c:1416-1434 | a picked winner is favoured and everything it hits is closed |
| TopRated.ClearCovered | DAFL/afl-fuzz.c:1421-1423 | clearing with a compacted trace closes exactly the indices it hits |
| TopRated.ScoreBoard.ClearFavored | DAFL/afl-fuzz.c:1400-1408 | no entry stays favoured, no slot changes |
| Redundancy.CouldBeBitflip | DAFL/afl-fuzz.c:4911-4935 | true exactly for no change, a run of 1, 2 or 4 ones anywhere, or a run of 8, 16 or 32 ones from a byte border |
| Redundancy.ShiftKeepsRun | DAFL/afl-fuzz.c:4918-4921 | shifting out a zero keeps that property with the borders shifted along |
| Redundancy.FlipPatternOfByte | DAFL/afl-fuzz.c:4911-4935 | the pattern within one byte, listed |
| Redundancy.CouldBeArith | DAFL/afl-fuzz.c:4941-5013 | true exactly if the values are at most ARITH_MAX apart in one byte, one half or the whole word, in either byte order |
| Redundancy.Differences | DAFL/afl-fuzz.c:4949-4960 | counting differences finds the only one when there is one |
| Redundancy.ArithPatternOfByte | DAFL/afl-fuzz.c:4949-4969 | for one byte: a distance of at most ARITH_MAX with wrap-around |
| Redundancy.CouldBeInterest | DAFL/afl-fuzz.c:5022-5087 | true exactly if storing a shorter built-in value, or one of the same length in little-endian order when asked, gives the new value |
| AutoTokens.TokensAreMaximalRuns | DAFL/afl-fuzz.c:5312-5350 | for any checksums the tokens passed on are exactly the maximal runs of 3 to 32 bytes with equal checksums other than that of the file, each once and in order, including a run that reaches the end |
| AutoTokens.RunEndsAtMaximalRun | DAFL/afl-fuzz.c:5327-5338 | a run ends where the checksum changes or the file ends, and there is one maximal run per end |
| AutoTokens.Collector.Observe | DAFL/afl-fuzz.c:5312-5350 | one step of the detector keeps what it has collected and passed on equal to the specification |
| AutoTokens.Collector.Pass | DAFL/afl-fuzz.c:5324-5325 | the collected bytes are passed on exactly if their number is in range, and they are the bytes of the file |
| Stages.FlipRunTwice | DAFL/afl-fuzz.c:5253-5283 | flipping the same bits twice restores the file |
| Stages.FlipRunBytes | DAFL/afl-fuzz.c:5253-5257 | what a run of bit flips does to every byte |
| Stages.Bench.TryFlip | DAFL/afl-fuzz.c:5277-5283 | one try runs the file with exactly these bits flipped and restores it |
| Stages.Bench.WalkingBits | DAFL/afl-fuzz.c:5361-5415 | the stage runs every position once, restores the file, and its counter ends at its maximum and at the number of executions |
| Stages.Bench.WalkingBitWithTokens | DAFL/afl-fuzz.c:5266-5357 | the same for the first stage, with the detector passing on exactly the specified tokens |
| Stages.Bench.WalkingBytes | DAFL/afl-fuzz.c:5443-5481 | the same for byte flips; the effector map flags exactly the first block, the last one, those with a byte whose flip leads to another checksum, and all blocks of a file below 128 bytes or in dumb mode; `eff_cnt` counts them |
| Stages.Bench.MarkByte | DAFL/afl-fuzz.c:5462-5479 | a block is marked and counted once, whether the checksum was taken or not |
| Stages.NewEffMap | DAFL/afl-fuzz.c:5433-5440 | the new map has the first and the last block set and counted, also when they are the same |
| Stages.FillDenseMap | DAFL/afl-fuzz.c:5485-5500 | a map more than 90 percent dense is set completely, any other is left; the statistics count what is set |
| Stages.CountIsSize | DAFL/afl-fuzz.c:5485-5500 | what is counted is the number of entries that are set |
| WordStages.Candidates | DAFL/afl-fuzz.c:5614-6021 | the candidates chosen with the executable filters are those of the specification, for every kind of stage |
| WordStages.TriesPerPosition | DAFL/afl-fuzz.c:5595-5972 | the number of candidates per position that each stage's maximum assumes, all of the right width |
| WordStages.Attempt | DAFL/afl-fuzz.c:5625-5629 | a candidate is either stored and run, or lowers the maximum |
| WordStages.RunTries | DAFL/afl-fuzz.c:5614-5646 | all candidates of a position are tried and the word is put back |
| WordStages.WalkAt | DAFL/afl-fuzz.c:5601-5650 | a position without effect lowers the maximum by its candidates |
| WordStages.Walk | DAFL/afl-fuzz.c:5592-6032 | every word stage restores the file, runs exactly the candidates that pass its filters at effective positions, and its counter ends at its maximum and at the number of executions |
| WordValues.CarryUp16 | DAFL/afl-fuzz.c:5692-5694 | the carry test of arith 16/8 leaves out exactly the additions that leave the high byte alone |
| WordValues.CarryDown16 | DAFL/afl-fuzz.c:5702-5704 | and exactly the subtractions that do |
| WordValues.BigCarryUp16 | DAFL/afl-fuzz.c:5717-5719 | high byte first, exactly the additions that leave the low byte alone |
| WordValues.BigCarryDown16 | DAFL/afl-fuzz.c:5727-5729 | and exactly the subtractions that do |
| WordValues.CarryUp32 | DAFL/afl-fuzz.c:5785-5787 | the carry test of arith 32/8 leaves out exactly the additions that leave the upper half alone |
| WordValues.CarryDown32 | DAFL/afl-fuzz.c:5795-5797 | and exactly the subtractions that do |
| WordValues.CarrySkipIsRun | DAFL/afl-fuzz.c:5682-5736 | a step that the carry test of arith 16/8 leaves out has been run by arith 8/8 or a flip stage if its first byte is effective |
| WordValues.BigCarrySkipIsRun | DAFL/afl-fuzz.c:5682-5736 | the same high byte first, if the second byte is effective |
| WordFilters.PairIsFlippedIffCrosses | DAFL/afl-fuzz.c:5253-5415 | of the changes to two neighbouring bytes the walking flips make exactly the four that cross from the low end of one byte to the high end of the next |
| WordFilters.FlipFilter16 | DAFL/afl-fuzz.c:5253-5545 | at an effective position the flip stages have run a half word exactly if its change is one the filter knows and no straddler, or one of four crossings, which the filter does not know |
| WordFilters.NoFlipIsTried16 | DAFL/afl-fuzz.c:5682-5972 | arith 16/8 and interest 16/8 never try what the filter takes for a flip |
| WordFilters.NoFlipIsTried32 | DAFL/afl-fuzz.c:5775-6021 | nor do arith 32/8 and interest 32/8 |
| WordFilters.StraddlersAreNeverRun | DAFL/afl-fuzz.c:5266-6034 | a half word whose change straddles its bytes is run by no deterministic stage, at whatever position and width |
| WordFilters.Arith16LosesOnlyStraddlers | DAFL/afl-fuzz.c:5656-5745 | of the steps of arith 16/8 at effective bytes, in either byte order, exactly the straddlers have not been run by the end of the stage, and are not by all deterministic stages together |
| WordFilters.StraddlingSteps | DAFL/afl-fuzz.c:5682-5732 | which steps these are: those by 32, low byte first, from 7 to 8 or back in the four bits above the fifth |
| WordFilters.LostStep | DAFL/afl-fuzz.c:5682-5732 | a concrete step that no stage ever tries |
| WordLosses.CarryIsFullFlip | DAFL/afl-fuzz.c:5785-5825 | a step that reaches beyond its half of the word looks like a flip only if it inverts the whole word |
| WordLosses.StepWithinHalfIsRun | DAFL/afl-fuzz.c:5785-5825 | a step that the carry test of arith 32/8 leaves out has been run by a shorter stage, but for the straddler |
| WordLosses.Arith32LosesOnlyStraddlers | DAFL/afl-fuzz.c:5754-5840 | of the steps of arith 32/8 at effective bytes exactly those that change the word by 0x1e0 have not been run by the end of the stage, and are not by all deterministic stages together |
| WordTries.StageRunsCandidates | DAFL/afl-fuzz.c:5511-6032 | a word stage runs exactly the files with one of its candidates at a position where some byte is flagged in the effector map |
| WordTries.Arith16Has | DAFL/afl-fuzz.c:5682-5736 | arith 16/8 tries a half word exactly if it is at most ARITH_MAX away in either byte order, both bytes change and the change is not taken for a flip |
| WordTries.Arith32Has | DAFL/afl-fuzz.c:5775-5829 | arith 32/8 tries a word exactly if it is at most ARITH_MAX away in either byte order, both halves change and the change is not taken for a flip |
| WordTries.CarriesIffBothChange | DAFL/afl-fuzz.c:5692-5732 | the carry tests of arith 16/8 hold exactly for the steps that change both bytes, in either byte order |
| WordTries.CarriesIffBothHalvesChange | DAFL/afl-fuzz.c:5785-5825 | those of arith 32/8 exactly for the steps that change both halves |
| BuiltIns.Interest16LosesOnlyStraddlers | DAFL/afl-fuzz.c:5899-5962 | of the built-in half words at effective bytes, in either byte order, exactly those are never run whose change straddles the two bytes: all others have been, by this stage or an earlier one |
| BuiltIns.Interest32LosesOnlyStraddlers | DAFL/afl-fuzz.c:5966-6032 | of the built-in words at effective bytes, in either byte order, exactly those are never run whose change is one of two neighbouring bytes and straddles them |
| BuiltIns.BuiltInPairIsRun | DAFL/afl-fuzz.c:5022-5087 | a word that stores a built-in half word somewhere has been run by the stages of half words, unless it straddles |
| BuiltIns.FlippedWordIsRun | DAFL/afl-fuzz.c:4911-4935 | a word whose change the filter takes for a flip has been run by a flip stage of bits, bytes, half words or words, unless it straddles |
| Deterministic.FlipFilterIsExact | DAFL/afl-fuzz.c:4911-4935 | a different value for one byte was run by a flip stage if and only if the filter says so |
| Deterministic.Arith8Has | DAFL/afl-fuzz.c:5614-5646 | arith 8/8 tries a value exactly if it is within ARITH_MAX and is no bit flip |
| Deterministic.ByteStageRuns | DAFL/afl-fuzz.c:5601-5650 | a stage of single bytes runs a change exactly if the byte is effective and the value a candidate |
| Deterministic.Arith8SkipsOnlyRepeats | DAFL/afl-fuzz.c:5592-5652 | at an effective byte a value within reach is skipped exactly if a flip stage has run it |
| Deterministic.Interest8SkipsOnlyRepeats | DAFL/afl-fuzz.c:5846-5895 | after the arithmetic stages a built-in value is skipped exactly if a flip or arith 8/8 has run it |
| Deterministic.Interest8WithoutArith | DAFL/afl-fuzz.c:5866-5878 | without them a built-in value is run at all exactly if it is a bit flip or further than ARITH_MAX away |
| Deterministic.LostInterestingValue | DAFL/afl-fuzz.c:5866-5878 | a concrete value that is never tried |
| Deterministic.PerformWordStages | DAFL/afl-fuzz.c:5511-6034 | the stages that apply, which `Deterministic.PerformedKinds` and `Deterministic.KindsInOrder` list, run in order, each over the restored file |
| Deterministic.PerformedKinds | DAFL/afl-fuzz.c:5511-6034 | a stage is performed exactly if the file is long enough for its words and, with arithmetic off, if it is bitflip 16/8, bitflip 32/8 or interest 8/8 |
| Deterministic.KindsInOrder | DAFL/afl-fuzz.c:5511-6034 | the stages come in the order flips, arithmetic, built-in values, each with 8, 16 and 32 bits in turn |
| Deterministic.WordRunsAreOfStages | DAFL/afl-fuzz.c:5511-6034 | the files run are exactly those of the stages that are performed |
| Deterministic.OneMoreStage | DAFL/afl-fuzz.c:5511-6034 | the executions of a stage come behind those of the stages before it |
| Deterministic.PerformBitFlips | DAFL/afl-fuzz.c:5266-5415 | the three stages of walking bits in a row, and the tokens that the detector of the first passes on |
| Deterministic.PerformFlips | DAFL/afl-fuzz.c:5266-5507 | the four flip stages in a row, the tokens passed on, and the effector map they leave |
| Deterministic.PerformAll | DAFL/afl-fuzz.c:5266-6034 | from the first flip to the last built-in value: all executions in order, every file of every stage that applies among them, the file restored, the tokens passed on, the map and its statistics |
| Extras.EligibleTokensAreRun | DAFL/afl-fuzz.c:6053-6092 | no token that fits at an effective position and is not skipped by chance is missed: the file with it is run or is the file itself |
| Extras.OverwritesExactly | DAFL/afl-fuzz.c:6044-6098 | of the files that differ from the original exactly those are run that have a token written over an effective position where it fits and chance does not skip it |
| Extras.LongerCovers | DAFL/afl-fuzz.c:6055-6060 | a longer token covers a shorter one, so that nothing need be restored between tokens sorted by length |
| Extras.TryToken | DAFL/afl-fuzz.c:6063-6086 | one token at one position |
| Extras.OverwriteStage | DAFL/afl-fuzz.c:6044-6098 | the stage restores the file, runs exactly the specified files, and its counter ends at its maximum and at the number of executions |
| Extras.OverwriteUserExtras | DAFL/afl-fuzz.c:6044-6098 | the same for user tokens, of which chance skips some if there are more than MAX_DET_EXTRAS |
| Extras.OverwriteAutoExtras | DAFL/afl-fuzz.c:6151-6198 | the same for the automatic tokens in use, whose arrangement in the table is by length |
| Extras.TryInsertion | DAFL/afl-fuzz.c:6115-6138 | the scratch buffer holds head, token and tail; a file that would be too long is not run |
| Extras.InsertsExactly | DAFL/afl-fuzz.c:6102-6147 | exactly those files are run that have a token inserted at some position and are not longer than MAX_FILE |
| Extras.InsertStage | DAFL/afl-fuzz.c:6102-6147 | every token is inserted at every position and at the end, and the counter ends above the maximum by the number of tokens |
| AutoDict.MemcmpNocase | DAFL/afl-fuzz.c:1878-1883 | zero exactly if the tokens agree up to the case of letters |
| AutoDict.SameLetter | DAFL/afl-fuzz.c:1878-1883 | bytes agree up to case exactly if they are equal or the two forms of one of the 26 letters |
| AutoDict.IsRunOfOneByte | DAFL/afl-fuzz.c:1896-1901 | recognises runs of one byte |
| AutoDict.IsBuiltIn | DAFL/afl-fuzz.c:1903-1923 | recognises exactly the tokens that the comparisons with the built-in values accept |
| AutoDict.TokensMeetOnlyWords | DAFL/afl-fuzz.c:1903-1923 | a token of at least three bytes is built in exactly if it is a 32-bit value in either byte order: the 16-bit comparison is dead code |
| AutoDict.OnlyOneHalfIsMissed | DAFL/afl-fuzz.c:1907-1913 | of two-byte tokens, which do not occur, it would recognise all values in either byte order except -128 stored low byte first |
| AutoDict.MatchesUserToken | DAFL/afl-fuzz.c:1925-1933 | the scan that stops at the first longer token finds what a full scan finds |
| AutoDict.SortTable | DAFL/afl-fuzz.c:1977-1987 | the two sorts keep all entries, put those in use in order of length with no fewer hits than any other, and the rest in descending order of hits |
| AutoDict.DistinctIsPairwise | DAFL/afl-fuzz.c:1935-1949 | no two entries of the table are equal up to case |
| AutoDict.Table.MaybeAdd | DAFL/afl-fuzz.c:1888-1989 | a run of one byte, a built-in value and a user token change nothing; any other token gains a hit, or is added, in a full table instead of entry 250 plus the random number; the table stays within 500 entries, pairwise distinct, arranged and admissible |
| AutoDict.Table.Find | DAFL/afl-fuzz.c:1940-1949 | finds an equal entry if there is one |
| AutoDict.Table.Counted | DAFL/afl-fuzz.c:1940-1975 | what is done to the table before it is sorted |
| AutoDict.UpdatedMeans | DAFL/afl-fuzz.c:1940-1975 | the entry for the token has one hit more than before, or none if it is new, and all others but a replaced one are as they were |
| Havoc.Scratch.ChooseBlockLen | DAFL/afl-fuzz.c:4768-4804 | a block length between 1 and the limit, at most 32 in the first ten minutes and the first cycle, 128 in the second and 32768 later, as the random numbers decide |
| Mutations.PossibleIffRolled | DAFL/afl-fuzz.c:6267-6636 | some random numbers lead to a change exactly if it is a possible one: every bit, value, step, mask, block, position and token within the limits, and nothing else |
| Mutations.BlockIsRolled | DAFL/afl-fuzz.c:4768-4804 | every block length within the limit and the bound of the cycle can be rolled |
| Mutations.SizeStaysInBounds | DAFL/afl-fuzz.c:6267-6636 | no change the stage can make empties the file or makes it longer than MAX_FILE |
| Mutations.SmallChangesShow | DAFL/afl-fuzz.c:6269-6440 | flips, steps and masks always change the file, in either byte order |
| Havoc.Scratch.FlipSomeBit | DAFL/afl-fuzz.c:6269-6274 | case 0 flips one bit of the file |
| Havoc.Scratch.SetInteresting | DAFL/afl-fuzz.c:6276-6321 | cases 1 to 3 store a built-in value of the given width in either byte order, or nothing if the file is shorter |
| Havoc.Scratch.StepByte | DAFL/afl-fuzz.c:6323-6335 | cases 4 and 5 move a byte by 1 to ARITH_MAX |
| Havoc.Scratch.StepHalf | DAFL/afl-fuzz.c:6337-6383 | cases 6 and 7 do so with a half word in either byte order |
| Havoc.Scratch.StepWord | DAFL/afl-fuzz.c:6385-6431 | cases 8 and 9 do so with a word |
| Havoc.Scratch.XorSomeByte | DAFL/afl-fuzz.c:6433-6440 | case 10 changes one byte |
| Havoc.Scratch.DeleteBlock | DAFL/afl-fuzz.c:6442-6465 | cases 11 and 12 take a block out but never the whole file |
| Havoc.Scratch.InsertBlock | DAFL/afl-fuzz.c:6467-6515 | case 13 inserts a copy of a block or a constant one in a new buffer, unless the file is too long |
| Havoc.Scratch.OverwriteBlock | DAFL/afl-fuzz.c:6517-6542 | case 14 overwrites a block with another one or a constant |
| Havoc.Scratch.OverwriteWithToken | DAFL/afl-fuzz.c:6546-6581 | case 15 writes a token of either dictionary over the file if it fits |
| Havoc.Scratch.InsertSomeToken | DAFL/afl-fuzz.c:6583-6633 | case 16 inserts a token unless the file gets too long |
| Havoc.Scratch.MutateOnce | DAFL/afl-fuzz.c:6267-6636 | one random change is the one that the random numbers decide on, and the buffer still holds the file |
| Havoc.Scratch.MutateStack | DAFL/afl-fuzz.c:6265-6636 | a stack of changes applies them in order, each decided on by the next random numbers for the file as it has become |
| Havoc.Scratch.RestoreFile | DAFL/afl-fuzz.c:6642-6647 | original size and content, in a larger buffer if need be |
| Havoc.Scratch.Round | DAFL/afl-fuzz.c:6259-6647 | a round runs the file after 2, 4, 8, 16, 32, 64 or 128 changes that the random numbers decide on, all possible, of length 1 to MAX_FILE, and restores the original |
| Havoc.LocateDiffs | DAFL/afl-fuzz.c:543-567 | the first and the last difference, or none |
| Havoc.Splice | DAFL/afl-fuzz.c:6741-6764 | succeeds exactly if the files differ in two places, one beyond the first two bytes; the split is at a random place from the first difference to before the last; the result always differs from the current file and is the target exactly if the split is at the first difference |
| Havoc.SplitAtFirstDifference | DAFL/afl-fuzz.c:6754-6764 | head and tail make the target exactly if the split is at the first difference |
| Havoc.NotSpliceable | DAFL/afl-fuzz.c:6747-6750 | the bail-out test excludes nothing that could be spliced |
| ForkServer.PersistentLoop.Call | DAFL/llvm_mode/afl-llvm-rt.o.c:191-243 | the static variables of the loop macro follow the loop function, counter wrap-around included; `ForkServer.LoopCallDecides` states when it goes on |
| ForkServer.LoopCallKeepsStep | DAFL/llvm_mode/afl-llvm-rt.o.c:191-243 | a call of the loop macro keeps requests and loop bodies in step within the limit |
| ForkServer.LoopCallDecides | DAFL/llvm_mode/afl-llvm-rt.o.c:191-243 | the first call begins a body; from a body a call leaves the loop exactly if the child is not persistent or has begun its last body, and otherwise stops and begins another |
| ForkServer.SendRequestKeepsInv | DAFL/afl-fuzz.c:2478-2490 | sending a request keeps the protocol invariant |
| ForkServer.AlarmKeepsInv | DAFL/afl-fuzz.c:6960-6974 | so does a timeout at any moment |
| ForkServer.RequestKeepsInv | DAFL/llvm_mode/afl-llvm-rt.o.c:127-140 | so does the server's reading of a request and its decision about the old child |
| ForkServer.ForkKeepsInv | DAFL/llvm_mode/afl-llvm-rt.o.c:140-158 | so does forking |
| ForkServer.ContinueKeepsInv | DAFL/llvm_mode/afl-llvm-rt.o.c:160-166 | so does waking a stopped child |
| ForkServer.WaitKeepsInv | DAFL/llvm_mode/afl-llvm-rt.o.c:169-178 | so does waiting for the child |
| ForkServer.NextKeepsInv | DAFL/llvm_mode/afl-llvm-rt.o.c:110-186 | every step of fuzzer, server, child and timer keeps the invariant |
| ForkServer.RunKeepsInv | DAFL/llvm_mode/afl-llvm-rt.o.c:110-186 | the invariant holds after every interleaving |
| ForkServer.MessagesAndChildren | DAFL/afl-fuzz.c:2483-2541 | in every interleaving requests, process numbers and statuses take turns with at most two under way, and all children but the last have been waited for |
| ForkServer.ContinuesOnlyStopped | DAFL/llvm_mode/afl-llvm-rt.o.c:160-166 | SIGCONT is sent only to a child that is stopped and was not killed by the timer |
| ForkServer.WriteOffNeverBlocks | DAFL/llvm_mode/afl-llvm-rt.o.c:131-138 | the waitpid that writes a child off is reached only after a kill and returns at once |
| ForkServer.RequestIsLoopBody | DAFL/llvm_mode/afl-llvm-rt.o.c:191-243 | the k-th request a child serves is its k-th loop body, at most max_cnt of them (2^32 for 0), and one without persistent mode |
| ForkServer.LeavesOnlyAtTheEnd | DAFL/llvm_mode/afl-llvm-rt.o.c:191-243 | the same for every child after every interleaving: a persistent child goes on to its limit |
| ForkServer.ForksOnlyWhenGone | DAFL/llvm_mode/afl-llvm-rt.o.c:136-166 | after every interleaving: a process is forked only when all before it have been waited for, and a stopped one is woken instead |
| ForkServer.NeverStuck | DAFL/llvm_mode/afl-llvm-rt.o.c:122-184 | after every interleaving some step is possible that does not depend on the target: no deadlock, not even with a child that hangs |
| ForkServer.WaitIsNotStuck | DAFL/afl-fuzz.c:6960-6974 | while the server waits for a child, the wait can return, the fuzzer has its number still to read, or the timer is armed |
| TokenCap.LineRoundTrip | DAFL/libtokencap/libtokencap.so.c:106-142 | parsing a printed token gives the token back, at any level; an empty one is rejected as an empty keyword |
| TokenCap.DumpRoundTrip | DAFL/libtokencap/libtokencap.so.c:106-142 | for every argument of the printer: the parser gives back what was printed, the part before a NUL in text mode, and fails exactly on a text that starts with a NUL |
| TokenCap.EscapedDecodes | DAFL/afl-fuzz.c:1715-1754 | decoding undoes escaping for every byte string |
| TokenCap.LinesAreDistinct | DAFL/libtokencap/libtokencap.so.c:106-142 | different tokens are printed differently |
| TokenCap.SpelledDecodes | DAFL/afl-fuzz.c:1715-1754 | any spelling of a keyword, as plain characters, with backslashes or by hexadecimal digits of either case, is decoded into what it stands for |
| TokenCap.DecodedIsSpelled | DAFL/afl-fuzz.c:1715-1754 | and nothing else is decoded at all |
| TokenCap.EscapeIsSpelling | DAFL/libtokencap/libtokencap.so.c:116-133 | the printer spells printable characters other than quotes and backslashes plainly and all other bytes by two lower-case digits |
| TokenCap.LineReads | DAFL/afl-fuzz.c:1658-1712 | a line with or without a label and any spelling of a keyword gives the keyword, unless it is empty or longer than 128 bytes; spaces around it and spaces and equality signs before it do not matter |
| TokenCap.LevelLineReads | DAFL/afl-fuzz.c:1683-1692 | with a level, the line is skipped exactly if the level is above the one asked for |
| TokenCap.NegativeLevelReads | DAFL/afl-fuzz.c:1683-1692 | a negative level counts as an unsigned one, and the line is skipped or malformed |
| TokenCap.OtherLines | DAFL/afl-fuzz.c:1666-1675 | blank lines and comments are skipped; any other line must end with a quote |
| TokenCap.ChunkEnds | DAFL/afl-fuzz.c:1651 | what is read at once ends behind the first newline, after 8191 bytes or with the file |
| TokenCap.LinesInOrder | DAFL/afl-fuzz.c:1651-1767 | line by line: an error ends the file, a skipped line adds nothing, and a token comes before those behind it |
| Text.NumberRoundTrip | DAFL/afl-fuzz.c:1689 | a decimal number is read back, zeros before it and anything but a digit behind it notwithstanding |
| TokenCap.FileRoundTrip | DAFL/afl-fuzz.c:1639-1771 | a file of printed tokens is read back token by token, each line within the line buffer |
| TokenCap.Dump | DAFL/libtokencap/libtokencap.so.c:106-142 | the printer stays within its buffer and prints the token, or its part before a NUL in text mode, exactly if it has 3 to 32 bytes |
| TokenCap.DecodeChars | DAFL/afl-fuzz.c:1715-1754 | the decoding loop never writes more than it reads and computes the decoding |
| TokenCap.ParseOneLine | DAFL/afl-fuzz.c:1658-1767 | every line: skipped, a token, or the error that ends the program |
| TokenCap.LoadFile | DAFL/afl-fuzz.c:1651-1767 | all tokens of a file in order, or the first error |
| Dislocator.PagesHoldBlock | DAFL/libdislocator/libdislocator.so.c:110-138 | the pages of a block hold it with its header, with less than a page to spare |
| Dislocator.CallocTestIsExact | DAFL/libdislocator/libdislocator.so.c:156-175 | dividing the 64-bit product finds exactly the overflows |
| Dislocator.Fits | DAFL/libdislocator/libdislocator.so.c:101-103 | the limit test with its wrap-around check is exact for every 64-bit length |
| Dislocator.HeapGrows | DAFL/libdislocator/libdislocator.so.c:96-150 | a new block in a mapping of its own leaves all others intact, header and content |
| Dislocator.HeapShrinks | DAFL/libdislocator/libdislocator.so.c:208-232 | taking a block's mapping away leaves all others intact |
| Dislocator.HeapWritten | DAFL/libdislocator/libdislocator.so.c:189-201 | writing into a block touches no header and no other block |
| Dislocator.Allocator.MapBlock | DAFL/libdislocator/libdislocator.so.c:110-148 | the block comes with a mapping of its own, ends exactly at its guard page, is zero and has its header inside the mapping; it fails exactly if the kernel has no pages |
| Dislocator.NewBlockIsNew | DAFL/libdislocator/libdislocator.so.c:110-148 | mapping, guard page and header make an intact block apart from all others |
| Dislocator.Allocator.Alloc | DAFL/libdislocator/libdislocator.so.c:96-150 | a zeroed block that is counted exactly if it stays within the limit and there are pages; otherwise nothing changes and it fails as configured |
| Dislocator.Allocator.Malloc | DAFL/libdislocator/libdislocator.so.c:189-201 | the same with the block filled with the clobber byte |
| Dislocator.Allocator.Calloc | DAFL/libdislocator/libdislocator.so.c:156-182 | a product of 2^64 or more is refused; any other gives a zeroed block exactly if it is within the limit and there are pages, or fails as configured |
| Dislocator.Allocator.Unmap | DAFL/libdislocator/libdislocator.so.c:217-230 | from pointer and header exactly the base of the mapping is found again, and its pages become inaccessible |
| Dislocator.Allocator.Free | DAFL/libdislocator/libdislocator.so.c:208-232 | the block is gone and no longer counted, all others keep their content; NULL is ignored |
| Dislocator.Allocator.Realloc | DAFL/libdislocator/libdislocator.so.c:238-257 | the new block starts with the first min(old, new) bytes and the old one is freed; on failure everything stays |
| Dfg.InitDfgNodeMap | DAFL/llvm_mode/afl-llvm-pass.so.cc:93-109 | the node map of all lines exactly if every line has a score and there are fewer lines than slots; otherwise which error |
| Dfg.LineReads | DAFL/llvm_mode/afl-llvm-pass.so.cc:98-102 | a line with a score and a name reads as these, a negative score as the unsigned one with the same 32 bits; a score that does not fit into 32 bits is none |
| Dfg.NoNumberNoEntry | DAFL/llvm_mode/afl-llvm-pass.so.cc:98-102 | a first word that is no number is no score |
| Dfg.SlotsAreLines | DAFL/llvm_mode/afl-llvm-pass.so.cc:93-109 | a name has the slot and score of its last line |
| Dfg.SlotsAreDistinct | DAFL/llvm_mode/afl-llvm-pass.so.cc:93-109 | different names have different slots |
| Dfg.FindNode | DAFL/llvm_mode/afl-llvm-pass.so.cc:210-229 | a block belongs to the node of its first instruction whose line is in the graph |
| Dfg.NodeOfBlock | DAFL/llvm_mode/afl-llvm-pass.so.cc:210-229 | the node of a block is that of its first instruction whose line is in the graph, and there is none exactly if no line is |
| Dfg.VisitedBlocks | DAFL/llvm_mode/afl-llvm-pass.so.cc:267-276 | a node is visited exactly if some executed block belongs to it |
| Dfg.RunTarget | DAFL/afl-fuzz.c:2391 | from a cleared map, every slot ends with the score of its node if that was visited and with 0 if not |
| Dfg.ComputeProximityScore | DAFL/afl-fuzz.c:1128-1139 | the sum over the map, which does not wrap |
| Dfg.ScoreRun | DAFL/afl-fuzz.c:1128-1139 | the score of an execution is the sum of the scores of the distinct nodes it visits |
| Dfg.ScoreIsSumOverNodes | DAFL/afl-fuzz.c:1128-1139 | no node gives no score, and every further node adds the score that the graph has for its name, once |
| Dfg.OrderAndRepetitionDoNotMatter | DAFL/llvm_mode/afl-llvm-pass.so.cc:267-276 | executions through the same blocks have the same score, whatever their order and number |
| Dfg.MoreNodesScoreMore | DAFL/afl-fuzz.c:1128-1139 | visiting more nodes never scores less |

## Left out

- TopRated.ScoreBoard.Trimmed: requires that the entry's `exec_us * len` fits into 64 bits before the trim. With a 32-bit timeout in milliseconds and at most MAX_FILE bytes it stays below 2^63; a wrapped product could grow when the length shrinks.
- TopRated.ScoreBoard.Calibrated: assumes one successful calibration per entry, as the program makes it; a second one could raise an entry's cost while it holds slots.
- Havoc.Splice: takes the chosen target; the loop that passes over targets shorter than two bytes or equal to the current entry, and the retries, are not modelled.
- Extras.InsertStage: at the last position the program also reads one byte behind the file, which has no effect; the model does not read it.
- TokenCap.ParseOneLine: numbers of a level that do not fit into an int are read as unbounded numbers.
- SaveCase.Session.Calibrate: takes for every run whether its checksum differs from the entry's own, which the program finds with `hash32`; the entry's checksum is taken to be other than zero. The statistics, the longer calibration of variable entries and Ctrl-C are left out.
- Dislocator.Allocator.Free: only valid pointers; the abort on a bad canary and the crash on an unmapped header are not modelled.
- AutoDict.SortTable: stands for `qsort` with any algorithm; hit counts of 2^31 and more, whose difference the comparison function cannot represent, are not considered.
- Sortedness over runs assumes that an entry's score is fixed when it is inserted; calibration recomputes it from the same input.
- FuzzLoop.FuzzTurn: the executions are those of mutated inputs; the second calibration of an entry whose first one failed, which can only use up virgin bits, is not among them. The length of an entry is the one it is queued with; a later trim, which makes it shorter, is no part of a turn.
- The counting of bits and bytes for the status screen, the loop that fills the 16-bit class table (its contents serve as the definition) and the map given with -B.
- `calculate_score`, `calculate_factor`, the number of havoc rounds and its doubling, which need floating point and do not touch the buffers.
- Tmin.SafeOracleIsFullyMinimized: the condition on the oracle suffices for all inputs; the exact condition is stated for each input by `Tmin.FullyMinimizedUnlessSkipped`.
- Stage maxima beyond 32 bits, the post-processing library hook, skipping of timeouts and of entries in `common_fuzz_stuff`, and the name and cycle statistics of stages.
- Dumb mode except as a flag of the flip stages, QEMU mode, running without a fork server, Ctrl-C, the reuse of process numbers, and the kill of the server itself.
- The redundancy markers on disk, files, pipes as byte streams, shared memory, signals other than the timer, the status screen, argument parsing and synchronisation with other fuzzers (AFL_IMPORT_FIRST included).
- The read-only test and the comparison functions of libtokencap, which decide what is printed; the sort and the reported lengths of a loaded dictionary.
- The compiler pass beyond DFG nodes: reading lines from a file, selective instrumentation, names built from debug locations and the edge counters.
- The internals of `hash32`; no claim is made about collisions.
- afl-gcc, afl-as, afl-clang-fast, afl-cmin, afl-analyze, afl-showmap and the helper scripts, which rewrite text or repeat arguments proved here in an easier form.
