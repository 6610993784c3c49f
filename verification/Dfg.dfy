/** The proximity score of DAFL: from the scored source lines of a data-flow graph, through the
    stores that the compiler pass puts into blocks, to the sum the fuzzer computes after a run. */
module Dfg {
  import opened Bytes
  import opened Text

  const DFG_MAP_SIZE: nat := 16284

  type Name = seq<byte>

  /** The slot of a node and the score stored there. */
  datatype Node = Node(idx: nat, score: nat)

  // ---------- Reading the graph ----------

  datatype Stoi = Value(v: int) | OutOfRange | NoDigits

  /** `std::stoi`: white space, a sign and digits; what follows is ignored. */
  function ParseInt(s: seq<byte>): Stoi {
    var t := Skip(s, Space);
    var signed := |t| > 0 && (t[0] == 43 || t[0] == 45);
    var digits := if signed then t[1..] else t;
    if |digits| == 0 || !IsDigit(digits[0]) then NoDigits
    else
      var v := if signed && t[0] == 45 then -1 * Number(digits, 0) else Number(digits, 0);
      if -0x8000_0000 <= v < 0x8000_0000 then Value(v) else OutOfRange
  }

  /** The position of the first space, or the length. */
  function FirstSpace(s: seq<byte>): (k: nat)
    ensures k <= |s| && (k < |s| ==> s[k] == 32)
  {
    if |s| == 0 || s[0] == 32 then 0 else 1 + FirstSpace(s[1..])
  }

  /** The score of a line: a negative number counts as the unsigned one with the same bits. */
  function ScoreOf(line: seq<byte>): Option<nat> {
    var n := ParseInt(line[..FirstSpace(line)]);
    if n.Value? then Some(n.v % U32_MODULUS) else None
  }

  /** The name of a line: what follows the first space, or the whole line if there is none. */
  function NameOf(line: seq<byte>): Name {
    var k := FirstSpace(line);
    if k < |line| then line[k + 1..] else line
  }

  /** A line that was read. */
  datatype Entry = Entry(name: Name, score: nat)

  function EntryOf(line: seq<byte>): Option<Entry> {
    if ScoreOf(line).Some? then Some(Entry(NameOf(line), ScoreOf(line).value)) else None
  }

  lemma {:induction false} SpaceIsFirst(word: seq<byte>, rest: seq<byte>)
    requires 32 !in word
    ensures FirstSpace(word + [32] + rest) == |word|
  {
    if |word| > 0 {
      assert (word + [32] + rest)[1..] == word[1..] + [32] + rest;
      SpaceIsFirst(word[1..], rest);
    }
  }

  /** What `stoi` reads: a number with or without a sign, if it fits into 32 bits. */
  lemma StoiReads(sign: seq<byte>, zeros: seq<byte>, n: nat, junk: seq<byte>)
    requires (sign == [] || sign == [43] || sign == [45]) && forall k :: 0 <= k < |zeros| ==> zeros[k] == 48
    requires |junk| > 0 ==> !IsDigit(junk[0])
    ensures ParseInt(sign + (zeros + Decimal(n) + junk)) ==
              if sign == [45] then (if n <= 0x8000_0000 then Value(-(n as int)) else OutOfRange)
              else if n <= 0x7fff_ffff then Value(n) else OutOfRange
  {
    var digits := zeros + Decimal(n) + junk;
    var s := sign + digits;
    NumberRoundTrip(zeros, n, junk);
    assert IsDigit(digits[0]) by { assert digits[0] == if |zeros| > 0 then zeros[0] else Decimal(n)[0]; }
    assert Skip(s, Space) == s;
    if sign == [] { assert s == digits; } else { assert s[1..] == digits; }
  }

  /** A line with a score, anything but a space behind it, a space and a name: it is read back, a negative
      score as the unsigned one with the same 32 bits; a score that does not fit is none. */
  lemma LineReads(sign: seq<byte>, zeros: seq<byte>, n: nat, junk: seq<byte>, name: Name)
    requires (sign == [] || sign == [43] || sign == [45]) && forall k :: 0 <= k < |zeros| ==> zeros[k] == 48
    requires 32 !in junk && (|junk| > 0 ==> !IsDigit(junk[0]))
    ensures EntryOf(sign + (zeros + Decimal(n) + junk) + [32] + name) ==
              if sign == [45] && n <= 0x8000_0000 then Some(Entry(name, if n == 0 then 0 else 0x1_0000_0000 - n))
              else if sign != [45] && n <= 0x7fff_ffff then Some(Entry(name, n))
              else None
  {
    var word := sign + (zeros + Decimal(n) + junk);
    var line := word + [32] + name;
    SpaceIsFirst(word, name);
    StoiReads(sign, zeros, n, junk);
    assert line[..|word|] == word && line[|word| + 1..] == name;
  }

  /** A first word that is not a number, with a sign or without, is no score. */
  lemma NoNumberNoEntry(word: seq<byte>, name: Name)
    requires 32 !in word
    requires var t := Skip(word, Space);
             var u := if |t| > 0 && (t[0] == 43 || t[0] == 45) then t[1..] else t;
             |u| == 0 || !IsDigit(u[0])
    ensures EntryOf(word + [32] + name) == None
  {
    SpaceIsFirst(word, name);
    assert (word + [32] + name)[..|word|] == word;
  }

  datatype Load = Nodes(nodes: map<Name, Node>) | BadScore | TooLarge

  /** `read` holds what each line reads as. */
  ghost predicate AreRead(read: seq<Option<Entry>>, lines: seq<seq<byte>>) {
    && |read| == |lines|
    && forall k {:trigger EntryOf(lines[k])} :: 0 <= k < |lines| ==> read[k] == EntryOf(lines[k])
  }

  ghost predicate Scored(read: seq<Option<Entry>>, n: nat)
    requires n <= |read|
  {
    forall k :: 0 <= k < n ==> read[k].Some?
  }

  ghost function Entries(read: seq<Option<Entry>>, n: nat): (r: seq<Entry>)
    requires n <= |read| && Scored(read, n)
    ensures |r| == n
  {
    if n == 0 then [] else Entries(read, n - 1) + [read[n - 1].value]
  }

  /** The node of every name: a later line takes the place of an earlier one. */
  function NodeMap(es: seq<Entry>): map<Name, Node> {
    if |es| == 0 then map[]
    else NodeMap(es[..|es| - 1])[es[|es| - 1].name := Node(|es| - 1, es[|es| - 1].score)]
  }

  /** `initDFGNodeMap`: every line must have a score, and there must be fewer lines than slots. */
  method InitDfgNodeMap(lines: seq<seq<byte>>, ghost read: seq<Option<Entry>>) returns (r: Load)
    requires AreRead(read, lines)
    ensures r.Nodes? <==> Scored(read, |read|) && |read| < DFG_MAP_SIZE
    ensures r.Nodes? ==> r.nodes == NodeMap(Entries(read, |read|))
    ensures r.TooLarge? <==> |read| >= DFG_MAP_SIZE && Scored(read, DFG_MAP_SIZE)
  {
    var idx, nodes := 0, map[];
    while idx < |lines|
      invariant 0 <= idx <= |lines| && idx < DFG_MAP_SIZE && Scored(read, idx)
      invariant nodes == NodeMap(Entries(read, idx))
    {
      var entry := ReadLine(lines, idx, read);
      if entry.None? { return BadScore; }
      assert Entries(read, idx + 1)[..idx] == Entries(read, idx);
      nodes := nodes[entry.value.name := Node(idx, entry.value.score)];
      idx := idx + 1;
      if idx >= DFG_MAP_SIZE { return TooLarge; }
    }
    r := Nodes(nodes);
  }

  method ReadLine(lines: seq<seq<byte>>, idx: nat, ghost read: seq<Option<Entry>>) returns (entry: Option<Entry>)
    requires idx < |lines| && AreRead(read, lines)
    ensures entry == read[idx]
  {
    entry := EntryOf(lines[idx]);
  }

  /** Is line k the last one with its name? */
  ghost predicate Current(es: seq<Entry>, k: nat)
    requires k < |es|
  {
    forall j :: k < j < |es| ==> es[j].name != es[k].name
  }

  /** A name belongs to the slot of its last line. */
  lemma {:induction false} SlotsAreLines(es: seq<Entry>, name: Name)
    ensures name in NodeMap(es) ==>
      var node := NodeMap(es)[name];
      node.idx < |es| && es[node.idx] == Entry(name, node.score) && Current(es, node.idx)
    ensures name !in NodeMap(es) ==> forall k :: 0 <= k < |es| ==> es[k].name != name
  {
    if |es| > 0 { SlotsAreLines(es[..|es| - 1], name); }
  }

  /** Different names have different slots. */
  lemma SlotsAreDistinct(es: seq<Entry>, a: Name, b: Name)
    requires a in NodeMap(es) && b in NodeMap(es) && NodeMap(es)[a].idx == NodeMap(es)[b].idx
    ensures a == b
  {
    SlotsAreLines(es, a);
    SlotsAreLines(es, b);
  }

  // ---------- Instrumented blocks ----------

  /** A basic block: the source line of every instruction that has one. */
  type BasicBlock = seq<Option<Name>>

  /** The node of a block is that of its first instruction whose line is in the graph. */
  function NodeName(block: BasicBlock, nodes: map<Name, Node>): Option<Name> {
    if |block| == 0 then None
    else if block[0].Some? && block[0].value in nodes then block[0]
    else NodeName(block[1..], nodes)
  }

  /** Instruction k is the first of the block whose line is in the graph. */
  ghost predicate FirstInGraph(block: BasicBlock, nodes: map<Name, Node>, k: nat) {
    && k < |block| && block[k].Some? && block[k].value in nodes
    && forall j :: 0 <= j < k ==> block[j].None? || block[j].value !in nodes
  }

  /** A block belongs to the node of its first instruction whose line is in the graph, or to none. */
  lemma {:induction false} NodeOfBlock(block: BasicBlock, nodes: map<Name, Node>) returns (k: nat)
    ensures NodeName(block, nodes).Some? ==> FirstInGraph(block, nodes, k) && NodeName(block, nodes) == block[k]
    ensures NodeName(block, nodes).None? ==>
      forall j :: 0 <= j < |block| ==> block[j].None? || block[j].value !in nodes
  {
    k := 0;
    if |block| > 0 && !(block[0].Some? && block[0].value in nodes) {
      var j := NodeOfBlock(block[1..], nodes);
      k := j + 1;
      assert forall i :: 1 <= i < |block| ==> block[i] == block[1..][i - 1];
    }
  }

  /** The pass looks through the instructions of a block. */
  method FindNode(block: BasicBlock, nodes: map<Name, Node>) returns (isDfgNode: bool, node: Node)
    ensures isDfgNode <==> NodeName(block, nodes).Some?
    ensures isDfgNode ==> NodeName(block, nodes).value in nodes && node == nodes[NodeName(block, nodes).value]
  {
    isDfgNode, node := false, Node(0, 0);
    var k := 0;
    assert block[0..] == block;
    while k < |block|
      invariant 0 <= k <= |block| && !isDfgNode && NodeName(block, nodes) == NodeName(block[k..], nodes)
    {
      if block[k].Some? && block[k].value in nodes {
        return true, nodes[block[k].value];
      }
      assert block[k..][1..] == block[k + 1..];
      k := k + 1;
    }
  }

  /** The nodes that an execution visits. */
  function Visited(trace: seq<BasicBlock>, nodes: map<Name, Node>): set<Name> {
    if |trace| == 0 then {}
    else
      var name := NodeName(trace[|trace| - 1], nodes);
      Visited(trace[..|trace| - 1], nodes) + if name.Some? then {name.value} else {}
  }

  lemma {:induction false} VisitedBlocks(trace: seq<BasicBlock>, nodes: map<Name, Node>, name: Name)
    ensures name in Visited(trace, nodes) <==> exists b :: b in trace && NodeName(b, nodes) == Some(name)
  {
    if |trace| > 0 {
      var last := trace[|trace| - 1];
      var init := trace[..|trace| - 1];
      VisitedBlocks(init, nodes, name);
      if name in Visited(init, nodes) {
        var b :| b in init && NodeName(b, nodes) == Some(name);
        assert b in trace;
      } else if NodeName(last, nodes) == Some(name) {
        assert last in trace;
      }
      forall b | b in trace && NodeName(b, nodes) == Some(name) ensures name in Visited(trace, nodes) {
        assert b in init || b == last;
      }
    }
  }

  // ---------- One run ----------

  function SumOf(s: seq<nat>): nat {
    if |s| == 0 then 0 else SumOf(s[..|s| - 1]) + s[|s| - 1]
  }

  /** What slot k holds when the names in `visited` were visited. */
  ghost function Slot(es: seq<Entry>, visited: set<Name>, k: nat): nat {
    if k < |es| && es[k].name in visited && Current(es, k) then es[k].score else 0
  }

  /** The sum of the scores of the visited nodes, each counted once, among the first n lines. */
  ghost function VisitedScore(es: seq<Entry>, visited: set<Name>, n: nat): nat {
    if n == 0 then 0 else VisitedScore(es, visited, n - 1) + Slot(es, visited, n - 1)
  }

  /** Every block of the execution stores the score of its node, if it has one, into its slot.
      The map is cleared first. */
  method RunTarget(trace: seq<BasicBlock>, nodes: map<Name, Node>, dfg: array<nat>, ghost es: seq<Entry>)
    requires dfg.Length == DFG_MAP_SIZE && |es| < DFG_MAP_SIZE && nodes == NodeMap(es)
    modifies dfg
    ensures forall k :: 0 <= k < DFG_MAP_SIZE ==> dfg[k] == Slot(es, Visited(trace, nodes), k)
  {
    Memset(dfg, 0, 0, dfg.Length);
    for t := 0 to |trace|
      invariant forall k :: 0 <= k < DFG_MAP_SIZE ==> dfg[k] == Slot(es, Visited(trace[..t], nodes), k)
    {
      var isDfgNode, node := FindNode(trace[t], nodes);
      ghost var before := dfg[..];
      OneMoreBlock(trace, nodes, t);
      if isDfgNode {
        SlotsAreLines(es, NodeName(trace[t], nodes).value);
        dfg[node.idx] := node.score;
        SlotsAfterStore(es, Visited(trace[..t], nodes), NodeName(trace[t], nodes).value, node, before, dfg[..]);
      }
    }
    assert trace[..|trace|] == trace;
  }

  lemma OneMoreBlock(trace: seq<BasicBlock>, nodes: map<Name, Node>, t: nat)
    requires t < |trace|
    ensures Visited(trace[..t + 1], nodes) ==
      Visited(trace[..t], nodes) + if NodeName(trace[t], nodes).Some? then {NodeName(trace[t], nodes).value} else {}
  {
    assert trace[..t + 1][..t] == trace[..t];
  }

  lemma SlotsAfterStore(es: seq<Entry>, visited: set<Name>, name: Name, node: Node, before: seq<nat>, after: seq<nat>)
    requires |before| == |after| && node.idx < |es| <= |before| && after == before[node.idx := node.score]
    requires es[node.idx] == Entry(name, node.score) && Current(es, node.idx)
    requires forall k :: 0 <= k < |before| ==> before[k] == Slot(es, visited, k)
    ensures forall k :: 0 <= k < |after| ==> after[k] == Slot(es, visited + {name}, k)
  {
    forall k | 0 <= k < |after| ensures after[k] == Slot(es, visited + {name}, k) {
      if k < |es| && k != node.idx && es[k].name == name {
        assert !Current(es, k);
      }
    }
  }

  /** `compute_proximity_score`; the 64-bit sum cannot wrap. */
  method ComputeProximityScore(dfg: array<nat>) returns (score: nat)
    requires dfg.Length == DFG_MAP_SIZE && forall k :: 0 <= k < dfg.Length ==> dfg[k] < U32_MODULUS
    ensures score == SumOf(dfg[..])
  {
    score := 0;
    var i := dfg.Length;
    assert dfg[..i] == dfg[..];
    while i > 0
      invariant 0 <= i <= dfg.Length && score + SumOf(dfg[..i]) == SumOf(dfg[..])
      invariant score <= (dfg.Length - i) * U32_MODULUS
    {
      i := i - 1;
      assert dfg[..i + 1][..i] == dfg[..i];
      score := (score + dfg[i]) % U64_MODULUS;
    }
  }

  lemma {:induction false} SumOfSlots(es: seq<Entry>, visited: set<Name>, slots: seq<nat>)
    requires forall k :: 0 <= k < |slots| ==> slots[k] == Slot(es, visited, k)
    ensures SumOf(slots) == VisitedScore(es, visited, |slots|)
  {
    if |slots| > 0 { SumOfSlots(es, visited, slots[..|slots| - 1]); }
  }

  lemma {:induction false} NothingBehind(es: seq<Entry>, visited: set<Name>, n: nat)
    requires |es| <= n
    ensures VisitedScore(es, visited, n) == VisitedScore(es, visited, |es|)
  {
    if n > |es| { NothingBehind(es, visited, n - 1); }
  }

  /** The score of an execution is the sum of the scores of the nodes it visits, each once. */
  method ScoreRun(trace: seq<BasicBlock>, nodes: map<Name, Node>, dfg: array<nat>, ghost es: seq<Entry>)
    returns (score: nat)
    requires dfg.Length == DFG_MAP_SIZE && |es| < DFG_MAP_SIZE && nodes == NodeMap(es)
    requires forall k :: 0 <= k < |es| ==> es[k].score < U32_MODULUS
    modifies dfg
    ensures score == VisitedScore(es, Visited(trace, nodes), |es|)
  {
    RunTarget(trace, nodes, dfg, es);
    score := ComputeProximityScore(dfg);
    SumOfSlots(es, Visited(trace, nodes), dfg[..]);
    NothingBehind(es, Visited(trace, nodes), DFG_MAP_SIZE);
  }

  /** Neither the order of the blocks nor their repetition matters. */
  lemma OrderAndRepetitionDoNotMatter(a: seq<BasicBlock>, b: seq<BasicBlock>, es: seq<Entry>)
    requires forall block :: block in a <==> block in b
    ensures VisitedScore(es, Visited(a, NodeMap(es)), |es|) == VisitedScore(es, Visited(b, NodeMap(es)), |es|)
  {
    var nodes := NodeMap(es);
    forall name ensures name in Visited(a, nodes) <==> name in Visited(b, nodes) {
      VisitedBlocks(a, nodes, name);
      VisitedBlocks(b, nodes, name);
    }
    assert Visited(a, nodes) == Visited(b, nodes);
  }

  /** An execution that visits more nodes does not score less. */
  lemma {:induction false} MoreNodesScoreMore(es: seq<Entry>, some: set<Name>, more: set<Name>, n: nat)
    requires some <= more
    ensures VisitedScore(es, some, n) <= VisitedScore(es, more, n)
  {
    if n > 0 { MoreNodesScoreMore(es, some, more, n - 1); }
  }

  lemma {:induction false} NodesCountOnce(es: seq<Entry>, visited: set<Name>, name: Name, n: nat)
    requires n <= |es| && name !in visited && name in NodeMap(es)
    ensures VisitedScore(es, visited + {name}, n)
         == VisitedScore(es, visited, n) + if NodeMap(es)[name].idx < n then NodeMap(es)[name].score else 0
  {
    if n > 0 {
      NodesCountOnce(es, visited, name, n - 1);
      SlotsAreLines(es, name);
      var node := NodeMap(es)[name];
      if n - 1 != node.idx && es[n - 1].name == name {
        assert !Current(es, n - 1) by { LastLineIsCurrent(es, name, n - 1); }
      }
    }
  }

  lemma LastLineIsCurrent(es: seq<Entry>, name: Name, k: nat)
    requires k < |es| && es[k].name == name && name in NodeMap(es) && k != NodeMap(es)[name].idx
    ensures !Current(es, k)
  {
    SlotsAreLines(es, name);
    var last := NodeMap(es)[name].idx;
    assert last > k ==> es[last].name == es[k].name;
  }

  lemma {:induction false} NothingVisited(es: seq<Entry>, visited: set<Name>, n: nat)
    requires n <= |es| && forall name :: name in visited ==> name !in NodeMap(es)
    ensures VisitedScore(es, visited, n) == 0
  {
    if n > 0 {
      NothingVisited(es, visited, n - 1);
      SlotsAreLines(es, es[n - 1].name);
    }
  }

  /** No node, no score; and a node that was not visited before adds the score that the map has for it. */
  lemma ScoreIsSumOverNodes(es: seq<Entry>, visited: set<Name>, name: Name)
    requires name in NodeMap(es) && name !in visited
    ensures VisitedScore(es, {}, |es|) == 0
    ensures VisitedScore(es, visited + {name}, |es|) == VisitedScore(es, visited, |es|) + NodeMap(es)[name].score
  {
    NothingVisited(es, {}, |es|);
    NodesCountOnce(es, visited, name, |es|);
    SlotsAreLines(es, name);
  }
}
