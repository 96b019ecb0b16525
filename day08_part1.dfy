/** Day 8, part 1: a network of nodes, each with a left and a right exit,
    and a list of L/R directions repeated for ever. The walk starts at
    `AAA` and counts steps until it first stands on `ZZZ`. */
module Day08Part1 {
  import opened Common

  /** A node line `AAA = (BBB, CCC)`: its id and its two exits. */
  datatype Node = Node(id: string, left: string, right: string)

  /** Node::step: 'L' takes the left exit, 'R' the right one, and any
      other direction panics (None). */
  function Step(n: Node, d: char): (r: Option<string>)
    ensures r.Some? <==> d == 'L' || d == 'R'
    ensures r.Some? ==> r.value == n.left || r.value == n.right
    ensures d == 'L' ==> r == Some(n.left)
  {
    if d == 'L' then Some(n.left)
    else if d == 'R' then Some(n.right)
    else None
  }

  /** A node id that ends in the given letter (`str::ends_with`). */
  predicate EndsWith(id: string, c: char)
  {
    |id| > 0 && id[|id| - 1] == c
  }

  // -------- Parsing --------

  /** parse_node: id, left and right sit in the fixed columns 0..3, 7..10
      and 12..15; a shorter line makes the slicing panic (None). */
  function ParseNode(line: string): (r: Option<Node>)
    ensures r.Some? <==> |line| >= 15
    ensures r.Some? ==> |r.value.id| == 3 && |r.value.left| == 3 && |r.value.right| == 3
  {
    if |line| < 15 then None
    else Some(Node(line[0..3], line[7..10], line[12..15]))
  }

  /** The text of a node line, as the puzzle input writes it. */
  function NodeText(n: Node): string
  {
    n.id + " = (" + n.left + ", " + n.right + ")"
  }

  predicate WellFormed(n: Node)
  {
    |n.id| == 3 && |n.left| == 3 && |n.right| == 3
  }

  /** Reading back the line of a node with three-letter names gives the node. */
  lemma ParseNodeText(n: Node)
    requires WellFormed(n)
    ensures ParseNode(NodeText(n)) == Some(n)
  {
    var t := NodeText(n);
    assert t[0..3] == n.id;
    assert t[7..10] == n.left;
    assert t[12..15] == n.right;
  }

  /** The test of parse_node. */
  lemma ParseNodeExample()
    ensures ParseNode("AAA = (BBB, CCC)") == Some(Node("AAA", "BBB", "CCC"))
  {
    ParseNodeText(Node("AAA", "BBB", "CCC"));
    assert NodeText(Node("AAA", "BBB", "CCC")) == "AAA = (BBB, CCC)";
  }

  /** The input: the direction line, a skipped line, then one node per
      line. No first line panics at the `expect` (None), and so does a
      node line too short to slice. */
  function ParseInput(lines: seq<string>): (r: Option<(string, seq<Node>)>)
    ensures r.Some? <==> |lines| >= 1 && forall i :: 2 <= i < |lines| ==> |lines[i]| >= 15
    ensures r.Some? ==> r.value.0 == lines[0] && |r.value.1| == if |lines| < 2 then 0 else |lines| - 2
    ensures r.Some? ==> forall i :: 0 <= i < |r.value.1| ==> ParseNode(lines[i + 2]) == Some(r.value.1[i])
  {
    if lines == [] then None
    else match ParseNodes(if |lines| < 2 then [] else lines[2..])
      case None => None
      case Some(ns) => Some((lines[0], ns))
  }

  function ParseNodes(lines: seq<string>): (r: Option<seq<Node>>)
    ensures r.Some? <==> forall i :: 0 <= i < |lines| ==> |lines[i]| >= 15
    ensures r.Some? ==> |r.value| == |lines| && forall i :: 0 <= i < |lines| ==> ParseNode(lines[i]) == Some(r.value[i])
  {
    if lines == [] then Some([])
    else match ParseNode(lines[0])
      case None => None
      case Some(n) =>
        match ParseNodes(lines[1..])
        case None => None
        case Some(ns) => Some([n] + ns)
  }

  // -------- The node table --------

  /** The HashMap after inserting the nodes in order: a later node with the
      same id replaces an earlier one. */
  function NodeMap(ns: seq<Node>): (m: map<string, Node>)
    ensures forall id :: id in m <==> exists i :: 0 <= i < |ns| && ns[i].id == id
    ensures forall id :: id in m ==> m[id].id == id
  {
    if ns == [] then map[]
    else NodeMap(ns[..|ns| - 1])[ns[|ns| - 1].id := ns[|ns| - 1]]
  }

  /** Each id is bound to the last node listed under it. */
  lemma {:induction false} NodeMapLatest(ns: seq<Node>, i: nat)
    requires i < |ns|
    requires forall j :: i < j < |ns| ==> ns[j].id != ns[i].id
    ensures ns[i].id in NodeMap(ns) && NodeMap(ns)[ns[i].id] == ns[i]
  {
    if i < |ns| - 1 {
      NodeMapLatest(ns[..|ns| - 1], i);
    }
  }

  /** The insertion loop of part1. */
  method BuildNodes(ns: seq<Node>) returns (m: map<string, Node>)
    ensures m == NodeMap(ns)
  {
    m := map[];
    for i := 0 to |ns|
      invariant m == NodeMap(ns[..i])
    {
      assert ns[..i + 1][..i] == ns[..i];
      m := m[ns[i].id := ns[i]];
    }
    assert ns[..|ns|] == ns;
  }

  // -------- The walk --------

  /** One step from the node named `id`; an unknown id panics at the
      `expect`, an unknown direction in Node::step. */
  function StepFrom(nodes: map<string, Node>, id: string, d: char): Option<string>
  {
    if id in nodes then Step(nodes[id], d) else None
  }

  /** The index of the direction used by step k+1 (k mod n, counted out
      round by round): the direction line is used round and round. */
  function Phase(n: nat, k: nat): (i: nat)
    requires n > 0
    ensures i < n
  {
    if k < n then k else Phase(n, k - n)
  }

  function Direction(dirs: string, k: nat): char
    requires |dirs| > 0
  {
    dirs[Phase(|dirs|, k)]
  }

  /** Each step moves the phase on by one, wrapping to 0 after the last. */
  lemma {:induction false} PhaseNext(n: nat, k: nat)
    requires n > 0
    ensures Phase(n, k + 1) == if Phase(n, k) + 1 == n then 0 else Phase(n, k) + 1
  {
    if k >= n {
      PhaseNext(n, k - n);
    }
  }

  /** k is a whole number of rounds of n directions. */
  predicate Rounds(k: nat, n: nat)
    requires n > 0
  {
    k == 0 || (k >= n && Rounds(k - n, n))
  }

  /** After whole rounds the directions start again from the first. */
  lemma {:induction false} PhaseAfterRounds(n: nat, base: nat, i: nat)
    requires n > 0 && i < n && Rounds(base, n)
    ensures Phase(n, base + i) == i
  {
    if base > 0 {
      PhaseAfterRounds(n, base - n, i);
    }
  }

  /** Where a walk from `start` stands after k steps, the directions being
      used round and round; None once a step has panicked. */
  function Position(nodes: map<string, Node>, dirs: string, start: string, k: nat): Option<string>
    requires |dirs| > 0
  {
    if k == 0 then Some(start)
    else match Position(nodes, dirs, start, k - 1)
      case None => None
      case Some(id) => StepFrom(nodes, id, Direction(dirs, k - 1))
  }

  /** The walk of part1 stops after step k: that step panicked or reached ZZZ. */
  predicate Stops(nodes: map<string, Node>, dirs: string, k: nat)
    requires |dirs| > 0
  {
    k >= 1 && (Position(nodes, dirs, "AAA", k).None? || Position(nodes, dirs, "AAA", k) == Some("ZZZ"))
  }

  predicate FirstStop(nodes: map<string, Node>, dirs: string, k: nat)
    requires |dirs| > 0
  {
    Stops(nodes, dirs, k) && forall j :: 1 <= j < k ==> !Stops(nodes, dirs, j)
  }

  /** part1 returns at all: there are directions (with none the outer
      `loop` spins for ever) and some step panics or reaches ZZZ. */
  ghost predicate Halts(nodes: map<string, Node>, dirs: string)
  {
    |dirs| > 0 && exists k :: Stops(nodes, dirs, k)
  }

  /** Once a step has panicked, every later position is a panic too. */
  lemma {:induction false} PanicPersists(nodes: map<string, Node>, dirs: string, start: string, j: nat, k: nat)
    requires |dirs| > 0 && j <= k
    requires Position(nodes, dirs, start, j).None?
    ensures Position(nodes, dirs, start, k).None?
  {
    if j < k {
      PanicPersists(nodes, dirs, start, j, k - 1);
    }
  }

  /** The loop of part1: an endless pass over the directions, counting
      steps, that returns the count on the first arrival at ZZZ; None
      stands for the panic of an unknown node or direction. */
  method Walk(nodes: map<string, Node>, dirs: string) returns (r: Option<nat>)
    requires Halts(nodes, dirs)
    ensures r.Some? ==> r.value >= 1 && FirstStop(nodes, dirs, r.value)
                        && Position(nodes, dirs, "AAA", r.value) == Some("ZZZ")
    ensures r.None? ==> exists k :: FirstStop(nodes, dirs, k) && Position(nodes, dirs, "AAA", k).None?
  {
    ghost var bound: nat :| Stops(nodes, dirs, bound);
    var current := "AAA";
    var steps := 0;
    while true
      invariant Rounds(steps, |dirs|)
      invariant Position(nodes, dirs, "AAA", steps) == Some(current)
      invariant forall j :: 1 <= j <= steps ==> !Stops(nodes, dirs, j)
      invariant steps < bound
      decreases bound - steps
    {
      ghost var base := steps;
      for i := 0 to |dirs|
        invariant steps == base + i
        invariant Position(nodes, dirs, "AAA", steps) == Some(current)
        invariant forall j :: 1 <= j <= steps ==> !Stops(nodes, dirs, j)
      {
        PhaseAfterRounds(|dirs|, base, i);
        steps := steps + 1;
        if current !in nodes {
          assert FirstStop(nodes, dirs, steps);
          return None;
        }
        var next := Step(nodes[current], dirs[i]);
        if next.None? {
          assert FirstStop(nodes, dirs, steps);
          return None;
        }
        current := next.value;
        if current == "ZZZ" {
          assert Stops(nodes, dirs, steps);
          return Some(steps);
        }
      }
      assert Rounds(steps, |dirs|) by { assert steps - |dirs| == base; }
    }
  }

  /** part1 from the input lines. It is only a function of its input where
      the walk halts; otherwise the Rust loop never returns. */
  method Part1(lines: seq<string>) returns (r: Option<nat>)
    requires ParseInput(lines).Some? ==> Halts(NodeMap(ParseInput(lines).value.1), ParseInput(lines).value.0)
    ensures r.Some? ==> ParseInput(lines).Some?
    ensures r.Some? ==> FirstStop(NodeMap(ParseInput(lines).value.1), ParseInput(lines).value.0, r.value)
                        && Position(NodeMap(ParseInput(lines).value.1), ParseInput(lines).value.0, "AAA", r.value) == Some("ZZZ")
  {
    match ParseInput(lines)
    case None =>
      r := None;
    case Some(input) =>
      var nodes := BuildNodes(input.1);
      r := Walk(nodes, input.0);
  }

  // -------- The samples --------

  /** With distinct ids, every node can be looked up under its id. */
  lemma NodeMapDistinct(ns: seq<Node>, i: nat)
    requires i < |ns|
    requires forall j, k :: 0 <= j < k < |ns| ==> ns[j].id != ns[k].id
    ensures ns[i].id in NodeMap(ns) && NodeMap(ns)[ns[i].id] == ns[i]
  {
    NodeMapLatest(ns, i);
  }

  /** First sample: with directions RL the walk goes AAA, CCC, ZZZ: 2 steps. */
  lemma SampleOne(nodes: map<string, Node>)
    requires "AAA" in nodes && nodes["AAA"] == Node("AAA", "BBB", "CCC")
    requires "CCC" in nodes && nodes["CCC"] == Node("CCC", "ZZZ", "GGG")
    ensures FirstStop(nodes, "RL", 2) && Position(nodes, "RL", "AAA", 2) == Some("ZZZ")
  {
    assert Position(nodes, "RL", "AAA", 1) == Some("CCC");
  }

  /** The node table of the first sample holds the two nodes its walk visits. */
  lemma SampleOneTable(ns: seq<Node>)
    requires ns == [Node("AAA", "BBB", "CCC"), Node("BBB", "DDD", "EEE"), Node("CCC", "ZZZ", "GGG"),
                    Node("DDD", "DDD", "DDD"), Node("EEE", "EEE", "EEE"), Node("GGG", "GGG", "GGG"),
                    Node("ZZZ", "ZZZ", "ZZZ")]
    ensures "AAA" in NodeMap(ns) && NodeMap(ns)["AAA"] == Node("AAA", "BBB", "CCC")
    ensures "CCC" in NodeMap(ns) && NodeMap(ns)["CCC"] == Node("CCC", "ZZZ", "GGG")
  {
    NodeMapDistinct(ns, 0);
    NodeMapDistinct(ns, 2);
  }

  /** Second sample: LLR repeated takes 6 steps, AAA and BBB alternating
      until the sixth step, an R from BBB, reaches ZZZ. */
  lemma SampleTwo(nodes: map<string, Node>)
    requires "AAA" in nodes && nodes["AAA"] == Node("AAA", "BBB", "BBB")
    requires "BBB" in nodes && nodes["BBB"] == Node("BBB", "AAA", "ZZZ")
    ensures FirstStop(nodes, "LLR", 6) && Position(nodes, "LLR", "AAA", 6) == Some("ZZZ")
  {
    assert Position(nodes, "LLR", "AAA", 1) == Some("BBB");
    assert Position(nodes, "LLR", "AAA", 2) == Some("AAA");
    assert Position(nodes, "LLR", "AAA", 3) == Some("BBB");
    assert Position(nodes, "LLR", "AAA", 4) == Some("AAA");
    assert Position(nodes, "LLR", "AAA", 5) == Some("BBB");
  }

  lemma SampleTwoTable(ns: seq<Node>)
    requires ns == [Node("AAA", "BBB", "BBB"), Node("BBB", "AAA", "ZZZ"), Node("ZZZ", "ZZZ", "ZZZ")]
    ensures "AAA" in NodeMap(ns) && NodeMap(ns)["AAA"] == Node("AAA", "BBB", "BBB")
    ensures "BBB" in NodeMap(ns) && NodeMap(ns)["BBB"] == Node("BBB", "AAA", "ZZZ")
  {
    NodeMapDistinct(ns, 0);
    NodeMapDistinct(ns, 1);
  }
}
