/** Day 8, part 2: a ghost starts on every node whose id ends in `A` and
    all of them walk at once; the answer is the first step at which every
    ghost stands on an id ending in `Z`. The program records, for each
    ghost, the walk up to its first repeated state (a LoopingSequence),
    and then widens each ghost's set of finishing steps one loop at a time
    until the sets meet. The network, the directions and the walk itself
    are those of part 1. */
module Day08Part2 {
  import opened Common
  import opened Day08Part1

  /** What create_sequence learns about one ghost: how many positions it
      recorded, where it takes the loop to start, and the recorded
      positions on an id ending in `Z`. */
  datatype LoopingSequence = LoopingSequence(totalLength: nat, loopStart: nat, finishIndexes: seq<nat>)

  predicate WellShaped(s: LoopingSequence)
  {
    s.loopStart <= s.totalLength
  }

  /** LoopingSequence::loop_length (the u64 subtraction cannot underflow on
      what create_sequence builds, which WellShaped records). */
  function LoopLength(s: LoopingSequence): (l: nat)
    requires WellShaped(s)
    ensures s.loopStart + l == s.totalLength
  {
    s.totalLength - s.loopStart
  }

  /** LoopingSequence::valid_after_loops: every finish index pushed on by
      `loops` whole loops. There is one result per finish index, ascending
      finish indexes stay ascending, and after no loops they come back
      unchanged. */
  function ValidAfterLoops(s: LoopingSequence, loops: nat): (r: seq<nat>)
    requires WellShaped(s)
    ensures |r| == |s.finishIndexes|
    ensures StrictlyAscending(s.finishIndexes) ==> StrictlyAscending(r)
    ensures loops == 0 ==> r == s.finishIndexes
  {
    var shift: nat := loops * LoopLength(s);
    seq(|s.finishIndexes|, j requires 0 <= j < |s.finishIndexes| => (s.finishIndexes[j] + shift) as nat)
  }

  predicate StrictlyAscending(s: seq<nat>)
  {
    forall i, j :: 0 <= i < j < |s| ==> s[i] < s[j]
  }

  // -------- create_sequence --------

  /** The label create_sequence files a recorded position under: 0 for the
      start, and for every later position the index of the direction that
      led there. */
  function Label(n: nat, p: nat): nat
    requires n > 0
  {
    if p == 0 then 0 else Phase(n, p - 1)
  }

  /** The entry create_sequence records for position p of the walk. */
  function Entry(nodes: map<string, Node>, dirs: string, start: string, p: nat): (nat, string)
    requires |dirs| > 0 && Position(nodes, dirs, start, p).Some?
  {
    (Label(|dirs|, p), Position(nodes, dirs, start, p).value)
  }

  /** Step len is the one at which create_sequence stops: no step up to it
      panics, the entries before it are all different, and the entry of
      step len is one of them. */
  ghost predicate FirstRepeat(nodes: map<string, Node>, dirs: string, start: string, len: nat)
    requires |dirs| > 0
  {
    && 1 <= len
    && (forall p :: 0 <= p <= len ==> Position(nodes, dirs, start, p).Some?)
    && (forall p, q :: 0 <= p < q < len ==> Entry(nodes, dirs, start, p) != Entry(nodes, dirs, start, q))
    && (exists q :: 0 <= q < len && Entry(nodes, dirs, start, q) == Entry(nodes, dirs, start, len))
  }

  /** The first repeat is unique: the LoopingSequence of a ghost is well defined. */
  lemma FirstRepeatUnique(nodes: map<string, Node>, dirs: string, start: string, len1: nat, len2: nat)
    requires |dirs| > 0
    requires FirstRepeat(nodes, dirs, start, len1) && FirstRepeat(nodes, dirs, start, len2)
    ensures len1 == len2
  {
  }

  /** The finish_indexes filter: the positions, in order, of the recorded
      entries whose id ends in `Z`. */
  function FinishIndexes(sequence: seq<(nat, string)>): (r: seq<nat>)
    ensures StrictlyAscending(r)
    ensures forall x: nat :: x in r <==> x < |sequence| && EndsWith(sequence[x].1, 'Z')
  {
    if sequence == [] then []
    else
      var last := |sequence| - 1;
      var init := FinishIndexes(sequence[..last]);
      assert forall i :: 0 <= i < |init| ==> init[i] < last by {
        forall i | 0 <= i < |init| ensures init[i] < last {
          assert init[i] in init;
        }
      }
      init + if EndsWith(sequence[last].1, 'Z') then [last] else []
  }

  /** What create_sequence promises about the sequence it returns. */
  ghost predicate Describes(nodes: map<string, Node>, dirs: string, start: string, s: LoopingSequence)
    requires |dirs| > 0
  {
    && FirstRepeat(nodes, dirs, start, s.totalLength)
    && s.loopStart == Phase(|dirs|, s.totalLength - 1) + 1
    && StrictlyAscending(s.finishIndexes)
    && forall x: nat :: x in s.finishIndexes <==>
         x < s.totalLength && EndsWith(Position(nodes, dirs, start, x).value, 'Z')
  }

  lemma DescribesWellShaped(nodes: map<string, Node>, dirs: string, start: string, s: LoopingSequence)
    requires |dirs| > 0 && Describes(nodes, dirs, start, s)
    ensures WellShaped(s)
  {
    var q :| 0 <= q < s.totalLength && Entry(nodes, dirs, start, q) == Entry(nodes, dirs, start, s.totalLength);
    PhaseBelow(|dirs|, s.totalLength - 1);
  }

  /** A phase never exceeds the step count. */
  lemma {:induction false} PhaseBelow(n: nat, k: nat)
    requires n > 0
    ensures Phase(n, k) <= k
  {
    if k >= n {
      PhaseBelow(n, k - n);
    }
  }

  /** `sequence` holds the entries of the walk's first positions, all
      different, and none of its steps was a repeat. */
  ghost predicate Recorded(nodes: map<string, Node>, dirs: string, start: string, sequence: seq<(nat, string)>)
    requires |dirs| > 0
  {
    && |sequence| >= 1
    && (forall p :: 0 <= p < |sequence| ==> Position(nodes, dirs, start, p).Some?)
    && (forall p :: 0 <= p < |sequence| ==> sequence[p] == Entry(nodes, dirs, start, p))
    && (forall p, q :: 0 <= p < q < |sequence| ==> sequence[p] != sequence[q])
    && (forall len :: 1 <= len < |sequence| ==> !FirstRepeat(nodes, dirs, start, len))
  }

  /** A new entry that is not yet recorded is pushed. */
  lemma RecordedPush(nodes: map<string, Node>, dirs: string, start: string, sequence: seq<(nat, string)>)
    requires |dirs| > 0 && Recorded(nodes, dirs, start, sequence)
    requires Position(nodes, dirs, start, |sequence|).Some?
    requires Entry(nodes, dirs, start, |sequence|) !in sequence
    ensures Recorded(nodes, dirs, start, sequence + [Entry(nodes, dirs, start, |sequence|)])
  {
  }

  /** A new entry that is already recorded ends the walk with the
      LoopingSequence built from the recorded entries. */
  lemma RecordedRepeat(nodes: map<string, Node>, dirs: string, start: string, sequence: seq<(nat, string)>)
    requires |dirs| > 0 && Recorded(nodes, dirs, start, sequence)
    requires Position(nodes, dirs, start, |sequence|).Some?
    requires Entry(nodes, dirs, start, |sequence|) in sequence
    ensures Describes(nodes, dirs, start,
                      LoopingSequence(|sequence|, Phase(|dirs|, |sequence| - 1) + 1, FinishIndexes(sequence)))
  {
    var q :| 0 <= q < |sequence| && sequence[q] == Entry(nodes, dirs, start, |sequence|);
    assert FirstRepeat(nodes, dirs, start, |sequence|);
  }

  /** A step that panics leaves no repeat to find, then or later. */
  lemma RecordedPanic(nodes: map<string, Node>, dirs: string, start: string, sequence: seq<(nat, string)>)
    requires |dirs| > 0 && Recorded(nodes, dirs, start, sequence)
    requires Position(nodes, dirs, start, |sequence|).None?
    ensures forall len :: 1 <= len ==> !FirstRepeat(nodes, dirs, start, len)
  {
  }

  /** create_sequence: walk from `start`, recording (direction index, id)
      after every step, until an entry repeats; None stands for its panics
      (an unknown node or direction, or no repeat within 100 passes over
      the directions, which is also what happens without directions). */
  /** The state after one pass over the directions, or the value the whole
      walk returns when it stopped during the pass. */
  datatype Pass = Finished(result: Option<LoopingSequence>) | Continued(nodeId: string, sequence: seq<(nat, string)>)

  /** One pass of the inner loop of create_sequence: `steps` whole rounds are
      recorded in `sequence`, and the walk stands on `nodeId`. */
  method WalkPass(start: string, dirs: string, nodes: map<string, Node>, nodeId: string,
                  sequence: seq<(nat, string)>, ghost steps: nat) returns (out: Pass)
    requires |dirs| > 0 && Rounds(steps, |dirs|)
    requires |sequence| == steps + 1 && Recorded(nodes, dirs, start, sequence)
    requires Position(nodes, dirs, start, steps) == Some(nodeId)
    ensures out.Finished? && out.result.Some? ==>
              Describes(nodes, dirs, start, out.result.value) && out.result.value.totalLength <= steps + |dirs|
    ensures out.Finished? && out.result.None? ==> forall len :: 1 <= len ==> !FirstRepeat(nodes, dirs, start, len)
    ensures out.Continued? ==> |out.sequence| == steps + |dirs| + 1 && Recorded(nodes, dirs, start, out.sequence)
                               && Position(nodes, dirs, start, steps + |dirs|) == Some(out.nodeId)
  {
    var n := |dirs|;
    var id := nodeId;
    var recorded := sequence;
    for i := 0 to n
      invariant |recorded| == steps + i + 1
      invariant Recorded(nodes, dirs, start, recorded)
      invariant Position(nodes, dirs, start, steps + i) == Some(id)
    {
      PhaseAfterRounds(n, steps, i);
      if id !in nodes {
        RecordedPanic(nodes, dirs, start, recorded);
        return Finished(None);
      }
      var next := Step(nodes[id], dirs[i]);
      if next.None? {
        RecordedPanic(nodes, dirs, start, recorded);
        return Finished(None);
      }
      id := next.value;
      assert Entry(nodes, dirs, start, |recorded|) == (i, id);
      if (i, id) in recorded {
        RecordedRepeat(nodes, dirs, start, recorded);
        return Finished(Some(LoopingSequence(|recorded|, i + 1, FinishIndexes(recorded))));
      }
      RecordedPush(nodes, dirs, start, recorded);
      recorded := recorded + [(i, id)];
    }
    return Continued(id, recorded);
  }

  method CreateSequence(start: string, dirs: string, nodes: map<string, Node>) returns (r: Option<LoopingSequence>)
    ensures r.Some? ==> |dirs| > 0 && Describes(nodes, dirs, start, r.value)
                        && r.value.totalLength <= 100 * |dirs|
    ensures r.None? ==> |dirs| == 0 || forall len :: 1 <= len <= 100 * |dirs| ==> !FirstRepeat(nodes, dirs, start, len)
  {
    if |dirs| == 0 {
      return None;
    }
    var n := |dirs|;
    var nodeId := start;
    var sequence: seq<(nat, string)> := [(0, nodeId)];
    ghost var steps: nat := 0;
    for pass := 0 to 100
      invariant steps == pass * n && Rounds(steps, n)
      invariant |sequence| == steps + 1
      invariant Recorded(nodes, dirs, start, sequence)
      invariant Position(nodes, dirs, start, steps) == Some(nodeId)
    {
      var out := WalkPass(start, dirs, nodes, nodeId, sequence, steps);
      MulStep(pass + 1, n);
      if out.Finished? {
        MulMonotone(pass + 1, 100, n);
        return out.result;
      }
      ghost var base := steps;
      nodeId, sequence, steps := out.nodeId, out.sequence, steps + n;
      assert Rounds(steps, n) by { assert steps - n == base; }
    }
    return None;
  }

  lemma MulMonotone(a: nat, b: nat, n: nat)
    requires a <= b
    ensures a * n <= b * n
  {
  }

  // -------- The intersection loop of part2 --------

  function Elements(s: seq<nat>): (e: set<nat>)
    ensures forall x :: x in e <==> x in s
  {
    set x | x in s
  }

  /** Finish index j pushed on by k whole loops. */
  function Shifted(s: LoopingSequence, j: nat, k: nat): nat
    requires WellShaped(s) && j < |s.finishIndexes|
  {
    s.finishIndexes[j] + k * LoopLength(s)
  }

  /** A ghost's valid set after the rounds for 0, 1, ..., K-1 loops. */
  function ValidBelow(s: LoopingSequence, K: nat): set<nat>
    requires WellShaped(s)
  {
    if K == 0 then {} else ValidBelow(s, K - 1) + Elements(ValidAfterLoops(s, K - 1))
  }

  /** The valid set holds exactly the finish indexes pushed on by fewer than
      K whole loops. */
  lemma {:induction false} ValidBelowMembers(s: LoopingSequence, K: nat, x: nat)
    requires WellShaped(s)
    ensures x in ValidBelow(s, K) <==>
            exists j: nat, k: nat :: j < |s.finishIndexes| && k < K && x == Shifted(s, j, k)
  {
    if K > 0 {
      ValidBelowMembers(s, K - 1, x);
      if x in Elements(ValidAfterLoops(s, K - 1)) {
        var j :| 0 <= j < |s.finishIndexes| && ValidAfterLoops(s, K - 1)[j] == x;
        assert x == Shifted(s, j, K - 1);
      }
      if exists j: nat, k: nat :: j < |s.finishIndexes| && k < K && x == Shifted(s, j, k) {
        var j: nat, k: nat :| j < |s.finishIndexes| && k < K && x == Shifted(s, j, k);
        if k == K - 1 {
          assert ValidAfterLoops(s, K - 1)[j] == x;
        }
      }
    }
  }

  /** The intersection of the sets, taken in order as part2 does; no sets
      give the empty set. */
  function Intersect(sets: seq<set<nat>>): (r: set<nat>)
    ensures forall x :: x in r <==> |sets| > 0 && forall i :: 0 <= i < |sets| ==> x in sets[i]
  {
    if |sets| == 0 then {}
    else if |sets| == 1 then sets[0]
    else Intersect(sets[..|sets| - 1]) * sets[|sets| - 1]
  }

  predicate AllWellShaped(ls: seq<LoopingSequence>)
  {
    forall i :: 0 <= i < |ls| ==> WellShaped(ls[i])
  }

  /** valid_sets after the rounds for loops 0..K-1. */
  function SetsBelow(ls: seq<LoopingSequence>, K: nat): (sets: seq<set<nat>>)
    requires AllWellShaped(ls)
    ensures |sets| == |ls|
  {
    seq(|ls|, i requires 0 <= i < |ls| => ValidBelow(ls[i], K))
  }

  /** The intersection part2 computes in the round with loop index K. */
  function CommonAt(ls: seq<LoopingSequence>, K: nat): set<nat>
    requires AllWellShaped(ls)
  {
    Intersect(SetsBelow(ls, K + 1))
  }

  /** The round with loop index K finds a step common to all ghosts. */
  predicate Met(ls: seq<LoopingSequence>, K: nat)
    requires AllWellShaped(ls)
  {
    CommonAt(ls, K) != {}
  }

  /** The minimum of a non-empty finite set (`iter().min()`). */
  method SetMin(xs: set<nat>) returns (m: nat)
    requires xs != {}
    ensures m in xs && forall x :: x in xs ==> m <= x
  {
    m :| m in xs;
    var rest := xs - {m};
    while rest != {}
      invariant rest <= xs && m in xs
      invariant forall x :: x in xs && x !in rest ==> m <= x
      decreases |rest|
    {
      var x :| x in rest;
      if x < m {
        m := x;
      }
      rest := rest - {x};
    }
  }

  /** One round of the `for` over the ghosts: each valid set gains the
      indexes valid after loopIndex whole loops. */
  method AddLoop(ls: seq<LoopingSequence>, validSets: seq<set<nat>>, loopIndex: nat) returns (next: seq<set<nat>>)
    requires AllWellShaped(ls) && validSets == SetsBelow(ls, loopIndex)
    ensures next == SetsBelow(ls, loopIndex + 1)
  {
    next := validSets;
    for s := 0 to |ls|
      invariant |next| == |ls|
      invariant forall t :: 0 <= t < s ==> next[t] == ValidBelow(ls[t], loopIndex + 1)
      invariant forall t :: s <= t < |ls| ==> next[t] == ValidBelow(ls[t], loopIndex)
    {
      var valid := ValidAfterLoops(ls[s], loopIndex);
      next := next[s := next[s] + Elements(valid)];
    }
  }

  /** The fold of `intersection` over the valid sets, starting from the
      first. */
  method IntersectAll(sets: seq<set<nat>>) returns (intersection: set<nat>)
    ensures intersection == Intersect(sets)
  {
    intersection := {};
    if |sets| > 0 {
      intersection := sets[0];
      for s := 1 to |sets|
        invariant intersection == Intersect(sets[..s])
      {
        assert sets[..s + 1][..s] == sets[..s];
        intersection := intersection * sets[s];
      }
      assert sets[..|sets|] == sets;
    }
  }

  /** The `loop` of part2: round after round add the indexes valid after
      one more loop, intersect the sets, and stop at the first round whose
      intersection is not empty, returning its minimum. The Rust loop only
      ends if such a round exists. */
  method FirstCommon(ls: seq<LoopingSequence>) returns (r: nat)
    requires AllWellShaped(ls)
    requires exists K: nat :: Met(ls, K)
    ensures FirstCommonMin(ls, r)
  {
    ghost var bound: nat :| Met(ls, bound);
    var validSets: seq<set<nat>> := seq(|ls|, _ => {});
    var loopIndex := 0;
    while true
      invariant loopIndex <= bound
      invariant validSets == SetsBelow(ls, loopIndex)
      invariant forall k: nat :: k < loopIndex ==> !Met(ls, k)
      decreases bound - loopIndex
    {
      validSets := AddLoop(ls, validSets, loopIndex);
      var intersection := IntersectAll(validSets);
      assert intersection == CommonAt(ls, loopIndex);
      if intersection != {} {
        r := SetMin(intersection);
        return;
      }
      loopIndex := loopIndex + 1;
    }
  }

  /** r is what the loop of part2 returns: the minimum of the first
      non-empty intersection. */
  ghost predicate FirstCommonMin(ls: seq<LoopingSequence>, r: nat)
    requires AllWellShaped(ls)
  {
    exists K: nat :: Met(ls, K) && (forall k: nat :: k < K ==> !Met(ls, k))
                     && r in CommonAt(ls, K) && forall x :: x in CommonAt(ls, K) ==> r <= x
  }

  // -------- part2 --------

  /** The ids part2 starts from: those ending in `A`. */
  function StartIds(nodes: map<string, Node>): set<string>
  {
    set id | id in nodes && EndsWith(id, 'A')
  }

  /** ids lists every start once, in some order (the HashMap's), and ls
      holds what create_sequence returns for each. */
  ghost predicate GhostSequences(nodes: map<string, Node>, dirs: string, ids: seq<string>, ls: seq<LoopingSequence>)
  {
    && |dirs| > 0
    && |ids| == |ls|
    && (forall i :: 0 <= i < |ids| ==> ids[i] in StartIds(nodes))
    && (forall id :: id in StartIds(nodes) ==> id in ids)
    && (forall i, j :: 0 <= i < j < |ids| ==> ids[i] != ids[j])
    && (forall i :: 0 <= i < |ls| ==> Describes(nodes, dirs, ids[i], ls[i]))
  }

  /** part2 returns at all: there is a start, and whichever order the
      starts come in, some round finds a common step. */
  ghost predicate Part2Halts(nodes: map<string, Node>, dirs: string)
  {
    && StartIds(nodes) != {}
    && forall ids, ls :: GhostSequences(nodes, dirs, ids, ls) ==> AllWellShaped(ls) && exists K: nat :: Met(ls, K)
  }

  /** part2 once the nodes are read (the HashMap keys each node by its own
      id): pick the starts in an unspecified order, build a LoopingSequence
      for each, and run the intersection loop. None stands for a panic in
      create_sequence. */
  method Ghosts(nodes: map<string, Node>, dirs: string) returns (r: Option<nat>)
    requires forall id :: id in nodes ==> nodes[id].id == id
    requires Part2Halts(nodes, dirs)
    ensures r.Some? ==> exists ids, ls :: GhostSequences(nodes, dirs, ids, ls) && AllWellShaped(ls)
                                          && FirstCommonMin(ls, r.value)
    ensures r.None? ==> |dirs| == 0 || exists id :: id in StartIds(nodes)
                                          && forall len :: 1 <= len <= 100 * |dirs| ==> !FirstRepeat(nodes, dirs, id, len)
  {
    var starts := set id | id in nodes && EndsWith(id, 'A');
    var ids: seq<string> := [];
    var rest := starts;
    while rest != {}
      invariant rest <= starts
      invariant forall i :: 0 <= i < |ids| ==> ids[i] in starts && ids[i] !in rest
      invariant forall id :: id in starts ==> id in rest || id in ids
      invariant forall i, j :: 0 <= i < j < |ids| ==> ids[i] != ids[j]
      decreases |rest|
    {
      var id :| id in rest;
      ids := ids + [id];
      rest := rest - {id};
    }
    var ls: seq<LoopingSequence> := [];
    for i := 0 to |ids|
      invariant |ls| == i
      invariant forall j :: 0 <= j < i ==> |dirs| > 0 && Describes(nodes, dirs, ids[j], ls[j])
    {
      var s := CreateSequence(ids[i], dirs, nodes);
      if s.None? {
        return None;
      }
      ls := ls + [s.value];
    }
    var some :| some in starts;
    assert some in ids;
    forall i | 0 <= i < |ls|
      ensures WellShaped(ls[i])
    {
      DescribesWellShaped(nodes, dirs, ids[i], ls[i]);
    }
    assert GhostSequences(nodes, dirs, ids, ls);
    var m := FirstCommon(ls);
    r := Some(m);
  }

  /** part2 from the input lines, parsed as in part 1. */
  method Part2(lines: seq<string>) returns (r: Option<nat>)
    requires ParseInput(lines).Some? ==> Part2Halts(NodeMap(ParseInput(lines).value.1), ParseInput(lines).value.0)
    ensures r.Some? ==> ParseInput(lines).Some?
    ensures r.Some? ==> exists ids, ls :: GhostSequences(NodeMap(ParseInput(lines).value.1), ParseInput(lines).value.0, ids, ls)
                                          && AllWellShaped(ls) && FirstCommonMin(ls, r.value)
  {
    match ParseInput(lines)
    case None =>
      r := None;
    case Some(input) =>
      var nodes := BuildNodes(input.1);
      r := Ghosts(nodes, input.0);
  }

  // -------- The loop as evidently intended --------

  /** The state of a walk at position p: the index of the next direction
      and the node. Equal states have equal futures. */
  function State(nodes: map<string, Node>, dirs: string, start: string, p: nat): (nat, string)
    requires |dirs| > 0 && Position(nodes, dirs, start, p).Some?
  {
    (Phase(|dirs|, p), Position(nodes, dirs, start, p).value)
  }

  /** A LoopingSequence that describes the walk correctly: the state at
      `totalLength` repeats the state at `loopStart`, and the finish indexes
      are the positions before `totalLength` on an id ending in `Z`. */
  ghost predicate Intended(nodes: map<string, Node>, dirs: string, start: string, s: LoopingSequence)
    requires |dirs| > 0
  {
    && (forall p :: 0 <= p <= s.totalLength ==> Position(nodes, dirs, start, p).Some?)
    && Loops(nodes, dirs, start, s)
    && forall x: nat :: x in s.finishIndexes <==>
         x < s.totalLength && EndsWith(Position(nodes, dirs, start, x).value, 'Z')
  }

  /** The walk is in the same state at `loopStart` and at `totalLength`. */
  predicate Loops(nodes: map<string, Node>, dirs: string, start: string, s: LoopingSequence)
    requires |dirs| > 0
  {
    && s.loopStart < s.totalLength
    && Position(nodes, dirs, start, s.loopStart).Some?
    && Position(nodes, dirs, start, s.totalLength).Some?
    && State(nodes, dirs, start, s.loopStart) == State(nodes, dirs, start, s.totalLength)
  }

  /** The ghost stands on an id ending in `Z` after p steps. */
  ghost predicate ZStep(nodes: map<string, Node>, dirs: string, start: string, p: nat)
    requires |dirs| > 0
  {
    Position(nodes, dirs, start, p).Some? && EndsWith(Position(nodes, dirs, start, p).value, 'Z')
  }

  /** The finish indexes before the loop, which happen once. */
  function Tail(s: LoopingSequence): set<nat>
  {
    set x | x in s.finishIndexes && x < s.loopStart
  }

  /** The valid set as intended, for loops 0..K-1: the finish indexes before
      the loop as they are, and those inside it pushed on by whole loops. */
  function FixedValidBelow(s: LoopingSequence, K: nat): set<nat>
    requires WellShaped(s)
  {
    Tail(s) + set j: nat, k: nat | j < |s.finishIndexes| && k < K && s.finishIndexes[j] >= s.loopStart :: Shifted(s, j, k)
  }

  /** Same phase now, same phase after m more steps. */
  lemma {:induction false} PhaseShift(n: nat, a: nat, b: nat, m: nat)
    requires n > 0 && Phase(n, a) == Phase(n, b)
    ensures Phase(n, a + m) == Phase(n, b + m)
  {
    if m > 0 {
      PhaseShift(n, a, b, m - 1);
      PhaseNext(n, a + m - 1);
      PhaseNext(n, b + m - 1);
    }
  }

  /** Two positions in the same state walk on identically. */
  lemma {:induction false} SameStateSameFuture(nodes: map<string, Node>, dirs: string, start: string, a: nat, b: nat, m: nat)
    requires |dirs| > 0
    requires Position(nodes, dirs, start, a).Some? && Position(nodes, dirs, start, b).Some?
    requires State(nodes, dirs, start, a) == State(nodes, dirs, start, b)
    ensures Position(nodes, dirs, start, a + m) == Position(nodes, dirs, start, b + m)
  {
    if m > 0 {
      SameStateSameFuture(nodes, dirs, start, a, b, m - 1);
      PhaseShift(|dirs|, a, b, m - 1);
    }
  }

  /** Past the loop start, a position is the one a loop earlier. */
  lemma LoopBack(nodes: map<string, Node>, dirs: string, start: string, s: LoopingSequence, p: nat)
    requires |dirs| > 0 && Loops(nodes, dirs, start, s) && p >= s.totalLength
    ensures Position(nodes, dirs, start, p) == Position(nodes, dirs, start, p - (s.totalLength - s.loopStart))
  {
    SameStateSameFuture(nodes, dirs, start, s.loopStart, s.totalLength, p - s.totalLength);
  }

  /** With a correct loop the walk never panics. */
  lemma {:induction false} IntendedNeverPanics(nodes: map<string, Node>, dirs: string, start: string, s: LoopingSequence, p: nat)
    requires |dirs| > 0 && Intended(nodes, dirs, start, s)
    ensures Position(nodes, dirs, start, p).Some?
    decreases p
  {
    if p > s.totalLength {
      LoopBack(nodes, dirs, start, s, p);
      IntendedNeverPanics(nodes, dirs, start, s, p - (s.totalLength - s.loopStart));
    }
  }

  lemma MulStep(k: nat, l: nat)
    requires k >= 1
    ensures k * l == (k - 1) * l + l
    ensures (k - 1) * l >= 0
  {
  }

  /** Inside the loop, whole loops later the ghost is on the same id. */
  lemma {:induction false} LoopRepeats(nodes: map<string, Node>, dirs: string, start: string, s: LoopingSequence, p: nat, k: nat)
    requires |dirs| > 0 && Loops(nodes, dirs, start, s) && p >= s.loopStart
    ensures Position(nodes, dirs, start, p + k * (s.totalLength - s.loopStart)) == Position(nodes, dirs, start, p)
  {
    if k > 0 {
      var l := s.totalLength - s.loopStart;
      var before := p + (k - 1) * l;
      var after := p + k * l;
      MulStep(k, l);
      assert after == before + l;
      assert before >= s.loopStart;
      assert after >= s.totalLength;
      LoopRepeats(nodes, dirs, start, s, p, k - 1);
      LoopBack(nodes, dirs, start, s, after);
      assert after - l == before;
    }
  }

  /** Every step in the intended valid set is a finishing step. */
  lemma FixedValidIsZStep(nodes: map<string, Node>, dirs: string, start: string, s: LoopingSequence, K: nat, x: nat)
    requires |dirs| > 0 && Intended(nodes, dirs, start, s) && x in FixedValidBelow(s, K)
    ensures ZStep(nodes, dirs, start, x)
  {
    if x !in Tail(s) {
      var j: nat, k: nat :| j < |s.finishIndexes| && k < K && s.finishIndexes[j] >= s.loopStart && x == Shifted(s, j, k);
      assert s.finishIndexes[j] in s.finishIndexes;
      LoopRepeats(nodes, dirs, start, s, s.finishIndexes[j], k);
    }
  }

  /** Every finishing step is in the intended valid set after enough loops. */
  lemma {:induction false} ZStepIsFixedValid(nodes: map<string, Node>, dirs: string, start: string, s: LoopingSequence, x: nat)
    returns (K: nat)
    requires |dirs| > 0 && Intended(nodes, dirs, start, s) && ZStep(nodes, dirs, start, x)
    ensures x in FixedValidBelow(s, K)
    decreases x
  {
    var l := s.totalLength - s.loopStart;
    if x < s.totalLength {
      assert x in s.finishIndexes;
      if x >= s.loopStart {
        var j :| 0 <= j < |s.finishIndexes| && s.finishIndexes[j] == x;
        assert x == Shifted(s, j, 0);
        K := 1;
      } else {
        K := 0;
      }
    } else {
      LoopBack(nodes, dirs, start, s, x);
      var K' := ZStepIsFixedValid(nodes, dirs, start, s, x - l);
      assert x - l !in Tail(s);
      var j: nat, k: nat :| j < |s.finishIndexes| && k < K' && s.finishIndexes[j] >= s.loopStart && x - l == Shifted(s, j, k);
      MulStep(k + 1, l);
      assert x == Shifted(s, j, k + 1);
      K := K' + 1;
    }
  }

  /** The intended valid sets of all ghosts for loops 0..K-1. */
  function FixedSetsBelow(ls: seq<LoopingSequence>, K: nat): (sets: seq<set<nat>>)
    requires AllWellShaped(ls)
    ensures |sets| == |ls|
  {
    seq(|ls|, i requires 0 <= i < |ls| => FixedValidBelow(ls[i], K))
  }

  /** The intersection the corrected loop computes in the round with loop index K. */
  function FixedCommonAt(ls: seq<LoopingSequence>, K: nat): set<nat>
    requires AllWellShaped(ls)
  {
    Intersect(FixedSetsBelow(ls, K + 1))
  }

  /** r is what the corrected loop returns: the minimum of the first
      non-empty intersection of the intended valid sets. */
  ghost predicate FixedFirstCommonMin(ls: seq<LoopingSequence>, r: nat)
    requires AllWellShaped(ls)
  {
    exists K: nat :: FixedCommonAt(ls, K) != {} && (forall k: nat :: k < K ==> FixedCommonAt(ls, k) == {})
                     && r in FixedCommonAt(ls, K) && forall x :: x in FixedCommonAt(ls, K) ==> r <= x
  }

  /** Every ghost stands on an id ending in `Z` after x steps. */
  ghost predicate AllOnZ(nodes: map<string, Node>, dirs: string, starts: seq<string>, x: nat)
    requires |dirs| > 0
  {
    forall i :: 0 <= i < |starts| ==> ZStep(nodes, dirs, starts[i], x)
  }

  lemma MulAtLeast(a: nat, l: nat)
    requires a >= 1
    ensures a * l >= l
  {
  }

  /** A step that enters one ghost's intended valid set only in a later
      round lies above everything that ghost's set held already. */
  lemma LaterRoundLarger(s: LoopingSequence, K: nat, Kx: nat, x: nat, y: nat)
    requires WellShaped(s) && s.loopStart < s.totalLength
    requires forall f :: f in s.finishIndexes ==> f < s.totalLength
    requires x in FixedValidBelow(s, Kx) && x !in FixedValidBelow(s, K)
    requires y in FixedValidBelow(s, K)
    ensures y < x
  {
    var j: nat, k: nat :| j < |s.finishIndexes| && k < Kx && s.finishIndexes[j] >= s.loopStart && x == Shifted(s, j, k);
    assert s.finishIndexes[j] in s.finishIndexes;
    assert k >= K;
    if y !in Tail(s) {
      var j': nat, k': nat :| j' < |s.finishIndexes| && k' < K && s.finishIndexes[j'] >= s.loopStart && y == Shifted(s, j', k');
      assert s.finishIndexes[j'] in s.finishIndexes;
      var l := LoopLength(s);
      MulAtLeast(k - k', l);
      assert k * l == k' * l + (k - k') * l;
    }
  }

  /** The evidently intended property of part2: with LoopingSequences that
      describe the walks correctly, the minimum of the first non-empty
      intersection is the first step at which every ghost is on an id
      ending in `Z`. */
  lemma FixedFirstCommonIsEarliest(nodes: map<string, Node>, dirs: string, starts: seq<string>,
                                   ls: seq<LoopingSequence>, r: nat)
    requires |dirs| > 0 && |starts| == |ls| && AllWellShaped(ls)
    requires forall i :: 0 <= i < |ls| ==> Intended(nodes, dirs, starts[i], ls[i])
    requires FixedFirstCommonMin(ls, r)
    ensures AllOnZ(nodes, dirs, starts, r)
    ensures forall x: nat :: AllOnZ(nodes, dirs, starts, x) ==> r <= x
  {
    var K: nat :| FixedCommonAt(ls, K) != {} && (forall k: nat :: k < K ==> FixedCommonAt(ls, k) == {})
                  && r in FixedCommonAt(ls, K) && forall x :: x in FixedCommonAt(ls, K) ==> r <= x;
    forall i | 0 <= i < |starts|
      ensures ZStep(nodes, dirs, starts[i], r)
    {
      assert r in FixedSetsBelow(ls, K + 1)[i];
      FixedValidIsZStep(nodes, dirs, starts[i], ls[i], K + 1, r);
    }
    forall x: nat | AllOnZ(nodes, dirs, starts, x)
      ensures r <= x
    {
      if x !in FixedCommonAt(ls, K) {
        var i :| 0 <= i < |ls| && x !in FixedSetsBelow(ls, K + 1)[i];
        assert ZStep(nodes, dirs, starts[i], x);
        var Kx := ZStepIsFixedValid(nodes, dirs, starts[i], ls[i], x);
        assert r in FixedSetsBelow(ls, K + 1)[i];
        LaterRoundLarger(ls[i], K + 1, Kx, x, r);
      }
    }
  }

  /** Monotone in the number of loops. */
  lemma FixedValidGrows(s: LoopingSequence, K1: nat, K2: nat)
    requires WellShaped(s) && K1 <= K2
    ensures FixedValidBelow(s, K1) <= FixedValidBelow(s, K2)
  {
  }

  /** A step at which every ghost is on `Z` is eventually common to all
      intended valid sets, so the corrected loop always stops when there is
      an answer (together with FixedFirstCommonIsEarliest: it stops exactly
      when there is one, with the earliest). */
  lemma FixedCommonReached(nodes: map<string, Node>, dirs: string, starts: seq<string>,
                           ls: seq<LoopingSequence>, x: nat) returns (K: nat)
    requires |dirs| > 0 && |starts| == |ls| > 0 && AllWellShaped(ls)
    requires forall i :: 0 <= i < |ls| ==> Intended(nodes, dirs, starts[i], ls[i])
    requires AllOnZ(nodes, dirs, starts, x)
    ensures x in FixedCommonAt(ls, K)
  {
    K := 0;
    for i := 0 to |ls|
      invariant forall t :: 0 <= t < i ==> x in FixedValidBelow(ls[t], K + 1)
    {
      assert ZStep(nodes, dirs, starts[i], x);
      var Ki := ZStepIsFixedValid(nodes, dirs, starts[i], ls[i], x);
      if Ki > K + 1 {
        forall t | 0 <= t < i
          ensures x in FixedValidBelow(ls[t], Ki)
        {
          FixedValidGrows(ls[t], K + 1, Ki);
        }
        K := Ki - 1;
      } else {
        FixedValidGrows(ls[i], Ki, K + 1);
      }
    }
    var sets := FixedSetsBelow(ls, K + 1);
    assert forall i :: 0 <= i < |ls| ==> x in sets[i];
  }

  // -------- Where create_sequence and valid_after_loops go wrong --------

  lemma NoMembers(s: seq<nat>)
    requires forall x: nat :: x !in s
    ensures s == []
  {
    HeadIsMember(s);
  }

  lemma HeadIsMember(s: seq<nat>)
    ensures s != [] ==> s[0] in s
  {
  }

  /** With one direction every step has phase 0. */
  lemma {:induction false} PhaseOfOne(k: nat)
    ensures Phase(1, k) == 0
  {
    if k >= 1 {
      PhaseOfOne(k - 1);
    }
  }

  /** The start entry is filed under label 0, the label of positions reached
      by direction 0, although the walk leaves it by direction 0. With
      directions LR and 11A = (11A, 11Z), the first step's entry (0, 11A)
      already counts as a repeat: the sequence has length 1, no finish
      index, and its valid set stays empty for every loop count, so the
      intersection loop of part2 never ends, although the ghost is on 11Z
      after two steps. */
  lemma StartEntryMislabelled(nodes: map<string, Node>, s: LoopingSequence)
    requires "11A" in nodes && nodes["11A"] == Node("11A", "11A", "11Z")
    requires Describes(nodes, "LR", "11A", s)
    ensures s.totalLength == 1 && s.finishIndexes == []
    ensures forall K: nat :: !Met([s], K)
    ensures ZStep(nodes, "LR", "11A", 2)
  {
    assert Position(nodes, "LR", "11A", 1) == Some("11A");
    assert Entry(nodes, "LR", "11A", 1) == Entry(nodes, "LR", "11A", 0);
    assert FirstRepeat(nodes, "LR", "11A", 1);
    FirstRepeatUnique(nodes, "LR", "11A", 1, s.totalLength);
    assert forall x: nat :: x !in s.finishIndexes;
    NoMembers(s.finishIndexes);
    forall K: nat
      ensures !Met([s], K)
    {
      DescribesWellShaped(nodes, "LR", "11A", s);
      var valid := ValidBelow(s, K + 1);
      forall x: nat | x in valid
        ensures false
      {
        ValidBelowMembers(s, K + 1, x);
      }
      assert SetsBelow([s], K + 1) == [ValidBelow(s, K + 1)];
    }
    assert Phase(2, 1) == 1;
  }

  /** loop_start is taken as one past the direction index of the repeating
      step, not as the position of the entry it repeats. With the single
      direction L and 11A -> 11B -> 11C -> 11Z -> 11C, the sequence has
      length 4 and finish index 3, and loop_start comes out as 1 instead of
      2; the loop length 3 replaces the true period 2, so the valid sets
      never hold step 5, on which the ghost stands on 11Z. */
  lemma LoopStartMisplaced(nodes: map<string, Node>, s: LoopingSequence)
    requires "11A" in nodes && nodes["11A"] == Node("11A", "11B", "11B")
    requires "11B" in nodes && nodes["11B"] == Node("11B", "11C", "11C")
    requires "11C" in nodes && nodes["11C"] == Node("11C", "11Z", "11Z")
    requires "11Z" in nodes && nodes["11Z"] == Node("11Z", "11C", "11C")
    requires Describes(nodes, "L", "11A", s)
    ensures s.totalLength == 4 && s.loopStart == 1 && Elements(s.finishIndexes) == {3}
    ensures WellShaped(s) && forall K: nat :: 5 !in ValidBelow(s, K)
    ensures ZStep(nodes, "L", "11A", 5)
  {
    PhaseOfOne(0);
    PhaseOfOne(1);
    PhaseOfOne(2);
    PhaseOfOne(3);
    PhaseOfOne(4);
    assert Position(nodes, "L", "11A", 1) == Some("11B");
    assert Position(nodes, "L", "11A", 2) == Some("11C");
    assert Position(nodes, "L", "11A", 3) == Some("11Z");
    assert Position(nodes, "L", "11A", 4) == Some("11C");
    assert Position(nodes, "L", "11A", 5) == Some("11Z");
    assert Entry(nodes, "L", "11A", 2) == Entry(nodes, "L", "11A", 4);
    assert FirstRepeat(nodes, "L", "11A", 4);
    FirstRepeatUnique(nodes, "L", "11A", 4, s.totalLength);
    DescribesWellShaped(nodes, "L", "11A", s);
    assert 3 in s.finishIndexes;
    assert LoopLength(s) == 3;
    forall K: nat
      ensures 5 !in ValidBelow(s, K)
    {
      ValidBelowMembers(s, K, 5);
    }
  }

  /** valid_after_loops pushes on every finish index, also those before the
      loop, which the walk passes only once. With directions LL and
      11A -> 11Z -> 11B -> 11B -> ..., the sequence has length 4, loop_start
      2 and finish index 1, so step 3 joins the valid set after one loop
      although the ghost stands on 11B there. */
  lemma TailFinishRepeats(nodes: map<string, Node>, s: LoopingSequence)
    requires "11A" in nodes && nodes["11A"] == Node("11A", "11Z", "11Z")
    requires "11Z" in nodes && nodes["11Z"] == Node("11Z", "11B", "11B")
    requires "11B" in nodes && nodes["11B"] == Node("11B", "11B", "11B")
    requires Describes(nodes, "LL", "11A", s)
    ensures s.totalLength == 4 && s.loopStart == 2 && Elements(s.finishIndexes) == {1}
    ensures WellShaped(s) && 3 in ValidBelow(s, 2)
    ensures !ZStep(nodes, "LL", "11A", 3)
  {
    assert Phase(2, 1) == 1;
    assert Phase(2, 2) == 0;
    assert Phase(2, 3) == 1;
    assert Position(nodes, "LL", "11A", 1) == Some("11Z");
    assert Position(nodes, "LL", "11A", 2) == Some("11B");
    assert Position(nodes, "LL", "11A", 3) == Some("11B");
    assert Position(nodes, "LL", "11A", 4) == Some("11B");
    assert Entry(nodes, "LL", "11A", 2) == Entry(nodes, "LL", "11A", 4);
    assert FirstRepeat(nodes, "LL", "11A", 4);
    FirstRepeatUnique(nodes, "LL", "11A", 4, s.totalLength);
    DescribesWellShaped(nodes, "LL", "11A", s);
    assert 1 in s.finishIndexes;
    var j :| 0 <= j < |s.finishIndexes| && s.finishIndexes[j] == 1;
    assert Shifted(s, j, 1) == 3;
    ValidBelowMembers(s, 2, 3);
  }
}
