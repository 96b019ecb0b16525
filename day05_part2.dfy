/** Model of day-05/src/bin/part-2.rs: seed ranges are pushed through seven
    almanac stages, each a list of translation rules, by splitting every
    range against the rules' source ranges; the answer is the smallest
    start among the final ranges.

    Ranges are Rust's half-open `Range<u64>`, here over unbounded naturals. */
module Day05Part2 {
  import opened Common

  /** `start..end`: the values v with start <= v < end. */
  datatype Range = Range(start: nat, end: nat)

  /** Every range the program builds has start <= end. */
  predicate WellFormed(r: Range)
  {
    r.start <= r.end
  }

  function Length(r: Range): nat
  {
    if r.start <= r.end then r.end - r.start else 0
  }

  predicate Contains(r: Range, v: int)
  {
    r.start <= v < r.end
  }

  predicate AllWellFormed(rs: seq<Range>)
  {
    forall i :: 0 <= i < |rs| ==> WellFormed(rs[i])
  }

  function TotalLength(rs: seq<Range>): nat
  {
    if rs == [] then 0 else Length(rs[0]) + TotalLength(rs[1..])
  }

  /** How many of the ranges hold v: the multiplicity of v in the multiset
      of values that the list of ranges stands for. */
  function Multiplicity(rs: seq<Range>, v: int): nat
  {
    if rs == [] then 0 else (if Contains(rs[0], v) then 1 else 0) + Multiplicity(rs[1..], v)
  }

  /** Termination measure of the worklist: every range weighs 2 * length + 1. */
  function Measure(rs: seq<Range>): nat
  {
    if rs == [] then 0 else 2 * Length(rs[0]) + 1 + Measure(rs[1..])
  }

  lemma {:induction false} TotalLengthConcat(a: seq<Range>, b: seq<Range>)
    ensures TotalLength(a + b) == TotalLength(a) + TotalLength(b)
  {
    if a != [] {
      assert (a + b)[1..] == a[1..] + b;
      TotalLengthConcat(a[1..], b);
    } else {
      assert a + b == b;
    }
  }

  lemma {:induction false} MultiplicityConcat(a: seq<Range>, b: seq<Range>, v: int)
    ensures Multiplicity(a + b, v) == Multiplicity(a, v) + Multiplicity(b, v)
  {
    if a != [] {
      assert (a + b)[1..] == a[1..] + b;
      MultiplicityConcat(a[1..], b, v);
    } else {
      assert a + b == b;
    }
  }

  lemma {:induction false} MeasureConcat(a: seq<Range>, b: seq<Range>)
    ensures Measure(a + b) == Measure(a) + Measure(b)
  {
    if a != [] {
      assert (a + b)[1..] == a[1..] + b;
      MeasureConcat(a[1..], b);
    } else {
      assert a + b == b;
    }
  }

  /** v is held by some range of the list exactly when its multiplicity is positive. */
  lemma {:induction false} MultiplicityPositive(rs: seq<Range>, v: int)
    ensures Multiplicity(rs, v) > 0 <==> exists i :: 0 <= i < |rs| && Contains(rs[i], v)
  {
    if rs != [] {
      MultiplicityPositive(rs[1..], v);
      if Multiplicity(rs[1..], v) > 0 {
        var i :| 0 <= i < |rs[1..]| && Contains(rs[1..][i], v);
        assert Contains(rs[i + 1], v);
      }
      if exists i :: 0 <= i < |rs| && Contains(rs[i], v) {
        var i :| 0 <= i < |rs| && Contains(rs[i], v);
        if i > 0 {
          assert Contains(rs[1..][i - 1], v);
        }
      }
    }
  }

  // -------- Matching two ranges (match_ranges) --------

  datatype RangeMatch = Equals | IntersectsWith | Spans | IsInside

  /** Classifies `a` against `b`, testing Equals, IsInside, Spans and
      IntersectsWith in that order; `None` when none applies. */
  function MatchRanges(a: Range, b: Range): (m: Option<RangeMatch>)
    ensures m == Some(Equals) <==> a == b
    ensures m == Some(IsInside) ==> a != b && b.start <= a.start && a.end <= b.end
    ensures m == Some(Spans) ==>
      a != b && a.start <= b.start && b.end <= a.end && !(b.start <= a.start && a.end <= b.end)
    ensures m == Some(IntersectsWith) ==>
      (a.start < b.start < a.end < b.end) || (b.start < a.start < b.end < a.end)
    ensures m == None ==> forall v :: !(Contains(a, v) && Contains(b, v))
  {
    if a.start == b.start && a.end == b.end then Some(Equals)
    else if a.start >= b.start && a.end <= b.end then Some(IsInside)
    else if a.start <= b.start && a.end >= b.end then Some(Spans)
    else if (a.start < b.start && a.end > b.start) || (a.start < b.end && a.end > b.end) then Some(IntersectsWith)
    else None
  }

  /** For non-empty ranges the case split is exhaustive: `match_ranges`
      answers None exactly when the ranges share no value. */
  lemma MatchNoneIffDisjoint(a: Range, b: Range)
    requires a.start < a.end && b.start < b.end
    ensures MatchRanges(a, b) == None <==> forall v :: !(Contains(a, v) && Contains(b, v))
  {
    if MatchRanges(a, b) != None {
      var v := if a.start < b.start then b.start else a.start;
      assert Contains(a, v) && Contains(b, v);
    }
  }

  // -------- Transforms (Transform::map_value) --------

  /** One rule `dest source range` of a stage, as the two ranges it relates. */
  datatype Transform = Transform(source: Range, dest: Range)

  /** What parse_mapping builds: source and destination of equal length. */
  predicate ValidTransform(t: Transform)
  {
    WellFormed(t.source) && WellFormed(t.dest) && Length(t.source) == Length(t.dest)
  }

  /** A stage that map_ranges can process: well-formed rules whose source
      ranges are non-empty (a zero-length source can make the worklist loop
      forever). */
  predicate ValidStage(ts: seq<Transform>)
  {
    forall i :: 0 <= i < |ts| ==> ValidTransform(ts[i]) && ts[i].source.start < ts[i].source.end
  }

  /** Translates a value of the source range by the rule's offset; any
      other value is returned unchanged. */
  function MapValue(t: Transform, v: nat): (r: nat)
    ensures ValidTransform(t) && Contains(t.source, v) ==>
      Contains(t.dest, r) && r - t.dest.start == v - t.source.start
    ensures !Contains(t.source, v) ==> r == v
  {
    if t.source.start <= v < t.source.end then t.dest.start + (v - t.source.start) else v
  }

  /** Within its source range a rule is a bijection onto its destination range. */
  lemma MapValueBijective(t: Transform, w: nat)
    requires ValidTransform(t) && Contains(t.dest, w)
    ensures exists v :: Contains(t.source, v) && MapValue(t, v) == w
    ensures forall v1, v2 :: Contains(t.source, v1) && Contains(t.source, v2) && MapValue(t, v1) == MapValue(t, v2) ==> v1 == v2
  {
    var v := t.source.start + (w - t.dest.start);
    assert Contains(t.source, v) && MapValue(t, v) == w;
  }

  lemma MapValueExample()
    ensures MapValue(Transform(Range(98, 100), Range(50, 52)), 99) == 51
  {
  }

  /** Reference semantics of one stage on a single value: the first rule
      (in listed order) whose source range holds v translates it; a value no
      rule holds is left unchanged. */
  function StageValue(ts: seq<Transform>, v: nat): nat
  {
    if ts == [] then v
    else if Contains(ts[0].source, v) then MapValue(ts[0], v)
    else StageValue(ts[1..], v)
  }

  lemma {:induction false} StageValueAt(ts: seq<Transform>, j: nat, v: nat)
    requires j < |ts| && Contains(ts[j].source, v)
    requires forall i :: 0 <= i < j ==> !Contains(ts[i].source, v)
    ensures StageValue(ts, v) == MapValue(ts[j], v)
  {
    if j > 0 {
      assert !Contains(ts[0].source, v);
      StageValueAt(ts[1..], j - 1, v);
    }
  }

  lemma {:induction false} StageValueOutside(ts: seq<Transform>, v: nat)
    requires forall i :: 0 <= i < |ts| ==> !Contains(ts[i].source, v)
    ensures StageValue(ts, v) == v
  {
    if ts != [] {
      StageValueOutside(ts[1..], v);
    }
  }

  // -------- One worklist step (the body of map_ranges' loop) --------

  /** The `find_map` over the transforms: the first rule, in listed order,
      that `match_ranges` classifies the range against, with its class. */
  function FindMatch(input: Range, ts: seq<Transform>): (r: Option<(nat, RangeMatch)>)
    ensures r.Some? ==>
      && r.value.0 < |ts|
      && MatchRanges(input, ts[r.value.0].source) == Some(r.value.1)
      && forall i :: 0 <= i < r.value.0 ==> MatchRanges(input, ts[i].source) == None
    ensures r.None? ==> forall i :: 0 <= i < |ts| ==> MatchRanges(input, ts[i].source) == None
  {
    if ts == [] then None
    else match MatchRanges(input, ts[0].source)
      case Some(m) => Some((0, m))
      case None =>
        match FindMatch(input, ts[1..])
        case None => None
        case Some(found) => Some((found.0 + 1, found.1))
  }

  /** A resolved piece: the part `origin` of an input range and the output
      range `image` it became. */
  datatype Piece = Piece(origin: Range, image: Range)

  /** A piece is faithful to the stage when it is a rigid translation of
      its origin that agrees, value by value, with the first-match map. */
  ghost predicate Faithful(p: Piece, ts: seq<Transform>)
  {
    && WellFormed(p.origin) && WellFormed(p.image)
    && Length(p.origin) == Length(p.image)
    && forall v: nat :: Contains(p.origin, v) ==> StageValue(ts, v) == p.image.start + (v - p.origin.start)
  }

  /** What one turn of the loop does with a popped range: the one range it
      pushes to `outputs` (with the part of the input it came from) and the
      outside pieces it pushes back onto `inputs`, in push order. */
  datatype Split = Split(piece: Piece, pushed: seq<Range>)

  function SplitRange(input: Range, ts: seq<Transform>): (s: Split)
    requires WellFormed(input) && ValidStage(ts)
    ensures AllWellFormed(s.pushed) && |s.pushed| <= 2
    ensures Measure(s.pushed) < 2 * Length(input) + 1
  {
    match FindMatch(input, ts)
    case None => Split(Piece(input, input), [])
    case Some(found) =>
      var t := ts[found.0];
      match found.1
      case Equals => Split(Piece(input, t.dest), [])
      case IsInside =>
        var start := MapValue(t, input.start);
        Split(Piece(input, Range(start, start + (input.end - input.start))), [])
      case IntersectsWith =>
        if input.start < t.source.start then
          var start := MapValue(t, t.source.start);
          var outside := Range(input.start, t.source.start);
          assert Measure([outside]) == 2 * Length(outside) + 1 by { assert [outside][1..] == []; }
          Split(Piece(Range(t.source.start, input.end), Range(start, start + (input.end - t.source.start))), [outside])
        else
          var start := MapValue(t, input.start);
          var outside := Range(t.source.end, input.end);
          assert Measure([outside]) == 2 * Length(outside) + 1 by { assert [outside][1..] == []; }
          Split(Piece(Range(input.start, t.source.end), Range(start, start + (t.source.end - input.start))), [outside])
      case Spans =>
        var before := Range(input.start, t.source.start);
        var after := Range(t.source.end, input.end);
        assert Measure([before, after]) == 2 * Length(before) + 2 * Length(after) + 2 by {
          assert [before, after][1..] == [after];
          assert [after][1..] == [];
        }
        Split(Piece(t.source, t.dest), [before, after])
  }

  lemma MultiplicityOne(r: Range, v: int)
    ensures Multiplicity([r], v) == if Contains(r, v) then 1 else 0
  {
    assert [r][1..] == [];
  }

  lemma TotalLengthOne(r: Range)
    ensures TotalLength([r]) == Length(r)
  {
    assert [r][1..] == [];
  }

  /** One step resolves its popped range faithfully: the mapped piece is the
      first-match translation of its origin, and the origin and the pushed
      pieces split the popped range exactly, so length is conserved. */
  lemma SplitRangeSound(input: Range, ts: seq<Transform>)
    requires WellFormed(input) && ValidStage(ts)
    ensures Faithful(SplitRange(input, ts).piece, ts)
    ensures Length(SplitRange(input, ts).piece.origin) + TotalLength(SplitRange(input, ts).pushed) == Length(input)
    ensures forall v :: Multiplicity([SplitRange(input, ts).piece.origin] + SplitRange(input, ts).pushed, v) ==
                        if Contains(input, v) then 1 else 0
  {
    SplitFaithful(input, ts);
    SplitPartitions(input, ts);
  }

  /** The mapped piece of a step is the first-match translation of its
      origin. */
  lemma SplitFaithful(input: Range, ts: seq<Transform>)
    requires WellFormed(input) && ValidStage(ts)
    ensures Faithful(SplitRange(input, ts).piece, ts)
  {
    match FindMatch(input, ts)
    case None =>
      forall v: nat | Contains(input, v) ensures StageValue(ts, v) == v {
        StageValueOutside(ts, v);
      }
    case Some(found) =>
      var t := ts[found.0];
      forall v: nat | Contains(input, v) && Contains(t.source, v) ensures StageValue(ts, v) == MapValue(t, v) {
        StageValueAt(ts, found.0, v);
      }
  }

  /** The origin of the mapped piece and the pieces pushed back split the
      popped range exactly. */
  lemma SplitPartitions(input: Range, ts: seq<Transform>)
    requires WellFormed(input) && ValidStage(ts)
    ensures Length(SplitRange(input, ts).piece.origin) + TotalLength(SplitRange(input, ts).pushed) == Length(input)
    ensures forall v :: Multiplicity([SplitRange(input, ts).piece.origin] + SplitRange(input, ts).pushed, v) ==
                        if Contains(input, v) then 1 else 0
  {
    var s := SplitRange(input, ts);
    var pieces := [s.piece.origin] + s.pushed;
    match FindMatch(input, ts)
    case None =>
      assert pieces == [input];
      forall v ensures Multiplicity(pieces, v) == if Contains(input, v) then 1 else 0 {
        MultiplicityOne(input, v);
      }
    case Some(found) =>
      var t := ts[found.0];
      match found.1
      case Equals =>
        forall v ensures Multiplicity(pieces, v) == if Contains(input, v) then 1 else 0 {
          MultiplicityOne(input, v);
        }
      case IsInside =>
        forall v ensures Multiplicity(pieces, v) == if Contains(input, v) then 1 else 0 {
          MultiplicityOne(input, v);
        }
      case IntersectsWith =>
        var inside := s.piece.origin;
        var outside := s.pushed[0];
        assert s.pushed == [outside];
        TotalLengthOne(outside);
        forall v ensures Multiplicity(pieces, v) == if Contains(input, v) then 1 else 0 {
          MultiplicityConcat([inside], [outside], v);
          MultiplicityOne(inside, v);
          MultiplicityOne(outside, v);
        }
      case Spans =>
        var before := s.pushed[0];
        var after := s.pushed[1];
        assert s.pushed == [before] + [after];
        TotalLengthConcat([before], [after]);
        TotalLengthOne(before);
        TotalLengthOne(after);
        forall v ensures Multiplicity(pieces, v) == if Contains(input, v) then 1 else 0 {
          MultiplicityConcat([t.source], s.pushed, v);
          MultiplicityConcat([before], [after], v);
          MultiplicityOne(t.source, v);
          MultiplicityOne(before, v);
          MultiplicityOne(after, v);
        }
  }


  // -------- The whole worklist (map_ranges) --------

  /** The pieces map_ranges resolves, in the order it pushes their images
      onto `outputs`: pop the last range of the worklist, split it, push the
      outside pieces back and carry on until the worklist is empty. */
  function Resolve(work: seq<Range>, ts: seq<Transform>): seq<Piece>
    requires AllWellFormed(work) && ValidStage(ts)
    decreases Measure(work)
  {
    if work == [] then []
    else
      var rest := work[..|work| - 1];
      var s := SplitRange(work[|work| - 1], ts);
      SplitLast(work);
      MeasureConcat(rest, [work[|work| - 1]]);
      MeasureConcat(rest, s.pushed);
      [s.piece] + Resolve(rest + s.pushed, ts)
  }

  function Images(ps: seq<Piece>): (rs: seq<Range>)
    ensures |rs| == |ps| && forall i :: 0 <= i < |ps| ==> rs[i] == ps[i].image
  {
    if ps == [] then [] else [ps[0].image] + Images(ps[1..])
  }

  function Origins(ps: seq<Piece>): (rs: seq<Range>)
    ensures |rs| == |ps| && forall i :: 0 <= i < |ps| ==> rs[i] == ps[i].origin
  {
    if ps == [] then [] else [ps[0].origin] + Origins(ps[1..])
  }

  /** Every resolved piece is a faithful translation, and every popped range
      yields exactly one output, so there are at least as many outputs as
      inputs. */
  lemma {:induction false} ResolveFaithful(work: seq<Range>, ts: seq<Transform>)
    requires AllWellFormed(work) && ValidStage(ts)
    ensures |Resolve(work, ts)| >= |work|
    ensures forall i :: 0 <= i < |Resolve(work, ts)| ==> Faithful(Resolve(work, ts)[i], ts)
    decreases Measure(work)
  {
    if work != [] {
      var rest := work[..|work| - 1];
      var s := SplitRange(work[|work| - 1], ts);
      SplitLast(work);
      MeasureConcat(rest, [work[|work| - 1]]);
      MeasureConcat(rest, s.pushed);
      SplitRangeSound(work[|work| - 1], ts);
      ResolveFaithful(rest + s.pushed, ts);
    }
  }

  /** The origins of the resolved pieces partition the input: every value is
      held by exactly as many origins as input ranges. Mapped pieces go
      straight to the output and are never examined again. */
  lemma {:induction false} ResolvePartitions(work: seq<Range>, ts: seq<Transform>, v: int)
    requires AllWellFormed(work) && ValidStage(ts)
    ensures Multiplicity(Origins(Resolve(work, ts)), v) == Multiplicity(work, v)
    decreases Measure(work)
  {
    if work != [] {
      var last := work[|work| - 1];
      var rest := work[..|work| - 1];
      var s := SplitRange(last, ts);
      SplitLast(work);
      MeasureConcat(rest, [last]);
      MeasureConcat(rest, s.pushed);
      ResolvePartitions(rest + s.pushed, ts, v);
      SplitRangeSound(last, ts);
      MultiplicityOne(last, v);
      var ps := Resolve(work, ts);
      assert Origins(ps) == [s.piece.origin] + Origins(Resolve(rest + s.pushed, ts));
      MultiplicityConcat([s.piece.origin], Origins(Resolve(rest + s.pushed, ts)), v);
      MultiplicityConcat(rest, s.pushed, v);
      MultiplicityConcat(rest, [last], v);
      MultiplicityConcat([s.piece.origin], s.pushed, v);
    }
  }

  /** Length is conserved: the output lengths sum to the input lengths. */
  lemma {:induction false} ResolveConservesLength(work: seq<Range>, ts: seq<Transform>)
    requires AllWellFormed(work) && ValidStage(ts)
    ensures TotalLength(Images(Resolve(work, ts))) == TotalLength(work)
    decreases Measure(work)
  {
    if work != [] {
      var last := work[|work| - 1];
      var rest := work[..|work| - 1];
      var s := SplitRange(last, ts);
      SplitLast(work);
      MeasureConcat(rest, [last]);
      MeasureConcat(rest, s.pushed);
      ResolveConservesLength(rest + s.pushed, ts);
      SplitRangeSound(last, ts);
      TotalLengthOne(last);
      TotalLengthOne(s.piece.image);
      var ps := Resolve(work, ts);
      assert Images(ps) == [s.piece.image] + Images(Resolve(rest + s.pushed, ts));
      TotalLengthConcat([s.piece.image], Images(Resolve(rest + s.pushed, ts)));
      TotalLengthConcat(rest, s.pushed);
      TotalLengthConcat(rest, [last]);
    }
  }

  /** One stage, value by value: the first-match image of every value the
      inputs hold is held by some output. */
  lemma StageCovers(work: seq<Range>, ts: seq<Transform>, v: nat)
    requires AllWellFormed(work) && ValidStage(ts)
    requires Multiplicity(work, v) > 0
    ensures Multiplicity(Images(Resolve(work, ts)), StageValue(ts, v)) > 0
  {
    var ps := Resolve(work, ts);
    ResolveFaithful(work, ts);
    ResolvePartitions(work, ts, v);
    MultiplicityPositive(Origins(ps), v);
    var i :| 0 <= i < |ps| && Contains(Origins(ps)[i], v);
    assert Faithful(ps[i], ts);
    assert Contains(Images(ps)[i], StageValue(ts, v));
    MultiplicityPositive(Images(ps), StageValue(ts, v));
  }

  /** ... and every value an output holds is the first-match image of a value
      the inputs hold. */
  lemma StageSound(work: seq<Range>, ts: seq<Transform>, x: nat)
    requires AllWellFormed(work) && ValidStage(ts)
    requires Multiplicity(Images(Resolve(work, ts)), x) > 0
    ensures exists v: nat :: Multiplicity(work, v) > 0 && StageValue(ts, v) == x
  {
    var ps := Resolve(work, ts);
    ResolveFaithful(work, ts);
    MultiplicityPositive(Images(ps), x);
    var i :| 0 <= i < |ps| && Contains(Images(ps)[i], x);
    var v := FaithfulPreimage(ps[i], ts, x);
    assert Contains(Origins(ps)[i], v);
    MultiplicityPositive(Origins(ps), v);
    ResolvePartitions(work, ts, v);
  }

  /** A faithful piece's image value comes from the matching origin value. */
  lemma FaithfulPreimage(p: Piece, ts: seq<Transform>, x: nat) returns (v: nat)
    requires Faithful(p, ts) && Contains(p.image, x)
    ensures Contains(p.origin, v) && StageValue(ts, v) == x
  {
    v := p.origin.start + (x - p.image.start);
  }

  lemma SplitLast<T>(s: seq<T>)
    requires s != []
    ensures s == s[..|s| - 1] + [s[|s| - 1]]
  {
  }

  lemma AppendAssoc<T>(a: seq<T>, b: seq<T>, c: seq<T>)
    ensures (a + b) + c == a + (b + c)
  {
  }

  /** One turn of the worklist: the last range is resolved first. */
  lemma ResolveStep(work: seq<Range>, ts: seq<Transform>)
    requires AllWellFormed(work) && ValidStage(ts) && work != []
    ensures var s := SplitRange(work[|work| - 1], ts);
            && AllWellFormed(work[..|work| - 1] + s.pushed)
            && Measure(work[..|work| - 1] + s.pushed) < Measure(work)
            && Images(Resolve(work, ts)) == [s.piece.image] + Images(Resolve(work[..|work| - 1] + s.pushed, ts))
  {
    var rest := work[..|work| - 1];
    var s := SplitRange(work[|work| - 1], ts);
    SplitLast(work);
    MeasureConcat(rest, [work[|work| - 1]]);
    MeasureConcat(rest, s.pushed);
    ResolveUnfold(work, ts);
    var ps := Resolve(rest + s.pushed, ts);
    assert ([s.piece] + ps)[1..] == ps;
  }

  /** The `match` of one turn of map_ranges' loop: the range it pushes to
      `outputs`, and the outside pieces it pushes back onto `inputs`, in
      push order. */
  method MapOne(input: Range, ts: seq<Transform>) returns (output: Range, pushed: seq<Range>)
    requires WellFormed(input) && ValidStage(ts)
    ensures output == SplitRange(input, ts).piece.image
    ensures pushed == SplitRange(input, ts).pushed
  {
    pushed := [];
    var found := FindMatch(input, ts);
    if found.None? {
      return input, pushed;
    }
    var (j, m) := found.value;
    var t := ts[j];
    match m
    case Equals =>
      output := t.dest;
    case IsInside =>
      var start := MapValue(t, input.start);
      var end := start + (input.end - input.start);
      output := Range(start, end);
    case IntersectsWith =>
      if input.start < t.source.start {
        var outsideRange := Range(input.start, t.source.start);
        pushed := pushed + [outsideRange];
        var insideRange := Range(t.source.start, input.end);
        var start := MapValue(t, insideRange.start);
        var end := start + (insideRange.end - insideRange.start);
        output := Range(start, end);
      } else {
        var insideRange := Range(input.start, t.source.end);
        var start := MapValue(t, insideRange.start);
        var end := start + (insideRange.end - insideRange.start);
        output := Range(start, end);
        var outsideRange := Range(t.source.end, input.end);
        pushed := pushed + [outsideRange];
      }
    case Spans =>
      output := t.dest;
      var beforeRange := Range(input.start, t.source.start);
      pushed := pushed + [beforeRange];
      var afterRange := Range(t.source.end, input.end);
      pushed := pushed + [afterRange];
  }

  /** What the outputs of a stage are: well-formed ranges, at least one per
      input range, of the same total length, holding the first-match image
      of every value the inputs hold. */
  lemma StageOutputs(inputs: seq<Range>, ts: seq<Transform>)
    requires AllWellFormed(inputs) && ValidStage(ts)
    ensures var outputs := Images(Resolve(inputs, ts));
            && AllWellFormed(outputs) && |outputs| >= |inputs|
            && TotalLength(outputs) == TotalLength(inputs)
            && forall v: nat :: Multiplicity(inputs, v) > 0 ==> Multiplicity(outputs, StageValue(ts, v)) > 0
  {
    var ps := Resolve(inputs, ts);
    ResolveFaithful(inputs, ts);
    ResolveConservesLength(inputs, ts);
    assert forall i :: 0 <= i < |ps| ==> Images(ps)[i] == ps[i].image && Faithful(ps[i], ts);
    forall v: nat | Multiplicity(inputs, v) > 0
      ensures Multiplicity(Images(ps), StageValue(ts, v)) > 0
    {
      StageCovers(inputs, ts, v);
    }
  }

  /** map_ranges: a worklist that pops a range, finds the first rule that
      matches it, pushes the mapped part to `outputs` and any outside parts
      back onto the worklist. */
  method MapRanges(inputs: seq<Range>, ts: seq<Transform>) returns (outputs: seq<Range>)
    requires AllWellFormed(inputs) && ValidStage(ts)
    ensures outputs == Images(Resolve(inputs, ts))
    ensures AllWellFormed(outputs) && |outputs| >= |inputs|
    ensures TotalLength(outputs) == TotalLength(inputs)
    ensures forall v: nat :: Multiplicity(inputs, v) > 0 ==> Multiplicity(outputs, StageValue(ts, v)) > 0
  {
    outputs := [];
    var work := inputs;
    while work != []
      invariant AllWellFormed(work)
      invariant Images(Resolve(inputs, ts)) == outputs + Images(Resolve(work, ts))
      decreases Measure(work)
    {
      var input := work[|work| - 1];
      ResolveStep(work, ts);
      work := work[..|work| - 1];
      var output, pushed := MapOne(input, ts);
      ghost var tail := Images(Resolve(work + pushed, ts));
      AppendAssoc(outputs, [output], tail);
      outputs := outputs + [output];
      work := work + pushed;
    }
    assert outputs + [] == outputs;
    StageOutputs(inputs, ts);
  }

  // -------- The pipeline (part2) --------

  predicate ValidStages(stages: seq<seq<Transform>>)
  {
    forall k :: 0 <= k < |stages| ==> ValidStage(stages[k])
  }

  /** The outputs of map_ranges on one stage, as a value. */
  function MapRangesValue(inputs: seq<Range>, ts: seq<Transform>): (outputs: seq<Range>)
    requires AllWellFormed(inputs) && ValidStage(ts)
    ensures AllWellFormed(outputs) && |outputs| >= |inputs|
  {
    ResolveFaithful(inputs, ts);
    Images(Resolve(inputs, ts))
  }

  /** The fold of map_ranges over the stages, in order. */
  function Pipeline(seeds: seq<Range>, stages: seq<seq<Transform>>): (out: seq<Range>)
    requires AllWellFormed(seeds) && ValidStages(stages)
    ensures AllWellFormed(out) && |out| >= |seeds|
    decreases |stages|
  {
    if stages == [] then seeds else Pipeline(MapRangesValue(seeds, stages[0]), stages[1..])
  }

  /** Reference semantics of the whole almanac on one value. */
  function Location(stages: seq<seq<Transform>>, v: nat): nat
  {
    if stages == [] then v else Location(stages[1..], StageValue(stages[0], v))
  }

  /** The smallest start among the ranges; None where the Rust code's
      `min().expect(..)` panics. */
  function MinStart(rs: seq<Range>): (r: Option<nat>)
    ensures r.None? <==> rs == []
    ensures r.Some? ==> (exists i :: 0 <= i < |rs| && rs[i].start == r.value)
                        && forall i :: 0 <= i < |rs| ==> r.value <= rs[i].start
  {
    if rs == [] then None
    else match MinStart(rs[1..])
      case None => Some(rs[0].start)
      case Some(m) => if rs[0].start <= m then Some(rs[0].start) else Some(m)
  }

  /** part2 once the almanac is parsed: fold map_ranges over the stages and
      take the smallest start of the final ranges. The `min().expect(..)`
      panics exactly when there are no seed ranges at all. */
  function Part2(seeds: seq<Range>, stages: seq<seq<Transform>>): (r: Option<nat>)
    requires AllWellFormed(seeds) && ValidStages(stages)
    ensures r.None? <==> seeds == []
  {
    if seeds == [] then
      PipelineEmpty(stages);
      None
    else MinStart(Pipeline(seeds, stages))
  }

  /** Every seed value's location lies in some final range. */
  lemma {:induction false} PipelineCovers(seeds: seq<Range>, stages: seq<seq<Transform>>, v: nat)
    requires AllWellFormed(seeds) && ValidStages(stages)
    requires Multiplicity(seeds, v) > 0
    ensures Multiplicity(Pipeline(seeds, stages), Location(stages, v)) > 0
    decreases |stages|
  {
    if stages != [] {
      StageCovers(seeds, stages[0], v);
      PipelineCovers(MapRangesValue(seeds, stages[0]), stages[1..], StageValue(stages[0], v));
    }
  }

  /** Every value a final range holds is the location of some seed value. */
  lemma {:induction false} PipelineSound(seeds: seq<Range>, stages: seq<seq<Transform>>, x: nat)
    requires AllWellFormed(seeds) && ValidStages(stages)
    requires Multiplicity(Pipeline(seeds, stages), x) > 0
    ensures exists v: nat :: Multiplicity(seeds, v) > 0 && Location(stages, v) == x
    decreases |stages|
  {
    if stages == [] {
      assert Location(stages, x) == x;
    } else {
      var mid := MapRangesValue(seeds, stages[0]);
      PipelineSound(mid, stages[1..], x);
      var y: nat :| Multiplicity(mid, y) > 0 && Location(stages[1..], y) == x;
      StageSound(seeds, stages[0], y);
      var v: nat :| Multiplicity(seeds, v) > 0 && StageValue(stages[0], v) == y;
      assert Location(stages, v) == x;
    }
  }

  /** part2 never exceeds the location of any seed value, and it fails only
      when there are no seed ranges at all. */
  lemma Part2IsLowerBound(seeds: seq<Range>, stages: seq<seq<Transform>>, v: nat)
    requires AllWellFormed(seeds) && ValidStages(stages)
    requires Multiplicity(seeds, v) > 0
    ensures Part2(seeds, stages).Some? && Part2(seeds, stages).value <= Location(stages, v)
  {
    PipelineCovers(seeds, stages, v);
    var out := Pipeline(seeds, stages);
    MultiplicityPositive(out, Location(stages, v));
  }

  lemma {:induction false} PipelineEmpty(stages: seq<seq<Transform>>)
    requires ValidStages(stages)
    ensures Pipeline([], stages) == []
  {
    if stages != [] {
      assert Resolve([], stages[0]) == [];
      PipelineEmpty(stages[1..]);
    }
  }

  // -------- The minimum counts empty pieces (finding) --------

  /** The Spans branch pushes `input.start..source.start` and
      `source.end..input.end` even when they are empty. An empty range
      `e..e` that only touches the end of a rule's source is classified
      IsInside, and map_value leaves `e` unchanged, so `e` enters the
      minimum although no seed value ends up there. */
  lemma EmptyPieceLowersMinimum()
    ensures var seeds := [Range(0, 5)];
            var stage := [Transform(Range(3, 5), Range(100, 102)), Transform(Range(0, 3), Range(200, 203))];
            && ValidStages([stage])
            && Part2(seeds, [stage]) == Some(5)
            && forall v: nat :: Contains(seeds[0], v) ==> Location([stage], v) >= 100
  {
    var seeds := [Range(0, 5)];
    var stage := [Transform(Range(3, 5), Range(100, 102)), Transform(Range(0, 3), Range(200, 203))];
    var ps := EmptyPieceResolve();
    assert Pipeline([], [stage][1..]) == [];
    assert Pipeline(seeds, [stage]) == Images(ps);
    assert Images(ps) == [Range(100, 102), Range(5, 5), Range(200, 203)];
    forall v: nat | Contains(seeds[0], v) ensures Location([stage], v) >= 100 {
      assert Location([stage], v) == StageValue(stage, v);
    }
  }

  /** The worklist of the example above, step by step: the Spans case pushes
      the empty range 5..5, which comes back unchanged. */
  lemma EmptyPieceResolve() returns (ps: seq<Piece>)
    ensures var stage := [Transform(Range(3, 5), Range(100, 102)), Transform(Range(0, 3), Range(200, 203))];
            && ValidStage(stage)
            && ps == [Piece(Range(3, 5), Range(100, 102)), Piece(Range(5, 5), Range(5, 5)), Piece(Range(0, 3), Range(200, 203))]
            && Resolve([Range(0, 5)], stage) == ps
  {
    var stage := [Transform(Range(3, 5), Range(100, 102)), Transform(Range(0, 3), Range(200, 203))];
    assert ValidStage(stage);
    var a, b, c := Range(3, 5), Range(0, 3), Range(5, 5);
    assert SplitRange(Range(0, 5), stage) == Split(Piece(a, Range(100, 102)), [b, c]) by {
      assert MatchRanges(Range(0, 5), a) == Some(Spans);
    }
    assert SplitRange(c, stage) == Split(Piece(c, c), []) by {
      assert MatchRanges(c, a) == Some(IsInside);
    }
    assert SplitRange(b, stage) == Split(Piece(b, Range(200, 203)), []) by {
      assert MatchRanges(b, a) == None;
      assert MatchRanges(b, Range(0, 3)) == Some(Equals);
    }
    ResolveUnfold([Range(0, 5)], stage);
    assert [Range(0, 5)][..0] + [b, c] == [b, c];
    ResolveUnfold([b, c], stage);
    assert [b, c][..1] + [] == [b];
    ResolveUnfold([b], stage);
    assert [b][..0] + [] == [];
    ps := [Piece(a, Range(100, 102)), Piece(c, c), Piece(b, Range(200, 203))];
  }

  /** The worklist resolves its last range first (the defining equation of
      Resolve, for stepping through examples). */
  lemma ResolveUnfold(work: seq<Range>, ts: seq<Transform>)
    requires AllWellFormed(work) && ValidStage(ts) && work != []
    ensures AllWellFormed(work[..|work| - 1] + SplitRange(work[|work| - 1], ts).pushed)
    ensures Resolve(work, ts) == [SplitRange(work[|work| - 1], ts).piece] +
                                 Resolve(work[..|work| - 1] + SplitRange(work[|work| - 1], ts).pushed, ts)
  {
  }

  /** The evidently intended answer: the smallest start among the final
      ranges that hold at least one value. */
  function NonEmpty(rs: seq<Range>): (r: seq<Range>)
    ensures forall i :: 0 <= i < |r| ==> r[i].start < r[i].end
    ensures forall x :: Multiplicity(r, x) == Multiplicity(rs, x)
  {
    if rs == [] then []
    else if rs[0].start < rs[0].end then [rs[0]] + NonEmpty(rs[1..])
    else NonEmpty(rs[1..])
  }

  function Part2NonEmpty(seeds: seq<Range>, stages: seq<seq<Transform>>): Option<nat>
    requires AllWellFormed(seeds) && ValidStages(stages)
  {
    MinStart(NonEmpty(Pipeline(seeds, stages)))
  }

  /** Without the empty pieces the answer is exactly the lowest location of
      any seed value, and there is one exactly when some seed range is
      non-empty. */
  lemma Part2NonEmptyIsLowestLocation(seeds: seq<Range>, stages: seq<seq<Transform>>)
    requires AllWellFormed(seeds) && ValidStages(stages)
    ensures Part2NonEmpty(seeds, stages).None? <==> forall v: nat :: Multiplicity(seeds, v) == 0
    ensures Part2NonEmpty(seeds, stages).Some? ==>
      && (exists v: nat :: Multiplicity(seeds, v) > 0 && Location(stages, v) == Part2NonEmpty(seeds, stages).value)
      && forall v: nat :: Multiplicity(seeds, v) > 0 ==> Part2NonEmpty(seeds, stages).value <= Location(stages, v)
  {
    var out := NonEmpty(Pipeline(seeds, stages));
    match MinStart(out)
    case None =>
      forall v: nat | Multiplicity(seeds, v) > 0 ensures false {
        PipelineCovers(seeds, stages, v);
        MultiplicityPositive(out, Location(stages, v));
      }
    case Some(m) =>
      var i :| 0 <= i < |out| && out[i].start == m;
      assert Contains(out[i], m);
      MultiplicityPositive(out, m);
      PipelineSound(seeds, stages, m);
      forall v: nat | Multiplicity(seeds, v) > 0 ensures m <= Location(stages, v) {
        PipelineCovers(seeds, stages, v);
        MultiplicityPositive(out, Location(stages, v));
      }
  }

  // -------- Parsing (parse_seeds, parse_mapping) --------

  /** The numbers of the seeds line that a list of seed ranges stands for:
      each range contributes its start and its length. */
  function SeedNumbers(rs: seq<Range>): (ns: seq<nat>)
    requires AllWellFormed(rs)
    ensures |ns| == 2 * |rs|
  {
    if rs == [] then []
    else SeedNumbers(rs[..|rs| - 1]) + [rs[|rs| - 1].start, Length(rs[|rs| - 1])]
  }

  /** Range k stands for the numbers at positions 2k and 2k + 1. */
  lemma {:induction false} SeedNumbersAt(rs: seq<Range>)
    requires AllWellFormed(rs)
    ensures forall k :: 0 <= k < |rs| ==>
              SeedNumbers(rs)[2 * k] == rs[k].start && SeedNumbers(rs)[2 * k + 1] == Length(rs[k])
  {
    if rs != [] {
      SeedNumbersAt(rs[..|rs| - 1]);
    }
  }

  /** One iteration of the pairing loop of parse_seeds. */
  lemma SeedPairStep(numbers: seq<nat>, i: nat, rs: seq<Range>)
    requires i + 1 < |numbers| && AllWellFormed(rs) && SeedNumbers(rs) == numbers[..i]
    ensures AllWellFormed(rs + [Range(numbers[i], numbers[i] + numbers[i + 1])])
    ensures SeedNumbers(rs + [Range(numbers[i], numbers[i] + numbers[i + 1])]) == numbers[..i + 2]
  {
    var r := Range(numbers[i], numbers[i] + numbers[i + 1]);
    assert (rs + [r])[..|rs|] == rs;
    assert numbers[..i + 2] == numbers[..i] + [numbers[i], numbers[i + 1]];
  }

  /** parse_seeds, after the numbers of the line have been read: a `step_by(2)`
      loop pairs each start with the length after it. An odd count makes
      `numbers[i + 1]` panic, which is `None` here. */
  method ParseSeeds(numbers: seq<nat>) returns (seeds: Option<seq<Range>>)
    ensures seeds.None? <==> |numbers| % 2 == 1
    ensures seeds.Some? ==> AllWellFormed(seeds.value) && SeedNumbers(seeds.value) == numbers
  {
    var acc: seq<Range> := [];
    var i := 0;
    while i < |numbers|
      invariant 0 <= i <= |numbers| && i % 2 == 0
      invariant AllWellFormed(acc) && SeedNumbers(acc) == numbers[..i]
    {
      if i + 1 >= |numbers| {
        return None;
      }
      var start := numbers[i];
      var range := numbers[i + 1];
      SeedPairStep(numbers, i, acc);
      acc := acc + [Range(start, start + range)];
      i := i + 2;
    }
    assert numbers[..i] == numbers;
    seeds := Some(acc);
  }

  /** The seeds line determines its ranges: "79 14 55 13" can only stand for
      79..93 and 55..68. */
  lemma ParseSeedsExample(rs: seq<Range>)
    requires AllWellFormed(rs) && SeedNumbers(rs) == [79, 14, 55, 13]
    ensures rs == [Range(79, 93), Range(55, 68)]
  {
    assert |rs| == 2;
    SeedNumbersAt(rs);
    assert rs[0].start == 79 && Length(rs[0]) == 14;
    assert rs[1].start == 55 && Length(rs[1]) == 13;
  }

  /** A line of an almanac block after `split(" ")`: each token is the
      number it parses to, or None where `parse::<u64>` fails. A blank line
      is the empty sequence. */
  type Line = seq<Option<nat>>

  /** One `dest source range` line; the parts after the third are never read. */
  function ParseRule(line: Line): (r: Option<Transform>)
    ensures r.Some? <==> |line| >= 3 && line[0].Some? && line[1].Some? && line[2].Some?
    ensures r.Some? ==> ValidTransform(r.value)
                        && r.value.dest.start == line[0].value
                        && r.value.source.start == line[1].value
                        && Length(r.value.source) == line[2].value
  {
    if |line| >= 3 && line[0].Some? && line[1].Some? && line[2].Some? then
      var dest, source, range := line[0].value, line[1].value, line[2].value;
      Some(Transform(Range(source, source + range), Range(dest, dest + range)))
    else None
  }

  /** The line a rule was written as. */
  function RuleLine(t: Transform): Line
    requires ValidTransform(t)
  {
    [Some(t.dest.start), Some(t.source.start), Some(Length(t.source))]
  }

  lemma ParseRuleRoundTrip(t: Transform)
    requires ValidTransform(t)
    ensures ParseRule(RuleLine(t)) == Some(t)
  {
  }

  /** The index of the first blank line at or after `pos`, or the end. */
  function BlockEnd(lines: seq<Line>, pos: nat): (e: nat)
    requires pos <= |lines|
    ensures pos <= e <= |lines|
    ensures e < |lines| ==> lines[e] == []
    ensures forall k :: pos <= k < e ==> lines[k] != []
    decreases |lines| - pos
  {
    if pos == |lines| || lines[pos] == [] then pos else BlockEnd(lines, pos + 1)
  }

  /** parse_mapping: read rules from `pos` until a blank line (which is
      consumed) or the end of the input. A malformed line panics in the
      source; here it is `None`. On success the rules come back in order,
      with the position of the line after the block. */
  method ParseMapping(lines: seq<Line>, pos: nat) returns (r: Option<(seq<Transform>, nat)>)
    requires pos <= |lines|
    ensures r.None? <==> exists k :: pos <= k < BlockEnd(lines, pos) && ParseRule(lines[k]).None?
    ensures r.Some? ==>
      && |r.value.0| == BlockEnd(lines, pos) - pos
      && (forall k :: 0 <= k < |r.value.0| ==> ParseRule(lines[pos + k]) == Some(r.value.0[k]))
      && r.value.1 == if BlockEnd(lines, pos) < |lines| then BlockEnd(lines, pos) + 1 else |lines|
  {
    var transforms: seq<Transform> := [];
    var i := pos;
    while i < |lines|
      invariant pos <= i <= BlockEnd(lines, pos)
      invariant |transforms| == i - pos
      invariant forall k :: 0 <= k < |transforms| ==> ParseRule(lines[pos + k]) == Some(transforms[k])
    {
      var line := lines[i];
      i := i + 1;
      if line == [] {
        AllRulesParse(lines, pos, i - 1, transforms);
        return Some((transforms, i));
      }
      match ParseRule(line)
      case None =>
        assert pos <= i - 1 < BlockEnd(lines, pos);
        return None;
      case Some(t) =>
        transforms := transforms + [t];
    }
    AllRulesParse(lines, pos, i, transforms);
    r := Some((transforms, i));
  }

  lemma AllRulesParse(lines: seq<Line>, pos: nat, e: nat, transforms: seq<Transform>)
    requires pos <= e <= |lines| && |transforms| == e - pos
    requires forall k :: 0 <= k < |transforms| ==> ParseRule(lines[pos + k]) == Some(transforms[k])
    ensures forall k :: pos <= k < e ==> ParseRule(lines[k]).Some?
  {
    forall k | pos <= k < e ensures ParseRule(lines[k]).Some? {
      assert ParseRule(lines[pos + (k - pos)]) == Some(transforms[k - pos]);
    }
  }

  /** Writing a block's rules out as lines and parsing them back gives the
      same rules, in the same order. */
  lemma {:induction false} ParseMappingRoundTrip(ts: seq<Transform>, lines: seq<Line>)
    requires forall k :: 0 <= k < |ts| ==> ValidTransform(ts[k])
    requires |lines| == |ts| && forall k :: 0 <= k < |ts| ==> lines[k] == RuleLine(ts[k])
    ensures BlockEnd(lines, 0) == |ts|
    ensures forall k :: 0 <= k < |ts| ==> ParseRule(lines[k]) == Some(ts[k])
  {
    BlockEndNoBlank(lines, 0);
    forall k | 0 <= k < |ts| ensures ParseRule(lines[k]) == Some(ts[k]) {
      ParseRuleRoundTrip(ts[k]);
    }
  }

  lemma {:induction false} BlockEndNoBlank(lines: seq<Line>, pos: nat)
    requires pos <= |lines| && forall k :: pos <= k < |lines| ==> lines[k] != []
    ensures BlockEnd(lines, pos) == |lines|
    decreases |lines| - pos
  {
    if pos < |lines| {
      BlockEndNoBlank(lines, pos + 1);
    }
  }

  /** The parse_mapping test: "50 98 2" and "52 50 48". */
  lemma ParseMappingExample()
    ensures ParseRule([Some(50), Some(98), Some(2)]) == Some(Transform(Range(98, 100), Range(50, 52)))
    ensures ParseRule([Some(52), Some(50), Some(48)]) == Some(Transform(Range(50, 98), Range(52, 100)))
  {
  }

  // -------- Tests of the source, as lemmas --------

  lemma MatchRangesExamples()
    ensures MatchRanges(Range(0, 10), Range(20, 30)) == None
    ensures MatchRanges(Range(0, 10), Range(5, 15)) == Some(IntersectsWith)
    ensures MatchRanges(Range(5, 15), Range(0, 10)) == Some(IntersectsWith)
    ensures MatchRanges(Range(10, 20), Range(10, 20)) == Some(Equals)
    ensures MatchRanges(Range(10, 20), Range(0, 50)) == Some(IsInside)
    ensures MatchRanges(Range(10, 50), Range(20, 30)) == Some(Spans)
  {
  }

  /** The stage of the map_ranges test: 40..60 -> 240..260 and
      80..120 -> 280..320. */
  predicate SampleStage(stage: seq<Transform>)
  {
    && |stage| == 2
    && stage[0] == Transform(Range(40, 60), Range(240, 260))
    && stage[1] == Transform(Range(80, 120), Range(280, 320))
  }

  /** 0..100 spans the first rule: 40..60 is mapped, 0..40 and 60..100
      go back. */
  lemma SampleSplitWhole(stage: seq<Transform>)
    requires SampleStage(stage)
    ensures ValidStage(stage)
    ensures SplitRange(Range(0, 100), stage) == Split(Piece(Range(40, 60), Range(240, 260)), [Range(0, 40), Range(60, 100)])
  {
    assert MatchRanges(Range(0, 100), Range(40, 60)) == Some(Spans);
  }

  /** 60..100 misses the first rule and overlaps the second: 80..100 is
      mapped, 60..80 goes back. */
  lemma SampleSplitHigh(stage: seq<Transform>)
    requires SampleStage(stage)
    ensures ValidStage(stage)
    ensures SplitRange(Range(60, 100), stage) == Split(Piece(Range(80, 100), Range(280, 300)), [Range(60, 80)])
  {
    assert MatchRanges(Range(60, 100), Range(40, 60)) == None;
    assert MatchRanges(Range(60, 100), Range(80, 120)) == Some(IntersectsWith);
  }

  /** A range that misses both rules stays as it is. */
  lemma SampleSplitMiss(stage: seq<Transform>, r: Range)
    requires SampleStage(stage)
    requires r == Range(60, 80) || r == Range(0, 40)
    ensures ValidStage(stage)
    ensures SplitRange(r, stage) == Split(Piece(r, r), [])
  {
    assert MatchRanges(r, Range(40, 60)) == None;
    assert MatchRanges(r, Range(80, 120)) == None;
  }

  /** The last two turns: 60..80 and then 0..40 stay as they are. */
  lemma SampleResolveTail(stage: seq<Transform>)
    requires SampleStage(stage)
    ensures ValidStage(stage)
    ensures Resolve([Range(0, 40), Range(60, 80)], stage) ==
            [Piece(Range(60, 80), Range(60, 80)), Piece(Range(0, 40), Range(0, 40))]
  {
    var low, mid := Range(0, 40), Range(60, 80);
    SampleSplitMiss(stage, mid);
    SampleSplitMiss(stage, low);
    ResolveUnfold([low], stage);
    assert [low][..0] + [] == [];
    ResolveUnfold([low, mid], stage);
    assert [low, mid][..1] + [] == [low];
  }

  /** The whole worklist run of the map_ranges test. */
  lemma SampleResolve(stage: seq<Transform>)
    requires SampleStage(stage)
    ensures ValidStage(stage)
    ensures Resolve([Range(0, 100)], stage) ==
            [Piece(Range(40, 60), Range(240, 260)), Piece(Range(80, 100), Range(280, 300)),
             Piece(Range(60, 80), Range(60, 80)), Piece(Range(0, 40), Range(0, 40))]
  {
    var low, high, mid := Range(0, 40), Range(60, 100), Range(60, 80);
    SampleSplitWhole(stage);
    SampleSplitHigh(stage);
    SampleResolveTail(stage);
    ResolveUnfold([Range(0, 100)], stage);
    assert [Range(0, 100)][..0] + [low, high] == [low, high];
    ResolveUnfold([low, high], stage);
    assert [low, high][..1] + [mid] == [low, mid];
  }

  /** The map_ranges test: 0..100 against 40..60 -> 240..260 and 80..120 -> 280..320. */
  lemma MapRangesExample(stage: seq<Transform>)
    requires SampleStage(stage)
    ensures ValidStage(stage)
    ensures MapRangesValue([Range(0, 100)], stage) == [Range(240, 260), Range(280, 300), Range(60, 80), Range(0, 40)]
  {
    SampleResolve(stage);
    var ps := Resolve([Range(0, 100)], stage);
    assert Images(ps) == [Range(240, 260), Range(280, 300), Range(60, 80), Range(0, 40)];
  }
}
