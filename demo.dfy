/**
 * The game logic of demo.cc: a round of six polycubes of which exactly two
 * (firstShape and secondShape) are the same shape, the player's selection of
 * shapes, and the Intro / Playing / Success / Fail / Result state machine
 * driven by elapsed time.
 */
module Game {
  import opened Geometry
  import opened Canonical
  import opened CubeRotations
  import opened ShapeMatch
  import opened ShapeGenerator
  import opened Random
  import opened Wrappers

  const ShapeCount: nat := 6
  const TotalPlayTime: real := 120.0
  const SuccessStateTime: real := 2.0
  const FailStateTime: real := 1.0

  datatype State = Intro | Playing | Success | Fail | Result

  /** One shape on the board: its blocks, the rotation it is shown in, and whether the player selected it. */
  datatype Shape = Shape(blocks: Blocks, baseRotation: IMat4, selected: bool)

  /** A block list generateShape can return: no block repeated, every coordinate within 28 of the origin. */
  predicate IsWalk(b: Blocks) {
    NoDuplicates(b) && Within(b, 28)
  }

  /**
   * The first |s| slots of a round being dealt: the pair of slots is ordered
   * and on the board, every slot holds a generated walk in a table rotation,
   * every slot but `second` differs in shape from all slots before it, and
   * `second` repeats the blocks of `first` in a rotation that does not look
   * the same.
   */
  ghost predicate RoundPrefix(s: seq<Shape>, first: int, second: int) {
    0 <= first < second < ShapeCount && |s| <= ShapeCount &&
    (forall k :: 0 <= k < |s| ==> IsWalk(s[k].blocks) && s[k].baseRotation in Rotations) &&
    (forall k, j :: 0 <= j < k < |s| && k != second ==> !Congruent(s[k].blocks, s[j].blocks)) &&
    (second < |s| ==>
      s[second].blocks == s[first].blocks &&
      Canonicalized(Rotated(s[first].blocks, s[first].baseRotation)) !=
      Canonicalized(Rotated(s[second].blocks, s[second].baseRotation)))
  }

  /** A round prefix in which nothing is selected yet, as initializeShapes builds it. */
  ghost predicate Dealing(s: seq<Shape>, first: int, second: int) {
    RoundPrefix(s, first, second) && forall k :: 0 <= k < |s| ==> !s[k].selected
  }

  /** Six slots dealt make a round with nothing selected. */
  lemma DealtIsRound(s: seq<Shape>, first: int, second: int)
    requires Dealing(s, first, second) && |s| == ShapeCount
    ensures IsRound(s, first, second) && Selected(s) == {}
  {
    NoneSelected(s);
  }

  /** A fully dealt round. */
  ghost predicate IsRound(s: seq<Shape>, first: int, second: int) {
    |s| == ShapeCount && RoundPrefix(s, first, second)
  }

  /** The indices of the selected shapes; m_selectedCount is meant to be its size. */
  function Selected(s: seq<Shape>): set<int> {
    set k | 0 <= k < |s| && s[k].selected
  }

  /** Every shape with its selection cleared. */
  function Deselected(s: seq<Shape>): (r: seq<Shape>)
    ensures |r| == |s|
    ensures forall k :: 0 <= k < |s| ==> r[k] == s[k].(selected := false)
  {
    seq(|s|, k requires 0 <= k < |s| => s[k].(selected := false))
  }

  /** Two boards that differ at most in which shapes are selected. */
  predicate SameLayout(s: seq<Shape>, t: seq<Shape>) {
    |s| == |t| &&
    forall k :: 0 <= k < |s| ==> s[k].blocks == t[k].blocks && s[k].baseRotation == t[k].baseRotation
  }

  /** Selecting or deselecting shapes never changes whether the board is a round. */
  lemma RoundIgnoresSelection(s: seq<Shape>, t: seq<Shape>, first: int, second: int)
    requires SameLayout(s, t) && IsRound(s, first, second)
    ensures IsRound(t, first, second)
  {
    forall k, j | 0 <= j < k < |t| && k != second
      ensures !Congruent(t[k].blocks, t[j].blocks)
    {
      assert t[k].blocks == s[k].blocks && t[j].blocks == s[j].blocks;
    }
  }

  /** Clearing every selection leaves nothing selected. */
  lemma DeselectedNothingSelected(s: seq<Shape>)
    ensures Selected(Deselected(s)) == {}
    ensures SameLayout(s, Deselected(s))
  {
  }

  /** Setting the selection of one shape to `b` adds or removes exactly its index. */
  lemma SelectedFlip(s: seq<Shape>, i: int, b: bool, t: seq<Shape>)
    requires 0 <= i < |s| && t == s[i := s[i].(selected := b)] && s[i].selected != b
    ensures |Selected(t)| == if b then |Selected(s)| + 1 else |Selected(s)| - 1
    ensures SameLayout(s, t)
  {
    assert Selected(t) == (if b then Selected(s) + {i} else Selected(s) - {i});
  }

  /** A board with no shape selected has an empty selection. */
  lemma NoneSelected(s: seq<Shape>)
    requires forall k :: 0 <= k < |s| ==> !s[k].selected
    ensures Selected(s) == {}
  {
  }

  /** Within a round, a slot other than `second` differs in shape from every slot before it, apart from the pair. */
  lemma NotCongruentBelow(s: seq<Shape>, first: int, second: int, i: int, j: int)
    requires IsRound(s, first, second) && 0 <= j < i < |s|
    requires !(i == second && j == first)
    ensures !Congruent(s[i].blocks, s[j].blocks)
  {
    if i == second {
      assert s[i].blocks == s[first].blocks;
      if first < j {
        assert !Congruent(s[j].blocks, s[first].blocks);
        if Congruent(s[first].blocks, s[j].blocks) {
          CongruentSymmetric(s[first].blocks, s[j].blocks);
        }
      } else {
        assert !Congruent(s[first].blocks, s[j].blocks);
      }
    }
  }

  /**
   * In a round, two different slots hold the same shape exactly when they are
   * the pair (firstShape, secondShape): the assertion that closes
   * initializeShapes, and the reason the pair is the only right answer.
   */
  lemma ExactlyOnePair(s: seq<Shape>, first: int, second: int, i: int, j: int)
    requires IsRound(s, first, second)
    requires 0 <= i < |s| && 0 <= j < |s| && i != j
    ensures Congruent(s[i].blocks, s[j].blocks) <==> (i == first && j == second) || (i == second && j == first)
  {
    if (i == first && j == second) || (i == second && j == first) {
      CongruentReflexive(s[first].blocks);
    } else if j < i {
      NotCongruentBelow(s, first, second, i, j);
    } else {
      NotCongruentBelow(s, first, second, j, i);
      if Congruent(s[i].blocks, s[j].blocks) {
        CongruentSymmetric(s[i].blocks, s[j].blocks);
      }
    }
  }

  /** With two distinct selected indices and a selection of size two, those are all that is selected. */
  lemma SelectedPair(s: seq<Shape>, i: int, j: int)
    requires |Selected(s)| == 2 && i in Selected(s) && j in Selected(s) && i != j
    ensures Selected(s) == {i, j}
  {
    var rest := Selected(s) - {i, j};
    assert Selected(s) == {i, j} + rest;
    assert |{i, j}| == 2;
  }

  /**
   * Once two shapes are selected, the player scores (both firstShape and
   * secondShape are selected) exactly when the two selected shapes are the
   * same shape.
   */
  lemma ScoresIffSameShape(s: seq<Shape>, first: int, second: int, i: int, j: int)
    requires IsRound(s, first, second)
    requires |Selected(s)| == 2 && i in Selected(s) && j in Selected(s) && i != j
    ensures (s[first].selected && s[second].selected) <==> Congruent(s[i].blocks, s[j].blocks)
  {
    PairSelected(s, first, second, i, j);
    ExactlyOnePair(s, first, second, i, j);
  }

  /** With exactly the two selections i and j, the pair is selected exactly when it is {i, j}. */
  lemma PairSelected(s: seq<Shape>, first: int, second: int, i: int, j: int)
    requires 0 <= first < second < |s|
    requires |Selected(s)| == 2 && i in Selected(s) && j in Selected(s) && i != j
    ensures (s[first].selected && s[second].selected) <==> (i == first && j == second) || (i == second && j == first)
  {
    SelectedPair(s, i, j);
    assert first in Selected(s) <==> s[first].selected;
    assert second in Selected(s) <==> s[second].selected;
  }

  /** A new slot that differs from all earlier ones extends the round prefix. */
  lemma PrefixExtend(s: seq<Shape>, first: int, second: int, shape: Shape)
    requires Dealing(s, first, second) && |s| < ShapeCount && |s| != second
    requires IsWalk(shape.blocks) && shape.baseRotation in Rotations && !shape.selected
    requires forall j :: 0 <= j < |s| ==> !Congruent(shape.blocks, s[j].blocks)
    ensures Dealing(s + [shape], first, second)
  {
    var t := s + [shape];
    forall k, j | 0 <= j < k < |t| && k != second
      ensures !Congruent(t[k].blocks, t[j].blocks)
    {
      assert t[j] == s[j];
      if k < |s| {
        assert t[k] == s[k];
      }
    }
  }

  /** The copy of `first` in a rotation that looks different extends the round prefix at slot `second`. */
  lemma PrefixExtendSecond(s: seq<Shape>, first: int, second: int, shape: Shape)
    requires Dealing(s, first, second) && |s| == second
    requires shape.blocks == s[first].blocks && shape.baseRotation in Rotations && !shape.selected
    requires Canonicalized(Rotated(s[first].blocks, s[first].baseRotation)) != Canonicalized(Rotated(shape.blocks, shape.baseRotation))
    ensures Dealing(s + [shape], first, second)
  {
    var t := s + [shape];
    assert t[first] == s[first] && t[second] == shape;
    forall k, j | 0 <= j < k < |t| && k != second
      ensures !Congruent(t[k].blocks, t[j].blocks)
    {
      assert t[j] == s[j] && t[k] == s[k];
    }
  }

  /** find_if over the shapes dealt so far, with sameShape(candidate, shape->blocks). */
  method MatchesEarlier(candidate: Blocks, s: seq<Shape>) returns (found: bool)
    ensures found <==> exists j :: 0 <= j < |s| && Congruent(candidate, s[j].blocks)
  {
    for j := 0 to |s|
      invariant NoClashBelow(candidate, s, j)
    {
      var same := SameShape(candidate, s[j].blocks);
      if same {
        return true;
      }
      NoClashExtend(candidate, s, j);
    }
    return false;
  }

  /** No shape among the first j is the same shape as `candidate`. */
  ghost predicate NoClashBelow(candidate: Blocks, s: seq<Shape>, j: nat)
    requires j <= |s|
  {
    forall k :: 0 <= k < j ==> !Congruent(candidate, s[k].blocks)
  }

  lemma NoClashExtend(candidate: Blocks, s: seq<Shape>, j: nat)
    requires j < |s| && NoClashBelow(candidate, s, j) && !Congruent(candidate, s[j].blocks)
    ensures NoClashBelow(candidate, s, j + 1)
  {
  }

  /**
   * One pass of the loop of initializeShapes: the blocks for slot |dealt|,
   * then its rotation, pushed as an unselected shape.
   */
  method DealSlot(rng: Rng, dealt: seq<Shape>, first: int, second: int, fuel: nat) returns (next: seq<Shape>, ok: bool)
    requires |dealt| < ShapeCount && Dealing(dealt, first, second)
    modifies rng
    ensures ok ==> |next| == |dealt| + 1 && next[..|dealt|] == dealt && Dealing(next, first, second)
  {
    var i := |dealt|;
    var blocks: Blocks;
    if i == second {
      blocks := dealt[first].blocks;
    } else {
      var found;
      blocks, found := NewShapeBlocks(rng, dealt, fuel);
      if !found {
        return dealt, false;
      }
    }
    var rotation, found := ChooseRotation(rng, dealt, first, second, blocks, fuel);
    if !found {
      return dealt, false;
    }
    var shape := Shape(blocks, rotation, false);
    if i == second {
      PrefixExtendSecond(dealt, first, second, shape);
    } else {
      PrefixExtend(dealt, first, second, shape);
    }
    next := dealt + [shape];
    assert next[..|dealt|] == dealt;
    return next, true;
  }

  /** The blocks lambda of initializeShapes: generate until a walk unlike every dealt shape comes out. */
  method NewShapeBlocks(rng: Rng, dealt: seq<Shape>, fuel: nat) returns (blocks: Blocks, found: bool)
    modifies rng
    ensures found ==> IsWalk(blocks) && forall j :: 0 <= j < |dealt| ==> !Congruent(blocks, dealt[j].blocks)
    ensures found ==> exists base :: blocks == Planned(rng.source, base, ShapeSegments)
  {
    for tries := 0 to fuel {
      ghost var base := rng.draws;
      var candidate := GenerateShape(rng);
      var valid := false;
      if candidate.Some? {
        assert candidate.value == Planned(rng.source, base, ShapeSegments);
        PlannedWithin(rng.source, base);
        var clash := MatchesEarlier(candidate.value, dealt);
        valid := !clash;
      }
      if valid {
        return candidate.value, true;
      }
    }
    return [], false;
  }

  /**
   * The rotation lambda of initializeShapes: draw table rotations until one
   * is acceptable for slot |dealt| (at `second`, one that does not look like
   * slot `first`).
   */
  method ChooseRotation(rng: Rng, dealt: seq<Shape>, first: int, second: int, blocks: Blocks, fuel: nat)
    returns (rotation: IMat4, found: bool)
    requires |dealt| == second ==> 0 <= first < |dealt|
    modifies rng
    ensures found ==> rotation in Rotations
    ensures found && |dealt| == second ==>
      Canonicalized(Rotated(dealt[first].blocks, dealt[first].baseRotation)) != Canonicalized(Rotated(blocks, rotation))
  {
    for tries := 0 to fuel {
      var index := rng.UniformInt(0, |Rotations| - 1);
      rotation := Rotations[index];
      var valid := |dealt| != second ||
        Canonicalized(Rotated(dealt[first].blocks, dealt[first].baseRotation)) != Canonicalized(Rotated(blocks, rotation));
      if valid {
        return rotation, true;
      }
    }
    return Rotations[IdentityIndex], false;
  }

  /**
   * The loop of initializeShapes: deal slot after slot until all six are
   * dealt or a retry loop runs out of fuel.
   */
  method DealRound(rng: Rng, first: int, second: int, fuel: nat) returns (dealt: seq<Shape>, ok: bool)
    requires 0 <= first < second < ShapeCount
    modifies rng
    ensures Dealing(dealt, first, second) && |dealt| <= ShapeCount
    ensures ok <==> |dealt| == ShapeCount
  {
    dealt := [];
    ok := true;
    while |dealt| < ShapeCount && ok
      invariant |dealt| <= ShapeCount && Dealing(dealt, first, second)
      invariant !ok ==> |dealt| < ShapeCount
      decreases ShapeCount - |dealt|, ok
    {
      var next, found := DealSlot(rng, dealt, first, second, fuel);
      if found {
        dealt := next;
      } else {
        ok := false;
      }
    }
  }

  /** The game of demo.cc: the board, the pair to find, the score and the state machine. */
  class Demo {
    var shapes: seq<Shape>
    var firstShape: int
    var secondShape: int
    var selectedCount: int
    var attempts: int
    var score: int
    var state: State
    var stateTime: real
    var playTime: real
    /** The function-local static engine of initializeShapes and generateShape. */
    const rng: Rng

    /**
     * The board has its six slots and the pair on it, the count matches the
     * selection, and there are no more wins than attempts. (That the board is
     * a dealt round, IsRound, is kept apart: only dealing changes it, see
     * RoundIgnoresSelection.)
     */
    ghost predicate Valid()
      reads this
    {
      |shapes| == ShapeCount && 0 <= firstShape < secondShape < ShapeCount &&
      selectedCount == |Selected(shapes)| &&
      0 <= score <= attempts
    }

    /**
     * Demo::Demo: a new game in Intro, dealt its first round by initialize.
     * The round is dealt exactly when the board has all its slots, which
     * fails only if the retry loops ran out of fuel.
     */
    constructor(source: nat -> nat, fuel: nat)
      ensures rng.source == source && fresh(rng)
      ensures attempts == 0 && score == 0 && state == Intro && stateTime == 0.0 && playTime == 0.0
      ensures |shapes| == ShapeCount ==> Valid() && IsRound(shapes, firstShape, secondShape) && Selected(shapes) == {}
    {
      rng := new Rng(source);
      shapes := [];
      firstShape, secondShape := 0, 1;
      selectedCount, attempts, score := 0, 0, 0;
      state := Intro;
      stateTime, playTime := 0.0, 0.0;
      new;
      var ok := Initialize(fuel);
    }

    /** Demo::setState: a new state starts its own clock. */
    method SetState(s: State)
      modifies this
      ensures state == s && stateTime == 0.0
      ensures shapes == old(shapes) && firstShape == old(firstShape) && secondShape == old(secondShape)
      ensures selectedCount == old(selectedCount) && attempts == old(attempts) && score == old(score)
      ensures playTime == old(playTime)
    {
      state := s;
      stateTime := 0.0;
    }

    /** Demo::initialize: a new game, with the score and clock reset and a fresh round. */
    method Initialize(fuel: nat) returns (ok: bool)
      modifies this, rng
      ensures score == 0 && attempts == 0 && playTime == 0.0
      ensures state == old(state) && stateTime == old(stateTime)
      ensures ok ==> Valid() && IsRound(shapes, firstShape, secondShape) && Selected(shapes) == {}
      ensures ok <==> |shapes| == ShapeCount
    {
      score := 0;
      attempts := 0;
      playTime := 0.0;
      ok := InitializeShapes(fuel);
    }

    /**
     * Demo::initializeShapes: pick the pair of slots, then deal six slots,
     * each a copy of slot `first` (at `second`) or a newly generated shape
     * unlike every earlier one, shown in a random table rotation (at `second`,
     * one that does not look like `first`). Each retry loop gets `fuel`
     * attempts; `ok` is false if one of them ran out.
     */
    method InitializeShapes(fuel: nat) returns (ok: bool)
      modifies this, rng
      ensures ok ==> IsRound(shapes, firstShape, secondShape) && Selected(shapes) == {} && selectedCount == 0
      ensures ok <==> |shapes| == ShapeCount
      ensures attempts == old(attempts) && score == old(score)
      ensures state == old(state) && stateTime == old(stateTime) && playTime == old(playTime)
    {
      var first := rng.UniformInt(0, ShapeCount - 2);
      var second := rng.UniformInt(first + 1, ShapeCount - 1);
      firstShape, secondShape := first, second;
      var dealt;
      dealt, ok := DealRound(rng, first, second, fuel);
      if ok {
        DealtIsRound(dealt, first, second);
      }
      shapes := dealt;
      selectedCount := 0;
    }

    /**
     * Demo::toggleShapeSelection: flip the selection of shape `index`; the
     * second selection is an attempt, won when it is the pair.
     */
    method ToggleShapeSelection(index: int)
      requires 0 <= firstShape < |shapes| && 0 <= secondShape < |shapes|
      modifies this
      ensures old(Valid()) ==> Valid()
      ensures SameLayout(old(shapes), shapes)
      ensures firstShape == old(firstShape) && secondShape == old(secondShape) && playTime == old(playTime)
      ensures index < 0 || index >= |old(shapes)| ==>
        shapes == old(shapes) && selectedCount == old(selectedCount) &&
        attempts == old(attempts) && score == old(score) && state == old(state) && stateTime == old(stateTime)
      ensures 0 <= index < |old(shapes)| ==>
        shapes == old(shapes)[index := old(shapes)[index].(selected := !old(shapes)[index].selected)]
      ensures 0 <= index < |old(shapes)| && old(shapes)[index].selected ==>
        selectedCount == old(selectedCount) - 1 &&
        attempts == old(attempts) && score == old(score) && state == old(state) && stateTime == old(stateTime)
      ensures 0 <= index < |old(shapes)| && !old(shapes)[index].selected ==>
        selectedCount == old(selectedCount) + 1
      ensures 0 <= index < |old(shapes)| && !old(shapes)[index].selected && selectedCount != 2 ==>
        attempts == old(attempts) && score == old(score) && state == old(state) && stateTime == old(stateTime)
      ensures 0 <= index < |old(shapes)| && !old(shapes)[index].selected && selectedCount == 2 ==>
        attempts == old(attempts) + 1 && stateTime == 0.0 &&
        (state == Success <==> shapes[firstShape].selected && shapes[secondShape].selected) &&
        (state == Success ==> score == old(score) + 1) &&
        (state != Success ==> state == Fail && score == old(score))
    {
      if index < 0 || index >= |shapes| {
        return;
      }
      if shapes[index].selected {
        SelectedFlip(shapes, index, false, shapes[index := shapes[index].(selected := false)]);
        shapes := shapes[index := shapes[index].(selected := false)];
        selectedCount := selectedCount - 1;
      } else {
        SelectedFlip(shapes, index, true, shapes[index := shapes[index].(selected := true)]);
        shapes := shapes[index := shapes[index].(selected := true)];
        selectedCount := selectedCount + 1;
        if selectedCount == 2 {
          attempts := attempts + 1;
          if shapes[firstShape].selected && shapes[secondShape].selected {
            score := score + 1;
            SetState(Success);
          } else {
            SetState(Fail);
          }
        }
      }
    }

    /** The loop of Demo::update that clears every selection when a failed attempt times out. */
    method Deselect()
      modifies this
      ensures shapes == Deselected(old(shapes))
      ensures firstShape == old(firstShape) && secondShape == old(secondShape)
      ensures selectedCount == old(selectedCount) && attempts == old(attempts) && score == old(score)
      ensures state == old(state) && stateTime == old(stateTime) && playTime == old(playTime)
    {
      for k := 0 to |shapes|
        invariant firstShape == old(firstShape) && secondShape == old(secondShape)
        invariant selectedCount == old(selectedCount) && attempts == old(attempts) && score == old(score)
        invariant state == old(state) && stateTime == old(stateTime) && playTime == old(playTime)
        invariant |shapes| == |old(shapes)|
        invariant forall m :: 0 <= m < k ==> shapes[m] == old(shapes)[m].(selected := false)
        invariant forall m :: k <= m < |shapes| ==> shapes[m] == old(shapes)[m]
      {
        shapes := shapes[k := shapes[k].(selected := false)];
      }
    }

    /**
     * Demo::update, without the wobble animation: advance the state clock;
     * a won attempt deals a new round after SuccessStateTime, a failed one
     * clears the selection after FailStateTime and play resumes; the play
     * clock runs in Playing and Fail, and the game ends after TotalPlayTime.
     * `ok` is false only if dealing the new round ran out of fuel.
     */
    method Update(elapsed: real, fuel: nat) returns (ok: bool)
      modifies this, rng
      ensures old(Valid()) && ok ==> Valid()
      ensures old(state) == Intro || old(state) == Result ==>
        ok && state == old(state) && stateTime == old(stateTime) + elapsed
      ensures old(state) == Success && old(stateTime) + elapsed <= SuccessStateTime ==>
        ok && state == Success && stateTime == old(stateTime) + elapsed
      ensures old(state) == Success && old(stateTime) + elapsed > SuccessStateTime ==>
        state == Playing && stateTime == 0.0 && playTime == old(playTime) &&
        (ok ==> IsRound(shapes, firstShape, secondShape) && Selected(shapes) == {} && selectedCount == 0)
      ensures old(state) != Success ==>
        ok && firstShape == old(firstShape) && secondShape == old(secondShape)
      ensures old(state) == Fail && old(stateTime) + elapsed > FailStateTime ==>
        shapes == Deselected(old(shapes)) && selectedCount == 0
      ensures !(old(state) == Fail && old(stateTime) + elapsed > FailStateTime) && old(state) != Success ==>
        shapes == old(shapes) && selectedCount == old(selectedCount)
      ensures old(state) == Fail || old(state) == Playing ==>
        playTime == old(playTime) + elapsed &&
        (playTime > TotalPlayTime ==> state == Result && stateTime == 0.0) &&
        (playTime <= TotalPlayTime && old(state) == Fail && old(stateTime) + elapsed > FailStateTime ==>
          state == Playing && stateTime == 0.0) &&
        (playTime <= TotalPlayTime && !(old(state) == Fail && old(stateTime) + elapsed > FailStateTime) ==>
          state == old(state) && stateTime == old(stateTime) + elapsed)
      ensures old(state) != Fail && old(state) != Playing ==> playTime == old(playTime)
      ensures attempts == old(attempts) && score == old(score)
    {
      ok := true;
      stateTime := stateTime + elapsed;
      match state {
        case Success =>
          if stateTime > SuccessStateTime {
            SetState(Playing);
            ok := InitializeShapes(fuel);
          }
        case Fail =>
          if stateTime > FailStateTime {
            ghost var before := shapes;
            Deselect();
            DeselectedNothingSelected(before);
            selectedCount := 0;
            SetState(Playing);
          }
          Play(elapsed);
        case Playing =>
          Play(elapsed);
        case _ =>
      }
    }

    /** The Playing case of Demo::update, which a Fail that has timed out falls through into. */
    method Play(elapsed: real)
      modifies this
      ensures playTime == old(playTime) + elapsed
      ensures playTime > TotalPlayTime ==> state == Result && stateTime == 0.0
      ensures playTime <= TotalPlayTime ==> state == old(state) && stateTime == old(stateTime)
      ensures shapes == old(shapes) && firstShape == old(firstShape) && secondShape == old(secondShape)
      ensures selectedCount == old(selectedCount) && attempts == old(attempts) && score == old(score)
    {
      playTime := playTime + elapsed;
      if playTime > TotalPlayTime {
        SetState(Result);
      }
    }
  }
}
