/**
  Scoring predictions against annotated frames (tools/vision_eval/metrics.py): greedy
  matching by overlap, one confusion table per attribute, and the counting identities the
  report has to satisfy. The overlap measure is a parameter.
*/
module Scoring {
  import opened Basics

  datatype AttributeState = Present | Absent | NotVisible | Unknown

  datatype Box = Box(x1: real, y1: real, x2: real, y2: real)

  type Overlap = (Box, Box) -> real

  datatype Truth = Truth(subjectId: string, box: Box, attributes: map<string, AttributeState>)

  datatype Prediction = Prediction(objectId: string, box: Option<Box>, attributes: map<string, AttributeState>)

  datatype TruthFrame = TruthFrame(frameId: string, subjects: seq<Truth>)

  datatype PredictedFrame = PredictedFrame(frameId: string, subjects: seq<Prediction>)

  datatype Failure = Failure(
    frameId: string,
    subjectId: string,
    objectId: string,
    attribute: string,
    truth: AttributeState,
    predicted: AttributeState)

  function StateOf(attributes: map<string, AttributeState>, a: string): Option<AttributeState> {
    if a in attributes then Some(attributes[a]) else None
  }

  /* --------------------------------------------------------------- best candidate */

  /** The winner so far and its overlap, scanning left to right with a strict comparison from zero. */
  function Best(overlap: Overlap, s: Truth, available: seq<Prediction>): (Option<nat>, real) {
    if available == [] then (None, 0.0)
    else
      var n := |available| - 1;
      var (best, score) := Best(overlap, s, available[..n]);
      var c := available[n];
      if c.box.Some? && overlap(s.box, c.box.value) > score then (Some(n), overlap(s.box, c.box.value))
      else (best, score)
  }

  function OverlapOf(overlap: Overlap, s: Truth, p: Prediction): real {
    if p.box.Some? then overlap(s.box, p.box.value) else 0.0
  }

  /** The scan finds the first candidate of greatest overlap, and nothing when no overlap is positive. */
  lemma {:induction false} BestIsFirstMaximum(overlap: Overlap, s: Truth, available: seq<Prediction>)
    ensures
      var (best, score) := Best(overlap, s, available);
      && score >= 0.0
      && (forall j :: 0 <= j < |available| ==> OverlapOf(overlap, s, available[j]) <= score)
      && (best.None? ==> score == 0.0)
      && (best.Some? ==>
            && best.value < |available| && available[best.value].box.Some? && score > 0.0
            && OverlapOf(overlap, s, available[best.value]) == score
            && forall j :: 0 <= j < best.value ==> OverlapOf(overlap, s, available[j]) < score)
    decreases |available|
  {
    if available != [] {
      var n := |available| - 1;
      BestIsFirstMaximum(overlap, s, available[..n]);
      assert forall j :: 0 <= j < n ==> available[..n][j] == available[j];
    }
  }

  /** The prediction a subject is scored against, by position. */
  function MatchOf(overlap: Overlap, threshold: real, s: Truth, available: seq<Prediction>): Option<nat> {
    var (best, score) := Best(overlap, s, available);
    if best.None? || score < threshold then None else best
  }

  /** `available.remove(best)`: the first equal element goes. */
  function RemoveFirst(available: seq<Prediction>, p: Prediction): seq<Prediction> {
    if available == [] then []
    else if available[0] == p then available[1..]
    else [available[0]] + RemoveFirst(available[1..], p)
  }

  lemma {:induction false} RemoveFirstAt(available: seq<Prediction>, i: nat)
    requires i < |available| && forall j :: 0 <= j < i ==> available[j] != available[i]
    ensures RemoveFirst(available, available[i]) == available[..i] + available[i + 1..]
    decreases i
  {
    if i > 0 {
      RemoveFirstAt(available[1..], i - 1);
      assert available[1..][..i - 1] + available[1..][i..] == available[1..i] + available[i + 1..];
    }
  }

  /* ------------------------------------------------------------- confusion tables */

  /** `confusion[attribute]`: truth, then predicted, `None` standing for "<none>". */
  type Table = map<AttributeState, map<Option<AttributeState>, nat>>

  function Cell(t: Table, truth: AttributeState, predicted: Option<AttributeState>): nat {
    if truth in t && predicted in t[truth] then t[truth][predicted] else 0
  }

  function Bump(t: Table, truth: AttributeState, predicted: Option<AttributeState>): Table {
    var row := if truth in t then t[truth] else map[];
    t[truth := row[predicted := Cell(t, truth, predicted) + 1]]
  }

  function Support(t: Table, s: AttributeState): nat {
    Cell(t, s, Some(Present)) + Cell(t, s, Some(Absent)) + Cell(t, s, Some(NotVisible)) + Cell(t, s, Some(Unknown))
    + Cell(t, s, None)
  }

  function PredictedCount(t: Table, p: Option<AttributeState>): nat {
    Cell(t, Present, p) + Cell(t, Absent, p) + Cell(t, NotVisible, p) + Cell(t, Unknown, p)
  }

  function AllCells(t: Table): nat {
    Support(t, Present) + Support(t, Absent) + Support(t, NotVisible) + Support(t, Unknown)
  }

  function TruePositives(t: Table): nat {
    Cell(t, Present, Some(Present)) + Cell(t, Absent, Some(Absent))
    + Cell(t, NotVisible, Some(NotVisible)) + Cell(t, Unknown, Some(Unknown))
  }

  lemma BumpCounts(t: Table, truth: AttributeState, predicted: Option<AttributeState>,
                   s: AttributeState, p: Option<AttributeState>)
    ensures Cell(Bump(t, truth, predicted), s, p) == Cell(t, s, p) + (if s == truth && p == predicted then 1 else 0)
  {
  }

  lemma BumpSupport(t: Table, truth: AttributeState, predicted: Option<AttributeState>, s: AttributeState)
    ensures Support(Bump(t, truth, predicted), s) == Support(t, s) + (if s == truth then 1 else 0)
  {
    BumpCounts(t, truth, predicted, s, Some(Present));
    BumpCounts(t, truth, predicted, s, Some(Absent));
    BumpCounts(t, truth, predicted, s, Some(NotVisible));
    BumpCounts(t, truth, predicted, s, Some(Unknown));
    BumpCounts(t, truth, predicted, s, None);
    if predicted.Some? {
      match predicted.value
      case Present =>
      case Absent =>
      case NotVisible =>
      case Unknown =>
    }
  }

  lemma BumpPredicted(t: Table, truth: AttributeState, predicted: Option<AttributeState>, p: Option<AttributeState>)
    ensures PredictedCount(Bump(t, truth, predicted), p) == PredictedCount(t, p) + (if p == predicted then 1 else 0)
  {
    BumpCounts(t, truth, predicted, Present, p);
    BumpCounts(t, truth, predicted, Absent, p);
    BumpCounts(t, truth, predicted, NotVisible, p);
    BumpCounts(t, truth, predicted, Unknown, p);
    match truth
    case Present =>
    case Absent =>
    case NotVisible =>
    case Unknown =>
  }

  lemma BumpTruePositives(t: Table, truth: AttributeState, predicted: Option<AttributeState>)
    ensures TruePositives(Bump(t, truth, predicted)) == TruePositives(t) + (if predicted == Some(truth) then 1 else 0)
  {
    BumpCounts(t, truth, predicted, Present, Some(Present));
    BumpCounts(t, truth, predicted, Absent, Some(Absent));
    BumpCounts(t, truth, predicted, NotVisible, Some(NotVisible));
    BumpCounts(t, truth, predicted, Unknown, Some(Unknown));
    match truth
    case Present =>
    case Absent =>
    case NotVisible =>
    case Unknown =>
  }

  lemma BumpAll(t: Table, truth: AttributeState, predicted: Option<AttributeState>)
    ensures AllCells(Bump(t, truth, predicted)) == AllCells(t) + 1
  {
    BumpSupport(t, truth, predicted, Present);
    BumpSupport(t, truth, predicted, Absent);
    BumpSupport(t, truth, predicted, NotVisible);
    BumpSupport(t, truth, predicted, Unknown);
    match truth
    case Present =>
    case Absent =>
    case NotVisible =>
    case Unknown =>
  }

  /* ------------------------------------------------------------------ tallies */

  datatype Tally = Tally(matched: nat, correct: nat, missing: nat, table: Table)

  const ZERO_TALLY := Tally(0, 0, 0, map[])

  /** Per-attribute tallies and the list of wrong answers. */
  datatype Board = Board(tallies: map<string, Tally>, failures: seq<Failure>)

  const EMPTY_BOARD := Board(map[], [])

  function TallyOf(b: Board, a: string): Tally {
    if a in b.tallies then b.tallies[a] else ZERO_TALLY
  }

  function Tallied(t: Tally, truth: AttributeState, predicted: Option<AttributeState>): Tally {
    Tally(t.matched + 1,
          t.correct + (if predicted == Some(truth) then 1 else 0),
          t.missing + (if predicted.None? then 1 else 0),
          Bump(t.table, truth, predicted))
  }

  /** A subject and the prediction it was matched with. */
  datatype Pair = Pair(frameId: string, truth: Truth, prediction: Prediction)

  /** The body of the loop over attributes. */
  function ScoreAttribute(b: Board, pair: Pair, a: string): Board {
    match StateOf(pair.truth.attributes, a)
    case None => b
    case Some(truth) =>
      var predicted := StateOf(pair.prediction.attributes, a);
      Board(b.tallies[a := Tallied(TallyOf(b, a), truth, predicted)], b.failures + Wrong(pair, a, truth, predicted))
  }

  /** The failure to list, if any: a missing answer is not a wrong one. */
  function Wrong(pair: Pair, a: string, truth: AttributeState, predicted: Option<AttributeState>): seq<Failure> {
    if predicted.None? || predicted.value == truth then []
    else [Failure(pair.frameId, pair.truth.subjectId, pair.prediction.objectId, a, truth, predicted.value)]
  }

  function ScoreAttributes(b: Board, pair: Pair, attributes: seq<string>): Board {
    if attributes == [] then b
    else
      var n := |attributes| - 1;
      ScoreAttribute(ScoreAttributes(b, pair, attributes[..n]), pair, attributes[n])
  }

  function ScorePairs(b: Board, pairs: seq<Pair>, attributes: seq<string>): Board {
    if pairs == [] then b
    else
      var n := |pairs| - 1;
      ScoreAttributes(ScorePairs(b, pairs[..n], attributes), pairs[n], attributes)
  }

  lemma {:induction false} ScorePairsSplits(b: Board, pairs: seq<Pair>, more: seq<Pair>, attributes: seq<string>)
    ensures ScorePairs(b, pairs + more, attributes) == ScorePairs(ScorePairs(b, pairs, attributes), more, attributes)
    decreases |more|
  {
    if more == [] {
      assert pairs + more == pairs;
    } else {
      var n := |more| - 1;
      assert (pairs + more)[..|pairs| + n] == pairs + more[..n];
      ScorePairsSplits(b, pairs, more[..n], attributes);
    }
  }

  /** Wrong answers listed for an attribute. */
  function FailuresFor(failures: seq<Failure>, a: string): nat {
    if failures == [] then 0
    else FailuresFor(failures[..|failures| - 1], a) + (if failures[|failures| - 1].attribute == a then 1 else 0)
  }

  /** Wrong answers listed for an attribute with a given truth and a given answer. */
  function FailuresAt(failures: seq<Failure>, a: string, x: AttributeState, y: AttributeState): nat {
    if failures == [] then 0
    else
      var n := |failures| - 1;
      var f := failures[n];
      FailuresAt(failures[..n], a, x, y) + (if f.attribute == a && f.truth == x && f.predicted == y then 1 else 0)
  }

  lemma FailuresGrow(failures: seq<Failure>, f: Failure, a: string, x: AttributeState, y: AttributeState)
    ensures FailuresFor(failures + [f], a) == FailuresFor(failures, a) + (if f.attribute == a then 1 else 0)
    ensures FailuresAt(failures + [f], a, x, y)
         == FailuresAt(failures, a, x, y) + (if f.attribute == a && f.truth == x && f.predicted == y then 1 else 0)
  {
    assert (failures + [f])[..|failures|] == failures;
  }

  /** Every matched subject is correct, missing or a failure, and sits in exactly one cell. */
  ghost predicate Balanced(t: Tally, failures: nat) {
    && t.matched == t.correct + t.missing + failures
    && t.matched == AllCells(t.table)
    && t.correct == TruePositives(t.table)
    && t.missing == PredictedCount(t.table, None)
  }

  ghost predicate Conserved(b: Board, a: string) {
    Balanced(TallyOf(b, a), FailuresFor(b.failures, a))
  }

  lemma TalliedBalances(t: Tally, failures: nat, pair: Pair, a: string, truth: AttributeState,
                        predicted: Option<AttributeState>)
    requires Balanced(t, failures)
    ensures Balanced(Tallied(t, truth, predicted), failures + |Wrong(pair, a, truth, predicted)|)
  {
    BumpAll(t.table, truth, predicted);
    BumpTruePositives(t.table, truth, predicted);
    BumpPredicted(t.table, truth, predicted, None);
  }

  lemma WrongIsListed(failures: seq<Failure>, pair: Pair, a: string, truth: AttributeState,
                      predicted: Option<AttributeState>,
                      x: string)
    ensures
      var wrong := Wrong(pair, a, truth, predicted);
      FailuresFor(failures + wrong, x) == FailuresFor(failures, x) + (if x == a then |wrong| else 0)
  {
    var wrong := Wrong(pair, a, truth, predicted);
    if wrong == [] {
      assert failures + wrong == failures;
    } else {
      FailuresGrow(failures, wrong[0], x, truth, truth);
    }
  }

  /** What the loop body leaves for each attribute, and for the list of failures. */
  lemma ScoreAttributeEffect(b: Board, pair: Pair, a: string, x: string)
    requires StateOf(pair.truth.attributes, a).Some?
    ensures
      var b', truth := ScoreAttribute(b, pair, a), StateOf(pair.truth.attributes, a).value;
      var predicted := StateOf(pair.prediction.attributes, a);
      && TallyOf(b', x) == (if x == a then Tallied(TallyOf(b, a), truth, predicted) else TallyOf(b, x))
      && b'.failures == b.failures + Wrong(pair, a, truth, predicted)
  {
  }

  lemma ScoreAttributeConserves(b: Board, pair: Pair, a: string, x: string)
    requires Conserved(b, x)
    ensures Conserved(ScoreAttribute(b, pair, a), x)
  {
    var truth := StateOf(pair.truth.attributes, a);
    if truth.Some? {
      var predicted := StateOf(pair.prediction.attributes, a);
      ScoreAttributeEffect(b, pair, a, x);
      WrongIsListed(b.failures, pair, a, truth.value, predicted, x);
      if x == a {
        TalliedBalances(TallyOf(b, a), FailuresFor(b.failures, a), pair, a, truth.value, predicted);
      }
    }
  }

  lemma {:induction false} ScoreAttributesConserves(b: Board, pair: Pair, attributes: seq<string>, x: string)
    requires Conserved(b, x)
    ensures Conserved(ScoreAttributes(b, pair, attributes), x)
    decreases |attributes|
  {
    if attributes != [] {
      var n := |attributes| - 1;
      ScoreAttributesConserves(b, pair, attributes[..n], x);
      ScoreAttributeConserves(ScoreAttributes(b, pair, attributes[..n]), pair, attributes[n], x);
    }
  }

  lemma {:induction false} ScorePairsConserves(b: Board, pairs: seq<Pair>, attributes: seq<string>, x: string)
    requires Conserved(b, x)
    ensures Conserved(ScorePairs(b, pairs, attributes), x)
    decreases |pairs|
  {
    if pairs != [] {
      var n := |pairs| - 1;
      ScorePairsConserves(b, pairs[..n], attributes, x);
      ScoreAttributesConserves(ScorePairs(b, pairs[..n], attributes), pairs[n], attributes, x);
    }
  }

  /* ------------------------------------------------------- what each cell counts */

  /** The pair puts truth `x` against answer `y` for attribute `a`. */
  predicate Answers(pair: Pair, a: string, x: AttributeState, y: Option<AttributeState>) {
    && a in pair.truth.attributes && pair.truth.attributes[a] == x
    && (if y.Some? then a in pair.prediction.attributes && pair.prediction.attributes[a] == y.value
        else a !in pair.prediction.attributes)
  }

  /** How many matched pairs put truth `x` against answer `y`, once for each time `a` is asked for. */
  function Answered(pairs: seq<Pair>, asked: nat, a: string, x: AttributeState, y: Option<AttributeState>): nat {
    if pairs == [] then 0
    else
      var n := |pairs| - 1;
      Answered(pairs[..n], asked, a, x, y) + (if Answers(pairs[n], a, x, y) then asked else 0)
  }

  lemma ScoreAttributeFillsCell(b: Board, pair: Pair, asked: string, a: string, x: AttributeState,
                                y: Option<AttributeState>)
    ensures
      var gain := if asked == a && Answers(pair, a, x, y) then 1 else 0;
      var b' := ScoreAttribute(b, pair, asked);
      && Cell(TallyOf(b', a).table, x, y) == Cell(TallyOf(b, a).table, x, y) + gain
      && (y.Some? ==>
            var listed := if y.value == x then 0 else gain;
            FailuresAt(b'.failures, a, x, y.value) == FailuresAt(b.failures, a, x, y.value) + listed)
  {
    var truth := StateOf(pair.truth.attributes, asked);
    if truth.Some? {
      var predicted := StateOf(pair.prediction.attributes, asked);
      var wrong := Wrong(pair, asked, truth.value, predicted);
      if wrong == [] {
        assert b.failures + wrong == b.failures;
      } else if y.Some? {
        FailuresGrow(b.failures, wrong[0], a, x, y.value);
      }
      if asked == a {
        BumpCounts(TallyOf(b, a).table, truth.value, predicted, x, y);
      }
    }
  }

  lemma {:induction false} ScoreAttributesFillCell(b: Board, pair: Pair, attributes: seq<string>,
                                                   a: string, x: AttributeState, y: Option<AttributeState>)
    ensures
      var gain := if Answers(pair, a, x, y) then multiset(attributes)[a] else 0;
      var b' := ScoreAttributes(b, pair, attributes);
      && Cell(TallyOf(b', a).table, x, y) == Cell(TallyOf(b, a).table, x, y) + gain
      && (y.Some? ==>
            var listed := if y.value == x then 0 else gain;
            FailuresAt(b'.failures, a, x, y.value) == FailuresAt(b.failures, a, x, y.value) + listed)
    decreases |attributes|
  {
    if attributes != [] {
      var n := |attributes| - 1;
      assert attributes == attributes[..n] + [attributes[n]];
      ScoreAttributesFillCell(b, pair, attributes[..n], a, x, y);
      ScoreAttributeFillsCell(ScoreAttributes(b, pair, attributes[..n]), pair, attributes[n], a, x, y);
    }
  }

  /**
    The meaning of a confusion cell: it counts the matched pairs whose truth and answer it
    names, and off the diagonal it counts exactly the failures listed with them.
  */
  lemma {:induction false} CellsCountPairs(pairs: seq<Pair>, attributes: seq<string>,
                                           a: string, x: AttributeState, y: Option<AttributeState>)
    ensures
      var b := ScorePairs(EMPTY_BOARD, pairs, attributes);
      var counted := Answered(pairs, multiset(attributes)[a], a, x, y);
      && Cell(TallyOf(b, a).table, x, y) == counted
      && (y.Some? ==> FailuresAt(b.failures, a, x, y.value) == if y.value == x then 0 else counted)
    decreases |pairs|
  {
    if pairs != [] {
      var n := |pairs| - 1;
      CellsCountPairs(pairs[..n], attributes, a, x, y);
      ScoreAttributesFillCell(ScorePairs(EMPTY_BOARD, pairs[..n], attributes), pairs[n], attributes, a, x, y);
    }
  }

  /** A listed failure is a pair's wrong answer, under the names of its frame, subject and object. */
  ghost predicate IsWrongAnswer(f: Failure, pair: Pair) {
    && f.frameId == pair.frameId && f.subjectId == pair.truth.subjectId && f.objectId == pair.prediction.objectId
    && f.attribute in pair.truth.attributes && f.truth == pair.truth.attributes[f.attribute]
    && f.attribute in pair.prediction.attributes && f.predicted == pair.prediction.attributes[f.attribute]
    && f.truth != f.predicted
  }

  lemma {:induction false} FailuresOfPair(b: Board, pair: Pair, attributes: seq<string>)
    ensures
      var b' := ScoreAttributes(b, pair, attributes);
      && b.failures <= b'.failures
      && forall i :: |b.failures| <= i < |b'.failures| ==>
           IsWrongAnswer(b'.failures[i], pair) && b'.failures[i].attribute in attributes
    decreases |attributes|
  {
    if attributes != [] {
      var n := |attributes| - 1;
      FailuresOfPair(b, pair, attributes[..n]);
      assert forall a :: a in attributes[..n] ==> a in attributes;
      assert attributes[n] in attributes;
    }
  }

  /** Every listed failure is the wrong answer of one of the pairs, for one of the attributes asked for. */
  lemma {:induction false} FailuresNameTheirPairs(pairs: seq<Pair>, attributes: seq<string>)
    ensures forall f :: f in ScorePairs(EMPTY_BOARD, pairs, attributes).failures ==>
              f.attribute in attributes && exists k :: 0 <= k < |pairs| && IsWrongAnswer(f, pairs[k])
    decreases |pairs|
  {
    if pairs != [] {
      var n := |pairs| - 1;
      FailuresNameTheirPairs(pairs[..n], attributes);
      var b, b' := ScorePairs(EMPTY_BOARD, pairs[..n], attributes), ScorePairs(EMPTY_BOARD, pairs, attributes);
      FailuresOfPair(b, pairs[n], attributes);
      forall f | f in b'.failures
        ensures f.attribute in attributes && exists k :: 0 <= k < |pairs| && IsWrongAnswer(f, pairs[k])
      {
        var i :| 0 <= i < |b'.failures| && b'.failures[i] == f;
        if i < |b.failures| {
          assert f in b.failures;
          var k :| 0 <= k < n && IsWrongAnswer(f, pairs[..n][k]);
          assert IsWrongAnswer(f, pairs[k]);
        } else {
          assert IsWrongAnswer(f, pairs[n]);
        }
      }
    }
  }

  /* ---------------------------------------------------------- matching one frame */

  /** The pairs made, the predictions still free, and the subjects nobody matched. */
  datatype Matching = Matching(pairs: seq<Pair>, available: seq<Prediction>, unmatched: nat)

  function MatchSubject(m: Matching, overlap: Overlap, threshold: real, frameId: string, s: Truth): Matching {
    match MatchOf(overlap, threshold, s, m.available)
    case None => m.(unmatched := m.unmatched + 1)
    case Some(i) =>
      MatchInBounds(overlap, threshold, s, m.available);
      Matching(m.pairs + [Pair(frameId, s, m.available[i])], m.available[..i] + m.available[i + 1..], m.unmatched)
  }

  lemma MatchInBounds(overlap: Overlap, threshold: real, s: Truth, available: seq<Prediction>)
    ensures
      var m := MatchOf(overlap, threshold, s, available);
      m.Some? ==> m.value < |available|
  {
    BestIsFirstMaximum(overlap, s, available);
  }

  function MatchSubjects(predictions: seq<Prediction>, overlap: Overlap, threshold: real, frameId: string,
                         subjects: seq<Truth>): Matching
  {
    if subjects == [] then Matching([], predictions, 0)
    else
      var n := |subjects| - 1;
      MatchSubject(MatchSubjects(predictions, overlap, threshold, frameId, subjects[..n]),
                   overlap, threshold, frameId, subjects[n])
  }

  function Matched(pairs: seq<Pair>): seq<Prediction> {
    seq(|pairs|, i requires 0 <= i < |pairs| => pairs[i].prediction)
  }

  lemma TakingOne(available: seq<Prediction>, i: nat)
    requires i < |available|
    ensures multiset(available) == multiset(available[..i] + available[i + 1..]) + multiset{available[i]}
  {
    assert available == available[..i] + [available[i]] + available[i + 1..];
  }

  /**
    Greedy matching of one frame: every subject is matched or unmatched, and the predictions
    matched and the predictions left are together exactly the predictions there were, so none
    is matched twice.
  */
  lemma {:induction false} MatchingConserves(predictions: seq<Prediction>, overlap: Overlap, threshold: real,
                                             frameId: string, subjects: seq<Truth>)
    ensures
      var m := MatchSubjects(predictions, overlap, threshold, frameId, subjects);
      && |m.pairs| + m.unmatched == |subjects|
      && multiset(Matched(m.pairs)) + multiset(m.available) == multiset(predictions)
      && |m.pairs| + |m.available| == |predictions|
    decreases |subjects|
  {
    if subjects != [] {
      var n := |subjects| - 1;
      MatchingConserves(predictions, overlap, threshold, frameId, subjects[..n]);
      var m := MatchSubjects(predictions, overlap, threshold, frameId, subjects[..n]);
      var s := subjects[n];
      var best := MatchOf(overlap, threshold, s, m.available);
      if best.Some? {
        MatchInBounds(overlap, threshold, s, m.available);
        TakingOne(m.available, best.value);
        var taken := m.available[best.value];
        assert Matched(m.pairs + [Pair(frameId, s, taken)]) == Matched(m.pairs) + [taken];
      }
    }
  }

  /**
    A subject is matched exactly when some free prediction overlaps it positively and by at
    least the threshold, and then with the first one of greatest overlap.
  */
  lemma MatchedIffOverlapping(overlap: Overlap, threshold: real, s: Truth, available: seq<Prediction>)
    ensures
      var m := MatchOf(overlap, threshold, s, available);
      && (m.Some? <==> exists j :: 0 <= j < |available| && OverlapOf(overlap, s, available[j]) > 0.0
                                   && OverlapOf(overlap, s, available[j]) >= threshold)
      && (m.Some? ==>
            && m.value < |available|
            && (forall j :: 0 <= j < |available| ==>
                  OverlapOf(overlap, s, available[j]) <= OverlapOf(overlap, s, available[m.value]))
            && (forall j :: 0 <= j < m.value ==>
                  OverlapOf(overlap, s, available[j]) < OverlapOf(overlap, s, available[m.value])))
  {
    BestIsFirstMaximum(overlap, s, available);
    var (best, score) := Best(overlap, s, available);
    if j :| 0 <= j < |available| && OverlapOf(overlap, s, available[j]) > 0.0
            && OverlapOf(overlap, s, available[j]) >= threshold {
      assert OverlapOf(overlap, s, available[j]) <= score;
    }
  }

  /* -------------------------------------------------------------------- all frames */

  /** The prediction an annotated frame is scored against: the last one that carries its id. */
  function LastOf(predicted: seq<PredictedFrame>, frameId: string): (r: Option<nat>)
    ensures r.Some? ==> r.value < |predicted| && predicted[r.value].frameId == frameId
    ensures r.Some? ==> forall j :: r.value < j < |predicted| ==> predicted[j].frameId != frameId
    ensures r.None? ==> forall j :: 0 <= j < |predicted| ==> predicted[j].frameId != frameId
  {
    if predicted == [] then None
    else
      var n := |predicted| - 1;
      if predicted[n].frameId == frameId then Some(n) else LastOf(predicted[..n], frameId)
  }

  /** The dictionary of predicted frames, built front to back. */
  function ByFrame(predicted: seq<PredictedFrame>): map<string, seq<Prediction>> {
    if predicted == [] then map[]
    else
      var n := |predicted| - 1;
      ByFrame(predicted[..n])[predicted[n].frameId := predicted[n].subjects]
  }

  lemma {:induction false} ByFrameKeepsLast(predicted: seq<PredictedFrame>, frameId: string)
    ensures
      var last := LastOf(predicted, frameId);
      && (frameId in ByFrame(predicted) <==> last.Some?)
      && (last.Some? ==> ByFrame(predicted)[frameId] == predicted[last.value].subjects)
    decreases |predicted|
  {
    if predicted != [] {
      ByFrameKeepsLast(predicted[..|predicted| - 1], frameId);
    }
  }

  /** All the matching over all frames, before anything is scored. */
  function MatchFrames(predicted: seq<PredictedFrame>, overlap: Overlap, threshold: real,
                       frames: seq<TruthFrame>): Matching
  {
    if frames == [] then Matching([], [], 0)
    else
      var n := |frames| - 1;
      var f := frames[n];
      var m := MatchFrames(predicted, overlap, threshold, frames[..n]);
      match LastOf(predicted, f.frameId)
      case None => m.(unmatched := m.unmatched + |f.subjects|)
      case Some(j) =>
        var here := MatchSubjects(predicted[j].subjects, overlap, threshold, f.frameId, f.subjects);
        Matching(m.pairs + here.pairs, m.available + here.available, m.unmatched + here.unmatched)
  }

  function AnnotatedSubjects(frames: seq<TruthFrame>): nat {
    if frames == [] then 0 else AnnotatedSubjects(frames[..|frames| - 1]) + |frames[|frames| - 1].subjects|
  }

  /** Annotated subjects of frames that no predicted frame answers. */
  function UnansweredSubjects(frames: seq<TruthFrame>, predicted: seq<PredictedFrame>): nat {
    if frames == [] then 0
    else
      var n := |frames| - 1;
      UnansweredSubjects(frames[..n], predicted)
      + (if exists j :: 0 <= j < |predicted| && predicted[j].frameId == frames[n].frameId then 0
         else |frames[n].subjects|)
  }

  /** Predicted subjects in the frames that were scored. */
  function PredictedSubjects(frames: seq<TruthFrame>, predicted: seq<PredictedFrame>): nat {
    if frames == [] then 0
    else
      var n := |frames| - 1;
      var last := LastOf(predicted, frames[n].frameId);
      PredictedSubjects(frames[..n], predicted) + (if last.Some? then |predicted[last.value].subjects| else 0)
  }

  /**
    Annotated = matched + unmatched, with every subject of an unanswered frame unmatched, and
    predicted in scored frames = matched + spurious.
  */
  lemma {:induction false} FramesConserve(predicted: seq<PredictedFrame>, overlap: Overlap, threshold: real,
                                          frames: seq<TruthFrame>)
    ensures
      var m := MatchFrames(predicted, overlap, threshold, frames);
      && AnnotatedSubjects(frames) == |m.pairs| + m.unmatched
      && UnansweredSubjects(frames, predicted) <= m.unmatched
      && PredictedSubjects(frames, predicted) == |m.pairs| + |m.available|
    decreases |frames|
  {
    if frames != [] {
      var n := |frames| - 1;
      var f := frames[n];
      FramesConserve(predicted, overlap, threshold, frames[..n]);
      var last := LastOf(predicted, f.frameId);
      if last.Some? {
        MatchingConserves(predicted[last.value].subjects, overlap, threshold, f.frameId, f.subjects);
      }
    }
  }

  /**
    Where a pair comes from: a subject of an annotated frame, and a prediction of the last
    predicted frame with that frame's id, which overlap by at least the threshold.
  */
  ghost predicate ComesFrom(pair: Pair, frame: TruthFrame, predicted: seq<PredictedFrame>, overlap: Overlap,
                            threshold: real)
  {
    && pair.frameId == frame.frameId && pair.truth in frame.subjects
    && pair.prediction.box.Some? && overlap(pair.truth.box, pair.prediction.box.value) >= threshold
    && overlap(pair.truth.box, pair.prediction.box.value) > 0.0
    && exists j :: 0 <= j < |predicted| && predicted[j].frameId == frame.frameId
                   && pair.prediction in predicted[j].subjects
                   && forall k :: j < k < |predicted| ==> predicted[k].frameId != frame.frameId
  }

  ghost predicate IsPaired(pair: Pair, subjects: seq<Truth>, predictions: seq<Prediction>, overlap: Overlap,
                           threshold: real, frameId: string)
  {
    && pair.frameId == frameId && pair.truth in subjects && pair.prediction in predictions
    && pair.prediction.box.Some? && overlap(pair.truth.box, pair.prediction.box.value) >= threshold
    && overlap(pair.truth.box, pair.prediction.box.value) > 0.0
  }

  lemma {:induction false} PairsOfSubjects(predictions: seq<Prediction>, overlap: Overlap, threshold: real,
                                           frameId: string, subjects: seq<Truth>)
    ensures
      var m := MatchSubjects(predictions, overlap, threshold, frameId, subjects);
      && (forall p :: p in m.pairs ==> IsPaired(p, subjects, predictions, overlap, threshold, frameId))
      && (forall p :: p in m.available ==> p in predictions)
    decreases |subjects|
  {
    if subjects != [] {
      var n := |subjects| - 1;
      PairsOfSubjects(predictions, overlap, threshold, frameId, subjects[..n]);
      var m := MatchSubjects(predictions, overlap, threshold, frameId, subjects[..n]);
      var best := MatchOf(overlap, threshold, subjects[n], m.available);
      BestIsFirstMaximum(overlap, subjects[n], m.available);
      assert forall s :: s in subjects[..n] ==> s in subjects;
      forall p | p in m.pairs
        ensures IsPaired(p, subjects, predictions, overlap, threshold, frameId)
      {
        assert IsPaired(p, subjects[..n], predictions, overlap, threshold, frameId);
      }
      if best.Some? {
        var taken := m.available[best.value];
        assert taken in m.available && subjects[n] in subjects;
        assert IsPaired(Pair(frameId, subjects[n], taken), subjects, predictions, overlap, threshold, frameId);
      }
    }
  }

  lemma {:induction false} PairsComeFromFrames(predicted: seq<PredictedFrame>, overlap: Overlap, threshold: real,
                                               frames: seq<TruthFrame>)
    ensures forall p :: p in MatchFrames(predicted, overlap, threshold, frames).pairs ==>
              exists k :: 0 <= k < |frames| && ComesFrom(p, frames[k], predicted, overlap, threshold)
    decreases |frames|
  {
    if frames != [] {
      var n := |frames| - 1;
      var f := frames[n];
      PairsComeFromFrames(predicted, overlap, threshold, frames[..n]);
      var before, after := MatchFrames(predicted, overlap, threshold, frames[..n]).pairs,
                           MatchFrames(predicted, overlap, threshold, frames).pairs;
      var last := LastOf(predicted, f.frameId);
      if last.Some? {
        var here := MatchSubjects(predicted[last.value].subjects, overlap, threshold, f.frameId, f.subjects).pairs;
        assert after == before + here;
        PairsOfSubjects(predicted[last.value].subjects, overlap, threshold, f.frameId, f.subjects);
        forall p | p in here
          ensures ComesFrom(p, f, predicted, overlap, threshold)
        {
          assert IsPaired(p, f.subjects, predicted[last.value].subjects, overlap, threshold, f.frameId);
        }
      }
      forall p | p in after
        ensures exists k :: 0 <= k < |frames| && ComesFrom(p, frames[k], predicted, overlap, threshold)
      {
        if p in before {
          var k :| 0 <= k < n && ComesFrom(p, frames[..n][k], predicted, overlap, threshold);
          assert ComesFrom(p, frames[k], predicted, overlap, threshold);
        } else {
          assert ComesFrom(p, frames[n], predicted, overlap, threshold);
        }
      }
    }
  }

  /* -------------------------------------------------------------------- the report */

  datatype StateScore = StateScore(
    state: AttributeState,
    support: nat,
    predicted: nat,
    truePositive: nat,
    falsePositive: int,
    falseNegative: int)

  function ScoreOf(t: Table, s: AttributeState): StateScore {
    var support, predicted, tp := Support(t, s), PredictedCount(t, Some(s)), Cell(t, s, Some(s));
    StateScore(s, support, predicted, tp, predicted - tp, support - tp)
  }

  /** Rows and columns of one table add up to the same cells. */
  lemma TableAddsUp(t: Table)
    ensures AllCells(t) == PredictedCount(t, Some(Present)) + PredictedCount(t, Some(Absent))
                           + PredictedCount(t, Some(NotVisible)) + PredictedCount(t, Some(Unknown))
                           + PredictedCount(t, None)
  {
  }

  lemma FalseCountsAreCounts(t: Table, s: AttributeState)
    ensures ScoreOf(t, s).falsePositive >= 0 && ScoreOf(t, s).falseNegative >= 0
  {
    match s
    case Present =>
    case Absent =>
    case NotVisible =>
    case Unknown =>
  }

  /** The four state scores of an attribute, in the order the report lists them. */
  function Scores(t: Table): (StateScore, StateScore, StateScore, StateScore) {
    (ScoreOf(t, Present), ScoreOf(t, Absent), ScoreOf(t, NotVisible), ScoreOf(t, Unknown))
  }

  /**
    The state scores of an attribute, over any matching: supports add up to matched,
    predicted counts plus missing add up to matched, true positives add up to correct, and
    matched = correct + missing + failures.
  */
  lemma ReportConserves(pairs: seq<Pair>, attributes: seq<string>, a: string)
    ensures
      var b := ScorePairs(EMPTY_BOARD, pairs, attributes);
      var t := TallyOf(b, a);
      var (p, q, r, s) := Scores(t.table);
      && t.matched == t.correct + t.missing + FailuresFor(b.failures, a)
      && p.support + q.support + r.support + s.support == t.matched
      && p.predicted + q.predicted + r.predicted + s.predicted + t.missing == t.matched
      && p.truePositive + q.truePositive + r.truePositive + s.truePositive == t.correct
  {
    ScorePairsConserves(EMPTY_BOARD, pairs, attributes, a);
    TableAddsUp(TallyOf(ScorePairs(EMPTY_BOARD, pairs, attributes), a).table);
  }

  /** False positives are exactly the failures, and false negatives the failures and the missing. */
  lemma FalseCountsAreFailures(pairs: seq<Pair>, attributes: seq<string>, a: string)
    ensures
      var b := ScorePairs(EMPTY_BOARD, pairs, attributes);
      var t := TallyOf(b, a);
      var (p, q, r, s) := Scores(t.table);
      && p.falsePositive >= 0 && q.falsePositive >= 0 && r.falsePositive >= 0 && s.falsePositive >= 0
      && p.falseNegative >= 0 && q.falseNegative >= 0 && r.falseNegative >= 0 && s.falseNegative >= 0
      && p.falsePositive + q.falsePositive + r.falsePositive + s.falsePositive == FailuresFor(b.failures, a)
      && p.falseNegative + q.falseNegative + r.falseNegative + s.falseNegative == FailuresFor(b.failures, a) + t.missing
  {
    var t := TallyOf(ScorePairs(EMPTY_BOARD, pairs, attributes), a).table;
    ReportConserves(pairs, attributes, a);
    FalseCountsAreCounts(t, Present);
    FalseCountsAreCounts(t, Absent);
    FalseCountsAreCounts(t, NotVisible);
    FalseCountsAreCounts(t, Unknown);
  }

  /* --------------------------------------------------------------------- the loops */

  /** The innermost loop of `evaluate`. */
  method FindMatch(overlap: Overlap, threshold: real, s: Truth, available: seq<Prediction>) returns (m: Option<nat>)
    ensures m == MatchOf(overlap, threshold, s, available)
    ensures m.Some? ==> m.value < |available|
  {
    var best: Option<nat>, bestScore := None, 0.0;
    for i := 0 to |available|
      invariant (best, bestScore) == Best(overlap, s, available[..i])
      invariant best.Some? ==> best.value < i
    {
      assert available[..i + 1][..i] == available[..i];
      var c := available[i];
      if c.box.Some? {
        var score := overlap(s.box, c.box.value);
        if score > bestScore {
          best, bestScore := Some(i), score;
        }
      }
    }
    assert available[..|available|] == available;
    m := if best.None? || bestScore < threshold then None else best;
  }

  /** The loop over attributes for one matched pair. */
  method ScorePair(b0: Board, pair: Pair, attributes: seq<string>) returns (b: Board)
    ensures b == ScoreAttributes(b0, pair, attributes)
  {
    b := b0;
    for i := 0 to |attributes|
      invariant b == ScoreAttributes(b0, pair, attributes[..i])
    {
      assert attributes[..i + 1][..i] == attributes[..i];
      var a := attributes[i];
      var truth := StateOf(pair.truth.attributes, a);
      if truth.None? {
        continue;
      }
      var predicted := StateOf(pair.prediction.attributes, a);
      var t := TallyOf(b, a);
      t := t.(matched := t.matched + 1, table := Bump(t.table, truth.value, predicted));
      var failures := b.failures;
      if predicted.None? {
        t := t.(missing := t.missing + 1);
      } else if predicted == truth {
        t := t.(correct := t.correct + 1);
      } else {
        failures := failures + [Failure(pair.frameId, pair.truth.subjectId, pair.prediction.objectId, a,
                                        truth.value, predicted.value)];
      }
      b := Board(b.tallies[a := t], failures);
    }
    assert attributes[..|attributes|] == attributes;
  }

  /** The loop over subjects, which scores each pair as soon as it is made. */
  method ScoreFrame(b0: Board, predictions: seq<Prediction>, overlap: Overlap, threshold: real,
                    frame: TruthFrame, attributes: seq<string>)
    returns (b: Board, matched: nat, unmatched: nat, available: seq<Prediction>)
    ensures
      var m := MatchSubjects(predictions, overlap, threshold, frame.frameId, frame.subjects);
      && b == ScorePairs(b0, m.pairs, attributes)
      && matched == |m.pairs| && unmatched == m.unmatched && available == m.available
  {
    b, matched, unmatched, available := b0, 0, 0, predictions;
    ghost var m := Matching([], predictions, 0);
    for i := 0 to |frame.subjects|
      invariant m == MatchSubjects(predictions, overlap, threshold, frame.frameId, frame.subjects[..i])
      invariant b == ScorePairs(b0, m.pairs, attributes)
      invariant matched == |m.pairs| && unmatched == m.unmatched && available == m.available
    {
      assert frame.subjects[..i + 1][..i] == frame.subjects[..i];
      var s := frame.subjects[i];
      ghost var before := m.pairs;
      m := MatchSubject(m, overlap, threshold, frame.frameId, s);
      var best := FindMatch(overlap, threshold, s, available);
      if best.None? {
        unmatched := unmatched + 1;
        continue;
      }
      var taken := available[best.value];
      FirstOfItsKind(overlap, threshold, s, available);
      available := RemoveFirst(available, taken);
      matched := matched + 1;
      b := ScorePair(b, Pair(frame.frameId, s, taken), attributes);
      assert m.pairs[..|before|] == before;
    }
    assert frame.subjects[..|frame.subjects|] == frame.subjects;
  }

  /** Removing the best by equality removes it by position: an equal one to its left would have won. */
  lemma FirstOfItsKind(overlap: Overlap, threshold: real, s: Truth, available: seq<Prediction>)
    ensures
      var m := MatchOf(overlap, threshold, s, available);
      m.Some? ==> m.value < |available|
                  && RemoveFirst(available, available[m.value]) == available[..m.value] + available[m.value + 1..]
  {
    BestIsFirstMaximum(overlap, s, available);
    var m := MatchOf(overlap, threshold, s, available);
    if m.Some? {
      RemoveFirstAt(available, m.value);
    }
  }

  datatype Totals = Totals(annotated: nat, matched: nat, unmatched: nat, spurious: nat, board: Board)

  /**
    `evaluate`: one pass that matches and scores as it goes gives what matching every frame
    first and scoring the pairs afterwards gives; each pair is a subject of an annotated frame
    and a prediction of the last predicted frame of that id; and the counts add up.
  */
  method Evaluate(frames: seq<TruthFrame>, predicted: seq<PredictedFrame>, overlap: Overlap, threshold: real,
                  attributes: seq<string>)
    returns (t: Totals, ghost pairs: seq<Pair>)
    ensures pairs == MatchFrames(predicted, overlap, threshold, frames).pairs
    ensures t.board == ScorePairs(EMPTY_BOARD, pairs, attributes) && t.matched == |pairs|
    ensures forall p :: p in pairs ==>
              exists k :: 0 <= k < |frames| && ComesFrom(p, frames[k], predicted, overlap, threshold)
    ensures t.annotated == AnnotatedSubjects(frames) == t.matched + t.unmatched
    ensures UnansweredSubjects(frames, predicted) <= t.unmatched
    ensures PredictedSubjects(frames, predicted) == t.matched + t.spurious
    ensures forall a :: Conserved(t.board, a)
  {
    var predictions := ByFrame(predicted);
    t := Totals(0, 0, 0, 0, EMPTY_BOARD);
    ghost var m := Matching([], [], 0);
    for i := 0 to |frames|
      invariant m == MatchFrames(predicted, overlap, threshold, frames[..i])
      invariant t.annotated == AnnotatedSubjects(frames[..i])
      invariant t.board == ScorePairs(EMPTY_BOARD, m.pairs, attributes)
      invariant t.matched == |m.pairs| && t.unmatched == m.unmatched && t.spurious == |m.available|
    {
      assert frames[..i + 1][..i] == frames[..i];
      var frame := frames[i];
      ByFrameKeepsLast(predicted, frame.frameId);
      t := t.(annotated := t.annotated + |frame.subjects|);
      ghost var before := m.pairs;
      m := MatchFrames(predicted, overlap, threshold, frames[..i + 1]);
      if frame.frameId !in predictions {
        t := t.(unmatched := t.unmatched + |frame.subjects|);
        continue;
      }
      var b, matched, unmatched, available :=
        ScoreFrame(t.board, predictions[frame.frameId], overlap, threshold, frame, attributes);
      ghost var here := MatchSubjects(predictions[frame.frameId], overlap, threshold, frame.frameId, frame.subjects);
      ScorePairsSplits(EMPTY_BOARD, before, here.pairs, attributes);
      t := Totals(t.annotated, t.matched + matched, t.unmatched + unmatched, t.spurious + |available|, b);
    }
    assert frames[..|frames|] == frames;
    FramesConserve(predicted, overlap, threshold, frames);
    PairsComeFromFrames(predicted, overlap, threshold, frames);
    pairs := m.pairs;
    forall a
      ensures Conserved(t.board, a)
    {
      ScorePairsConserves(EMPTY_BOARD, m.pairs, attributes, a);
    }
  }
}
