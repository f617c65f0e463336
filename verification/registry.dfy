/** The `equipments` array and the handlers that change it. Each handler is a pure
    transition from the old sequence of records to the new one. */
module Registry {
  import opened Path
  import opened Progress
  import opened Equipments

  /** Every record of the registry is valid. */
  predicate Valid(eqs: seq<Equipment>)
  {
    forall i :: 0 <= i < |eqs| ==> ValidRecord(eqs[i])
  }

  /** Some record carries `id`. Handlers given an id no record carries dereference
      `undefined` in the source, so they require this. */
  ghost predicate HasId(eqs: seq<Equipment>, id: int)
  {
    exists i :: 0 <= i < |eqs| && eqs[i].id == id
  }

  /** `findIndex(e => e.id === id)`: the first position carrying `id`, or -1. */
  function FindIndex(eqs: seq<Equipment>, id: int): (r: int)
    ensures -1 <= r < |eqs|
    ensures r == -1 <==> !HasId(eqs, id)
    ensures r >= 0 ==> eqs[r].id == id
    ensures r >= 0 ==> forall j :: 0 <= j < r ==> eqs[j].id != id
    decreases |eqs|
  {
    if |eqs| == 0 then -1
    else if eqs[0].id == id then 0
    else
      var k := FindIndex(eqs[1..], id);
      assert forall j :: 1 <= j < |eqs| ==> eqs[1..][j - 1] == eqs[j];
      if k == -1 then -1 else k + 1
  }

  /** Only the ids decide where `find` stops. */
  lemma FindIndexDependsOnIds(a: seq<Equipment>, b: seq<Equipment>, id: int)
    requires |a| == |b|
    requires forall j :: 0 <= j < |a| ==> a[j].id == b[j].id
    ensures FindIndex(a, id) == FindIndex(b, id)
  {
  }

  /** Create: push a fresh record whose id is the old length plus one. */
  function Create(eqs: seq<Equipment>): (r: seq<Equipment>)
    ensures |r| == |eqs| + 1
    ensures r[..|eqs|] == eqs
    ensures r[|eqs|].id == |eqs| + 1 && r[|eqs|].points == []
    ensures !r[|eqs|].isMoving && r[|eqs|].progress == 0
    ensures Valid(eqs) ==> Valid(r)
  {
    eqs + [Fresh(|eqs| + 1)]
  }

  /** The new record is the one `find` reaches by its id exactly when no earlier record
      already carries that id; otherwise the earlier record shadows it. */
  lemma CreateFindsNewRecord(eqs: seq<Equipment>)
    ensures HasId(Create(eqs), |eqs| + 1)
    ensures FindIndex(Create(eqs), |eqs| + 1) == |eqs| <==> !HasId(eqs, |eqs| + 1)
  {
    var r := Create(eqs);
    var k := FindIndex(r, |eqs| + 1);
    assert r[|eqs|].id == |eqs| + 1;
    if HasId(eqs, |eqs| + 1) {
      var j :| 0 <= j < |eqs| && eqs[j].id == |eqs| + 1;
      assert r[j] == eqs[j];
    } else {
      assert forall j :: 0 <= j < |eqs| ==> r[j] == eqs[j];
    }
  }

  /** Ids are not unique: create two, delete the first, create again, and two records
      carry id 2. */
  lemma IdsCanCollide()
    ensures var r := Create(Delete(Create(Create([])), 1));
      |r| == 2 && r[0].id == 2 && r[1].id == 2
  {
  }

  /** addPoint: append the clicked coordinate to the first record carrying `id`. */
  function AddPoint(eqs: seq<Equipment>, id: int, p: LatLng): (r: seq<Equipment>)
    requires HasId(eqs, id)
    ensures |r| == |eqs|
    ensures var i := FindIndex(eqs, id);
      && r[i].points == eqs[i].points + [p]
      && r[i].id == eqs[i].id && r[i].isMoving == eqs[i].isMoving
      && r[i].progress == eqs[i].progress
      && forall j :: 0 <= j < |eqs| && j != i ==> r[j] == eqs[j]
    ensures Valid(eqs) ==> Valid(r)
  {
    var i := FindIndex(eqs, id);
    eqs[i := eqs[i].(points := eqs[i].points + [p])]
  }

  /** The distance shown after an append grows by exactly the new leg. */
  lemma AddPointDistance(eqs: seq<Equipment>, id: int, p: LatLng, d: Metric)
    requires HasId(eqs, id)
    ensures var i := FindIndex(eqs, id);
      var before := eqs[i].points;
      var after := AddPoint(eqs, id, p)[i].points;
      && (|before| == 0 ==> PathLength(after, d) == 0.0)
      && (|before| >= 1 ==> PathLength(after, d) == PathLength(before, d) + d(before[|before| - 1], p))
  {
  }

  datatype StartOutcome = Started | TooFewPoints

  datatype StartResult = StartResult(equipments: seq<Equipment>, outcome: StartOutcome)

  /** startMove: refuse (with an alert) a record of fewer than two points; otherwise set
      it moving from progress 0 and run the first frame at once. */
  function Start(eqs: seq<Equipment>, id: int): (r: StartResult)
    requires HasId(eqs, id)
    ensures var i := FindIndex(eqs, id);
      && (r.outcome == TooFewPoints <==> |eqs[i].points| < 2)
      && (r.outcome == TooFewPoints ==> r.equipments == eqs)
      && (r.outcome == Started ==>
            && |r.equipments| == |eqs|
            && r.equipments[i] == eqs[i].(isMoving := true, progress := 1)
            && forall j :: 0 <= j < |eqs| && j != i ==> r.equipments[j] == eqs[j])
    ensures Valid(eqs) ==> Valid(r.equipments)
  {
    var i := FindIndex(eqs, id);
    var e := eqs[i];
    if |e.points| < 2 then StartResult(eqs, TooFewPoints)
    else StartResult(eqs[i := Tick(e.(isMoving := true, progress := 0))], Started)
  }

  /** One frame of the animation loop of the record at position `i`. */
  function TickAt(eqs: seq<Equipment>, i: nat): (r: seq<Equipment>)
    requires i < |eqs|
    ensures |r| == |eqs|
    ensures forall j :: 0 <= j < |eqs| && j != i ==> r[j] == eqs[j]
    ensures !eqs[i].isMoving ==> r == eqs
    ensures eqs[i].isMoving && eqs[i].progress <= Resolution ==>
      r[i] == eqs[i].(progress := (eqs[i].progress + 1) % (Resolution + 1))
    ensures Valid(eqs) ==> Valid(r)
  {
    eqs[i := Tick(eqs[i])]
  }

  /** `n` frames of the loop of the record at position `i`. */
  function TicksAt(eqs: seq<Equipment>, i: nat, n: nat): (r: seq<Equipment>)
    requires i < |eqs|
    ensures |r| == |eqs|
    ensures forall j :: 0 <= j < |eqs| && j != i ==> r[j] == eqs[j]
    ensures !eqs[i].isMoving ==> r == eqs
    ensures Valid(eqs) ==> Valid(r)
    decreases n
  {
    if n == 0 then eqs
    else
      var next := TickAt(eqs, i);
      TicksAt(next, i, n - 1)
  }

  /** While a record keeps moving, `n` frames advance its counter as `AdvanceN` and touch
      nothing else. */
  lemma {:induction false} TicksAtAdvance(eqs: seq<Equipment>, i: nat, n: nat)
    requires i < |eqs| && eqs[i].isMoving
    ensures var r := TicksAt(eqs, i, n);
      && |r| == |eqs|
      && r[i] == eqs[i].(progress := AdvanceN(eqs[i].progress, n))
      && forall j :: 0 <= j < |eqs| && j != i ==> r[j] == eqs[j]
    decreases n
  {
    if n > 0 {
      var next := TickAt(eqs, i);
      assert next[i] == eqs[i].(progress := Advance(eqs[i].progress));
      TicksAtAdvance(next, i, n - 1);
    }
  }

  /** A started record loops: `n` frames after the start its progress is `n + 1` steps
      round the cycle, so it is back at the beginning of its path, still moving, whenever
      `n + 1` is a multiple of Resolution + 1. */
  lemma StartThenLoop(eqs: seq<Equipment>, id: int, n: nat)
    requires HasId(eqs, id)
    requires Start(eqs, id).outcome == Started
    ensures var i := FindIndex(eqs, id);
      var r := TicksAt(Start(eqs, id).equipments, i, n);
      r[i].isMoving && r[i].progress == (n + 1) % (Resolution + 1)
  {
    var i := FindIndex(eqs, id);
    TicksAtAdvance(Start(eqs, id).equipments, i, n);
    AdvanceNCycle(1, n);
  }

  /** stopMove: clear the motion flag of the first record carrying `id`. */
  function Stop(eqs: seq<Equipment>, id: int): (r: seq<Equipment>)
    requires HasId(eqs, id)
    ensures |r| == |eqs|
    ensures var i := FindIndex(eqs, id);
      && !r[i].isMoving
      && r[i].id == eqs[i].id && r[i].points == eqs[i].points
      && r[i].progress == eqs[i].progress
      && forall j :: 0 <= j < |eqs| && j != i ==> r[j] == eqs[j]
    ensures Valid(eqs) ==> Valid(r)
  {
    var i := FindIndex(eqs, id);
    eqs[i := Halt(eqs[i])]
  }

  /** Stopping twice is stopping once. */
  lemma StopIdempotent(eqs: seq<Equipment>, id: int)
    requires HasId(eqs, id)
    ensures HasId(Stop(eqs, id), id)
    ensures Stop(Stop(eqs, id), id) == Stop(eqs, id)
  {
  }

  /** A stopped record is frozen while any other moving record keeps advancing. */
  lemma StopFreezesOnlyItsRecord(eqs: seq<Equipment>, id: int, j: nat)
    requires HasId(eqs, id)
    requires j < |eqs| && j != FindIndex(eqs, id)
    requires eqs[j].isMoving && eqs[j].progress <= Resolution
    ensures var s := Stop(eqs, id);
      && TickAt(s, FindIndex(eqs, id)) == s
      && TickAt(s, j)[j].progress == (eqs[j].progress + 1) % (Resolution + 1)
      && TickAt(s, j)[FindIndex(eqs, id)] == s[FindIndex(eqs, id)]
  {
  }

  /** The global stop button: clear the motion flag of every record. */
  function StopAll(eqs: seq<Equipment>): (r: seq<Equipment>)
    ensures |r| == |eqs|
    ensures forall i :: 0 <= i < |eqs| ==>
      && !r[i].isMoving
      && r[i].id == eqs[i].id && r[i].points == eqs[i].points
      && r[i].progress == eqs[i].progress
    ensures Valid(eqs) ==> Valid(r)
    decreases |eqs|
  {
    if |eqs| == 0 then []
    else [Halt(eqs[0])] + StopAll(eqs[1..])
  }

  /** The global stop is idempotent, and after it no frame changes anything. */
  lemma StopAllIdempotent(eqs: seq<Equipment>, i: nat)
    requires i < |eqs|
    ensures StopAll(StopAll(eqs)) == StopAll(eqs)
    ensures TickAt(StopAll(eqs), i) == StopAll(eqs)
  {
  }

  /** deleteEq: splice out the first record carrying `id`. */
  function Delete(eqs: seq<Equipment>, id: int): (r: seq<Equipment>)
    requires HasId(eqs, id)
    ensures |r| == |eqs| - 1
    ensures var i := FindIndex(eqs, id);
      && (forall j :: 0 <= j < i ==> r[j] == eqs[j])
      && (forall j :: i <= j < |r| ==> r[j] == eqs[j + 1])
      && multiset(r) + multiset{eqs[i]} == multiset(eqs)
    ensures forall k :: 0 <= k < |eqs| && eqs[k].id != id ==> eqs[k] in r
    ensures Valid(eqs) ==> Valid(r)
  {
    var i := FindIndex(eqs, id);
    assert eqs == eqs[..i] + [eqs[i]] + eqs[i + 1..];
    eqs[..i] + eqs[i + 1..]
  }

  /** Reference definition of the removal: walk the records and drop the first match. */
  function RemoveFirst(eqs: seq<Equipment>, id: int): seq<Equipment>
    decreases |eqs|
  {
    if |eqs| == 0 then []
    else if eqs[0].id == id then eqs[1..]
    else [eqs[0]] + RemoveFirst(eqs[1..], id)
  }

  /** Splicing position `i` out of `[x] + t` keeps `x` in front. */
  lemma SpliceBehindHead(x: Equipment, t: seq<Equipment>, i: nat)
    requires 1 <= i <= |t|
    ensures ([x] + t)[..i] + ([x] + t)[i + 1..] == [x] + (t[..i - 1] + t[i..])
  {
  }

  /** Delete agrees with the reference removal. */
  lemma {:induction false} DeleteIsRemoveFirst(eqs: seq<Equipment>, id: int)
    requires HasId(eqs, id)
    ensures Delete(eqs, id) == RemoveFirst(eqs, id)
    decreases |eqs|
  {
    if eqs[0].id != id {
      var tail := eqs[1..];
      var k :| 0 <= k < |eqs| && eqs[k].id == id;
      assert tail[k - 1].id == id;
      var i := FindIndex(eqs, id);
      assert FindIndex(tail, id) == i - 1;
      DeleteIsRemoveFirst(tail, id);
      assert [eqs[0]] + tail == eqs;
      SpliceBehindHead(eqs[0], tail, i);
    }
  }

  /** The reset button: every record is discarded. */
  function Reset(eqs: seq<Equipment>): (r: seq<Equipment>)
    ensures forall id :: !HasId(r, id)
    ensures Valid(r)
  {
    []
  }

  /** After a reset, numbering starts again from 1. */
  lemma ResetRestartsIds(eqs: seq<Equipment>)
    ensures Create(Reset(eqs)) == [Fresh(1)]
  {
  }
}
