/** One piece of equipment (`eq` in the source) without its rendering handles. */
module Equipments {
  import opened Path
  import opened Progress

  datatype Equipment = Equipment(id: int, points: seq<LatLng>, isMoving: bool, progress: nat)

  /** The state every record the registry builds stays in: the counter is in range, and a
      moving record has a path the animation can follow. */
  predicate ValidRecord(e: Equipment)
  {
    && e.progress <= Resolution
    && (e.isMoving ==> |e.points| >= 2)
  }

  /** The record the create handler pushes. */
  function Fresh(id: int): (e: Equipment)
    ensures ValidRecord(e) && !e.isMoving && e.progress == 0 && |e.points| == 0
    ensures e.id == id
  {
    Equipment(id, [], false, 0)
  }

  /** One call of `animate`: a record that is not moving is left alone; a moving one
      advances its counter one step round the cycle. */
  function Tick(e: Equipment): (r: Equipment)
    ensures r.id == e.id && r.points == e.points && r.isMoving == e.isMoving
    ensures !e.isMoving ==> r == e
    ensures e.isMoving && e.progress <= Resolution ==> r.progress == (e.progress + 1) % (Resolution + 1)
    ensures e.isMoving ==> r.progress <= Resolution
    ensures ValidRecord(e) ==> ValidRecord(r)
  {
    if !e.isMoving then e else e.(progress := Advance(e.progress))
  }

  /** The effect of stopping a record: only the motion flag changes. */
  function Halt(e: Equipment): (r: Equipment)
    ensures !r.isMoving
    ensures r.id == e.id && r.points == e.points && r.progress == e.progress
    ensures ValidRecord(e) ==> ValidRecord(r)
  {
    e.(isMoving := false)
  }
}
