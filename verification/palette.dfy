/** The colour picker used for each equipment's track polyline (`getColor`). */
module Palette {
  import opened Wrappers

  /** The five track colours, in the order the source lists them. */
  const Colors: seq<string> := ["#e74c3c", "#3498db", "#2ecc71", "#f39c12", "#9b59b6"]

  /** JavaScript's `%`: the remainder truncates toward zero, so it takes the sign of `a`. */
  function JsRem(a: int, b: int): int
    requires b > 0
  {
    if a >= 0 then a % b else -((-a) % b)
  }

  /** `colors[i % colors.length]`; a negative remainder indexes outside the array and
      yields `undefined`, modelled as `None`. */
  function GetColor(i: int): (r: Option<string>)
    ensures r.Some? <==> (i >= 0 || i % |Colors| == 0)
    ensures i >= 0 ==> r == Some(Colors[i % |Colors|])
    ensures r.Some? ==> r.value in Colors
  {
    var k := JsRem(i, |Colors|);
    if 0 <= k < |Colors| then Some(Colors[k]) else None
  }

  /** On the indices the source passes (equipment ids, all positive) the palette repeats
      with period five. */
  lemma GetColorPeriodic(i: int)
    requires i >= 0
    ensures GetColor(i + |Colors|) == GetColor(i)
    ensures GetColor(i).Some?
  {
  }
}
