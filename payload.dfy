/**
 * The payloads that the map figure hands to its callbacks. A click
 * (`clickData`) and a box or lasso selection (`selectedData`) both carry a
 * list of points, each naming the territory (`location`) it lies in. Three
 * callbacks decode them the same way: a selection wins over a click, a
 * selection contributes every point and a click only its first one.
 */
module Payload {
  import opened Common

  type Key = string

  /** One point of a payload; only its `location` is read. */
  datatype Point = Point(location: Key)

  /** `clickData` or `selectedData`: `{"points": [...]}`. */
  datatype PointList = PointList(points: seq<Point>)

  /** Indexing `points[0]` of a click without points raises `IndexError`. */
  datatype PayloadError = PointsEmpty

  /** What the callbacks decode from the two payloads. */
  datatype Request =
    | NoPayload                      // both payloads are None
    | Requested(locations: seq<Key>) // the list `country` of the source

  /** The location of every point, in payload order. */
  function Locations(points: seq<Point>): (r: seq<Key>)
    ensures |r| == |points|
    ensures forall i :: 0 <= i < |points| ==> r[i] == points[i].location
  {
    seq(|points|, i requires 0 <= i < |points| => points[i].location)
  }

  /** Decodes `clickData` and `selectedData` as the chart callbacks do. */
  function Decode(clickData: Option<PointList>, selectedData: Option<PointList>): (r: Result<Request, PayloadError>)
    ensures r == Success(NoPayload) <==> clickData.None? && selectedData.None?
    ensures selectedData.Some? ==>
      r.Success? && r.value.Requested? && |r.value.locations| == |selectedData.value.points|
      && forall i :: 0 <= i < |r.value.locations| ==> r.value.locations[i] == selectedData.value.points[i].location
    ensures selectedData.None? && clickData.Some? ==>
      if clickData.value.points == [] then r == Failure(PointsEmpty)
      else r == Success(Requested([clickData.value.points[0].location]))
  {
    if selectedData.None? && clickData.None? then Success(NoPayload)
    else if selectedData.Some? then Success(Requested(Locations(selectedData.value.points)))
    else if clickData.value.points == [] then Failure(PointsEmpty)
    else Success(Requested([clickData.value.points[0].location]))
  }
}
