/** The map adapter: which shops of the rendered list get a marker, and when the
    viewport is refitted. The map widget itself is represented only by the state
    the page drives: the points in its marker layer and its current viewport. */
module Markers {
  import opened Shops

  datatype Point = Point(lat: real, lng: real)

  /** What the map shows: the initial center and zoom, or the last bounds it was fitted to. */
  datatype Viewport =
    | Centered(center: Point, zoom: int)
    | Fitted(bounds: seq<Point>, padding: int)

  const INITIAL_CENTER: Point := Point(35.12, 138.92)
  const INITIAL_ZOOM: int := 11
  /** The padding, in pixels on each side, used when fitting the viewport. */
  const FIT_PADDING: int := 30

  /** A shop gets a marker when both of its coordinates are numbers. */
  predicate Located(s: Shop)
  {
    s.lat.Number? && s.lng.Number?
  }

  function PointOf(s: Shop): Point
    requires Located(s)
  {
    Point(s.lat.value, s.lng.value)
  }

  /** The marker positions for a list, as a specification. */
  function PointsOf(list: seq<Shop>): seq<Point>
  {
    if list == [] then []
    else
      var last := list[|list| - 1];
      PointsOf(list[..|list| - 1]) + (if Located(last) then [PointOf(last)] else [])
  }

  /** Markers follow the list order: the points of a concatenation are the points
      of its parts, one after the other. */
  lemma {:induction false} PointsOfAppend(a: seq<Shop>, b: seq<Shop>)
    ensures PointsOf(a + b) == PointsOf(a) + PointsOf(b)
  {
    if b == [] {
      assert a + b == a;
    } else {
      PointsOfAppend(a, b[..|b| - 1]);
      assert (a + b)[..|a + b| - 1] == a + b[..|b| - 1];
    }
  }

  /** Every located shop has its marker, and every marker belongs to a located shop. */
  lemma {:induction false} PointsOfMembers(list: seq<Shop>)
    ensures forall i :: 0 <= i < |list| && Located(list[i]) ==> PointOf(list[i]) in PointsOf(list)
    ensures forall p :: p in PointsOf(list) ==>
              exists i :: 0 <= i < |list| && Located(list[i]) && PointOf(list[i]) == p
  {
    if list != [] {
      var init := list[..|list| - 1];
      PointsOfMembers(init);
      assert forall i :: 0 <= i < |init| ==> init[i] == list[i];
    }
  }

  /** There are no markers exactly when no shop in the list is located. */
  lemma {:induction false} PointsOfEmpty(list: seq<Shop>)
    ensures |PointsOf(list)| <= |list|
    ensures PointsOf(list) == [] <==> forall i :: 0 <= i < |list| ==> !Located(list[i])
  {
    if list != [] {
      var init := list[..|list| - 1];
      PointsOfEmpty(init);
      assert forall i :: 0 <= i < |init| ==> init[i] == list[i];
    }
  }

  class MapView {
    /** The positions of the markers in the marker layer. */
    var layer: seq<Point>
    var viewport: Viewport

    /** `initMap()`: the map starts at the default center and zoom with an empty layer. */
    constructor ()
      ensures layer == [] && viewport == Centered(INITIAL_CENTER, INITIAL_ZOOM)
    {
      layer := [];
      viewport := Centered(INITIAL_CENTER, INITIAL_ZOOM);
    }

    /** `updateMap(list)`: clear the layer, add a marker per located shop, and fit the
        viewport to them when there is at least one; otherwise leave the viewport alone. */
    method Update(list: seq<Shop>)
      modifies this
      ensures layer == PointsOf(list)
      ensures viewport == if layer == [] then old(viewport) else Fitted(layer, FIT_PADDING)
    {
      layer := [];
      var bounds: seq<Point> := [];
      for i := 0 to |list|
        invariant bounds == PointsOf(list[..i])
        invariant layer == bounds
        invariant viewport == old(viewport)
      {
        assert list[..i + 1][..i] == list[..i];
        var s := list[i];
        if s.lat.Number? && s.lng.Number? {
          layer := layer + [Point(s.lat.value, s.lng.value)];
          bounds := bounds + [Point(s.lat.value, s.lng.value)];
        }
      }
      assert list[..|list|] == list;
      if |bounds| > 0 {
        viewport := Fitted(bounds, FIT_PADDING);
      }
    }
  }
}
