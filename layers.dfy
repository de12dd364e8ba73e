/** The layers the data manager renders, as the data browser sees them
    (GeoDataBrowserViewModel.js): the extent chosen for a new layer, the
    data manager's ordered layer list, and the "now viewing" list that
    mirrors it in reverse. */
module Layers {
  import opened Common
  import opened Catalog

  // ---------------------------------------------------------------------
  // Extent of a layer

  /** The four bounding-box encodings of a capabilities document, in the
      order getOGCLayerExtent tries them. */
  datatype Encoding = WGS84 | LatLon | EXGeographic | Generic

  /** The extent chosen for a layer: the encoding it was read from and the
      four texts handed to parseFloat for west, south, east and north
      (None where the property is undefined). */
  datatype Extent = Extent(
    encoding: Encoding,
    west: Option<string>,
    south: Option<string>,
    east: Option<string>,
    north: Option<string>)

  /** The position of an encoding in the first-match order. */
  function Rank(e: Encoding): nat
  {
    match e
    case WGS84 => 0
    case LatLon => 1
    case EXGeographic => 2
    case Generic => 3
  }

  /** The description's box in the given encoding, if it has one. */
  function BoxOf(d: Description, e: Encoding): Option<Box>
  {
    match e
    case WGS84 => d.wgs84BoundingBox
    case LatLon => d.latLonBoundingBox
    case EXGeographic => d.exGeographicBoundingBox
    case Generic => d.boundingBox
  }

  predicate Present(d: Description, e: Encoding)
  {
    BoxOf(d, e).Some?
  }

  /** The attribute names read, as west, south, east and north, from a box
      of an encoding given by attributes. */
  function Keys(e: Encoding): seq<string>
    requires e != WGS84
  {
    match e
    case LatLon => ["minx", "miny", "maxx", "maxy"]
    case EXGeographic => ["westBoundLongitude", "southBoundLatitude", "eastBoundLongitude", "northBoundLatitude"]
    case Generic => ["west", "south", "east", "north"]
  }

  function Attr(box: Box, key: string): Option<string>
  {
    if key in box then Some(box[key]) else None
  }

  function FromBox(e: Encoding, box: Box): Extent
    requires e != WGS84
  {
    var keys := Keys(e);
    Extent(e, Attr(box, keys[0]), Attr(box, keys[1]), Attr(box, keys[2]), Attr(box, keys[3]))
  }

  /** The `i`-th part of a split string, undefined past the end. */
  function Part(parts: seq<string>, i: nat): Option<string>
  {
    if i < |parts| then Some(parts[i]) else None
  }

  /** String.prototype.split(" "): the pieces between single spaces, empty
      pieces included. */
  function Split(s: string): (parts: seq<string>)
    ensures |parts| >= 1
    ensures forall k :: 0 <= k < |parts| ==> ' ' !in parts[k]
    decreases |s|
  {
    var i := IndexOf(s, " ");
    if i == -1 then
      assert forall k :: 0 <= k < |s| ==> s[k] != ' ' by {
        forall k | 0 <= k < |s| ensures s[k] != ' ' {
          assert !OccursAt(s, " ", k);
          assert s[k..k + 1] == [s[k]];
        }
      }
      [s]
    else
      assert forall k :: 0 <= k < i ==> s[k] != ' ' by {
        forall k | 0 <= k < i ensures s[k] != ' ' {
          assert !OccursAt(s, " ", k);
          assert s[k..k + 1] == [s[k]];
        }
      }
      assert forall k :: 0 <= k < i ==> s[..i][k] == s[k];
      [s[..i]] + Split(s[i + 1..])
  }

  /** The pieces joined back with single spaces. */
  function Join(parts: seq<string>): string
  {
    if parts == [] then ""
    else if |parts| == 1 then parts[0]
    else parts[0] + " " + Join(parts[1..])
  }

  /** Splitting loses nothing: joining the pieces gives the text back. */
  lemma {:induction false} SplitJoin(s: string)
    ensures Join(Split(s)) == s
    decreases |s|
  {
    var i := IndexOf(s, " ");
    if i == -1 {
      assert Split(s) == [s];
    } else {
      var head, tail := s[..i], s[i + 1..];
      SplitAtSpace(s);
      SplitJoin(tail);
      JoinCons(head, Split(tail));
      AroundSpace(s, i);
    }
  }

  /** A string is the text before a space, the space and the text after it. */
  lemma AroundSpace(s: string, i: nat)
    requires i < |s| && s[i] == ' '
    ensures s[..i] + " " + s[i + 1..] == s
  {
    assert s[..i] + [s[i]] + s[i + 1..] == s[..i + 1] + s[i + 1..];
  }

  /** The first space ends the first piece. */
  lemma SplitAtSpace(s: string)
    requires IndexOf(s, " ") != -1
    ensures var i := IndexOf(s, " ");
      s[i] == ' ' && Split(s) == [s[..i]] + Split(s[i + 1..])
  {
    var i := IndexOf(s, " ");
    assert s[i..i + 1] == " ";
  }

  lemma JoinCons(head: string, rest: seq<string>)
    requires |rest| >= 1
    ensures Join([head] + rest) == head + " " + Join(rest)
  {
    var parts := [head] + rest;
    assert parts[0] == head && parts[1..] == rest;
  }

  /** getOGCLayerExtent: the extent of a described layer, from the first
      encoding present in the order WGS84BoundingBox, LatLonBoundingBox,
      EX_GeographicBoundingBox, BoundingBox; undefined when none is. A
      WGS84BoundingBox without both corners throws on `split`. (The
      `BoundingBox` alternative inside the LatLonBoundingBox branch is never
      taken, since that branch runs only when LatLonBoundingBox is present.) */
  function GetOGCLayerExtent(d: Description): (r: Result<Option<Extent>>)
    ensures r.Ok? && r.value.None? <==> forall e :: !Present(d, e)
    ensures r.TypeError? <==>
      && Present(d, WGS84)
      && ("LowerCorner" !in d.wgs84BoundingBox.value || "UpperCorner" !in d.wgs84BoundingBox.value)
    ensures r.Ok? && r.value.Some? ==>
      var ext := r.value.value;
      && Present(d, ext.encoding)
      && (forall e :: Present(d, e) ==> Rank(ext.encoding) <= Rank(e))
      && (ext.encoding != WGS84 ==> ext == FromBox(ext.encoding, BoxOf(d, ext.encoding).value))
    ensures r.Ok? && r.value.Some? && r.value.value.encoding == WGS84 ==>
      var box := d.wgs84BoundingBox.value;
      && "LowerCorner" in box && "UpperCorner" in box
      && r.value.value.west == Some(Split(box["LowerCorner"])[0])
      && r.value.value.south == Part(Split(box["LowerCorner"]), 1)
      && r.value.value.east == Some(Split(box["UpperCorner"])[0])
      && r.value.value.north == Part(Split(box["UpperCorner"]), 1)
  {
    if d.wgs84BoundingBox.Some? then
      var box := d.wgs84BoundingBox.value;
      assert Present(d, WGS84);
      if "LowerCorner" !in box then TypeError("WGS84BoundingBox.LowerCorner.split")
      else
        var lc := Split(box["LowerCorner"]);
        if "UpperCorner" !in box then TypeError("WGS84BoundingBox.UpperCorner.split")
        else
          var uc := Split(box["UpperCorner"]);
          Ok(Some(Extent(WGS84, Part(lc, 0), Part(lc, 1), Part(uc, 0), Part(uc, 1))))
    else if d.latLonBoundingBox.Some? then
      assert Present(d, LatLon);
      Ok(Some(FromBox(LatLon, d.latLonBoundingBox.value)))
    else if d.exGeographicBoundingBox.Some? then
      assert Present(d, EXGeographic);
      Ok(Some(FromBox(EXGeographic, d.exGeographicBoundingBox.value)))
    else if d.boundingBox.Some? then
      assert Present(d, Generic);
      Ok(Some(FromBox(Generic, d.boundingBox.value)))
    else
      Ok(None)
  }

  /** A description with only an EX_GeographicBoundingBox gets its extent
      from the four bound attributes; a WGS84BoundingBox beside a
      BoundingBox wins. */
  lemma ExtentExamples(geographic: Box, wgs84: Box, generic: Box)
    requires geographic == map["westBoundLongitude" := "10", "southBoundLatitude" := "-10",
                               "eastBoundLongitude" := "20", "northBoundLatitude" := "0"]
    requires "LowerCorner" in wgs84 && "UpperCorner" in wgs84
    ensures GetOGCLayerExtent(Blank.(exGeographicBoundingBox := Some(geographic)))
      == Ok(Some(Extent(EXGeographic, Some("10"), Some("-10"), Some("20"), Some("0"))))
    ensures GetOGCLayerExtent(Blank.(wgs84BoundingBox := Some(wgs84), boundingBox := Some(generic))).value.value.encoding
      == WGS84
  {
  }

  // ---------------------------------------------------------------------
  // Layers and the now-viewing list

  /** A layer of the data manager (GeoData). Its identity is the object:
      the now-viewing list and indexOf compare layers by reference. Whether
      it is shown is the data manager's business and may change. */
  class GeoData {
    const name: Option<string>
    const kind: Option<string>
    const extent: Option<Extent>
    const url: Option<string>
    const description: Option<Description>
    const proxy: Option<bool>
    var show: bool

    constructor (name: Option<string>, kind: Option<string>, extent: Option<Extent>,
                 url: Option<string>, description: Option<Description>, proxy: Option<bool>)
      ensures this.name == name && this.kind == kind && this.extent == extent
      ensures this.url == url && this.description == description && this.proxy == proxy
    {
      this.name := name;
      this.kind := kind;
      this.extent := extent;
      this.url := url;
      this.description := description;
      this.proxy := proxy;
      show := true;
    }
  }

  /** The data manager: its ordered layer list (rendering order). The list is
      changed by the data manager's own code, outside this model. */
  class DataManager {
    var layers: seq<GeoData>

    constructor (layers: seq<GeoData>)
      ensures this.layers == layers
    {
      this.layers := layers;
    }
  }

  /** The calls the data browser makes on the data managers, whose effect
      is not part of this model. */
  datatype Call =
    | SendLayerRequest(layer: GeoData)
    | Remove(index: int)
    | MoveUp(layer: GeoData)
    | MoveDown(layer: GeoData)
    | GetOGCFeatureURL(description: Description)
    | LoadUrl(url: string)
    | AddServices

  /** getLayers: a reversed copy of the data manager's layers (the copy is a
      value here, so the data manager's list cannot be affected). */
  function GetLayers(layers: seq<GeoData>): (r: seq<GeoData>)
    ensures |r| == |layers|
    ensures forall k :: 0 <= k < |layers| ==> r[k] == layers[|layers| - 1 - k]
  {
    if layers == [] then [] else [layers[|layers| - 1]] + GetLayers(layers[..|layers| - 1])
  }

  /** Reversing twice gives the list back. */
  lemma GetLayersTwice(layers: seq<GeoData>)
    ensures GetLayers(GetLayers(layers)) == layers
  {
  }

  /** One entry of the now-viewing list: the layer's description (or, when
      it has none, one made of its name, url and type), whether it is shown,
      and the layer itself. */
  datatype NowViewingEntry = NowViewingEntry(description: Description, show: bool, layer: GeoData)

  function EntryDescription(l: GeoData): (d: Description)
    ensures l.description.Some? ==> d == l.description.value
    ensures l.description.None? ==>
      && d.title == l.name && d.baseUrl == l.url && d.kind == l.kind
      && d.name.None? && d.url.None? && d.proxy.None? && d.count.None? && d.layer.None? && d.extType.None?
      && d.wgs84BoundingBox.None? && d.latLonBoundingBox.None?
      && d.exGeographicBoundingBox.None? && d.boundingBox.None?
  {
    match l.description
    case Some(description) => description
    case None => Blank.(title := l.name, baseUrl := l.url, kind := l.kind)
  }

  /** The now-viewing mapping of one layer. */
  function MapLayer(l: GeoData): NowViewingEntry
    reads l
  {
    NowViewingEntry(EntryDescription(l), l.show, l)
  }

  function MapEntries(layers: seq<GeoData>): (r: seq<NowViewingEntry>)
    reads layers
    ensures |r| == |layers|
    ensures forall k :: 0 <= k < |layers| ==> r[k] == MapLayer(layers[k])
  {
    if layers == [] then [] else [MapLayer(layers[0])] + MapEntries(layers[1..])
  }

  /** The now-viewing list built from the data manager's layers: one entry
      per layer, the last layer first, each showing as its layer does. */
  function Project(layers: seq<GeoData>): (r: seq<NowViewingEntry>)
    reads layers
    ensures |r| == |layers|
    ensures forall k :: 0 <= k < |r| ==>
      r[k].layer == layers[|layers| - 1 - k] && r[k].show == layers[|layers| - 1 - k].show &&
      r[k].description == EntryDescription(layers[|layers| - 1 - k])
  {
    MapEntries(GetLayers(layers))
  }

  /** Array.prototype.indexOf: the first position of the layer, or -1. */
  function IndexOfLayer(layers: seq<GeoData>, l: GeoData?): (r: int)
    ensures -1 <= r < |layers|
    ensures r == -1 <==> l !in layers
    ensures r >= 0 ==> layers[r] == l && l !in layers[..r]
  {
    if l in layers then Position(layers, l) else -1
  }

  /** zoomToItem: the extent the camera is moved to, or none when the item has
      no layer or its layer has no extent (the command then does nothing). */
  function ZoomTarget(layer: GeoData?): (r: Option<Extent>)
    ensures r.None? <==> layer == null || layer.extent.None?
    ensures r.Some? ==> r == layer.extent
  {
    if layer == null || layer.extent.None? then None else layer.extent
  }

  /** zoomToItem on a layer made from a description does nothing exactly
      when the description has none of the four bounding-box encodings. */
  lemma ZoomNeedsABox(d: Description, layer: GeoData)
    requires GetOGCLayerExtent(d).Ok? && layer.extent == GetOGCLayerExtent(d).value
    ensures ZoomTarget(layer).None? <==> forall e :: !Present(d, e)
  {
  }
}
