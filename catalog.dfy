/** The catalog tree of the data browser (GeoDataBrowserViewModel.js):
    the descriptions the catalog is built from, categories whose children
    are fetched lazily from a capabilities document, the composition of the
    initial tree and the import of dropped JSON files. */
module Catalog {
  import opened Common

  /** A bounding-box element of a capabilities document: its attributes, as text. */
  type Box = map<string, string>

  /** A catalog description, as read from a catalog or capabilities document.
      Every property may be absent. `kind` is the `type` property, `title` is
      `Title`, `baseUrl` is `base_url`, `layer` is `Layer` (the children) and
      `extType` is `nm_ext_type`. */
  datatype Description = Description(
    name: Option<string>,
    title: Option<string>,
    url: Option<string>,
    baseUrl: Option<string>,
    kind: Option<string>,
    proxy: Option<bool>,
    count: Option<int>,
    layer: Option<seq<Description>>,
    extType: Option<string>,
    wgs84BoundingBox: Option<Box>,
    latLonBoundingBox: Option<Box>,
    exGeographicBoundingBox: Option<Box>,
    boundingBox: Option<Box>)

  /** The description with no property at all. */
  const Blank := Description(None, None, None, None, None, None, None, None, None, None, None, None, None)

  // ---------------------------------------------------------------------
  // Lazily loaded categories

  /** The layer list of a category made from a capabilities answer: its own
      `Layer` when it has one; otherwise it is itself a lazy category, whose
      list is empty while it is closed. */
  function AnswerLayers(answer: Description): (r: seq<Description>)
    ensures answer.layer.None? ==> r == []
    ensures answer.layer.Some? ==> r == answer.layer.value
  {
    match answer.layer
    case Some(layers) => layers
    case None => []
  }

  /** What one answered layer contributes to the category: its own sub-layers
      when it has `Layer`, otherwise the layer itself. */
  function Expand(child: Description): seq<Description>
  {
    match child.layer
    case Some(subLayers) => subLayers
    case None => [child]
  }

  /** The answered layers flattened exactly one level: every layer with
      sub-layers is replaced by them, in order. */
  function Hoisted(layers: seq<Description>): seq<Description>
  {
    if layers == [] then [] else Hoisted(layers[..|layers| - 1]) + Expand(layers[|layers| - 1])
  }

  /** A description is among the hoisted children exactly when it is a
      layer without sub-layers or a sub-layer of an answered layer. */
  lemma {:induction false} HoistedMembers(layers: seq<Description>, x: Description)
    ensures x in Hoisted(layers) <==>
      exists i :: 0 <= i < |layers| &&
        ((layers[i].layer.None? && x == layers[i]) ||
         (layers[i].layer.Some? && x in layers[i].layer.value))
  {
    if layers != [] {
      var n := |layers| - 1;
      HoistedMembers(layers[..n], x);
      assert forall i :: 0 <= i < n ==> layers[..n][i] == layers[i];
      assert x in Hoisted(layers) <==> x in Hoisted(layers[..n]) || x in Expand(layers[n]);
    }
  }

  /** Layers that have no sub-layers pass through hoisting unchanged and in order. */
  lemma {:induction false} HoistingKeepsLeaves(layers: seq<Description>)
    requires forall i :: 0 <= i < |layers| ==> layers[i].layer.None?
    ensures Hoisted(layers) == layers
  {
    if layers != [] {
      var last := layers[|layers| - 1];
      HoistingKeepsLeaves(layers[..|layers| - 1]);
      assert Expand(last) == [last];
      assert layers[..|layers| - 1] + [last] == layers;
    }
  }

  /** Hoisting one more answered layer appends what it contributes. */
  lemma HoistedStep(layers: seq<Description>, i: nat)
    requires i < |layers|
    ensures Hoisted(layers[..i + 1]) == Hoisted(layers[..i]) + Expand(layers[i])
  {
    assert layers[..i + 1][..i] == layers[..i];
  }

  /** A catalog category (createCategory). A category whose description has no
      `Layer` gets a lazily computed child list: the capabilities of the
      category are requested the first time it is open, once, and the answer
      fills `layer`. The request goes to code outside this model; it is
      recorded in `requests`, and its answer arrives through
      `DeliverCapabilities`. */
  class Category {
    const data: Description
    const isLazy: bool
    var name: Option<string>
    var isOpen: bool
    var isLoading: bool
    var layerRequested: bool
    var layer: seq<Description>
    /** The `getCapabilities` requests issued, by the description each was keyed by. */
    var requests: seq<Description>

    ghost predicate Valid()
      reads this
    {
      && isLazy == data.layer.None?
      && (!isLazy ==> !layerRequested && !isLoading)
      && (layerRequested ==> requests == [data])
      && (!layerRequested ==> requests == [] && !isLoading && (isLazy ==> layer == []))
    }

    /** createCategory: a closed category that is not loading; its children are
        its own `Layer`, or, without one, a lazy list that is empty for now. */
    constructor (data: Description)
      ensures Valid()
      ensures this.data == data && name == data.name
      ensures !isOpen && !isLoading && requests == []
      ensures layer == if data.layer.Some? then data.layer.value else []
    {
      this.data := data;
      isLazy := data.layer.None?;
      name := data.name;
      isOpen := false;
      isLoading := false;
      layerRequested := false;
      layer := if data.layer.Some? then data.layer.value else [];
      requests := [];
    }

    /** Setting `isOpen` (the openItem and toggleCategoryOpen commands). The
        lazy list is computed again: the first time the category is open its
        capabilities are requested and it starts loading; never again after. */
    method SetOpen(open: bool)
      requires Valid()
      modifies this`isOpen, this`isLoading, this`layerRequested, this`requests
      ensures Valid()
      ensures isOpen == open
      ensures layerRequested == (old(layerRequested) || (isLazy && open))
      ensures |requests| <= 1
      ensures requests != old(requests) ==> open && isLoading && requests == [data]
      ensures requests == old(requests) ==> isLoading == old(isLoading)
    {
      isOpen := open;
      if isLazy && !layerRequested && open {
        isLoading := true;
        requests := requests + [data];
        layerRequested := true;
      }
    }

    /** The toggleCategoryOpen and openItem commands: `isOpen` is flipped. */
    method Toggle()
      requires Valid()
      modifies this`isOpen, this`isLoading, this`layerRequested, this`requests
      ensures Valid()
      ensures isOpen == !old(isOpen)
      ensures layerRequested == (old(layerRequested) || (isLazy && isOpen))
      ensures |requests| <= 1
      ensures requests != old(requests) ==> isOpen && isLoading && requests == [data]
      ensures requests == old(requests) ==> isLoading == old(isLoading)
    {
      SetOpen(!isOpen);
    }

    /** The loops of the answer: each answered layer's sub-layers, or the
        layer itself when it has none, pushed in order. */
    method AppendHoisted(layers: seq<Description>)
      modifies this`layer
      ensures layer == old(layer) + Hoisted(layers)
    {
      var i := 0;
      while i < |layers|
        invariant 0 <= i <= |layers|
        invariant layer == old(layer) + Hoisted(layers[..i])
      {
        HoistedStep(layers, i);
        if layers[i].layer.Some? {
          PushAll(layers[i].layer.value);
        } else {
          layer := layer + [layers[i]];
        }
        i := i + 1;
      }
      assert layers[..|layers|] == layers;
    }

    /** The inner loop of the answer: every sub-layer pushed in order. */
    method PushAll(items: seq<Description>)
      modifies this`layer
      ensures layer == old(layer) + items
    {
      var j := 0;
      while j < |items|
        invariant 0 <= j <= |items|
        invariant layer == old(layer) + items[..j]
      {
        assert items[..j + 1] == items[..j] + [items[j]];
        layer := layer + [items[j]];
        j := j + 1;
      }
      assert items[..j] == items;
    }

    /** The answer to the capabilities request. The category takes the
        answer's name and appends the answered layers, hoisted one level, then
        stops loading. A missing name on either side is a call of an
        undefined observable: a TypeError, and nothing changes. */
    method DeliverCapabilities(answer: Description) returns (r: Result<()>)
      requires Valid() && layerRequested
      modifies this`name, this`layer, this`isLoading
      ensures Valid()
      ensures r.Ok? <==> answer.name.Some? && old(name).Some?
      ensures r.Ok? ==> name == answer.name && !isLoading
      ensures r.Ok? ==> layer == old(layer) + Hoisted(AnswerLayers(answer))
      ensures r.TypeError? ==> name == old(name) && layer == old(layer) && isLoading == old(isLoading)
    {
      if answer.name.None? {
        return TypeError("remapped.name");
      }
      if name.None? {
        return TypeError("viewModel.name");
      }
      name := answer.name;
      AppendHoisted(AnswerLayers(answer));
      isLoading := false;
      r := Ok(());
    }
  }

  // ---------------------------------------------------------------------
  // The initial catalog

  /** The initial top-level list: the data collection first, then every
      `Layer` entry of the other-sources document; reading `Layer` of a
      document without one throws. */
  method ComposeBrowserContent(dataCollection: Description, otherSources: Description)
    returns (r: Result<seq<Description>>)
    ensures r.TypeError? <==> otherSources.layer.None?
    ensures r.Ok? ==> |r.value| == 1 + |otherSources.layer.value|
    ensures r.Ok? ==> r.value[0] == dataCollection && r.value[1..] == otherSources.layer.value
  {
    var browserContent := [dataCollection];
    if otherSources.layer.None? {
      return TypeError("otherSources.length");
    }
    var other := otherSources.layer.value;
    var i := 0;
    while i < |other|
      invariant 0 <= i <= |other|
      invariant browserContent == [dataCollection] + other[..i]
    {
      browserContent := browserContent + [other[i]];
      i := i + 1;
    }
    assert other[..|other|] == other;
    r := Ok(browserContent);
  }

  // ---------------------------------------------------------------------
  // Importing dropped JSON files

  /** The ASCII upper-case of a character (String.prototype.toUpperCase on
      the characters a file name is made of). */
  function ToUpper(c: char): char
  {
    if 'a' <= c <= 'z' then (c as int - 32) as char else c
  }

  function UpperCase(s: string): (r: string)
    ensures |r| == |s|
    ensures forall i :: 0 <= i < |s| ==> r[i] == ToUpper(s[i])
  {
    seq(|s|, i requires 0 <= i < |s| => ToUpper(s[i]))
  }

  /** `sub` occurs in `s` at position `k`. */
  predicate OccursAt(s: string, sub: string, k: nat)
  {
    k + |sub| <= |s| && s[k..k + |sub|] == sub
  }

  /** String.prototype.indexOf: the first position where `sub` occurs in `s`, or -1. */
  function IndexOf(s: string, sub: string): (r: int)
    ensures -1 <= r <= |s|
    ensures r >= 0 ==> OccursAt(s, sub, r)
    ensures r >= 0 ==> forall k: nat :: k < r ==> !OccursAt(s, sub, k)
    ensures r == -1 ==> forall k: nat :: !OccursAt(s, sub, k)
    decreases |s|
  {
    if |s| < |sub| then -1
    else if s[..|sub|] == sub then 0
    else
      var rest := IndexOf(s[1..], sub);
      assert forall k: nat :: OccursAt(s, sub, k + 1) <==> OccursAt(s[1..], sub, k) by {
        forall k: nat ensures OccursAt(s, sub, k + 1) <==> OccursAt(s[1..], sub, k) {
          if k + 1 + |sub| <= |s| {
            assert s[k + 1..k + 1 + |sub|] == s[1..][k..k + |sub|];
          }
        }
      }
      assert !OccursAt(s, sub, 0);
      if rest == -1 then
        assert forall k: nat :: k >= 1 ==> OccursAt(s, sub, k) == OccursAt(s[1..], sub, k - 1);
        -1
      else
        assert forall k: nat :: 1 <= k ==> OccursAt(s, sub, k) == OccursAt(s[1..], sub, k - 1);
        rest + 1
  }

  /** The drop handler reads a file exactly when its upper-cased name
      contains ".JSON" somewhere, not only at the end. */
  predicate IsJsonFileName(fileName: string): (b: bool)
    ensures b <==> exists k: nat :: OccursAt(UpperCase(fileName), ".JSON", k)
  {
    IndexOf(UpperCase(fileName), ".JSON") != -1
  }

  /** The filter matches inside a name too: whatever follows ".json", and
      whatever precedes it, the file is read ("layers.json.bak" as well as
      "layers.json"), in any letter case. */
  lemma FilterMatchesInsideName(stem: string, suffix: string)
    ensures IsJsonFileName(stem + ".json" + suffix)
    ensures IsJsonFileName(stem + ".JSON" + suffix)
  {
    var k := |stem|;
    var lower := stem + ".json" + suffix;
    assert lower[k..k + 5] == ".json";
    assert UpperCase(lower)[k..k + 5] == ".JSON";
    assert OccursAt(UpperCase(lower), ".JSON", k);
    var upper := stem + ".JSON" + suffix;
    assert upper[k..k + 5] == ".JSON";
    assert UpperCase(upper)[k..k + 5] == ".JSON";
    assert OccursAt(UpperCase(upper), ".JSON", k);
  }

  /** A name without the letter J in either case is never read. */
  lemma FilterSkipsOtherNames(fileName: string)
    requires 'j' !in fileName && 'J' !in fileName
    ensures !IsJsonFileName(fileName)
  {
    var upper := UpperCase(fileName);
    forall k: nat
      ensures !OccursAt(upper, ".JSON", k)
    {
      if k + 5 <= |upper| {
        assert fileName[k + 1] in fileName;
        assert upper[k + 1] == ToUpper(fileName[k + 1]) != 'J';
        assert upper[k..k + 5][1] == upper[k + 1];
      }
    }
  }

  /** The loop of the drop handler over the dropped files: the positions of
      the files it reads, in order. */
  method SelectJsonFiles(fileNames: seq<string>) returns (picked: seq<nat>)
    ensures forall k :: 0 <= k < |picked| ==> picked[k] < |fileNames| && IsJsonFileName(fileNames[picked[k]])
    ensures forall k, m :: 0 <= k < m < |picked| ==> picked[k] < picked[m]
    ensures forall i :: 0 <= i < |fileNames| && IsJsonFileName(fileNames[i]) ==> i in picked
  {
    picked := [];
    var i := 0;
    while i < |fileNames|
      invariant 0 <= i <= |fileNames|
      invariant forall k :: 0 <= k < |picked| ==> picked[k] < i && IsJsonFileName(fileNames[picked[k]])
      invariant forall k, m :: 0 <= k < m < |picked| ==> picked[k] < picked[m]
      invariant forall j :: 0 <= j < i && IsJsonFileName(fileNames[j]) ==> j in picked
    {
      if !IsJsonFileName(fileNames[i]) {
        i := i + 1;
        continue;
      }
      picked := picked + [i];
      i := i + 1;
    }
  }

  /** What loadCollection makes of one dropped document. */
  datatype Import =
    | Ignored
      /** the collections to merge, one after another */
    | Collections(items: seq<Description>)
      /** `collections` was left undefined and reading its length throws;
          `addedServices` says whether the services were handed on first */
    | Throws(addedServices: bool)

  function ImportOf(json: Option<Description>): (r: Import)
    ensures r.Ignored? <==> json.None? || json.value.name.None?
    ensures r.Collections? ==> json.value.extType in {Some("sources"), Some("collections")}
    ensures r.Collections? && json.value.extType == Some("collections") ==> r.items == [json.value]
    ensures r.Collections? && json.value.extType == Some("sources") ==> Some(r.items) == json.value.layer
    ensures r.Throws? ==> (r.addedServices <==> json.value.extType == Some("services"))
    ensures json.Some? && json.value.name.Some? && json.value.extType == Some("collections") ==>
      r == Collections([json.value])
    ensures json.Some? && json.value.name.Some? && json.value.extType == Some("sources") ==>
      (r.Collections? <==> json.value.layer.Some?)
  {
    match json
    case None => Ignored
    case Some(doc) =>
      if doc.name.None? then Ignored
      else if doc.extType == Some("sources") then
        (match doc.layer case Some(items) => Collections(items) case None => Throws(false))
      else if doc.extType == Some("collections") then Collections([doc])
      else Throws(doc.extType == Some("services"))
  }

  /** The search for an existing top-level entry with a given name: the first
      such entry; reading the name of an entry that has none throws. */
  function FindByName(content: seq<Description>, name: Option<string>): (r: Result<Option<nat>>)
    ensures r.Ok? && r.value.Some? ==>
      r.value.value < |content| && content[r.value.value].name == name &&
      forall k :: 0 <= k < r.value.value ==> content[k].name.Some? && content[k].name != name
    ensures r.Ok? && r.value.None? ==>
      forall k :: 0 <= k < |content| ==> content[k].name.Some? && content[k].name != name
    ensures r.TypeError? ==>
      exists k :: 0 <= k < |content| && content[k].name.None? &&
        forall m :: 0 <= m < k ==> content[m].name.Some? && content[m].name != name
  {
    if content == [] then Ok(None)
    else if content[0].name.None? then TypeError("existingCollections[j].name")
    else if content[0].name == name then Ok(Some(0))
    else
      match FindByName(content[1..], name)
      case Ok(Some(j)) => Ok(Some(j + 1))
      case Ok(None) => Ok(None)
      case TypeError(what) =>
        var k :| 0 <= k < |content[1..]| && content[1..][k].name.None? &&
          (forall m :: 0 <= m < k ==> content[1..][m].name.Some? && content[1..][m].name != name);
        assert content[k + 1].name.None?;
        TypeError(what)
  }

  /** FindByName answers the first entry with the name. */
  lemma {:induction false} FindByNameFirst(content: seq<Description>, name: Option<string>, j: nat)
    requires name.Some? && j < |content| && content[j].name == name
    requires forall k :: 0 <= k < j ==> content[k].name.Some? && content[k].name != name
    ensures FindByName(content, name) == Ok(Some(j))
  {
    if j > 0 {
      FindByNameFirst(content[1..], name, j - 1);
    }
  }

  /** FindByName answers "none" when every entry is named otherwise. */
  lemma {:induction false} FindByNameNone(content: seq<Description>, name: Option<string>)
    requires forall k :: 0 <= k < |content| ==> content[k].name.Some? && content[k].name != name
    ensures FindByName(content, name) == Ok(None)
  {
    if content != [] {
      FindByNameNone(content[1..], name);
    }
  }

  /** The inner loop of loadCollection, with its `break` on the first match. */
  method FindExisting(content: seq<Description>, name: Option<string>) returns (r: Result<Option<nat>>)
    ensures r == FindByName(content, name)
  {
    var j := 0;
    while j < |content|
      invariant 0 <= j <= |content|
      invariant forall k :: 0 <= k < j ==> content[k].name.Some? && content[k].name != name
    {
      if content[j].name.None? {
        r := TypeError("existingCollections[j].name");
        assert FindByName(content, name) == r by { FindByNameUnnamed(content, name, j); }
        return;
      }
      if content[j].name == name {
        FindByNameFirst(content, name, j);
        return Ok(Some(j));
      }
      j := j + 1;
    }
    FindByNameNone(content, name);
    r := Ok(None);
  }

  /** FindByName throws at the first unnamed entry reached before a match. */
  lemma {:induction false} FindByNameUnnamed(content: seq<Description>, name: Option<string>, j: nat)
    requires j < |content| && content[j].name.None?
    requires forall k :: 0 <= k < j ==> content[k].name.Some? && content[k].name != name
    ensures FindByName(content, name) == TypeError("existingCollections[j].name")
  {
    if j > 0 {
      FindByNameUnnamed(content[1..], name, j - 1);
    }
  }

  /** The in-place update of an existing entry: every flat property of
      `incoming` replaces the one of `existing`, a bounding box present on
      both sides is updated corner by corner, and the properties `incoming`
      lacks are kept. */
  function Update(existing: Description, incoming: Description): (r: Description)
    ensures incoming.name.Some? ==> r.name == incoming.name
    ensures incoming.layer.Some? ==> r.layer == incoming.layer
    ensures incoming.wgs84BoundingBox.Some? && existing.wgs84BoundingBox.Some? ==>
      r.wgs84BoundingBox.Some? && r.wgs84BoundingBox.value.Keys == incoming.wgs84BoundingBox.value.Keys + existing.wgs84BoundingBox.value.Keys
    ensures incoming.title.Some? ==> r.title == incoming.title
    ensures incoming.title.None? ==> r.title == existing.title
    ensures incoming.url.Some? ==> r.url == incoming.url
    ensures incoming.url.None? ==> r.url == existing.url
    ensures incoming.baseUrl.Some? ==> r.baseUrl == incoming.baseUrl
    ensures incoming.baseUrl.None? ==> r.baseUrl == existing.baseUrl
    ensures incoming.kind.Some? ==> r.kind == incoming.kind
    ensures incoming.kind.None? ==> r.kind == existing.kind
    ensures incoming.proxy.Some? ==> r.proxy == incoming.proxy
    ensures incoming.proxy.None? ==> r.proxy == existing.proxy
    ensures incoming.count.Some? ==> r.count == incoming.count
    ensures incoming.count.None? ==> r.count == existing.count
    ensures incoming.extType.Some? ==> r.extType == incoming.extType
    ensures incoming.extType.None? ==> r.extType == existing.extType
    ensures incoming.layer.None? ==> r.layer == existing.layer
    ensures incoming.name.None? ==> r.name == existing.name
    ensures r.wgs84BoundingBox == MergeBox(incoming.wgs84BoundingBox, existing.wgs84BoundingBox)
    ensures r.latLonBoundingBox == MergeBox(incoming.latLonBoundingBox, existing.latLonBoundingBox)
    ensures r.exGeographicBoundingBox == MergeBox(incoming.exGeographicBoundingBox, existing.exGeographicBoundingBox)
    ensures r.boundingBox == MergeBox(incoming.boundingBox, existing.boundingBox)
  {
    Description(
      Pick(incoming.name, existing.name),
      Pick(incoming.title, existing.title),
      Pick(incoming.url, existing.url),
      Pick(incoming.baseUrl, existing.baseUrl),
      Pick(incoming.kind, existing.kind),
      Pick(incoming.proxy, existing.proxy),
      Pick(incoming.count, existing.count),
      Pick(incoming.layer, existing.layer),
      Pick(incoming.extType, existing.extType),
      MergeBox(incoming.wgs84BoundingBox, existing.wgs84BoundingBox),
      MergeBox(incoming.latLonBoundingBox, existing.latLonBoundingBox),
      MergeBox(incoming.exGeographicBoundingBox, existing.exGeographicBoundingBox),
      MergeBox(incoming.boundingBox, existing.boundingBox))
  }

  /** Updating with an empty collection keeps the entry; updating an empty
      entry gives the collection. */
  lemma UpdateWithBlank(existing: Description, incoming: Description)
    ensures Update(existing, Blank) == existing
    ensures Update(Blank, incoming) == incoming
  {
    var kept := Update(existing, Blank);
    assert kept.wgs84BoundingBox == existing.wgs84BoundingBox && kept.boundingBox == existing.boundingBox;
    var taken := Update(Blank, incoming);
    assert taken.wgs84BoundingBox == incoming.wgs84BoundingBox && taken.boundingBox == incoming.boundingBox;
  }

  /** A flat property: the newer value when there is one. */
  function Pick<T>(newer: Option<T>, older: Option<T>): (r: Option<T>)
    ensures newer.Some? ==> r == newer
    ensures newer.None? ==> r == older
  {
    if newer.Some? then newer else older
  }

  /** A nested object is updated key by key: the keys of `newer` take its
      values, the other keys of `older` keep theirs. */
  function MergeBox(newer: Option<Box>, older: Option<Box>): (r: Option<Box>)
    ensures r.Some? <==> newer.Some? || older.Some?
    ensures r.Some? ==> r.value.Keys == (if newer.Some? then newer.value.Keys else {}) +
                                       (if older.Some? then older.value.Keys else {})
    ensures newer.Some? ==> forall k :: k in newer.value ==> r.value[k] == newer.value[k]
    ensures newer.Some? && older.Some? ==>
      forall k :: k in older.value && k !in newer.value ==> r.value[k] == older.value[k]
    ensures newer.None? ==> r == older
    ensures older.None? ==> r == newer
  {
    if newer.Some? && older.Some? then Some(older.value + newer.value) else Pick(newer, older)
  }

  /** Merging one incoming collection into the top-level list: the first
      entry with its name is updated in place, otherwise it is appended. */
  function MergeOne(content: seq<Description>, incoming: Description): (r: Result<seq<Description>>)
    ensures r.TypeError? <==> FindByName(content, incoming.name).TypeError?
    ensures r.TypeError? ==> exists k :: 0 <= k < |content| && content[k].name.None?
    ensures forall j :: FindByName(content, incoming.name) == Ok(Some(j)) ==>
      j < |content| && r == Ok(content[j := Update(content[j], incoming)])
    ensures FindByName(content, incoming.name) == Ok(None) ==> r == Ok(content + [incoming])
    ensures r.Ok? ==> |content| <= |r.value| <= |content| + 1
    ensures r.Ok? ==> exists k :: 0 <= k < |r.value| && r.value[k].name == incoming.name
    ensures r.Ok? ==> forall k :: 0 <= k < |content| && content[k].name != incoming.name ==> r.value[k] == content[k]
  {
    match FindByName(content, incoming.name)
    case TypeError(what) => TypeError(what)
    case Ok(Some(j)) =>
      var updated := content[j := Update(content[j], incoming)];
      assert updated[j].name == incoming.name;
      Ok(updated)
    case Ok(None) =>
      var appended := content + [incoming];
      assert appended[|content|] == incoming;
      Ok(appended)
  }

  /** The top-level list after merging collections one after another, and
      whether a merge threw (the collections after it are not merged). */
  datatype Merged = Merged(content: seq<Description>, threw: bool)

  function MergeAll(content: seq<Description>, incoming: seq<Description>): (r: Merged)
    ensures |content| <= |r.content| <= |content| + |incoming|
  {
    if incoming == [] then Merged(content, false)
    else
      var before := MergeAll(content, incoming[..|incoming| - 1]);
      if before.threw then before
      else match MergeOne(before.content, incoming[|incoming| - 1])
        case TypeError(_) => Merged(before.content, true)
        case Ok(after) => Merged(after, false)
  }

  /** Once a merge has thrown, the later collections change nothing. */
  lemma {:induction false} MergeAllStops(content: seq<Description>, incoming: seq<Description>, i: nat)
    requires i <= |incoming| && MergeAll(content, incoming[..i]).threw
    ensures MergeAll(content, incoming) == MergeAll(content, incoming[..i])
    decreases |incoming|
  {
    if i < |incoming| {
      var shorter := incoming[..|incoming| - 1];
      assert shorter[..i] == incoming[..i];
      MergeAllStops(content, shorter, i);
    } else {
      assert incoming[..i] == incoming;
    }
  }

  /** One more collection merged after a prefix that did not throw. */
  lemma MergeAllStep(content: seq<Description>, incoming: seq<Description>, i: nat)
    requires i < |incoming| && !MergeAll(content, incoming[..i]).threw
    ensures var before := MergeAll(content, incoming[..i]).content;
      MergeAll(content, incoming[..i + 1]) ==
        match MergeOne(before, incoming[i])
        case TypeError(_) => Merged(before, true)
        case Ok(after) => Merged(after, false)
  {
    assert incoming[..i + 1][..i] == incoming[..i];
  }

  /** The loop of loadCollection over the incoming collections: each is
      merged in turn, and the first merge that throws ends the loop, the
      earlier merges kept. */
  method MergeCollections(content: seq<Description>, incoming: seq<Description>) returns (r: Merged)
    ensures r == MergeAll(content, incoming)
  {
    var current := content;
    var i := 0;
    while i < |incoming|
      invariant 0 <= i <= |incoming|
      invariant MergeAll(content, incoming[..i]) == Merged(current, false)
    {
      MergeAllStep(content, incoming, i);
      var existing := FindExisting(current, incoming[i].name);
      match existing {
        case TypeError(_) =>
          r := Merged(current, true);
          MergeAllStops(content, incoming, i + 1);
          return;
        case Ok(Some(j)) =>
          current := current[j := Update(current[j], incoming[i])];
        case Ok(None) =>
          current := current + [incoming[i]];
      }
      i := i + 1;
    }
    assert incoming[..i] == incoming;
    r := Merged(current, false);
  }

  /** No two named entries share a name. */
  ghost predicate NamesDistinct(content: seq<Description>)
  {
    forall i, j :: 0 <= i < j < |content| && content[i].name.Some? ==> content[i].name != content[j].name
  }

  /** A merge keeps every existing entry in place with its name, and grows
      the list by one exactly when no entry had the incoming name. */
  lemma MergeOneShape(content: seq<Description>, incoming: Description)
    requires MergeOne(content, incoming).Ok?
    ensures var r := MergeOne(content, incoming).value;
      && (|r| == |content| + 1 <==> forall k :: 0 <= k < |content| ==> content[k].name != incoming.name)
      && (|r| == |content| || |r| == |content| + 1)
      && (forall k :: 0 <= k < |content| ==> r[k].name == content[k].name)
      && (|r| == |content| + 1 ==> r[|content|] == incoming)
  {
  }

  /** Importing never gains a duplicate name: a list with distinct names
      keeps them distinct after a merge. */
  lemma MergeKeepsNamesDistinct(content: seq<Description>, incoming: Description)
    requires NamesDistinct(content) && MergeOne(content, incoming).Ok?
    ensures NamesDistinct(MergeOne(content, incoming).value)
  {
    var r := MergeOne(content, incoming).value;
    match FindByName(content, incoming.name)
    case Ok(Some(j)) =>
      assert r == content[j := Update(content[j], incoming)];
      assert r[j].name == content[j].name;
      forall i, k | 0 <= i < k < |r| && r[i].name.Some?
        ensures r[i].name != r[k].name
      {
        assert r[i].name == content[i].name && r[k].name == content[k].name;
      }
    case Ok(None) =>
      forall i, k | 0 <= i < k < |r| && r[i].name.Some?
        ensures r[i].name != r[k].name
      {
        if k == |content| {
          assert r[i].name == content[i].name;
        }
      }
  }

  /** However many collections a document brings, and wherever the merging
      stops, the top-level list never gains a second entry with a name it
      already holds. */
  lemma {:induction false} MergeAllKeepsNamesDistinct(content: seq<Description>, incoming: seq<Description>)
    requires NamesDistinct(content)
    ensures NamesDistinct(MergeAll(content, incoming).content)
  {
    if incoming != [] {
      var prefix := incoming[..|incoming| - 1];
      MergeAllKeepsNamesDistinct(content, prefix);
      var before := MergeAll(content, prefix);
      if !before.threw && MergeOne(before.content, incoming[|incoming| - 1]).Ok? {
        MergeKeepsNamesDistinct(before.content, incoming[|incoming| - 1]);
      }
    }
  }

  /** Merging the same box again changes nothing more. */
  lemma MergeBoxIdempotent(newer: Option<Box>, older: Option<Box>)
    ensures MergeBox(newer, MergeBox(newer, older)) == MergeBox(newer, older)
    ensures MergeBox(newer, newer) == newer
  {
    if newer.Some? {
      assert newer.value + newer.value == newer.value;
      if older.Some? {
        assert (older.value + newer.value) + newer.value == older.value + newer.value;
      }
    }
  }

  /** Updating with the same collection again changes nothing more. */
  lemma UpdateIdempotent(existing: Description, incoming: Description)
    ensures Update(Update(existing, incoming), incoming) == Update(existing, incoming)
    ensures Update(incoming, incoming) == incoming
  {
    MergeBoxIdempotent(incoming.wgs84BoundingBox, existing.wgs84BoundingBox);
    MergeBoxIdempotent(incoming.latLonBoundingBox, existing.latLonBoundingBox);
    MergeBoxIdempotent(incoming.exGeographicBoundingBox, existing.exGeographicBoundingBox);
    MergeBoxIdempotent(incoming.boundingBox, existing.boundingBox);
  }

  /** Importing the same named collection twice is the same as importing it
      once: the second import updates the entry the first one made. */
  lemma {:induction false} ReimportIsIdempotent(content: seq<Description>, incoming: Description)
    requires incoming.name.Some? && MergeOne(content, incoming).Ok?
    ensures MergeOne(MergeOne(content, incoming).value, incoming) == MergeOne(content, incoming)
  {
    var r := MergeOne(content, incoming).value;
    match FindByName(content, incoming.name)
    case Ok(Some(j)) =>
      assert r[j] == Update(content[j], incoming);
      FindByNameFirst(r, incoming.name, j);
      UpdateIdempotent(content[j], incoming);
      assert r[j := Update(r[j], incoming)] == r;
    case Ok(None) =>
      FindByNameFirst(r, incoming.name, |content|);
      UpdateIdempotent(incoming, incoming);
      assert r[|content| := Update(r[|content|], incoming)] == r;
  }
}
