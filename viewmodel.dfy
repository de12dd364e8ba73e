/** The data browser's view-model (GeoDataBrowserViewModel): the panel and
    tab flags, the catalog's top-level list and the user's own categories,
    the now-viewing list kept as the reverse of the data manager's layers,
    and the drag-to-reorder commands. Calls on the data managers are
    recorded in `calls`; the answers of code outside this model (whether a
    format is supported, the user's confirmation, the OGC feature URL) are
    parameters. */
module ViewModel {
  import opened Common
  import opened Panels
  import opened Catalog
  import opened Layers
  import opened DragReorder

  /** A catalog data source (createDataSource): its description, whether it is
      enabled, and the layer made for it when it was last enabled. */
  class CatalogItem {
    const data: Description
    var isEnabled: bool
    var layer: GeoData?

    constructor (data: Description)
      ensures this.data == data && !isEnabled && layer == null
    {
      this.data := data;
      isEnabled := false;
      layer := null;
    }
  }

  /** What a drag-enter did: nothing (the placeholder itself, or an element
      outside the list), moved the placeholder, or threw a TypeError (after
      moving the placeholder, when `moved`). */
  datatype DragEnterOutcome = Unaffected | Placed | Threw(moved: bool)

  class GeoDataBrowserViewModel {
    const dataManager: DataManager
    const nowViewingList: ListElement

    var showingPanel: bool
    var showingMapPanel: bool
    var addDataIsOpen: bool
    var nowViewingIsOpen: bool
    var imageryIsOpen: bool
    var viewerSelectionIsOpen: bool
    var wfsServiceUrl: string

    /** The catalog's top-level collections. */
    var content: seq<Description>
    /** Categories the user added by URL. */
    var userContent: seq<Category>
    var nowViewing: seq<NowViewingEntry>
    /** Calls made on the data managers, oldest first. */
    var calls: seq<Call>

    var draggedNowViewingItem: Element?
    /** The layer of the entry being dragged, as the drop listener captured it. */
    var draggedLayer: GeoData?
    var dragPlaceholder: Element?

    function Flags(): PanelState
      reads this
    {
      PanelState(showingPanel, showingMapPanel, addDataIsOpen, nowViewingIsOpen, imageryIsOpen, viewerSelectionIsOpen)
    }

    ghost predicate Valid()
      reads this, nowViewingList
    {
      && PanelsExclusive(Flags())
      && OneTabOpen(Flags())
      && Distinct(nowViewingList.childNodes)
      && (draggedNowViewingItem != null ==> draggedLayer != null)
    }

    /** The view-model as constructed: panels hidden, the now-viewing tab and
        the imagery tab open, an empty URL, no catalog yet (it is loaded
        asynchronously) and the now-viewing list built from the data
        manager's layers. */
    constructor (dataManager: DataManager, nowViewingList: ListElement)
      requires Distinct(nowViewingList.childNodes)
      ensures Valid()
      ensures this.dataManager == dataManager && this.nowViewingList == nowViewingList
      ensures Flags() == Initial && wfsServiceUrl == ""
      ensures content == [] && userContent == [] && calls == []
      ensures nowViewing == Project(dataManager.layers)
      ensures draggedNowViewingItem == null && draggedLayer == null && dragPlaceholder == null
    {
      this.dataManager := dataManager;
      this.nowViewingList := nowViewingList;
      showingPanel := false;
      showingMapPanel := false;
      addDataIsOpen := false;
      nowViewingIsOpen := true;
      imageryIsOpen := true;
      viewerSelectionIsOpen := false;
      wfsServiceUrl := "";
      content := [];
      userContent := [];
      nowViewing := Project(dataManager.layers);
      calls := [];
      draggedNowViewingItem := null;
      draggedLayer := null;
      dragPlaceholder := null;
    }

    // -------------------------------------------------------------------
    // Panel and tab commands

    method ToggleShowingPanel()
      requires Valid()
      modifies this`showingPanel, this`showingMapPanel
      ensures Valid() && Flags() == Apply(old(Flags()), PanelCommand.ToggleShowingPanel)
    {
      ApplyPreservesInvariants(Flags(), PanelCommand.ToggleShowingPanel);
      showingPanel := !showingPanel;
      if showingPanel {
        showingMapPanel := false;
      }
    }

    method ToggleShowingMapPanel()
      requires Valid()
      modifies this`showingPanel, this`showingMapPanel
      ensures Valid() && Flags() == Apply(old(Flags()), PanelCommand.ToggleShowingMapPanel)
    {
      ApplyPreservesInvariants(Flags(), PanelCommand.ToggleShowingMapPanel);
      showingMapPanel := !showingMapPanel;
      if showingMapPanel {
        showingPanel := false;
      }
    }

    method OpenAddData()
      requires Valid()
      modifies this`addDataIsOpen
      ensures Valid() && Flags() == Apply(old(Flags()), PanelCommand.OpenAddData)
    {
      addDataIsOpen := !addDataIsOpen;
    }

    method OpenNowViewing()
      requires Valid()
      modifies this`nowViewingIsOpen
      ensures Valid() && Flags() == Apply(old(Flags()), PanelCommand.OpenNowViewing)
    {
      nowViewingIsOpen := !nowViewingIsOpen;
    }

    method OpenImagery()
      requires Valid()
      modifies this`imageryIsOpen, this`viewerSelectionIsOpen
      ensures Valid() && Flags() == Apply(old(Flags()), PanelCommand.OpenImagery)
    {
      imageryIsOpen := true;
      viewerSelectionIsOpen := false;
    }

    method OpenViewerSelection()
      requires Valid()
      modifies this`imageryIsOpen, this`viewerSelectionIsOpen
      ensures Valid() && Flags() == Apply(old(Flags()), PanelCommand.OpenViewerSelection)
    {
      imageryIsOpen := false;
      viewerSelectionIsOpen := true;
    }

    // -------------------------------------------------------------------
    // Catalog

    /** The callback run when both catalog documents have loaded: the
        top-level list becomes the data collection followed by the other
        sources' layers. */
    method OnCatalogLoaded(dataCollection: Description, otherSources: Description) returns (r: Result<()>)
      modifies this`content
      ensures r.TypeError? <==> otherSources.layer.None?
      ensures r.Ok? ==> content == [dataCollection] + otherSources.layer.value
      ensures r.TypeError? ==> content == old(content)
    {
      var composed := ComposeBrowserContent(dataCollection, otherSources);
      if composed.TypeError? {
        return TypeError(composed.what);
      }
      assert composed.value == [composed.value[0]] + composed.value[1..];
      content := composed.value;
      r := Ok(());
    }

    /** loadCollection: merging one dropped JSON document into the catalog's
        top-level list. A document without a name is ignored; a "services"
        document hands its services on and then throws, as does a document
        of any other kind; otherwise its collections are merged by name, up
        to the first one whose merge throws. */
    method LoadCollection(json: Option<Description>) returns (r: Result<()>)
      modifies this`content, this`calls
      ensures ImportOf(json).Ignored? ==> r.Ok? && content == old(content) && calls == old(calls)
      ensures ImportOf(json).Throws? ==> r.TypeError? && content == old(content)
      ensures ImportOf(json).Throws? ==>
        calls == old(calls) + (if ImportOf(json).addedServices then [AddServices] else [])
      ensures ImportOf(json).Collections? ==>
        var merged := MergeAll(old(content), ImportOf(json).items);
        && content == merged.content
        && (r.TypeError? <==> merged.threw)
        && calls == old(calls)
    {
      match ImportOf(json) {
        case Ignored =>
          return Ok(());
        case Throws(addedServices) =>
          if addedServices {
            calls := calls + [AddServices];
          }
          return TypeError("collections.length");
        case Collections(items) =>
          var merged := MergeCollections(content, items);
          content := merged.content;
          r := if merged.threw then TypeError("existingCollections[j].name") else Ok(());
      }
    }

    /** addDataOrService: a URL in a supported format is loaded; otherwise a
        user category is made for it, a WFS or a WMS service as the user
        confirmed, proxied, and opened, which requests its capabilities.
        Either way the URL field is cleared. */
    method AddDataOrService(formatSupported: bool, confirmedWfs: bool) returns (category: Category?)
      modifies this`calls, this`userContent, this`wfsServiceUrl
      ensures wfsServiceUrl == ""
      ensures formatSupported ==>
        category == null && calls == old(calls) + [LoadUrl(old(wfsServiceUrl))] && userContent == old(userContent)
      ensures !formatSupported ==>
        && category != null && fresh(category) && category.Valid()
        && calls == old(calls) && userContent == old(userContent) + [category]
        && category.data == Blank.(name := Some(old(wfsServiceUrl)), baseUrl := Some(old(wfsServiceUrl)),
                                   kind := Some(if confirmedWfs then "WFS" else "WMS"), proxy := Some(true))
        && category.isOpen && category.isLoading && category.requests == [category.data]
    {
      if formatSupported {
        calls := calls + [LoadUrl(wfsServiceUrl)];
        category := null;
      } else {
        var kind := "WFS";
        if !confirmedWfs {
          kind := "WMS";
        }
        category := new Category(Blank.(name := Some(wfsServiceUrl), baseUrl := Some(wfsServiceUrl),
                                         kind := Some(kind), proxy := Some(true)));
        userContent := userContent + [category];
        category.SetOpen(true);
      }
      wfsServiceUrl := "";
    }

    // -------------------------------------------------------------------
    // Enabling and disabling catalog items

    /** toggleItemEnabled: the flag is flipped, then the item is enabled or
        disabled according to its new value. */
    method ToggleItemEnabled(item: CatalogItem, featureUrl: string) returns (r: Result<()>)
      modifies item, this`calls
      ensures item.isEnabled == !old(item.isEnabled)
      ensures !item.isEnabled ==>
        && r.Ok? && item.layer == old(item.layer)
        && calls == old(calls) + [Remove(IndexOfLayer(dataManager.layers, old(item.layer)))]
      ensures item.isEnabled ==> (r.TypeError? <==> GetOGCLayerExtent(item.data).TypeError?)
      ensures item.isEnabled && r.TypeError? ==> item.layer == old(item.layer) && calls == old(calls)
      ensures item.isEnabled && r.Ok? ==>
        && item.layer != null && fresh(item.layer)
        && item.layer.name == item.data.title && item.layer.kind == item.data.kind
        && item.layer.proxy == item.data.proxy
        && item.layer.extent == GetOGCLayerExtent(item.data).value
      ensures item.isEnabled && r.Ok? && item.data.url.Some? ==>
        && item.layer.url == item.data.url && item.layer.description == Some(item.data)
        && calls == old(calls) + [SendLayerRequest(item.layer)]
      ensures item.isEnabled && r.Ok? && item.data.url.None? ==>
        && item.layer.url == Some(featureUrl)
        && item.layer.description == Some(item.data.(count := Some(1000)))
        && calls == old(calls) + [GetOGCFeatureURL(item.data.(count := Some(1000))), SendLayerRequest(item.layer)]
    {
      item.isEnabled := !item.isEnabled;
      if item.isEnabled {
        r := EnableItem(item, featureUrl);
      } else {
        DisableItem(item);
        r := Ok(());
      }
    }

    /** enableItem: a new layer named by the item's Title, with its type, its
        extent and its proxy flag; its url is the item's url or, without one,
        the OGC feature URL for the description with count 1000; the layer is
        requested from the data manager. When the extent throws, nothing
        else happens. */
    method EnableItem(item: CatalogItem, featureUrl: string) returns (r: Result<()>)
      modifies item`layer, this`calls
      ensures r.TypeError? <==> GetOGCLayerExtent(item.data).TypeError?
      ensures r.TypeError? ==> item.layer == old(item.layer) && calls == old(calls)
      ensures r.Ok? ==>
        && item.layer != null && fresh(item.layer)
        && item.layer.name == item.data.title && item.layer.kind == item.data.kind
        && item.layer.proxy == item.data.proxy
        && item.layer.extent == GetOGCLayerExtent(item.data).value
      ensures r.Ok? && item.data.url.Some? ==>
        && item.layer.url == item.data.url && item.layer.description == Some(item.data)
        && calls == old(calls) + [SendLayerRequest(item.layer)]
      ensures r.Ok? && item.data.url.None? ==>
        && item.layer.url == Some(featureUrl)
        && item.layer.description == Some(item.data.(count := Some(1000)))
        && calls == old(calls) + [GetOGCFeatureURL(item.data.(count := Some(1000))), SendLayerRequest(item.layer)]
    {
      var description := item.data;
      var extent := GetOGCLayerExtent(description);
      if extent.TypeError? {
        return TypeError(extent.what);
      }
      var url: Option<string>;
      if description.url.Some? {
        url := description.url;
      } else {
        description := description.(count := Some(1000));
        calls := calls + [GetOGCFeatureURL(description)];
        url := Some(featureUrl);
      }
      var layer := new GeoData(description.title, description.kind, extent.value, url, Some(description), description.proxy);
      item.layer := layer;
      calls := calls + [SendLayerRequest(layer)];
      r := Ok(());
    }

    /** disableItem: the data manager is asked to remove the position of the
        item's layer in its list, -1 when the layer is not there. */
    method DisableItem(item: CatalogItem)
      modifies this`calls
      ensures calls == old(calls) + [Remove(IndexOfLayer(dataManager.layers, item.layer))]
    {
      calls := calls + [Remove(IndexOfLayer(dataManager.layers, item.layer))];
    }

    // -------------------------------------------------------------------
    // The now-viewing list

    /** refreshNowViewing, run on every GeoDataAdded and GeoDataRemoved
        event: the list is rebuilt as the reverse of the data manager's layers. */
    method RefreshNowViewing()
      modifies this`nowViewing
      ensures nowViewing == Project(dataManager.layers)
    {
      nowViewing := Project(dataManager.layers);
    }

    /** startNowViewingDrag: the dragged element is remembered and a new,
        detached placeholder without an index is made; the drop listener
        keeps the dragged entry's layer. */
    method StartNowViewingDrag(entry: NowViewingEntry, target: Element)
      requires Valid()
      modifies this`draggedNowViewingItem, this`draggedLayer, this`dragPlaceholder
      ensures Valid()
      ensures draggedNowViewingItem == target && draggedLayer == entry.layer
      ensures dragPlaceholder != null && fresh(dragPlaceholder) && dragPlaceholder.nowViewingIndex.None?
    {
      draggedNowViewingItem := target;
      dragPlaceholder := new Element(None);
      draggedLayer := entry.layer;
    }

    /** The drop listener of the placeholder: the dragged layer is moved up
        once per step from the dragged element's index down to the
        placeholder's, or down once per step up to it (both indices read
        with `| 0`). */
    method DropOnPlaceholder() returns (r: Result<seq<Call>>)
      requires Valid()
      modifies this`calls
      ensures draggedNowViewingItem == null || dragPlaceholder == null <==> r.TypeError?
      ensures r.TypeError? ==> calls == old(calls)
      ensures r.Ok? ==>
        var dragged := IndexValue(draggedNowViewingItem.nowViewingIndex);
        var target := IndexValue(dragPlaceholder.nowViewingIndex);
        && calls == old(calls) + r.value
        && (dragged >= target ==> |r.value| == dragged - target)
        && (dragged <= target ==> |r.value| == target - dragged)
        && draggedLayer != null
        && (dragged > target ==> forall k :: 0 <= k < |r.value| ==> r.value[k] == MoveUp(draggedLayer))
        && (dragged < target ==> forall k :: 0 <= k < |r.value| ==> r.value[k] == MoveDown(draggedLayer))
    {
      if draggedNowViewingItem == null {
        return TypeError("draggedNowViewingItem.getAttribute");
      }
      if dragPlaceholder == null {
        return TypeError("dragPlaceholder.getAttribute");
      }
      var draggedItemIndex := IndexValue(draggedNowViewingItem.nowViewingIndex);
      var placeholderIndex := IndexValue(dragPlaceholder.nowViewingIndex);
      var moves, _ := WalkToPlaceholder(draggedLayer, draggedItemIndex, placeholderIndex);
      calls := calls + moves;
      r := Ok(moves);
    }

    /** endNowViewingDrag, run whether or not the drop happened: the
        placeholder is taken out of the list and forgotten, and the
        now-viewing list is rebuilt from the data manager's layers, so a
        cancelled drag leaves it as it was. */
    method EndNowViewingDrag()
      requires Valid()
      modifies this`dragPlaceholder, this`nowViewing, nowViewingList
      ensures Valid()
      ensures dragPlaceholder == null
      ensures nowViewing == Project(dataManager.layers)
      ensures old(dragPlaceholder) == null ==> nowViewingList.childNodes == old(nowViewingList.childNodes)
      ensures old(dragPlaceholder) != null ==>
        nowViewingList.childNodes == Without(old(nowViewingList.childNodes), old(dragPlaceholder))
    {
      if dragPlaceholder != null {
        var siblings := nowViewingList.childNodes;
        if dragPlaceholder in siblings {
          var p := Position(siblings, dragPlaceholder);
          assert dragPlaceholder !in siblings[p + 1..];
          WithoutAt(siblings, dragPlaceholder, p);
          DistinctRemoveAt(siblings, p);
          nowViewingList.childNodes := siblings[..p] + siblings[p + 1..];
        } else {
          WithoutAbsent(siblings, dragPlaceholder);
        }
        dragPlaceholder := null;
      }
      nowViewing := Project(dataManager.layers);
    }

    /** The part of nowViewingDragEnter after its guards: the placeholder is
        relocated among the siblings and stamped with an index. */
    method MovePlaceholder(target: Element) returns (r: DragEnterOutcome)
      requires Valid() && dragPlaceholder != null
      requires target in nowViewingList.childNodes && target != dragPlaceholder
      modifies nowViewingList, dragPlaceholder
      ensures Valid()
      ensures
        var siblings := old(nowViewingList.childNodes);
        var placeholder := dragPlaceholder as Element;
        var t := Position(siblings, target);
        && nowViewingList.childNodes == Relocated(siblings, placeholder, t)
        && (PlacesBefore(siblings, placeholder, t) ==>
              && r == Placed
              && dragPlaceholder.nowViewingIndex == old(target.nowViewingIndex))
        && (!PlacesBefore(siblings, placeholder, t) ==>
              && dragPlaceholder.nowViewingIndex == old(dragPlaceholder.nowViewingIndex)
              && (r == Placed <==> t + 1 < |siblings|)
              && (r != Placed ==> r == Threw(true)))
    {
      var placeholder: Element := dragPlaceholder;
      var siblings := nowViewingList.childNodes;
      var after, t, insertBefore := RelocatePlaceholder(siblings, placeholder, target);
      nowViewingList.childNodes := after;
      if insertBefore {
        placeholder.nowViewingIndex := target.nowViewingIndex;
        r := Placed;
      } else if t + 1 < |nowViewingList.childNodes| {
        placeholder.nowViewingIndex := nowViewingList.childNodes[t + 1].nowViewingIndex;
        r := Placed;
      } else {
        r := Threw(true);
      }
    }

    /** nowViewingDragEnter on the element `target`. Nothing happens for the
        placeholder itself or an element outside the list. Otherwise the
        placeholder is relocated as Relocated says: before the entered
        element, taking its index; or, when it already was its immediate
        predecessor, one further down, keeping its index, which throws when
        the entered element is the last child. Without a dragged element
        or a placeholder the command throws before changing the list. */
    method NowViewingDragEnter(target: Element) returns (r: DragEnterOutcome)
      requires Valid()
      modifies nowViewingList, dragPlaceholder
      ensures Valid()
      ensures r.Unaffected? <==> target == dragPlaceholder || target !in old(nowViewingList.childNodes)
      ensures r.Unaffected? || (r.Threw? && !r.moved) ==>
        && nowViewingList.childNodes == old(nowViewingList.childNodes)
        && (dragPlaceholder != null ==> dragPlaceholder.nowViewingIndex == old(dragPlaceholder.nowViewingIndex))
      ensures !r.Unaffected? && (draggedNowViewingItem == null || dragPlaceholder == null) ==> r == Threw(false)
      ensures !r.Unaffected? && draggedNowViewingItem != null && dragPlaceholder != null ==>
        var siblings := old(nowViewingList.childNodes);
        var placeholder := dragPlaceholder as Element;
        var t := Position(siblings, target);
        && nowViewingList.childNodes == Relocated(siblings, placeholder, t)
        && (PlacesBefore(siblings, placeholder, t) ==>
              && r == Placed
              && dragPlaceholder.nowViewingIndex == old(target.nowViewingIndex))
        && (!PlacesBefore(siblings, placeholder, t) ==>
              && dragPlaceholder.nowViewingIndex == old(dragPlaceholder.nowViewingIndex)
              && (r == Placed <==> t + 1 < |siblings|)
              && (r != Placed ==> r == Threw(true)))
    {
      if target == dragPlaceholder || target !in nowViewingList.childNodes {
        return Unaffected;
      }
      if draggedNowViewingItem == null || dragPlaceholder == null {
        return Threw(false);
      }
      r := MovePlaceholder(target);
    }
  }
}
