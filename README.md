# GeoDataBrowserViewModel, modelled in Dafny

This project models the legacy data-browser view-model of TerriaMap
(`src/viewer/GeoDataBrowserViewModel.js`). This is the object behind the map's side panel. It keeps:

- the panel and tab flags;
- the catalog's top-level collections, and the categories the user adds by URL;
- categories whose layers are requested from the server only when they are first opened;
- the "now viewing" list, which shows the data manager's layers in reverse order;
- the drag-and-drop reordering of that list;
- the commands that enable a catalog item as a map layer or disable it again.

Modules, in dependency order:

- `Common`: the `Option` and `Result` wrappers, and `Position`, the first occurrence of a value in a list (a node among its siblings, a layer in the data manager's list). `Result.TypeError` stands for a JavaScript TypeError that the source lets escape.
- `Panels`: the six panel and tab flags as a value. `Apply` is the effect of one command, and `Run` is the effect of a sequence of commands. The lemmas prove that every reachable state keeps the two panels exclusive and exactly one of the two tabs open.
- `Catalog`: the layer description record (`Description`). It also holds:
  - the lazily loaded `Category` class;
  - the one-level hoisting of sub-layers;
  - the composition of the initial catalog;
  - the ".JSON" file filter;
  - the merge-by-name import of dropped documents.
- `Layers`:
  - the choice of a layer's extent among its four bounding-box encodings;
  - the `GeoData` layer class, compared by reference;
  - the data manager's layer list, and the now-viewing projection of it;
  - the `Call` record of calls made on the data managers.
- `DragReorder`:
  - the DOM elements that carry a `nowViewingIndex` attribute;
  - the sibling-list surgery of drag-enter, specified by `Relocated`;
  - the drop walk of single `moveUp`/`moveDown` steps.
- `ViewModel`: the `GeoDataBrowserViewModel` class itself. Its commands are methods that update its fields in place. Each one is proved against the specification functions of the modules above.

Collaborators whose code is not shown are handled in two ways:

- The model records its calls to the data managers in `calls`, in order:
  - `sendLayerRequest`, `remove`, `moveUp`, `moveDown`;
  - `getOGCFeatureURL`, `loadUrl`, `addServices`.
- Their answers are parameters of the methods that use them:
  - the feature URL;
  - whether a format is supported;
  - the user's WFS/WMS confirmation;
  - the capabilities description;
  - the loaded JSON.

The source sometimes throws a TypeError that nothing handles (inside a promise callback it becomes an unhandled rejection):

- a `services` or unknown import;
- an unnamed top-level entry met during the name search;
- a missing `Layer` list;
- a missing WGS84 corner;
- a drag-enter with no drag in progress;
- a capabilities answer, or a category, without a `name`, when the callback copies the name;
- a drop on a placeholder when no dragged element or placeholder is recorded (the dragged entry's layer itself is always defined, since every now-viewing entry carries one);
- a drag-enter in the "after" case on the last child.

Each of these is modelled as an outcome, not excluded by a precondition.

In these places the code behaves in ways its names and comments do not suggest, and the model follows the code:

- The file filter accepts any name whose upper-cased form *contains* ".JSON" (`layers.json.bak` is read). It does not test the extension.
- The code does not reject an enable of an enabled item: `toggleItemEnabled` flips the flag and then enables or disables the item, whatever its previous state.
- Disabling an item whose layer is not in the data manager's list still calls `remove(-1)`. It is not a no-op.
- In the extent selection, the `BoundingBox` fallback inside the `LatLonBoundingBox` branch can never be taken. A description with only a `BoundingBox` reaches the fourth branch, which uses the `west/south/east/north` keys.
- A second drag start while a drag is active is not rejected. It replaces the dragged element and the placeholder.
- `loadCollection` with a `services` document first hands the services to the data manager and then throws, because it reads the length of an undefined collection list.

## Model

| member | source | states |
|---|---|---|
| Panels.Apply | src/viewer/GeoDataBrowserViewModel.js:49-83 | Each toggle flips its own flag. Showing one panel hides the other, and hiding a panel leaves the other as it was. The panel toggles change no tab flag. openAddData and openNowViewing flip only their own flag. openImagery/openViewerSelection set the two tabs opposite ways and change nothing else. |
| Panels.ApplyPreservesInvariants | src/viewer/GeoDataBrowserViewModel.js:49-83 | Every command keeps "not both panels shown" and "exactly one tab open". |
| Panels.RunKeepsPanelsExclusive | src/viewer/GeoDataBrowserViewModel.js:49-61 | From a state without both panels shown, no sequence of commands shows both. |
| Panels.ReachableStatesAreConsistent | src/viewer/GeoDataBrowserViewModel.js:32-40 | Every state reachable from the initial flags has exclusive panels and exactly one tab open. |
| ViewModel.GeoDataBrowserViewModel.constructor | src/viewer/GeoDataBrowserViewModel.js:28-44 | Panels start hidden, the now-viewing and imagery tabs start open, the URL is empty, the catalog and user content start empty, and the now-viewing list is the projection of the data manager's layers. |
| ViewModel.GeoDataBrowserViewModel.ToggleShowingPanel | src/viewer/GeoDataBrowserViewModel.js:49-54 | The new flags are `Apply(old, ToggleShowingPanel)`, and the invariants hold. |
| ViewModel.GeoDataBrowserViewModel.ToggleShowingMapPanel | src/viewer/GeoDataBrowserViewModel.js:56-61 | The new flags are `Apply(old, ToggleShowingMapPanel)`, and the invariants hold. |
| ViewModel.GeoDataBrowserViewModel.OpenAddData | src/viewer/GeoDataBrowserViewModel.js:67-69 | Only addDataIsOpen flips. |
| ViewModel.GeoDataBrowserViewModel.OpenNowViewing | src/viewer/GeoDataBrowserViewModel.js:71-73 | Only nowViewingIsOpen flips. |
| ViewModel.GeoDataBrowserViewModel.OpenImagery | src/viewer/GeoDataBrowserViewModel.js:75-78 | The imagery tab opens and the viewer-selection tab closes. |
| ViewModel.GeoDataBrowserViewModel.OpenViewerSelection | src/viewer/GeoDataBrowserViewModel.js:80-83 | The viewer-selection tab opens and the imagery tab closes. |
| Catalog.Category.constructor | src/viewer/GeoDataBrowserViewModel.js:273-280 | A new category is closed and not loading, and has made no request. A lazy category (no `Layer`) starts with no children. |
| Catalog.Category.SetOpen | src/viewer/GeoDataBrowserViewModel.js:280-326 | A lazy category issues its capabilities request at most once, only when it is opened, and is loading from then on. Closing it, or opening it again, issues nothing. |
| Catalog.Category.Toggle | src/viewer/GeoDataBrowserViewModel.js:63-65 | openItem / toggleCategoryOpen: isOpen flips. The first opening of a lazy category issues its one capabilities request and sets loading. Nothing else issues one, and loading is unchanged when no request is sent. |
| Catalog.Category.DeliverCapabilities | src/viewer/GeoDataBrowserViewModel.js:298-320 | The callback renames the category after the answer. It appends the answer's layers, with each child that has sub-layers replaced by those sub-layers, and loading ends. A missing name throws and leaves the layers as they were. |
| Catalog.Category.AppendHoisted | src/viewer/GeoDataBrowserViewModel.js:305-316 | The nested loops append exactly the hoisted answered layers, in order. |
| Catalog.Category.PushAll | src/viewer/GeoDataBrowserViewModel.js:309-312 | The inner loop appends every sub-layer, in order. |
| Catalog.Expand | src/viewer/GeoDataBrowserViewModel.js:308-315 | What one answered layer contributes: its sub-layers when it has `Layer`, otherwise itself. |
| Catalog.HoistedStep | src/viewer/GeoDataBrowserViewModel.js:306-316 | Each further answered layer appends what it contributes: its sub-layers, or itself. |
| Catalog.AnswerLayers | src/viewer/GeoDataBrowserViewModel.js:299-305 | The answered layers are the answer's `Layer` list, and an answer without `Layer` contributes none. |
| Catalog.Hoisted | src/viewer/GeoDataBrowserViewModel.js:305-316 | The children pushed by the answer callback, in order: each answered layer's sub-layers, or the layer itself when it has none. Its contents are stated in both directions by HoistedMembers, and AppendHoisted is proved to compute it. |
| Catalog.HoistedMembers | src/viewer/GeoDataBrowserViewModel.js:305-316 | A description is among the hoisted children exactly when it is a returned layer without sub-layers, or a sub-layer of a returned layer. |
| Catalog.HoistingKeepsLeaves | src/viewer/GeoDataBrowserViewModel.js:305-316 | Hoisting a list of leaves changes nothing. The flattening goes exactly one level. |
| Catalog.ComposeBrowserContent | src/viewer/GeoDataBrowserViewModel.js:354-364 | The initial catalog is the data collection followed by the other sources' `Layer` entries, in order. A missing `Layer` throws. |
| ViewModel.GeoDataBrowserViewModel.OnCatalogLoaded | src/viewer/GeoDataBrowserViewModel.js:354-364 | The top-level list becomes that composition, or is left unchanged when composing throws. |
| Catalog.UpperCase | src/viewer/GeoDataBrowserViewModel.js:465 | Upper-casing keeps the length of the name and maps each character on its own. |
| Catalog.IndexOf | src/viewer/GeoDataBrowserViewModel.js:465 | The result is the first position where the pattern occurs, or -1 exactly when it occurs nowhere. |
| Catalog.IsJsonFileName | src/viewer/GeoDataBrowserViewModel.js:465 | A file is read exactly when ".JSON" occurs somewhere in its upper-cased name. |
| Catalog.FilterMatchesInsideName | src/viewer/GeoDataBrowserViewModel.js:465 | Any name with ".json" or ".JSON" anywhere in it is read, whatever follows: the test is containment, not the extension ("layers.json.bak" is read). |
| Catalog.FilterSkipsOtherNames | src/viewer/GeoDataBrowserViewModel.js:465-467 | A name without the letter J, in either case, is skipped (for example "layers.xml"). |
| Catalog.SelectJsonFiles | src/viewer/GeoDataBrowserViewModel.js:463-470 | The files read are exactly those that pass the filter, in their drop order. |
| Catalog.ImportOf | src/viewer/GeoDataBrowserViewModel.js:423-439 | A document is ignored exactly when it is absent or unnamed. A `sources` document brings its `Layer` list, and a `collections` document brings itself. Other kinds throw, and `services` hands its services on first. A named `collections` document always brings itself, and a named `sources` document brings its list exactly when it has one. |
| Catalog.FindByName | src/viewer/GeoDataBrowserViewModel.js:446-451 | The result is the first top-level entry with the name, or none. It throws when an unnamed entry comes before any match. |
| Catalog.FindByNameFirst | src/viewer/GeoDataBrowserViewModel.js:446-451 | When the first entry with a given name is at j and every earlier entry is named, the search answers j. |
| Catalog.FindByNameNone | src/viewer/GeoDataBrowserViewModel.js:446-451 | When every entry is named otherwise, the search answers none. |
| Catalog.FindByNameUnnamed | src/viewer/GeoDataBrowserViewModel.js:446-451 | When an unnamed entry comes before any match, the search throws. |
| Catalog.FindExisting | src/viewer/GeoDataBrowserViewModel.js:446-451 | The scanning loop with its `break` computes FindByName. |
| Catalog.MergeAllStops | src/viewer/GeoDataBrowserViewModel.js:441-458 | Once a merge throws, the later collections change nothing. |
| Catalog.MergeCollections | src/viewer/GeoDataBrowserViewModel.js:441-458 | The merging loop computes MergeAll. Each collection updates the first entry with its name or is appended, and merging stops at the first throw. |
| Catalog.MergeOne | src/viewer/GeoDataBrowserViewModel.js:446-458 | Merging one collection throws exactly when the name search meets an unnamed entry first. Otherwise the first entry with the incoming name becomes its Update and every other entry is unchanged, or, without such an entry, the collection is appended. The list grows by at most one, and an entry with the incoming name is present afterwards. |
| Catalog.MergeAll | src/viewer/GeoDataBrowserViewModel.js:439-459 | Merging the collections one after another never shrinks the list and adds at most one entry per collection. |
| Catalog.Update | src/viewer/GeoDataBrowserViewModel.js:455 | Every flat property the collection has replaces the entry's, and every one it lacks keeps the entry's value. Each of the four bounding boxes is merged key by key (MergeBox). An incoming Layer list replaces the old one. |
| Catalog.UpdateWithBlank | src/viewer/GeoDataBrowserViewModel.js:455 | Updating with an empty collection keeps the entry, and updating an empty entry gives the collection. |
| Catalog.MergeBox | src/viewer/GeoDataBrowserViewModel.js:455 | A nested box is updated key by key: the incoming keys take the incoming values, and the other old keys keep theirs. |
| Catalog.MergeOneShape | src/viewer/GeoDataBrowserViewModel.js:454-457 | A merge keeps every entry in place with its name. It grows the list by one, the incoming collection at the end, exactly when no entry had the incoming name. |
| Catalog.MergeKeepsNamesDistinct | src/viewer/GeoDataBrowserViewModel.js:443-458 | One merge never gives two named entries the same name. |
| Catalog.MergeAllKeepsNamesDistinct | src/viewer/GeoDataBrowserViewModel.js:441-458 | Neither does any sequence of merges. |
| Catalog.MergeBoxIdempotent | src/viewer/GeoDataBrowserViewModel.js:455 | Merging the same box again changes nothing more. |
| Catalog.UpdateIdempotent | src/viewer/GeoDataBrowserViewModel.js:455 | Updating an entry twice with the same collection is the same as updating it once. |
| Catalog.ReimportIsIdempotent | src/viewer/GeoDataBrowserViewModel.js:443-458 | Importing the same named collection a second time leaves the list as the first import did. |
| ViewModel.GeoDataBrowserViewModel.LoadCollection | src/viewer/GeoDataBrowserViewModel.js:423-459 | Unnamed documents change nothing. Throwing documents leave the list unchanged, after the `addServices` call for `services`. Otherwise the list becomes MergeAll of its collections, throwing exactly when a merge threw. |
| ViewModel.GeoDataBrowserViewModel.AddDataOrService | src/viewer/GeoDataBrowserViewModel.js:119-143 | A supported format is loaded from the URL. Otherwise exactly one user category is appended: named and based at the old URL, proxied, of type WFS or WMS as confirmed, open, and with its single capabilities request made. The URL is empty afterwards either way. |
| Layers.Split | src/viewer/GeoDataBrowserViewModel.js:751-752 | Splitting on " " gives at least one part, and no part holds a space. |
| Layers.SplitJoin | src/viewer/GeoDataBrowserViewModel.js:751-752 | Joining the parts with " " gives back the corner string. |
| Layers.GetOGCLayerExtent | src/viewer/GeoDataBrowserViewModel.js:746-771 | There is no extent exactly when no encoding is present. A found extent comes from the first present encoding, in the order WGS84, LatLon, EX_Geographic, BoundingBox, and from that encoding's own four keys. The WGS84 corners are the split parts of LowerCorner and UpperCorner. It throws exactly when WGS84BoundingBox is present and lacks LowerCorner or UpperCorner. |
| Layers.ExtentExamples | src/viewer/GeoDataBrowserViewModel.js:746-771 | An EX_GeographicBoundingBox gives its four bounds. WGS84BoundingBox wins over BoundingBox. |
| Layers.GetLayers | src/viewer/GeoDataBrowserViewModel.js:391-395 | The copy holds the layers in reverse order. The data manager's list itself is a value and stays unchanged. |
| Layers.GetLayersTwice | src/viewer/GeoDataBrowserViewModel.js:391-395 | Reversing twice gives back the layer list. |
| Layers.EntryDescription | src/viewer/GeoDataBrowserViewModel.js:374-384 | An entry shows the layer's own description. Without one, it shows a description built from the layer's name as Title, its url as base_url and its type, and nothing else. |
| Layers.MapLayer | src/viewer/GeoDataBrowserViewModel.js:374-388 | One now-viewing entry: the layer's description (or, without one, its name, url and type), its show flag, and the layer itself. |
| Layers.MapEntries | src/viewer/GeoDataBrowserViewModel.js:374-389 | There is one entry per layer, in the same order. |
| Layers.Project | src/viewer/GeoDataBrowserViewModel.js:374-397 | Entry k is the layer at position n-1-k, with that layer's `show` and description. |
| ViewModel.GeoDataBrowserViewModel.RefreshNowViewing | src/viewer/GeoDataBrowserViewModel.js:399-412 | After every add or remove notification, the now-viewing list is the projection of the data manager's layers. |
| Layers.ZoomTarget | src/viewer/GeoDataBrowserViewModel.js:104-110 | Zooming is a no-op exactly when the item has no layer, or its layer has no extent. Otherwise it targets that extent. |
| Layers.ZoomNeedsABox | src/viewer/GeoDataBrowserViewModel.js:104-110 | For a layer whose extent was computed from a description, zooming does nothing exactly when the description has none of the four bounding-box encodings. |
| Layers.IndexOfLayer | src/viewer/GeoDataBrowserViewModel.js:741-744 | The result is the layer's Position in the list, or -1 exactly when the layer is absent. |
| ViewModel.CatalogItem.constructor | src/viewer/GeoDataBrowserViewModel.js:258-265 | A catalog item made from its description starts disabled and without a layer. |
| ViewModel.GeoDataBrowserViewModel.ToggleItemEnabled | src/viewer/GeoDataBrowserViewModel.js:89-97 | The flag flips first. An item that is now disabled has `remove` called with its layer's position. An item that is now enabled gets the layer EnableItem describes: Title, type, extent, proxy, its url or the feature URL with count 1000, and the request. The enable throws only on a missing WGS84 corner, and then nothing else changes. |
| ViewModel.GeoDataBrowserViewModel.EnableItem | src/viewer/GeoDataBrowserViewModel.js:716-739 | The new layer has the item's Title, type, extent and proxy. Its url is the item's own, or, without one, the OGC feature URL of the description with count 1000. The layer is requested. If the extent throws, nothing else happens. |
| ViewModel.GeoDataBrowserViewModel.DisableItem | src/viewer/GeoDataBrowserViewModel.js:741-744 | `remove` is called with the first position of the item's layer, which is -1 when the layer is absent. |
| DragReorder.IndexValue | src/viewer/GeoDataBrowserViewModel.js:488-489 | `\| 0` gives a 32-bit integer congruent to the attribute. A missing attribute gives 0, and an in-range attribute is kept. |
| DragReorder.WalkToPlaceholder | src/viewer/GeoDataBrowserViewModel.js:491-498 | The walk ends at the placeholder index. It makes max(0, d-p) MoveUp calls or max(0, p-d) MoveDown calls, and never both kinds. |
| ViewModel.GeoDataBrowserViewModel.StartNowViewingDrag | src/viewer/GeoDataBrowserViewModel.js:481-504 | The dragged element and its entry's layer are remembered, and a fresh placeholder without an index is made. |
| ViewModel.GeoDataBrowserViewModel.DropOnPlaceholder | src/viewer/GeoDataBrowserViewModel.js:487-499 | The calls made are the walk between the two indices, read with `\| 0`, moving the dragged entry's layer. A missing dragged element or placeholder throws and nothing is called. |
| ViewModel.GeoDataBrowserViewModel.EndNowViewingDrag | src/viewer/GeoDataBrowserViewModel.js:506-524 | The placeholder leaves the list and is forgotten, and the now-viewing list is rebuilt as the projection of the layers. |
| Common.Position | src/viewer/GeoDataBrowserViewModel.js:541-549 | The position is the first occurrence of the element in the list. |
| DragReorder.Without | src/viewer/GeoDataBrowserViewModel.js:556-558 | After removeChild the placeholder is no longer among the children, and the list is no longer than before. |
| DragReorder.WithoutKeeps | src/viewer/GeoDataBrowserViewModel.js:556-558 | Removing the placeholder keeps every other child. |
| DragReorder.InsertAt | src/viewer/GeoDataBrowserViewModel.js:560-565 | insertBefore puts the node at the given position and shifts the rest. |
| DragReorder.WithoutAt | src/viewer/GeoDataBrowserViewModel.js:556-558 | Removing a node that occurs only at i cuts out position i. |
| DragReorder.WithoutAbsent | src/viewer/GeoDataBrowserViewModel.js:556-558 | Removing a detached placeholder changes nothing. |
| DragReorder.PlacesBefore | src/viewer/GeoDataBrowserViewModel.js:551-554 | The placeholder goes before the entered element unless it is already that element's immediate predecessor. |
| DragReorder.Relocated | src/viewer/GeoDataBrowserViewModel.js:551-565 | drag-enter removes the placeholder and inserts it once more: the list is one longer than the list without the placeholder. Where it goes is stated by RelocatedBefore and RelocatedAfter. |
| DragReorder.InsertBefore | src/viewer/GeoDataBrowserViewModel.js:560-561 | insertBefore of a node not yet in the list puts it directly before the node at that position, and removing it again gives back the list. |
| DragReorder.RelocatedBefore | src/viewer/GeoDataBrowserViewModel.js:551-562 | Unless the placeholder was the entered element's predecessor, the placeholder ends up directly before the entered element. The other children keep their order. |
| DragReorder.RelocatedAfter | src/viewer/GeoDataBrowserViewModel.js:551-565 | When the placeholder was the predecessor, it goes below the element after the entered one, counted in the live list once the placeholder is removed. If the entered element is last, the placeholder is appended after it. |
| DragReorder.Locate | src/viewer/GeoDataBrowserViewModel.js:538-549 | The scan finds the last positions of the placeholder and of the entered element, or none when they are absent. |
| DragReorder.RelocatePlaceholder | src/viewer/GeoDataBrowserViewModel.js:538-566 | The removal and reinsertion compute Relocated and keep the children distinct. In the "after" case, the live element at t+1 is the placeholder itself. |
| DragReorder.LastIsPosition | src/viewer/GeoDataBrowserViewModel.js:541-549 | Among distinct children, the last occurrence found by the scan is the position. |
| DragReorder.DistinctRemoveAt | src/viewer/GeoDataBrowserViewModel.js:556-558 | Removing a child keeps the children distinct. |
| DragReorder.DistinctInsertAt | src/viewer/GeoDataBrowserViewModel.js:560-565 | Inserting a detached node keeps the children distinct. |
| ViewModel.GeoDataBrowserViewModel.MovePlaceholder | src/viewer/GeoDataBrowserViewModel.js:538-566 | After the guards, the children become Relocated. The placeholder takes the entered element's index in the "before" case. In the "after" case it keeps its own index, and throws exactly when the entered element was the last child. |
| ViewModel.GeoDataBrowserViewModel.NowViewingDragEnter | src/viewer/GeoDataBrowserViewModel.js:526-567 | The command is ignored exactly for the placeholder or an element outside the list. It throws before any change when no drag is active. Otherwise the children become Relocated. In the "before" case the placeholder takes the entered element's index. In the "after" case it keeps its own index, and throws exactly when the entered element was the last child. |

## Left out

- The Cesium machinery is not modelled, because these are foreign objects whose behaviour is not part of this model:
  - base-layer switching (Bing Maps, Black Marble, Natural Earth II, Australian Topography, and the Leaflet alert);
  - terrain and viewer switching on `selectedViewer`;
  - camera moves in zoom-to-item;
  - `frameChecker.forceFrameUpdate`.
  `Layers.ZoomTarget` only states which extent the camera would be sent to.
- `lib/Views/UserInterface.jsx` is not part of this model. It is React composition and browser glue.
- Knockout and komapping reactivity is not modelled:
  - Observables are plain fields.
  - The lazy `Layer` computed is two explicit events: `Category.SetOpen` and `Category.DeliverCapabilities`.
  - The `version` observable that re-triggers evaluation is not modelled.
  - komapping's deep copy into view-models is a plain description value.
  - The `isOpen` flag of top-level collections (`createCollection`) is not modelled. `openItem` is modelled on categories only.
- Network and file I/O are parameters or recorded calls, not operations:
  - `loadJson` of the two catalog files;
  - `nm_services.json` and its `addServices` call at construction;
  - `getCapabilities`, `readJson`, `loadUrl`;
  - the `window.confirm` dialog.
- The extent is not converted to numbers. `parseFloat` and `Rectangle.fromDegrees` are floating point. The extent keeps the chosen encoding and its four chosen strings.
- DOM-only effects are not modelled:
  - the scroll-position adjustment in refreshNowViewing;
  - `style.display` toggling;
  - the placeholder's class name and height;
  - `dataTransfer.setData` and `dropEffect`;
  - event propagation;
  - the GeoDataInfoPopup;
  - the upload-file commands (selectFileToUpload, addUploadedFile).
- The sibling list is the single now-viewing list element. `parentElement` is modelled as membership in that list.
- A placeholder's `nowViewingIndex` attribute is an optional integer, so attribute strings are not modelled. A copied missing attribute (`setAttribute(..., null)`, which stores "null") stays absent in the model. Both read as 0 through `| 0`.
- Data-manager internals are not modelled, because their code is not part of this model: the effects of `moveUp`, `moveDown`, `remove`, `sendLayerRequest`, `getOGCFeatureURL` and `addServices` on the layer list. The model records each call in order.
- `toggleItemShown` (a flag flip forwarded to `dataManager.show`) and `showInfoForItem` (a popup) are not modelled.
- `createDataSource` merges each catalog item with its parent's properties. This is not modelled: an item's description is taken as already combined.
- Layers.GeoData.constructor: the initial `show` value of a new layer belongs to the GeoData class, which is not part of this model, so the constructor does not state it.
- Catalog.UpperCase: only ASCII letters are upper-cased. JavaScript's full Unicode case mapping is not modelled.
- ViewModel.GeoDataBrowserViewModel.DropOnPlaceholder: each placeholder's drop listener keeps the layer of the drag that created it. The model keeps only the current drag's layer. The two differ only if a second drag starts without an end while the old placeholder is still attached.
- Catalog.Update: an incoming `Layer` list replaces the existing entry's list as a whole. komapping's item-by-item update of an observable array is not modelled. Nested objects are the four bounding boxes, which are updated key by key.
- ViewModel.GeoDataBrowserViewModel.EndNowViewingDrag: the DOM list is not re-rendered between drags. After `nowViewing` is rebuilt, `nowViewingList.childNodes` keeps the old elements and their old `nowViewingIndex` attributes. In the source, Knockout renders them again from the new list. The same holds for ViewModel.GeoDataBrowserViewModel.RefreshNowViewing.
- ViewModel.GeoDataBrowserViewModel.NowViewingDragEnter: the state of the dragged element after a drag-enter is not modelled beyond the `draggedNowViewingItem` null check, because it only changes `style.display`.
