/** The panel and tab flags of the data browser and the commands that flip
    them (GeoDataBrowserViewModel.js, lines 32-83). The commands themselves
    are methods of the view-model class; this module gives the state they
    act on as a value, so that properties of whole command sequences can
    be stated and proved. */
module Panels {

  datatype PanelState = PanelState(
    showingPanel: bool,
    showingMapPanel: bool,
    addDataIsOpen: bool,
    nowViewingIsOpen: bool,
    imageryIsOpen: bool,
    viewerSelectionIsOpen: bool)

  datatype PanelCommand =
    | ToggleShowingPanel
    | ToggleShowingMapPanel
    | OpenAddData
    | OpenNowViewing
    | OpenImagery
    | OpenViewerSelection

  /** The flags as the view-model's constructor sets them. */
  const Initial := PanelState(false, false, false, true, true, false)

  /** The effect of one command on the flags. */
  function Apply(p: PanelState, c: PanelCommand): (q: PanelState)
    ensures c == ToggleShowingPanel ==> q.showingPanel == !p.showingPanel
    ensures c == ToggleShowingPanel && q.showingPanel ==> !q.showingMapPanel
    ensures c == ToggleShowingPanel && !q.showingPanel ==> q.showingMapPanel == p.showingMapPanel
    ensures c == ToggleShowingMapPanel ==> q.showingMapPanel == !p.showingMapPanel
    ensures c == ToggleShowingMapPanel && q.showingMapPanel ==> !q.showingPanel
    ensures c == ToggleShowingMapPanel && !q.showingMapPanel ==> q.showingPanel == p.showingPanel
    ensures c.ToggleShowingPanel? || c.ToggleShowingMapPanel? ==>
      q.(showingPanel := p.showingPanel, showingMapPanel := p.showingMapPanel) == p
    ensures c == OpenAddData ==> q == p.(addDataIsOpen := !p.addDataIsOpen)
    ensures c == OpenNowViewing ==> q == p.(nowViewingIsOpen := !p.nowViewingIsOpen)
    ensures c == OpenImagery ==> q == p.(imageryIsOpen := true, viewerSelectionIsOpen := false)
    ensures c == OpenViewerSelection ==> q == p.(imageryIsOpen := false, viewerSelectionIsOpen := true)
  {
    match c
    case ToggleShowingPanel =>
      var shown := !p.showingPanel;
      p.(showingPanel := shown, showingMapPanel := if shown then false else p.showingMapPanel)
    case ToggleShowingMapPanel =>
      var shown := !p.showingMapPanel;
      p.(showingMapPanel := shown, showingPanel := if shown then false else p.showingPanel)
    case OpenAddData => p.(addDataIsOpen := !p.addDataIsOpen)
    case OpenNowViewing => p.(nowViewingIsOpen := !p.nowViewingIsOpen)
    case OpenImagery => p.(imageryIsOpen := true, viewerSelectionIsOpen := false)
    case OpenViewerSelection => p.(imageryIsOpen := false, viewerSelectionIsOpen := true)
  }

  /** The flags after a sequence of commands, applied first to last. */
  function Run(p: PanelState, cs: seq<PanelCommand>): PanelState
  {
    if cs == [] then p else Apply(Run(p, cs[..|cs| - 1]), cs[|cs| - 1])
  }

  /** The data panel and the map panel are never shown together. */
  ghost predicate PanelsExclusive(p: PanelState)
  {
    !(p.showingPanel && p.showingMapPanel)
  }

  /** Exactly one of the imagery and viewer-selection tabs is open. */
  ghost predicate OneTabOpen(p: PanelState)
  {
    p.imageryIsOpen != p.viewerSelectionIsOpen
  }

  /** Every command keeps the two panels exclusive and exactly one tab open. */
  lemma ApplyPreservesInvariants(p: PanelState, c: PanelCommand)
    requires PanelsExclusive(p) && OneTabOpen(p)
    ensures PanelsExclusive(Apply(p, c)) && OneTabOpen(Apply(p, c))
  {
  }

  /** From any state with the panels exclusive, no command sequence shows both. */
  lemma {:induction false} RunKeepsPanelsExclusive(p: PanelState, cs: seq<PanelCommand>)
    requires PanelsExclusive(p)
    ensures PanelsExclusive(Run(p, cs))
  {
    if cs != [] {
      RunKeepsPanelsExclusive(p, cs[..|cs| - 1]);
    }
  }

  /** From the constructor's flags, no command sequence shows both panels, and
      exactly one of the imagery and viewer-selection tabs is always open. */
  lemma {:induction false} ReachableStatesAreConsistent(cs: seq<PanelCommand>)
    ensures PanelsExclusive(Run(Initial, cs))
    ensures OneTabOpen(Run(Initial, cs))
  {
    if cs != [] {
      ReachableStatesAreConsistent(cs[..|cs| - 1]);
      ApplyPreservesInvariants(Run(Initial, cs[..|cs| - 1]), cs[|cs| - 1]);
    }
  }
}
