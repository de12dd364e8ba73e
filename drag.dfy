/** The drag-to-reorder controller of the now-viewing list
    (GeoDataBrowserViewModel.js, lines 478-567): the DOM elements it
    handles, how drag-enter relocates the placeholder among the list's
    children, and how a drop walks the dragged layer to the placeholder's
    index with single moves. The commands that hold this state are methods
    of the view-model class. */
module DragReorder {
  import opened Common
  import opened Layers

  /** A DOM element of the now-viewing list, with its `nowViewingIndex`
      attribute (None when the attribute is absent). Elements are compared
      by identity, as `===` does. */
  class Element {
    var nowViewingIndex: Option<int>

    constructor (nowViewingIndex: Option<int>)
      ensures this.nowViewingIndex == nowViewingIndex
    {
      this.nowViewingIndex := nowViewingIndex;
    }
  }

  /** The DOM element holding the now-viewing entries; `childNodes` is its
      live list of children. */
  class ListElement {
    var childNodes: seq<Element>

    constructor (childNodes: seq<Element>)
      ensures this.childNodes == childNodes
    {
      this.childNodes := childNodes;
    }
  }

  /** `getAttribute('nowViewingIndex') | 0`: an absent attribute reads as 0,
      and a number is cut to a signed 32-bit integer (ToInt32). */
  function IndexValue(attribute: Option<int>): (r: int)
    ensures -0x8000_0000 <= r < 0x8000_0000
    ensures attribute.None? ==> r == 0
    ensures attribute.Some? ==> (r - attribute.value) % 0x1_0000_0000 == 0
    ensures attribute.Some? && -0x8000_0000 <= attribute.value < 0x8000_0000 ==> r == attribute.value
  {
    match attribute
    case None => 0
    case Some(v) =>
      var m := v % 0x1_0000_0000;
      if m >= 0x8000_0000 then m - 0x1_0000_0000 else m
  }

  // ---------------------------------------------------------------------
  // Drop: walking the dragged layer to the placeholder

  /** The two loops of the drop listener: from the dragged element's index,
      one moveUp per step down to the placeholder's index, or one moveDown
      per step up to it. */
  method WalkToPlaceholder(layer: GeoData, draggedIndex: int, placeholderIndex: int)
    returns (moves: seq<Call>, finalIndex: int)
    ensures finalIndex == placeholderIndex
    ensures draggedIndex >= placeholderIndex ==> |moves| == draggedIndex - placeholderIndex
    ensures draggedIndex <= placeholderIndex ==> |moves| == placeholderIndex - draggedIndex
    ensures draggedIndex > placeholderIndex ==> forall k :: 0 <= k < |moves| ==> moves[k] == MoveUp(layer)
    ensures draggedIndex < placeholderIndex ==> forall k :: 0 <= k < |moves| ==> moves[k] == MoveDown(layer)
  {
    moves := [];
    var i := draggedIndex;
    while i > placeholderIndex
      invariant draggedIndex > placeholderIndex ==> placeholderIndex <= i <= draggedIndex
      invariant draggedIndex <= placeholderIndex ==> i == draggedIndex
      invariant |moves| == draggedIndex - i
      invariant forall k :: 0 <= k < |moves| ==> moves[k] == MoveUp(layer)
    {
      moves := moves + [MoveUp(layer)];
      i := i - 1;
    }
    while i < placeholderIndex
      invariant draggedIndex > placeholderIndex ==> i == placeholderIndex && |moves| == draggedIndex - placeholderIndex
      invariant draggedIndex > placeholderIndex ==> forall k :: 0 <= k < |moves| ==> moves[k] == MoveUp(layer)
      invariant draggedIndex <= placeholderIndex ==> draggedIndex <= i <= placeholderIndex && |moves| == i - draggedIndex
      invariant draggedIndex <= placeholderIndex ==> forall k :: 0 <= k < |moves| ==> moves[k] == MoveDown(layer)
    {
      moves := moves + [MoveDown(layer)];
      i := i + 1;
    }
    finalIndex := i;
  }

  // ---------------------------------------------------------------------
  // Drag-enter: where the placeholder goes

  /** The children of a DOM element are distinct nodes. */
  ghost predicate Distinct<T>(s: seq<T>)
  {
    forall i, j :: 0 <= i < j < |s| ==> s[i] != s[j]
  }

  /** The sibling list once `x` is removed from it (removeChild). */
  function Without<T(==)>(s: seq<T>, x: T): (r: seq<T>)
    ensures x !in r
    ensures |r| <= |s|
  {
    if s == [] then []
    else if s[0] == x then Without(s[1..], x)
    else [s[0]] + Without(s[1..], x)
  }

  /** The list with `x` inserted at position `i` (insertBefore the node at
      `i`, or appended when `i` is the length). */
  function InsertAt<T>(s: seq<T>, i: nat, x: T): (r: seq<T>)
    requires i <= |s|
    ensures |r| == |s| + 1 && r[i] == x && r[..i] == s[..i] && r[i + 1..] == s[i..]
  {
    s[..i] + [x] + s[i..]
  }

  function Min(a: nat, b: nat): nat
  {
    if a <= b then a else b
  }

  /** Drag-enter keeps the placeholder before the entered element unless the
      placeholder is already its immediate predecessor. */
  predicate PlacesBefore<T(==)>(s: seq<T>, placeholder: T, t: nat)
    requires t < |s|
  {
    !(t >= 1 && s[t - 1] == placeholder)
  }

  /** The sibling list after drag-enter on the child at position `t`: the
      placeholder is taken out; then it goes immediately before the entered
      element, or, when it was the entered element's immediate predecessor,
      at position t + 1 of the shortened live list (appended if that is past
      its end). */
  function Relocated<T(==)>(s: seq<T>, placeholder: T, t: nat): (r: seq<T>)
    requires t < |s| && s[t] != placeholder
    ensures |r| == |Without(s, placeholder)| + 1
  {
    WithoutKeeps(s, placeholder, s[t]);
    var rest := Without(s, placeholder);
    if PlacesBefore(s, placeholder, t) then InsertAt(rest, Position(rest, s[t]), placeholder)
    else InsertAt(rest, Min(t + 1, |rest|), placeholder)
  }

  /** Removing one node keeps every other child. */
  lemma {:induction false} WithoutKeeps<T>(s: seq<T>, x: T, y: T)
    requires y in s && y != x
    ensures y in Without(s, x)
  {
    if s[0] != y {
      WithoutKeeps(s[1..], x, y);
    }
  }

  /** Removing a node that occurs once, at position `i`, from a list. */
  lemma {:induction false} WithoutAt<T>(s: seq<T>, x: T, i: nat)
    requires i < |s| && s[i] == x && x !in s[..i] && x !in s[i + 1..]
    ensures Without(s, x) == s[..i] + s[i + 1..]
  {
    if i == 0 {
      WithoutAbsent(s[1..], x);
    } else {
      var tail := s[1..];
      assert s[0] == s[..i][0];
      assert tail[..i - 1] == s[1..i];
      assert tail[i..] == s[i + 1..];
      WithoutAt(tail, x, i - 1);
      assert Without(s, x) == [s[0]] + (s[1..i] + s[i + 1..]);
      assert s[..i] == [s[0]] + s[1..i];
    }
  }

  /** Removing a node that is not there changes nothing. */
  lemma {:induction false} WithoutAbsent<T>(s: seq<T>, x: T)
    requires x !in s
    ensures Without(s, x) == s
  {
    if s != [] {
      WithoutAbsent(s[1..], x);
      assert s == [s[0]] + s[1..];
    }
  }

  /** The two cases of Relocated. */
  lemma {:induction false} RelocatedUnfold<T>(s: seq<T>, placeholder: T, t: nat)
    requires t < |s| && s[t] != placeholder
    ensures var rest := Without(s, placeholder);
      && s[t] in rest
      && (PlacesBefore(s, placeholder, t) ==>
            Relocated(s, placeholder, t) == InsertAt(rest, Position(rest, s[t]), placeholder))
      && (!PlacesBefore(s, placeholder, t) ==>
            Relocated(s, placeholder, t) == InsertAt(rest, Min(t + 1, |rest|), placeholder))
  {
    WithoutKeeps(s, placeholder, s[t]);
  }

  /** Outside the "already the predecessor" case, drag-enter leaves the
      placeholder immediately before the entered element, and the other
      children in their order. */
  lemma {:induction false} RelocatedBefore<T>(s: seq<T>, placeholder: T, t: nat)
    requires t < |s| && s[t] != placeholder
    requires PlacesBefore(s, placeholder, t)
    ensures var r := Relocated(s, placeholder, t);
      && |r| == |Without(s, placeholder)| + 1
      && (exists k :: 0 <= k < |r| - 1 && r[k] == placeholder && r[k + 1] == s[t])
      && Without(r, placeholder) == Without(s, placeholder)
  {
    var rest := Without(s, placeholder);
    RelocatedUnfold(s, placeholder, t);
    var k := Position(rest, s[t]);
    InsertBefore(rest, k, placeholder);
  }

  /** Inserting a node that is not in the list before position `k`: it
      directly precedes the node that was at `k`, and removing it again
      gives back the list. */
  lemma {:induction false} InsertBefore<T>(rest: seq<T>, k: nat, x: T)
    requires k < |rest| && x !in rest
    ensures var r := InsertAt(rest, k, x);
      && r[k] == x && r[k + 1] == rest[k]
      && Without(r, x) == rest
  {
    var r := InsertAt(rest, k, x);
    assert r[k + 1] == rest[k] by { assert r[k + 1..] == rest[k..]; }
    assert x !in r[..k];
    assert x !in r[k + 1..];
    WithoutAt(r, x, k);
    assert rest[..k] + rest[k..] == rest;
  }

  /** When the placeholder already is the entered element's immediate
      predecessor, drag-enter moves it below the element that follows the
      entered one; when the entered element is the last child, the
      placeholder ends up after it. */
  lemma {:induction false} RelocatedAfter<T>(s: seq<T>, placeholder: T, t: nat)
    requires Distinct(s) && 1 <= t < |s| && s[t - 1] == placeholder
    ensures t + 1 < |s| ==> Relocated(s, placeholder, t) == s[..t - 1] + [s[t], s[t + 1], placeholder] + s[t + 2..]
    ensures t + 1 == |s| ==> Relocated(s, placeholder, t) == s[..t - 1] + [s[t], placeholder]
  {
    WithoutPredecessor(s, placeholder, t);
    RelocatedAfterRest(s, placeholder, t);
  }

  /** RelocatedAfter, once the removal of the predecessor is known. */
  lemma {:induction false} RelocatedAfterRest<T>(s: seq<T>, placeholder: T, t: nat)
    requires 1 <= t < |s| && s[t - 1] == placeholder && s[t] != placeholder
    requires Without(s, placeholder) == s[..t - 1] + s[t..]
    ensures t + 1 < |s| ==> Relocated(s, placeholder, t) == s[..t - 1] + [s[t], s[t + 1], placeholder] + s[t + 2..]
    ensures t + 1 == |s| ==> Relocated(s, placeholder, t) == s[..t - 1] + [s[t], placeholder]
  {
    var rest := s[..t - 1] + s[t..];
    RelocatedUnfold(s, placeholder, t);
    if t + 1 < |s| {
      assert s[t..] == [s[t], s[t + 1]] + s[t + 2..];
      assert rest == s[..t - 1] + [s[t], s[t + 1]] + s[t + 2..];
      InsertAfterPair(s[..t - 1], s[t], s[t + 1], s[t + 2..], placeholder);
    } else {
      assert s[t..] == [s[t]];
    }
  }

  /** Inserting after a pair of adjacent elements. */
  lemma {:induction false} InsertAfterPair<T>(front: seq<T>, x: T, y: T, back: seq<T>, z: T)
    ensures InsertAt(front + [x, y] + back, |front| + 2, z) == front + [x, y, z] + back
  {
    var s := front + [x, y] + back;
    assert s[..|front| + 2] == front + [x, y];
    assert s[|front| + 2..] == back;
  }

  /** Removing the entered element's immediate predecessor. */
  lemma {:induction false} WithoutPredecessor<T>(s: seq<T>, placeholder: T, t: nat)
    requires Distinct(s) && 1 <= t < |s| && s[t - 1] == placeholder
    ensures Without(s, placeholder) == s[..t - 1] + s[t..]
  {
    assert placeholder !in s[..t - 1] && placeholder !in s[t..];
    WithoutAt(s, placeholder, t - 1);
  }

  /** The scan of drag-enter over the siblings: the last positions at which
      the placeholder and the entered element occur, if they do. */
  method Locate<T(==)>(siblings: seq<T>, placeholder: T, target: T)
    returns (placeholderIndex: Option<nat>, targetIndex: Option<nat>)
    ensures placeholderIndex.Some? <==> placeholder in siblings
    ensures placeholderIndex.Some? ==>
      placeholderIndex.value < |siblings| && siblings[placeholderIndex.value] == placeholder &&
      placeholder !in siblings[placeholderIndex.value + 1..]
    ensures targetIndex.Some? <==> target in siblings
    ensures targetIndex.Some? ==>
      targetIndex.value < |siblings| && siblings[targetIndex.value] == target &&
      target !in siblings[targetIndex.value + 1..]
  {
    placeholderIndex, targetIndex := None, None;
    var i := 0;
    while i < |siblings|
      invariant 0 <= i <= |siblings|
      invariant placeholderIndex.Some? <==> placeholder in siblings[..i]
      invariant placeholderIndex.Some? ==>
        placeholderIndex.value < i && siblings[placeholderIndex.value] == placeholder &&
        placeholder !in siblings[placeholderIndex.value + 1..i]
      invariant targetIndex.Some? <==> target in siblings[..i]
      invariant targetIndex.Some? ==>
        targetIndex.value < i && siblings[targetIndex.value] == target &&
        target !in siblings[targetIndex.value + 1..i]
    {
      if siblings[i] == placeholder {
        placeholderIndex := Some(i);
      }
      if siblings[i] == target {
        targetIndex := Some(i);
      }
      assert siblings[..i + 1] == siblings[..i] + [siblings[i]];
      i := i + 1;
    }
    assert siblings[..i] == siblings;
  }

  /** The list surgery of drag-enter: the scan, the removal of the
      placeholder and its insertion before the entered element or after the
      element that now follows it. */
  method RelocatePlaceholder<T(==)>(siblings: seq<T>, placeholder: T, target: T)
    returns (after: seq<T>, t: nat, insertBefore: bool)
    requires Distinct(siblings) && target in siblings && target != placeholder
    ensures t == Position(siblings, target)
    ensures insertBefore == PlacesBefore(siblings, placeholder, t)
    ensures after == Relocated(siblings, placeholder, t)
    ensures Distinct(after)
    ensures !insertBefore ==> |after| == |siblings| && (t + 1 < |after| ==> after[t + 1] == placeholder)
  {
    var placeholderIndex, targetIndex := Locate(siblings, placeholder, target);
    t := targetIndex.value;
    LastIsPosition(siblings, target, t);
    insertBefore := !(placeholderIndex.Some? && placeholderIndex.value == t - 1);
    var rest := siblings;
    if placeholderIndex.Some? {
      var p := placeholderIndex.value;
      WithoutAt(siblings, placeholder, p);
      DistinctRemoveAt(siblings, p);
      rest := siblings[..p] + siblings[p + 1..];
    } else {
      WithoutAbsent(siblings, placeholder);
    }
    if insertBefore {
      var at := if placeholderIndex.Some? && placeholderIndex.value < t then t - 1 else t;
      assert rest[at] == target;
      LastIsPosition(rest, target, at);
      DistinctInsertAt(rest, at, placeholder);
      after := InsertAt(rest, at, placeholder);
    } else {
      var at := Min(t + 1, |rest|);
      DistinctInsertAt(rest, at, placeholder);
      after := InsertAt(rest, at, placeholder);
      RelocatedAfter(siblings, placeholder, t);
    }
  }

  /** In a list of distinct nodes the last occurrence is the position. */
  lemma {:induction false} LastIsPosition<T>(s: seq<T>, x: T, i: nat)
    requires Distinct(s) && i < |s| && s[i] == x
    ensures Position(s, x) == i
  {
  }

  /** Taking one child out keeps the children distinct. */
  lemma {:induction false} DistinctRemoveAt<T>(s: seq<T>, i: nat)
    requires Distinct(s) && i < |s|
    ensures Distinct(s[..i] + s[i + 1..])
  {
    var r := s[..i] + s[i + 1..];
    forall a, b | 0 <= a < b < |r| ensures r[a] != r[b] {
      var a' := if a < i then a else a + 1;
      var b' := if b < i then b else b + 1;
      assert r[a] == s[a'] && r[b] == s[b'];
    }
  }

  /** Inserting a node that is not yet a child keeps the children distinct. */
  lemma {:induction false} DistinctInsertAt<T>(s: seq<T>, i: nat, x: T)
    requires Distinct(s) && x !in s && i <= |s|
    ensures Distinct(InsertAt(s, i, x))
  {
    var r := InsertAt(s, i, x);
    forall a, b | 0 <= a < b < |r| ensures r[a] != r[b] {
      if a != i && b != i {
        var a' := if a < i then a else a - 1;
        var b' := if b < i then b else b - 1;
        assert r[a] == s[a'] && r[b] == s[b'];
      } else if a == i {
        assert r[b] == s[b - 1];
      } else {
        assert r[a] == s[a];
      }
    }
  }
}
