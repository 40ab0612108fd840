/** The synchronisation state machine of src/components/SmartReportDesigner.tsx: the component
    list, the refs that track live overlays, the selection and warning state, and the timers
    (`setTimeout`) as a queue of pending steps that `RunPending` fires. React effects that run
    after a render (creating the overlays of the list, pushing the selection to the canvas)
    are methods the environment calls. */
module Coordinator {
  import opened Common
  import opened SmartComponent
  import opened RangeCodec
  import opened PixelMapper
  import opened ConflictDetector
  import opened ConfigPayload
  import opened OverlayBook

  /** The warning every rejected placement shows. */
  const ConflictMessage: string := "区域与现有组件冲突"

  /** A deferred step: the body of one `setTimeout`. */
  datatype Task =
    | ClearWarning                   // setConflictWarning(null) after 3000 ms
    | CreateOne(c: Component)        // createShape(newComp) after a drop or addComponent
    | Recreate(c: Component)         // createShape(updated), then leave the updating set
    | CreateMany(cs: seq<Component>) // createShape for each loaded or imported component
    | EndInternalSelection           // isInternalSelectionRef.current = false

  /** The ids of a component list, in order (`components.forEach(comp => removeShape(comp.id))`
      visits them so): one per component, and exactly the list's ids. */
  function IdsInOrder(cs: seq<Component>): (ids: seq<Id>)
    ensures |ids| == |cs| && (set id | id in ids) == Ids(cs)
  {
    var ids := seq(|cs|, i requires 0 <= i < |cs| => cs[i].id);
    assert forall id | id in ids :: id in Ids(cs) by {
      forall id | id in ids ensures id in Ids(cs) {
        var i :| 0 <= i < |ids| && ids[i] == id;
        assert cs[i] in cs;
      }
    }
    assert forall x | x in Ids(cs) :: x in ids by {
      forall x | x in Ids(cs) ensures x in ids {
        var c :| c in cs && c.id == x;
        var i :| 0 <= i < |cs| && cs[i] == c;
        assert ids[i] == x;
      }
    }
    ids
  }

  /** Removing the overlays of a list removes exactly the listed ids that have a handle, and
      leaves every other handle and overlay, such as an orphan a pending redraw recorded. */
  lemma RemoveListed(b: Book, cs: seq<Component>, ready: bool)
    requires Consistent(b, ready)
    ensures var gone := Ids(cs) * b.shapes;
      RemoveAll(b, IdsInOrder(cs), ready) ==
        Book(b.canvas - gone, b.shapes - gone, b.componentMap - gone, b.created - gone)
  {
    var gone := Ids(cs) * b.shapes;
    assert (set id | id in IdsInOrder(cs)) * b.shapes == gone;
    if ready {
      RemoveAllExact(b, IdsInOrder(cs));
    } else {
      RemoveAllNotReady(b, IdsInOrder(cs));
      assert gone == {};
      assert Book(b.canvas - gone, b.shapes - gone, b.componentMap - gone, b.created - gone) == b;
    }
  }

  /** The component handleDrop creates: a fresh id, the target's location, an empty prompt
      and the name "<TypeName> <n + 1>" for a list of n components. */
  function DroppedComponent(newId: Id, kind: ComponentType, target: CellRange, n: nat): Component
  {
    Component(newId, RangeToLocation(target.row, target.col, target.rowCount, target.colCount), kind, "",
              TypeName(kind) + " " + IntToDecimal(n + 1), None, None)
  }

  /** A dropped component's location parses back to its target range whenever the target
      starts inside the sheet and spans at least one cell, and its name numbers it after the
      components already listed. */
  lemma DroppedComponentParses(newId: Id, kind: ComponentType, target: CellRange, n: nat)
    requires target.row >= 0 && target.col >= 0 && target.rowCount >= 1 && target.colCount >= 1
    ensures ParseRange(DroppedComponent(newId, kind, target, n).location) == Some(target)
    ensures DroppedComponent(newId, kind, target, n).name == TypeName(kind) + " " + NatToDecimal(n + 1)
  {
    ValidRangeRoundTrip(target);
  }

  /** An edited component survives a purge that spares its id. */
  lemma EditKeepsListed(cs: seq<Component>, u: Component, gone: set<Id>)
    requires u.id !in gone
    ensures u.id in Ids(cs) ==> u in RemoveIds(ReplaceById(cs, u), gone)
  {
  }

  /** The loop of the purge: the handles whose overlay is gone and that are not being
      updated, and the list filtered one such id at a time. */
  method CollectMissing(handles: set<Id>, canvas: map<Id, Overlay>, updating: set<Id>, cs: seq<Component>)
    returns (gone: set<Id>, rest: seq<Component>)
    ensures forall id :: id in gone <==> id in handles && id !in canvas && id !in updating
    ensures rest == RemoveIds(cs, gone)
  {
    var todo := handles;
    gone := {};
    rest := cs;
    RemoveNoIds(cs);
    while todo != {}
      invariant todo <= handles
      invariant forall id :: id in gone <==> id in handles - todo && id !in canvas && id !in updating
      invariant rest == RemoveIds(cs, gone)
      decreases todo
    {
      var id :| id in todo;
      todo := todo - {id};
      if id !in canvas && id !in updating {
        RemoveIdsTwice(cs, gone, {id});
        rest := RemoveIds(rest, {id});
        gone := gone + {id};
      }
    }
  }

  /** The loop of the selection push: deselect the overlay of every handle, then select the
      overlay of the selected id when it is non-empty and has a handle. */
  method SelectOverlays(canvas: map<Id, Overlay>, handles: set<Id>, selected: Option<Id>)
    returns (overlays: map<Id, Overlay>)
    ensures overlays == SelectOnly(canvas, handles, selected)
  {
    overlays := canvas;
    var todo := handles;
    while todo != {}
      invariant todo <= handles
      invariant overlays.Keys == canvas.Keys
      invariant forall id | id in overlays ::
        overlays[id] == if id in handles && id !in todo then canvas[id].(selected := false) else canvas[id]
      decreases todo
    {
      var id :| id in todo;
      todo := todo - {id};
      if id in overlays {
        overlays := overlays[id := overlays[id].(selected := false)];
      }
    }
    if selected.Some? && selected.value != "" && selected.value in handles && selected.value in overlays {
      var id := selected.value;
      overlays := overlays[id := overlays[id].(selected := true)];
    }
    ghost var target := SelectOnly(canvas, handles, selected);
    assert overlays.Keys == target.Keys;
    assert forall id | id in overlays :: overlays[id] == target[id];
  }

  /** The loop of clearAllShapes: the mapped component of every handle, each once, and the
      canvas without the overlays that have handles. */
  method SaveHandles(canvas: map<Id, Overlay>, handles: set<Id>, componentMap: map<Id, Component>)
    returns (saved: seq<Component>, overlays: map<Id, Overlay>)
    requires handles <= componentMap.Keys
    requires forall id | id in componentMap :: componentMap[id].id == id
    ensures SavedFrom(Book(canvas, handles, componentMap, {}), saved)
    ensures overlays == canvas - handles
  {
    saved := [];
    overlays := canvas;
    var todo := handles;
    ghost var done: set<Id> := {};
    while todo != {}
      invariant done + todo == handles && done !! todo
      invariant SaveProgress(canvas, componentMap, done, saved, overlays)
      decreases todo
    {
      var id :| id in todo;
      todo := todo - {id};
      SaveProgressStep(canvas, componentMap, done, saved, overlays, id);
      saved := saved + [componentMap[id]];
      overlays := overlays - {id};
      done := done + {id};
    }
    assert done == handles;
  }

  /** What SaveHandles has done after handling the handles in `done`: their components are
      saved once each and their overlays are gone. */
  ghost predicate SaveProgress(canvas: map<Id, Overlay>, componentMap: map<Id, Component>, done: set<Id>,
                               saved: seq<Component>, overlays: map<Id, Overlay>)
  {
    overlays == canvas - done && SavedFrom(Book(canvas, done, componentMap, {}), saved)
  }

  lemma SaveProgressStep(canvas: map<Id, Overlay>, componentMap: map<Id, Component>, done: set<Id>,
                         saved: seq<Component>, overlays: map<Id, Overlay>, id: Id)
    requires SaveProgress(canvas, componentMap, done, saved, overlays)
    requires id !in done && id in componentMap && componentMap[id].id == id
    ensures SaveProgress(canvas, componentMap, done + {id}, saved + [componentMap[id]], overlays - {id})
  {
    SaveOneMore(canvas, done, componentMap, saved, id);
    RemoveOneMore(canvas, done, id);
  }

  /** Taking one more key out of a map. */
  lemma RemoveOneMore(canvas: map<Id, Overlay>, done: set<Id>, id: Id)
    ensures (canvas - done) - {id} == canvas - (done + {id})
  {
  }

  lemma SaveOneMore(canvas: map<Id, Overlay>, done: set<Id>, componentMap: map<Id, Component>,
                    saved: seq<Component>, id: Id)
    requires SavedFrom(Book(canvas, done, componentMap, {}), saved)
    requires id !in done && id in componentMap && componentMap[id].id == id
    ensures SavedFrom(Book(canvas, done + {id}, componentMap, {}), saved + [componentMap[id]])
  {
    var next := saved + [componentMap[id]];
    forall i, j | 0 <= i < j < |next|
      ensures next[i].id != next[j].id
    {
      assert next[i] == saved[i];
    }
  }

  /** The range a moved overlay snaps to (snapToCell answers a fixed cell before the
      workbook exists). */
  function SnappedRange(ready: bool, sizes: Sizes, box: PixelBox): (r: CellRange)
    ensures 0 <= r.row <= ScanLimit && 0 <= r.col <= ScanLimit && r.rowCount >= 1 && r.colCount >= 1
  {
    if ready then Snap(box, sizes) else CellRange(0, 0, 1, 1)
  }

  /** The location a moved overlay gets. */
  function SnappedLocation(ready: bool, sizes: Sizes, box: PixelBox): string
  {
    var r := SnappedRange(ready, sizes, box);
    RangeToLocation(r.row, r.col, r.rowCount, r.colCount)
  }

  class Designer {
    /** The workbook (`spread`) is available. */
    var ready: bool
    /** Column widths and row heights of the active sheet. */
    var sizes: Sizes
    /** `components`. */
    var components: seq<Component>
    /** The overlays on the sheet, by name. */
    var canvas: map<Id, Overlay>
    /** `shapesRef`: the ids whose overlay handle is kept. */
    var shapes: set<Id>
    /** `componentMapRef`. */
    var componentMap: map<Id, Component>
    /** `createdShapesRef`. */
    var created: set<Id>
    /** `updatingComponentRef`. */
    var updating: set<Id>
    /** `isInternalSelectionRef`. */
    var internalSelection: bool
    /** `selectedId`. */
    var selectedId: Option<Id>
    /** `conflictWarning`. */
    var conflictWarning: Option<string>
    /** Timers that have been set and not yet fired. */
    var pending: seq<Task>

    ghost function Bookkeeping(): Book
      reads this`canvas, this`shapes, this`componentMap, this`created
    {
      Book(canvas, shapes, componentMap, created)
    }

    ghost predicate Valid()
      reads this`canvas, this`shapes, this`componentMap, this`created, this`ready
    {
      Consistent(Bookkeeping(), ready)
    }

    /** A designer mounted with `initialComponents`, before the workbook is ready. */
    constructor(initialComponents: seq<Component>, sheetSizes: Sizes)
      ensures Valid()
      ensures components == initialComponents && sizes == sheetSizes && !ready
      ensures canvas == map[] && shapes == {} && componentMap == map[] && created == {} && updating == {}
      ensures !internalSelection && selectedId == None && conflictWarning == None && pending == []
    {
      ready := false;
      sizes := sheetSizes;
      components := initialComponents;
      canvas := map[];
      shapes := {};
      componentMap := map[];
      created := {};
      updating := {};
      internalSelection := false;
      selectedId := None;
      conflictWarning := None;
      pending := [];
    }

    /** handleWorkbookReady. */
    method HandleWorkbookReady()
      requires Valid()
      modifies this`ready
      ensures Valid() && ready
    {
      ready := true;
    }

    /** createShape. */
    method CreateShape(c: Component)
      requires Valid()
      modifies this`canvas, this`shapes, this`componentMap, this`created
      ensures Bookkeeping() == CreateStep(old(Bookkeeping()), c, ready, sizes)
      ensures Valid()
    {
      ghost var b := Bookkeeping();
      CreateStepConsistent(b, c, ready, sizes);
      if c.id in created {
        return;
      }
      if !ready {
        return;
      }
      var range := ParseRange(c.location);
      if range.None? {
        return;
      }
      var border := BorderColor(c);
      var fill := FillColor(c);
      var box := ShapeBounds(range.value, sizes);
      if c.id in canvas {
        // the canvas refuses a second overlay of the same name; createShape catches that
        return;
      }
      assert Draws(b, c, ready);
      canvas := canvas[c.id := Overlay(box, c.name, fill, border, false)];
      shapes := shapes + {c.id};
      componentMap := componentMap[c.id := c];
      created := created + {c.id};
      assert Bookkeeping() == CreateStep(b, c, ready, sizes);
    }

    /** removeShape. The overlay leaves the canvas first and the three records forget the id
        afterwards; `raised` says whether the widget raises ShapeRemoved synchronously when
        the overlay goes, so that handleShapeRemoved runs in between. */
    method RemoveShape(id: Id, raised: bool)
      modifies this`canvas, this`shapes, this`componentMap, this`created, this`components
      ensures old(Valid()) ==> Valid()
      ensures !raised ==> Bookkeeping() == RemoveStep(old(Bookkeeping()), id, ready) && components == old(components)
      ensures raised ==>
        var gone := RaisedGone(old(Bookkeeping()), id, ready, updating);
        Bookkeeping() == Forget(RemoveStep(old(Bookkeeping()), id, ready), gone) &&
        components == RemoveIds(old(components), gone)
    {
      if !ready || id !in shapes {
        RemoveNoIds(components);
        ForgetNothing(Bookkeeping());
        return;
      }
      if raised && id in canvas {
        RemoveRaising(id);
      } else {
        RemoveNoIds(components);
        ForgetNothing(RemoveStep(Bookkeeping(), id, ready));
        RemoveQuietly(id);
      }
    }

    /** removeShape when no event comes between its steps: the overlay leaves the canvas,
        then the three records forget the id. */
    method RemoveQuietly(id: Id)
      requires ready && id in shapes
      modifies this`canvas, this`shapes, this`componentMap, this`created
      ensures old(Valid()) ==> Valid()
      ensures Bookkeeping() == RemoveStep(old(Bookkeeping()), id, ready)
    {
      if Valid() {
        RemoveStepConsistent(Bookkeeping(), id, ready);
      }
      canvas := canvas - {id};
      shapes := shapes - {id};
      componentMap := componentMap - {id};
      created := created - {id};
    }

    /** removeShape when the widget raises ShapeRemoved as the overlay leaves the canvas:
        handleShapeRemoved purges before the three records forget the id. */
    method RemoveRaising(id: Id)
      requires ready && id in shapes && id in canvas
      modifies this`canvas, this`shapes, this`componentMap, this`created, this`components
      ensures old(Valid()) ==> Valid()
      ensures var gone := RaisedGone(old(Bookkeeping()), id, ready, updating);
        Bookkeeping() == Forget(RemoveStep(old(Bookkeeping()), id, ready), gone) &&
        components == RemoveIds(old(components), gone)
    {
      ghost var b := Bookkeeping();
      ghost var gone := RaisedGone(b, id, ready, updating);
      if Valid() {
        RemoveStepConsistent(b, id, ready);
        ForgetConsistent(RemoveStep(b, id, ready), gone, ready);
      }
      canvas := canvas - {id};
      assert Bookkeeping() == b.(canvas := b.canvas - {id});
      HandleShapeRemoved();
      ghost var mid := Bookkeeping();
      RaisedRemoval(b, id, updating);
      shapes := shapes - {id};
      componentMap := componentMap - {id};
      created := created - {id};
      assert Bookkeeping() == Book(mid.canvas, mid.shapes - {id}, mid.componentMap - {id}, mid.created - {id});
    }

    /** createShape for every component of a list, in order. */
    method CreateEach(cs: seq<Component>)
      requires Valid()
      modifies this`canvas, this`shapes, this`componentMap, this`created
      ensures Bookkeeping() == CreateAll(old(Bookkeeping()), cs, ready, sizes)
      ensures Valid()
    {
      for i := 0 to |cs|
        invariant Valid()
        invariant Bookkeeping() == CreateAll(old(Bookkeeping()), cs[..i], ready, sizes)
      {
        CreateAllPrefix(old(Bookkeeping()), cs, i, ready, sizes);
        CreateShape(cs[i]);
      }
      assert cs[..|cs|] == cs;
    }

    /** removeShape for every id of a list, in order. */
    method RemoveEach(ids: seq<Id>)
      requires Valid()
      modifies this`canvas, this`shapes, this`componentMap, this`created, this`components
      ensures Bookkeeping() == RemoveAll(old(Bookkeeping()), ids, ready)
      ensures Valid() && components == old(components)
    {
      for i := 0 to |ids|
        invariant Valid() && components == old(components)
        invariant Bookkeeping() == RemoveAll(old(Bookkeeping()), ids[..i], ready)
      {
        RemoveAllPrefix(old(Bookkeeping()), ids, i, ready);
        RemoveShape(ids[i], false);
      }
      assert ids[..|ids|] == ids;
    }

    /** The effect that creates the overlays of the component list once the workbook is
        ready and the list is not empty. */
    method CreateShapesEffect()
      requires Valid()
      modifies this`canvas, this`shapes, this`componentMap, this`created
      ensures Bookkeeping() == CreateAll(old(Bookkeeping()), components, ready, sizes)
      ensures Valid()
    {
      if !ready {
        CreateAllNotReady(Bookkeeping(), components, sizes);
        return;
      }
      if |components| == 0 {
        return;
      }
      CreateEach(components);
    }

    /** The purge shared by handleShapeRemoved and handleShapeSelectionChanged: every id whose
        overlay has left the canvas and that is not being updated is dropped from the list
        and from all bookkeeping. */
    method PurgeMissingShapes()
      modifies this`shapes, this`componentMap, this`created, this`components
      ensures Bookkeeping() == Forget(old(Bookkeeping()), Missing(old(Bookkeeping()), updating))
      ensures old(Valid()) ==> Valid()
      ensures components == RemoveIds(old(components), Missing(old(Bookkeeping()), updating))
    {
      if Valid() {
        ForgetConsistent(Bookkeeping(), Missing(Bookkeeping(), updating), ready);
      }
      var removed, list := CollectMissing(shapes, canvas, updating, components);
      assert removed == Missing(Bookkeeping(), updating);
      shapes := shapes - removed;
      componentMap := componentMap - removed;
      created := created - removed;
      components := list;
    }

    /** handleShapeRemoved. */
    method HandleShapeRemoved()
      modifies this`shapes, this`componentMap, this`created, this`components
      ensures Bookkeeping() == Forget(old(Bookkeeping()), Missing(old(Bookkeeping()), updating))
      ensures old(Valid()) ==> Valid()
      ensures components == RemoveIds(old(components), Missing(old(Bookkeeping()), updating))
    {
      PurgeMissingShapes();
    }

    /** The selection after a canvas selection change, given the book after the purge. */
    ghost function SelectionAfter(b: Book, shape: Option<Id>, current: Option<Id>): Option<Id>
    {
      if shape.Some? then
        (if shape.value in b.componentMap && shape.value in b.shapes then shape else current)
      else if current.Some? && current.value != "" && current.value in b.shapes then None
      else current
    }

    /** handleShapeSelectionChanged: ignored while the designer itself is selecting; otherwise
        purge, then select the clicked overlay's component or clear the selection. */
    method HandleShapeSelectionChanged(shape: Option<Id>)
      requires Valid()
      modifies this`shapes, this`componentMap, this`created, this`components, this`selectedId
      ensures Valid()
      ensures old(internalSelection) ==>
        Bookkeeping() == old(Bookkeeping()) && components == old(components) && selectedId == old(selectedId)
      ensures !old(internalSelection) ==>
        var after := Forget(old(Bookkeeping()), Missing(old(Bookkeeping()), updating));
        Bookkeeping() == after &&
        components == RemoveIds(old(components), Missing(old(Bookkeeping()), updating)) &&
        selectedId == SelectionAfter(after, shape, old(selectedId))
    {
      if internalSelection {
        return;
      }
      PurgeMissingShapes();
      if shape.Some? {
        var shapeId := shape.value;
        if shapeId in componentMap && shapeId in shapes {
          selectedId := Some(shapeId);
        }
      } else {
        if selectedId.Some? && selectedId.value != "" && selectedId.value in shapes {
          selectedId := None;
        }
      }
    }

    /** The effect that pushes `selectedId` to the canvas: deselect every overlay, select the
        selected one, and ignore canvas selection events until the pending step ends that. */
    method PushSelection()
      requires Valid()
      modifies this`canvas, this`internalSelection, this`pending
      ensures Valid()
      ensures !ready ==> canvas == old(canvas) && internalSelection == old(internalSelection) && pending == old(pending)
      ensures ready ==>
        canvas == SelectOnly(old(canvas), shapes, selectedId) && internalSelection &&
        pending == old(pending) + [EndInternalSelection]
    {
      if !ready {
        return;
      }
      internalSelection := true;
      canvas := SelectOverlays(canvas, shapes, selectedId);
      pending := pending + [EndInternalSelection];
    }

    /** The event reports an overlay of a known component whose bounds snap to a different
        location. */
    ghost predicate Moves(shape: Option<Id>)
      reads this
    {
      shape.Some? && shape.value in canvas && shape.value in componentMap &&
      componentMap[shape.value].location != SnappedLocation(ready, sizes, canvas[shape.value].box)
    }

    /** handleShapeChanged for the overlay named `shape` (None when the event carries no
        shape): snap the overlay's current bounds to cells; for a known component whose
        location changes, commit the new location to the list and the map, and on a conflict
        also show the warning and set its timer. */
    method HandleShapeChanged(shape: Option<Id>)
      requires Valid() && (shape.Some? ==> shape.value in canvas)
      modifies this`components, this`componentMap, this`conflictWarning, this`pending
      ensures !old(Moves(shape)) ==>
        components == old(components) && componentMap == old(componentMap) &&
        conflictWarning == old(conflictWarning) && pending == old(pending)
      ensures old(Moves(shape)) ==>
        var id := shape.value;
        var box := canvas[id].box;
        var loc := SnappedLocation(ready, sizes, box);
        var conflict := HasConflict(old(components), SnappedRange(ready, sizes, box), Some(id));
        components == SetLocation(old(components), id, loc) &&
        componentMap == old(componentMap)[id := old(componentMap)[id].(location := loc)] &&
        conflictWarning == (if conflict then Some(ConflictMessage) else old(conflictWarning)) &&
        pending == old(pending) + (if conflict then [ClearWarning] else [])
      ensures Valid()
    {
      if shape.None? {
        return;
      }
      var shapeId := shape.value;
      var bounds := canvas[shapeId].box;
      var snapped;
      if ready {
        snapped := SnapToCell(bounds, sizes);
      } else {
        snapped := CellRange(0, 0, 1, 1);
      }
      assert snapped == SnappedRange(ready, sizes, bounds);
      var newLocation := RangeToLocation(snapped.row, snapped.col, snapped.rowCount, snapped.colCount);
      assert newLocation == SnappedLocation(ready, sizes, bounds);
      if shapeId in componentMap && componentMap[shapeId].location != newLocation {
        assert Moves(shape);
        ValidRangeRoundTrip(snapped);
        CommitMove(shapeId, newLocation, snapped);
      }
    }

    /** The branch of handleShapeChanged that commits a move: check the snapped range for a
        conflict (showing the warning and setting its timer), then store the new location in
        the list and the map. */
    method CommitMove(id: Id, loc: string, snapped: CellRange)
      requires Valid() && id in componentMap && ParseRange(loc).Some?
      modifies this`components, this`componentMap, this`conflictWarning, this`pending
      ensures components == SetLocation(old(components), id, loc)
      ensures componentMap == old(componentMap)[id := old(componentMap)[id].(location := loc)]
      ensures var conflict := HasConflict(old(components), snapped, Some(id));
        conflictWarning == (if conflict then Some(ConflictMessage) else old(conflictWarning)) &&
        pending == old(pending) + (if conflict then [ClearWarning] else [])
      ensures Valid()
    {
      var comp := componentMap[id];
      var hasConflict := CheckConflict(components, snapped, Some(id));
      if hasConflict {
        conflictWarning := Some(ConflictMessage);
        pending := pending + [ClearWarning];
      }
      RelocateConsistent(Bookkeeping(), id, loc, ready);
      components := SetLocation(components, id, loc);
      componentMap := componentMap[id := comp.(location := loc)];
    }

    /** Where a drop places its component: a selection of at least one cell, otherwise the
        drop cell with the type's default size. */
    function DropTarget(kind: ComponentType, point: (int, int), selection: Option<CellRange>): CellRange
      reads this`sizes
    {
      if selection.Some? && selection.value.rowCount > 0 && selection.value.colCount > 0 then selection.value
      else DropRange(kind, point.0, point.1, sizes)
    }

    /** handleDrop. `kind` is None when the drag carried no component type, `point` is None when
        no designer host element was found, otherwise the drop position relative to it. */
    method HandleDrop(kind: Option<ComponentType>, point: Option<(int, int)>, selection: Option<CellRange>, newId: Id)
      requires Valid()
      modifies this`components, this`selectedId, this`conflictWarning, this`pending
      ensures !ready || kind.None? || point.None? ==>
        components == old(components) && selectedId == old(selectedId) &&
        conflictWarning == old(conflictWarning) && pending == old(pending)
      ensures ready && kind.Some? && point.Some? ==>
        var target := DropTarget(kind.value, point.value, selection);
        if HasConflict(old(components), target, None) then
          conflictWarning == Some(ConflictMessage) && pending == old(pending) + [ClearWarning] &&
          components == old(components) && selectedId == old(selectedId)
        else
          var c := DroppedComponent(newId, kind.value, target, |old(components)|);
          components == old(components) + [c] && selectedId == Some(newId) &&
          pending == old(pending) + [CreateOne(c)] && conflictWarning == old(conflictWarning)
      ensures Valid()
    {
      if !ready {
        return;
      }
      if kind.None? {
        return;
      }
      if point.None? {
        return;
      }
      var targetRange;
      if selection.Some? && selection.value.rowCount > 0 && selection.value.colCount > 0 {
        targetRange := selection.value;
      } else {
        var size := DefaultSize(kind.value);
        var col := DropCellSearch(point.value.0, sizes.colWidth);
        var row := DropCellSearch(point.value.1, sizes.rowHeight);
        targetRange := CellRange(row, col, size.0, size.1);
      }
      assert targetRange == DropTarget(kind.value, point.value, selection);
      PlaceDrop(kind.value, targetRange, newId);
    }

    /** The second half of handleDrop: refuse a target range that overlaps a component with
        the conflict warning and its timer, otherwise append the new component, select it and
        schedule its overlay. */
    method PlaceDrop(kind: ComponentType, target: CellRange, newId: Id)
      requires Valid()
      modifies this`components, this`selectedId, this`conflictWarning, this`pending
      ensures HasConflict(old(components), target, None) ==>
        conflictWarning == Some(ConflictMessage) && pending == old(pending) + [ClearWarning] &&
        components == old(components) && selectedId == old(selectedId)
      ensures !HasConflict(old(components), target, None) ==>
        var c := DroppedComponent(newId, kind, target, |old(components)|);
        components == old(components) + [c] && selectedId == Some(newId) &&
        pending == old(pending) + [CreateOne(c)] && conflictWarning == old(conflictWarning)
      ensures Valid()
    {
      var conflict := CheckConflict(components, target, None);
      if conflict {
        conflictWarning := Some(ConflictMessage);
        pending := pending + [ClearWarning];
        return;
      }
      var newComp := DroppedComponent(newId, kind, target, |components|);
      components := components + [newComp];
      selectedId := Some(newComp.id);
      pending := pending + [CreateOne(newComp)];
    }

    /** handleUpdateComponent refuses the edit: the location of a known component changes to
        a range that parses and overlaps another component. */
    ghost predicate RejectsUpdate(u: Component)
      reads this
    {
      u.id in componentMap && componentMap[u.id].location != u.location &&
      ParseRange(u.location).Some? && HasConflict(components, ParseRange(u.location).value, Some(u.id))
    }

    /** The bookkeeping once handleUpdateComponent has recorded the edited component. */
    ghost function Edited(u: Component): Book
      reads this
    {
      Bookkeeping().(componentMap := componentMap[u.id := u])
    }

    /** handleUpdateComponent: refuse a conflicting move with the warning; otherwise replace
        the component, mark it as updating, remove its overlay and set the timer that will
        draw it again. `raised` is passed on to removeShape. */
    method HandleUpdateComponent(updated: Component, raised: bool)
      requires Valid()
      modifies this`components, this`componentMap, this`conflictWarning, this`pending, this`updating,
               this`canvas, this`shapes, this`created
      ensures Valid()
      ensures old(RejectsUpdate(updated)) ==>
        conflictWarning == Some(ConflictMessage) && pending == old(pending) + [ClearWarning] &&
        components == old(components) && Bookkeeping() == old(Bookkeeping()) && updating == old(updating)
      ensures !old(RejectsUpdate(updated)) ==>
        updating == old(updating) + {updated.id} &&
        pending == old(pending) + [Recreate(updated)] && conflictWarning == old(conflictWarning)
      ensures !old(RejectsUpdate(updated)) && !raised ==>
        components == ReplaceById(old(components), updated) &&
        Bookkeeping() == RemoveStep(old(Edited(updated)), updated.id, ready)
      ensures !old(RejectsUpdate(updated)) && raised ==>
        var gone := RaisedGone(old(Edited(updated)), updated.id, ready, updating);
        components == RemoveIds(ReplaceById(old(components), updated), gone) &&
        Bookkeeping() == Forget(RemoveStep(old(Edited(updated)), updated.id, ready), gone)
      ensures !old(RejectsUpdate(updated)) && updated.id in Ids(old(components)) ==> updated in components
    {
      if updated.id in componentMap && componentMap[updated.id].location != updated.location {
        var newRange := ParseRange(updated.location);
        if newRange.Some? {
          var conflict := CheckConflict(components, newRange.value, Some(updated.id));
          if conflict {
            conflictWarning := Some(ConflictMessage);
            pending := pending + [ClearWarning];
            return;
          }
        }
      }
      CommitUpdate(updated, raised);
    }

    /** The accepted half of handleUpdateComponent. The id is marked as updating before its
        overlay goes, so a ShapeRemoved raised by that removal does not purge it: the edited
        component stays listed. */
    method CommitUpdate(updated: Component, raised: bool)
      requires Valid()
      modifies this`components, this`componentMap, this`pending, this`updating, this`canvas, this`shapes, this`created
      ensures Valid()
      ensures updating == old(updating) + {updated.id} && pending == old(pending) + [Recreate(updated)]
      ensures !raised ==>
        components == ReplaceById(old(components), updated) &&
        Bookkeeping() == RemoveStep(old(Edited(updated)), updated.id, ready)
      ensures raised ==>
        var gone := RaisedGone(old(Edited(updated)), updated.id, ready, updating);
        components == RemoveIds(ReplaceById(old(components), updated), gone) &&
        Bookkeeping() == Forget(RemoveStep(old(Edited(updated)), updated.id, ready), gone)
      ensures updated.id in Ids(old(components)) ==> updated in components
    {
      ghost var e := Edited(updated);
      CommitRaisedConsistent(Bookkeeping(), updated, ready, updating + {updated.id});
      EditKeepsListed(components, updated, RaisedGone(e, updated.id, ready, updating + {updated.id}));
      RecordEdit(updated);
      RemoveShape(updated.id, raised);
      pending := pending + [Recreate(updated)];
    }

    /** The first steps of an accepted edit: the list and the map take the edited component,
        and its id is marked as updating. */
    method RecordEdit(u: Component)
      modifies this`components, this`componentMap, this`updating
      ensures components == ReplaceById(old(components), u) && updating == old(updating) + {u.id}
      ensures Bookkeeping() == old(Edited(u))
    {
      components := ReplaceById(components, u);
      componentMap := componentMap[u.id := u];
      updating := updating + {u.id};
    }

    /** handleDeleteComponent: remove the overlay, drop the component, clear the selection
        whichever component was selected. `raised` is passed on to removeShape. */
    method HandleDeleteComponent(id: Id, raised: bool)
      requires Valid()
      modifies this`canvas, this`shapes, this`componentMap, this`created, this`components, this`selectedId
      ensures Valid() && selectedId == None
      ensures var gone := if raised then RaisedGone(old(Bookkeeping()), id, ready, updating) else {};
        Bookkeeping() == Forget(RemoveStep(old(Bookkeeping()), id, ready), gone) &&
        components == RemoveIds(old(components), gone + {id})
      ensures !raised ==> Bookkeeping() == RemoveStep(old(Bookkeeping()), id, ready)
    {
      ghost var gone := if raised then RaisedGone(Bookkeeping(), id, ready, updating) else {};
      if !raised {
        ForgetNothing(RemoveStep(Bookkeeping(), id, ready));
        RemoveNoIds(components);
      }
      RemoveIdsTwice(components, gone, {id});
      RemoveShape(id, raised);
      components := RemoveIds(components, {id});
      selectedId := None;
    }

    /** loadComponents: remove the overlays of the current list, reset the created set, take
        the new list, clear the selection and set the timer that draws the new overlays. */
    method LoadComponents(newComponents: seq<Component>)
      requires Valid()
      modifies this`canvas, this`shapes, this`componentMap, this`created, this`components, this`selectedId,
               this`pending
      ensures Bookkeeping() == RemoveAll(old(Bookkeeping()), IdsInOrder(old(components)), ready).(created := {})
      ensures Valid()
      ensures components == newComponents && selectedId == None
      ensures pending == old(pending) + [CreateMany(newComponents)]
      ensures shapes == old(shapes) - Ids(old(components)) && created == {}
      ensures canvas == old(canvas) - (Ids(old(components)) * old(shapes))
    {
      RemoveListed(Bookkeeping(), components, ready);
      RemoveEach(IdsInOrder(components));
      created := {};
      components := newComponents;
      selectedId := None;
      pending := pending + [CreateMany(newComponents)];
    }

    /** handleFileChange once the file has been read: a payload without a `component_list`
        array, or text that is not JSON, is refused and changes nothing; otherwise the imported
        components are loaded as loadComponents does. */
    method HandleFileChange(payload: ImportPayload, freshId: nat -> Id) returns (accepted: bool)
      requires Valid()
      modifies this`canvas, this`shapes, this`componentMap, this`created, this`components, this`selectedId,
               this`pending
      ensures Valid()
      ensures accepted <==> Import(payload, freshId).Some?
      ensures !accepted ==>
        Bookkeeping() == old(Bookkeeping()) && components == old(components) &&
        selectedId == old(selectedId) && pending == old(pending)
      ensures accepted ==>
        var imported := Import(payload, freshId).value;
        Bookkeeping() == RemoveAll(old(Bookkeeping()), IdsInOrder(old(components)), ready).(created := {}) &&
        components == imported && selectedId == None && pending == old(pending) + [CreateMany(imported)]
    {
      var imported := Import(payload, freshId);
      if imported.None? {
        return false;
      }
      LoadComponents(imported.value);
      return true;
    }

    /** clearComponents. */
    method ClearComponents()
      requires Valid()
      modifies this`canvas, this`shapes, this`componentMap, this`created, this`components, this`selectedId
      ensures Bookkeeping() == RemoveAll(old(Bookkeeping()), IdsInOrder(old(components)), ready)
      ensures Valid()
      ensures components == [] && selectedId == None
      ensures shapes == old(shapes) - Ids(old(components))
      ensures canvas == old(canvas) - (Ids(old(components)) * old(shapes))
    {
      RemoveListed(Bookkeeping(), components, ready);
      RemoveEach(IdsInOrder(components));
      components := [];
      selectedId := None;
    }

    /** addComponent: append a copy with a fresh id and set the timer that draws it; no
        conflict check. */
    method AddComponent(comp: Component, newId: Id) returns (newComp: Component)
      requires Valid()
      modifies this`components, this`pending
      ensures Valid()
      ensures newComp == comp.(id := newId)
      ensures components == old(components) + [newComp] && pending == old(pending) + [CreateOne(newComp)]
    {
      newComp := comp.(id := newId);
      components := components + [newComp];
      pending := pending + [CreateOne(newComp)];
    }

    /** setSelectedComponent. */
    method SetSelectedComponent(id: Option<Id>)
      requires Valid()
      modifies this`selectedId
      ensures Valid() && selectedId == id
    {
      selectedId := id;
    }

    /** clearAllShapes: save the mapped component of every handle, remove every overlay that
        has a handle and reset all three records; nothing once the workbook is missing. */
    method ClearAllShapes() returns (saved: Option<seq<Component>>)
      requires Valid()
      modifies this`canvas, this`shapes, this`componentMap, this`created
      ensures Valid()
      ensures !ready ==> saved.None? && Bookkeeping() == old(Bookkeeping())
      ensures ready ==> saved.Some? && SavedFrom(old(Bookkeeping()), saved.value) && Bookkeeping() == ClearAll(old(Bookkeeping()))
    {
      if !ready {
        return None;
      }
      ClearAllConsistent(Bookkeeping(), ready);
      var shapeData, overlays := SaveHandles(canvas, shapes, componentMap);
      canvas := overlays;
      shapes := {};
      componentMap := map[];
      created := {};
      return Some(shapeData);
    }

    /** restoreAllShapes: createShape for every saved component, once the workbook exists. */
    method RestoreAllShapes(saved: seq<Component>)
      requires Valid()
      modifies this`canvas, this`shapes, this`componentMap, this`created
      ensures Bookkeeping() == CreateAll(old(Bookkeeping()), saved, ready, sizes)
      ensures Valid()
    {
      if !ready {
        CreateAllNotReady(Bookkeeping(), saved, sizes);
        return;
      }
      CreateEach(saved);
    }

    /** A timer fires: the k-th pending step leaves the queue and runs. */
    method RunPending(k: nat)
      requires Valid() && k < |pending|
      modifies this`canvas, this`shapes, this`componentMap, this`created, this`updating, this`conflictWarning,
               this`internalSelection, this`pending
      ensures Valid()
      ensures pending == old(pending[..k] + pending[k + 1..])
      ensures old(pending[k]).ClearWarning? ==>
        conflictWarning == None && Bookkeeping() == old(Bookkeeping()) && updating == old(updating) &&
        internalSelection == old(internalSelection)
      ensures old(pending[k]).CreateOne? ==>
        Bookkeeping() == CreateStep(old(Bookkeeping()), old(pending[k]).c, ready, sizes) &&
        updating == old(updating) && conflictWarning == old(conflictWarning) && internalSelection == old(internalSelection)
      ensures old(pending[k]).Recreate? ==>
        Bookkeeping() == CreateStep(old(Bookkeeping()), old(pending[k]).c, ready, sizes) &&
        updating == old(updating) - {old(pending[k]).c.id} &&
        conflictWarning == old(conflictWarning) && internalSelection == old(internalSelection)
      ensures old(pending[k]).CreateMany? ==>
        Bookkeeping() == CreateAll(old(Bookkeeping()), old(pending[k]).cs, ready, sizes) &&
        updating == old(updating) && conflictWarning == old(conflictWarning) && internalSelection == old(internalSelection)
      ensures old(pending[k]).EndInternalSelection? ==>
        !internalSelection && Bookkeeping() == old(Bookkeeping()) && updating == old(updating) &&
        conflictWarning == old(conflictWarning)
    {
      var task := pending[k];
      pending := pending[..k] + pending[k + 1..];
      match task
      case ClearWarning =>
        conflictWarning := None;
      case CreateOne(c) =>
        CreateShape(c);
      case Recreate(c) =>
        CreateShape(c);
        updating := updating - {c.id};
      case CreateMany(cs) =>
        CreateEach(cs);
      case EndInternalSelection =>
        internalSelection := false;
    }

    /** The user deletes an overlay on the sheet (the widget's own action; the designer learns
        of it through the purge). */
    method UserRemovesOverlay(id: Id)
      requires Valid()
      modifies this`canvas
      ensures Valid() && canvas == old(canvas) - {id}
    {
      canvas := canvas - {id};
    }

    /** The user inserts, pastes or restores (undoes the deletion of) an overlay on the sheet:
        the widget adds it under a name no overlay on the canvas has, possibly the name of a
        handle whose overlay is gone. */
    method UserAddsOverlay(id: Id, o: Overlay)
      requires Valid()
      modifies this`canvas
      ensures Valid()
      ensures canvas == if id in old(canvas) then old(canvas) else old(canvas)[id := o]
    {
      if id !in canvas {
        canvas := canvas[id := o];
      }
    }

    /** The user drags or resizes an overlay on the sheet (the widget's own action; the
        designer learns of it through handleShapeChanged). */
    method UserMovesOverlay(id: Id, box: PixelBox)
      requires Valid()
      modifies this`canvas
      ensures Valid()
      ensures canvas == if id in old(canvas) then old(canvas)[id := old(canvas)[id].(box := box)] else old(canvas)
    {
      if id in canvas {
        canvas := canvas[id := canvas[id].(box := box)];
      }
    }
  }

  /** An accepted edit of a drawn component followed by its timer: the overlay is drawn
      again, at the edited location and with the edited name and colours, and the component
      is no longer marked as updating. */
  method EditThenRedraw(d: Designer, u: Component)
    requires d.Valid() && d.ready && u.id in d.shapes
    requires !d.RejectsUpdate(u) && ParseRange(u.location).Some?
    modifies d
    ensures d.Valid() && d.components == ReplaceById(old(d.components), u)
    ensures u.id in d.canvas && d.canvas[u.id] == OverlayFor(u, ParseRange(u.location).value, d.sizes)
    ensures u.id in d.componentMap && d.componentMap[u.id] == u && u.id !in d.updating
  {
    d.HandleUpdateComponent(u, false);
    d.RunPending(|d.pending| - 1);
  }

  /** Dragging a component's overlay and the ShapeChanged event that follows: the component
      is stored at the location the new bounds snap to, and that location parses back to the
      snapped range. */
  method DragThenCommit(d: Designer, id: Id, box: PixelBox)
    requires d.Valid() && id in d.canvas && id in d.componentMap
    modifies d
    ensures d.Valid() && id in d.componentMap
    ensures d.componentMap[id].location == SnappedLocation(d.ready, d.sizes, box)
    ensures ParseRange(d.componentMap[id].location) == Some(SnappedRange(d.ready, d.sizes, box))
  {
    d.UserMovesOverlay(id, box);
    d.HandleShapeChanged(Some(id));
    var r := SnappedRange(d.ready, d.sizes, box);
    ValidRangeRoundTrip(r);
  }

  /** Deleting a component while the timer of its edit is pending: the timer still draws the
      edited overlay and records its handle, although the component is no longer listed. */
  method DeleteDuringEdit(d: Designer, u: Component)
    requires d.Valid() && d.ready && u.id in d.shapes
    requires !d.RejectsUpdate(u) && ParseRange(u.location).Some?
    modifies d
    ensures d.Valid()
    ensures u.id in d.canvas && u.id in d.shapes && u.id !in Ids(d.components)
  {
    ghost var b := d.Bookkeeping();
    Orphan(b, u, d.sizes);
    d.HandleUpdateComponent(u, false);
    var k := |d.pending| - 1;
    d.HandleDeleteComponent(u.id, false);
    d.RunPending(k);
  }

  /** The books of DeleteDuringEdit: the edit removes the overlay, the delete finds no handle,
      and the pending redraw draws the overlay and records its handle again. */
  lemma Orphan(b: Book, u: Component, s: Sizes)
    requires Consistent(b, true) && u.id in b.shapes && ParseRange(u.location).Some?
    ensures var e := RemoveStep(b.(componentMap := b.componentMap[u.id := u]), u.id, true);
      RemoveStep(e, u.id, true) == e &&
      u.id in CreateStep(e, u, true, s).canvas && u.id in CreateStep(e, u, true, s).shapes
  {
  }
}
