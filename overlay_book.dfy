/** The overlay bookkeeping of src/components/SmartReportDesigner.tsx as values: the canvas
    of named overlays, `shapesRef`, `componentMapRef` and `createdShapesRef`, with the
    transitions `createShape`, `removeShape`, the missing-overlay purge, `clearAllShapes` and
    the selection push apply to them. The Designer class keeps its fields equal to one of
    these books. */
module OverlayBook {
  import opened Common
  import opened SmartComponent
  import opened RangeCodec
  import opened PixelMapper

  /** One overlay on the sheet: its rectangle, text, colours and whether it is selected. */
  datatype Overlay = Overlay(box: PixelBox, text: string, fill: Color, border: Color, selected: bool)

  /** The canvas (overlays by name), the ids with a live overlay handle, the id -> component
      map and the ids created since the last reset. */
  datatype Book = Book(
    canvas: map<Id, Overlay>,
    shapes: set<Id>,
    componentMap: map<Id, Component>,
    created: set<Id>)

  /** The invariant the designer keeps:
      - every created id has a handle, and every handle a component;
      - the component map is keyed by the components' own ids;
      - every live overlay belongs to a component whose location parses;
      - nothing is drawn before the workbook is ready.
      The canvas may also hold overlays the designer did not draw (inserted, pasted or
      restored by the user), under any name. */
  ghost predicate Consistent(b: Book, ready: bool)
  {
    && b.created <= b.shapes
    && b.shapes <= b.componentMap.Keys
    && (forall id | id in b.componentMap :: b.componentMap[id].id == id)
    && (forall id | id in b.shapes :: ParseRange(b.componentMap[id].location).Some?)
    && (!ready ==> b.shapes == {})
  }

  /** The overlay createShape draws for a component at a parsed range. */
  function OverlayFor(c: Component, r: CellRange, s: Sizes): Overlay
  {
    Overlay(BoxOf(r, s), c.name, FillColor(c), BorderColor(c), false)
  }

  /** createShape draws a new overlay: not created since the last reset, the workbook is
      ready, the location parses and no overlay of that name is on the canvas yet (the
      canvas refuses a second overlay of the same name, and createShape swallows that). */
  predicate Draws(b: Book, c: Component, ready: bool)
  {
    c.id !in b.created && ready && ParseRange(c.location).Some? && c.id !in b.canvas
  }

  /** createShape. */
  function CreateStep(b: Book, c: Component, ready: bool, s: Sizes): (r: Book)
    ensures c.id in b.created || !ready || ParseRange(c.location).None? ==> r == b
    ensures Draws(b, c, ready) ==>
      c.id in r.shapes && c.id in r.created && c.id in r.componentMap && r.componentMap[c.id] == c &&
      c.id in r.canvas && r.canvas[c.id] == OverlayFor(c, ParseRange(c.location).value, s)
    ensures forall id | id != c.id ::
      (id in r.canvas <==> id in b.canvas) && (id in r.canvas ==> r.canvas[id] == b.canvas[id]) &&
      (id in r.shapes <==> id in b.shapes) && (id in r.created <==> id in b.created) &&
      (id in r.componentMap <==> id in b.componentMap) &&
      (id in r.componentMap ==> r.componentMap[id] == b.componentMap[id])
  {
    if Draws(b, c, ready) then
      Book(b.canvas[c.id := OverlayFor(c, ParseRange(c.location).value, s)], b.shapes + {c.id},
           b.componentMap[c.id := c], b.created + {c.id})
    else b
  }

  /** removeShape: only an id with a live handle, and only once the workbook is ready. */
  function RemoveStep(b: Book, id: Id, ready: bool): (r: Book)
    ensures ready && id in b.shapes ==>
      id !in r.canvas && id !in r.shapes && id !in r.componentMap && id !in r.created
    ensures !ready || id !in b.shapes ==> r == b
    ensures forall other | other != id ::
      (other in r.canvas <==> other in b.canvas) && (other in r.canvas ==> r.canvas[other] == b.canvas[other]) &&
      (other in r.shapes <==> other in b.shapes) && (other in r.created <==> other in b.created) &&
      (other in r.componentMap <==> other in b.componentMap) &&
      (other in r.componentMap ==> r.componentMap[other] == b.componentMap[other])
  {
    if ready && id in b.shapes then
      Book(b.canvas - {id}, b.shapes - {id}, b.componentMap - {id}, b.created - {id})
    else b
  }

  /** createShape applied to every component of a list, in order. */
  function CreateAll(b: Book, cs: seq<Component>, ready: bool, s: Sizes): Book
    decreases |cs|
  {
    if |cs| == 0 then b else CreateStep(CreateAll(b, cs[..|cs| - 1], ready, s), cs[|cs| - 1], ready, s)
  }

  /** removeShape applied to every id of a list, in order. */
  function RemoveAll(b: Book, ids: seq<Id>, ready: bool): Book
    decreases |ids|
  {
    if |ids| == 0 then b else RemoveStep(RemoveAll(b, ids[..|ids| - 1], ready), ids[|ids| - 1], ready)
  }

  /** One more step of a fold over a prefix of the list. */
  lemma CreateAllPrefix(b: Book, cs: seq<Component>, i: nat, ready: bool, s: Sizes)
    requires i < |cs|
    ensures CreateAll(b, cs[..i + 1], ready, s) == CreateStep(CreateAll(b, cs[..i], ready, s), cs[i], ready, s)
  {
    assert cs[..i + 1][..i] == cs[..i];
  }

  lemma RemoveAllPrefix(b: Book, ids: seq<Id>, i: nat, ready: bool)
    requires i < |ids|
    ensures RemoveAll(b, ids[..i + 1], ready) == RemoveStep(RemoveAll(b, ids[..i], ready), ids[i], ready)
  {
    assert ids[..i + 1][..i] == ids[..i];
  }

  /** The ids the purge of handleShapeRemoved / handleShapeSelectionChanged drops: a handle
      whose overlay is gone from the canvas, unless the id is being updated. */
  function Missing(b: Book, updating: set<Id>): (gone: set<Id>)
    ensures forall id :: id in gone <==> id in b.shapes && id !in b.canvas && id !in updating
  {
    set id | id in b.shapes && id !in b.canvas && id !in updating
  }

  /** The purge: forget the given ids in the handles, the map and the created set. */
  function Forget(b: Book, gone: set<Id>): Book
  {
    Book(b.canvas, b.shapes - gone, b.componentMap - gone, b.created - gone)
  }

  /** The ids the purge drops when the widget raises ShapeRemoved while removeShape is
      removing `id`: only an overlay that is on the canvas can be removed (the widget throws
      otherwise, and nothing is raised), and the handles then left without an overlay go. */
  function RaisedGone(b: Book, id: Id, ready: bool, updating: set<Id>): (gone: set<Id>)
    ensures gone <= b.shapes && gone !! updating
    ensures ready && id in b.shapes && id in b.canvas && id !in updating ==> id in gone
    ensures forall other | other != id && other in gone :: other !in b.canvas
  {
    if ready && id in b.shapes && id in b.canvas then Missing(b.(canvas := b.canvas - {id}), updating) else {}
  }

  /** Forgetting no id changes nothing. */
  lemma ForgetNothing(b: Book)
    ensures Forget(b, {}) == b
  {
    assert b.shapes - {} == b.shapes && b.created - {} == b.created;
    assert b.componentMap - {} == b.componentMap;
  }

  /** A removal with the purge in between: taking the overlay off the canvas, purging, then
      forgetting the id is removeShape followed by forgetting RaisedGone. */
  lemma RaisedRemoval(b: Book, id: Id, updating: set<Id>)
    requires id in b.shapes && id in b.canvas
    ensures var mid := Forget(b.(canvas := b.canvas - {id}), Missing(b.(canvas := b.canvas - {id}), updating));
      Book(mid.canvas, mid.shapes - {id}, mid.componentMap - {id}, mid.created - {id}) ==
        Forget(RemoveStep(b, id, true), RaisedGone(b, id, true, updating))
  {
    var gone := Missing(b.(canvas := b.canvas - {id}), updating);
    assert RaisedGone(b, id, true, updating) == gone;
    assert b.shapes - gone - {id} == b.shapes - {id} - gone;
    assert b.componentMap - gone - {id} == b.componentMap - {id} - gone;
    assert b.created - gone - {id} == b.created - {id} - gone;
  }

  /** clearAllShapes: remove every overlay that has a handle and reset all three records. */
  function ClearAll(b: Book): Book
  {
    Book(b.canvas - b.shapes, {}, map[], {})
  }

  /** The selection push: the overlay of every handle is deselected, then the selected id's
      overlay (for a non-empty id with a handle) is selected; overlays without a handle are
      left as they are. */
  function SelectOnly(canvas: map<Id, Overlay>, handles: set<Id>, selected: Option<Id>): (r: map<Id, Overlay>)
    ensures r.Keys == canvas.Keys
  {
    map id | id in canvas :: if id in handles then canvas[id].(selected := selected == Some(id) && id != "") else canvas[id]
  }

  /** The ids of the listed components whose location parses. */
  function ParsedIds(cs: seq<Component>): set<Id>
  {
    set c | c in cs && ParseRange(c.location).Some? :: c.id
  }

  // ---------------------------------------------------------------------------
  // The invariant is preserved
  // ---------------------------------------------------------------------------

  lemma CreateStepConsistent(b: Book, c: Component, ready: bool, s: Sizes)
    requires Consistent(b, ready)
    ensures Consistent(CreateStep(b, c, ready, s), ready)
  {
    var r := CreateStep(b, c, ready, s);
    forall id | id in r.shapes
      ensures ParseRange(r.componentMap[id].location).Some?
    {
      if id != c.id {
        assert id in b.shapes;
      }
    }
  }

  lemma RemoveStepConsistent(b: Book, id: Id, ready: bool)
    requires Consistent(b, ready)
    ensures Consistent(RemoveStep(b, id, ready), ready)
  {
  }

  lemma {:induction false} CreateAllConsistent(b: Book, cs: seq<Component>, ready: bool, s: Sizes)
    requires Consistent(b, ready)
    ensures Consistent(CreateAll(b, cs, ready, s), ready)
    decreases |cs|
  {
    if |cs| > 0 {
      CreateAllConsistent(b, cs[..|cs| - 1], ready, s);
      CreateStepConsistent(CreateAll(b, cs[..|cs| - 1], ready, s), cs[|cs| - 1], ready, s);
    }
  }

  lemma {:induction false} RemoveAllConsistent(b: Book, ids: seq<Id>, ready: bool)
    requires Consistent(b, ready)
    ensures Consistent(RemoveAll(b, ids, ready), ready)
    decreases |ids|
  {
    if |ids| > 0 {
      RemoveAllConsistent(b, ids[..|ids| - 1], ready);
      RemoveStepConsistent(RemoveAll(b, ids[..|ids| - 1], ready), ids[|ids| - 1], ready);
    }
  }

  /** Forgetting any ids keeps the invariant: the purge, and a purge run in the middle of a
      removal. */
  lemma ForgetConsistent(b: Book, gone: set<Id>, ready: bool)
    requires Consistent(b, ready)
    ensures Consistent(Forget(b, gone), ready)
  {
  }

  /** clearAllShapes keeps the invariant and leaves exactly the overlays the designer did not
      draw, unchanged. */
  lemma ClearAllConsistent(b: Book, ready: bool)
    ensures Consistent(ClearAll(b), ready)
    ensures ClearAll(b).canvas.Keys == b.canvas.Keys - b.shapes
    ensures forall id | id in ClearAll(b).canvas :: id !in b.shapes && ClearAll(b).canvas[id] == b.canvas[id]
  {
  }

  /** Moving a live overlay to a location that parses keeps the invariant. */
  lemma RelocateConsistent(b: Book, id: Id, loc: string, ready: bool)
    requires Consistent(b, ready) && id in b.componentMap && ParseRange(loc).Some?
    ensures Consistent(b.(componentMap := b.componentMap[id := b.componentMap[id].(location := loc)]), ready)
  {
  }

  /** Recording an edited component and then removing its overlay keeps the invariant,
      whatever its new location. */
  lemma CommitConsistent(b: Book, u: Component, ready: bool)
    requires Consistent(b, ready)
    ensures Consistent(RemoveStep(b.(componentMap := b.componentMap[u.id := u]), u.id, ready), ready)
  {
  }

  /** Recording an edited component and then removing its overlay keeps the invariant, with
      or without a purge in the middle of the removal. */
  lemma CommitRaisedConsistent(b: Book, u: Component, ready: bool, updating: set<Id>)
    requires Consistent(b, ready)
    ensures var e := b.(componentMap := b.componentMap[u.id := u]);
      Consistent(RemoveStep(e, u.id, ready), ready) &&
      Consistent(Forget(RemoveStep(e, u.id, ready), RaisedGone(e, u.id, ready, updating)), ready)
  {
    var e := b.(componentMap := b.componentMap[u.id := u]);
    CommitConsistent(b, u, ready);
    ForgetConsistent(RemoveStep(e, u.id, ready), RaisedGone(e, u.id, ready, updating), ready);
  }

  // ---------------------------------------------------------------------------
  // What the bulk operations achieve
  // ---------------------------------------------------------------------------

  /** One createShape on a ready workbook adds the component's overlay exactly when its
      location parses, as long as every created overlay is still on the canvas. */
  lemma CreateStepCanvas(b: Book, c: Component, s: Sizes)
    requires b.created <= b.canvas.Keys
    ensures var r := CreateStep(b, c, true, s);
      r.canvas.Keys == b.canvas.Keys + (if ParseRange(c.location).Some? then {c.id} else {}) &&
      r.created <= r.canvas.Keys
  {
  }

  lemma ParsedIdsSnoc(cs: seq<Component>)
    requires |cs| > 0
    ensures var c := cs[|cs| - 1];
      ParsedIds(cs) == ParsedIds(cs[..|cs| - 1]) + (if ParseRange(c.location).Some? then {c.id} else {})
  {
    var init := cs[..|cs| - 1];
    assert cs == init + [cs[|cs| - 1]];
    assert forall d | d in cs :: d in init || d == cs[|cs| - 1];
  }

  lemma {:induction false} CreateAllCanvas(b: Book, cs: seq<Component>, s: Sizes)
    requires b.created <= b.canvas.Keys
    ensures var r := CreateAll(b, cs, true, s);
      r.canvas.Keys == b.canvas.Keys + ParsedIds(cs) && r.created <= r.canvas.Keys
    decreases |cs|
  {
    if |cs| > 0 {
      var init := cs[..|cs| - 1];
      var c := cs[|cs| - 1];
      CreateAllCanvas(b, init, s);
      CreateStepCanvas(CreateAll(b, init, true, s), c, s);
      CreateAllSnoc(b, cs, true, s);
      ParsedIdsSnoc(cs);
    }
  }

  /** CreateAll handles the last component after all the others. */
  lemma CreateAllSnoc(b: Book, cs: seq<Component>, ready: bool, s: Sizes)
    requires |cs| > 0
    ensures CreateAll(b, cs, ready, s) == CreateStep(CreateAll(b, cs[..|cs| - 1], ready, s), cs[|cs| - 1], ready, s)
  {
  }

  /** Before the workbook is ready, creating overlays does nothing. */
  lemma {:induction false} CreateAllNotReady(b: Book, cs: seq<Component>, s: Sizes)
    ensures CreateAll(b, cs, false, s) == b
    decreases |cs|
  {
    if |cs| > 0 {
      CreateAllNotReady(b, cs[..|cs| - 1], s);
    }
  }

  /** Before the workbook is ready, removing overlays does nothing. */
  lemma {:induction false} RemoveAllNotReady(b: Book, ids: seq<Id>)
    ensures RemoveAll(b, ids, false) == b
    decreases |ids|
  {
    if |ids| > 0 {
      RemoveAllNotReady(b, ids[..|ids| - 1]);
    }
  }

  /** Removing the overlays of a list of ids forgets exactly those of them that had a handle
      and leaves every other id alone. */
  lemma {:induction false} RemoveAllExact(b: Book, ids: seq<Id>)
    ensures var gone := (set id | id in ids) * b.shapes;
      RemoveAll(b, ids, true) == Book(b.canvas - gone, b.shapes - gone, b.componentMap - gone, b.created - gone)
    decreases |ids|
  {
    if |ids| > 0 {
      var init := ids[..|ids| - 1];
      var last := ids[|ids| - 1];
      RemoveAllExact(b, init);
      assert ids == init + [last];
      var g0 := (set id | id in init) * b.shapes;
      var g := (set id | id in ids) * b.shapes;
      assert g == g0 + ({last} * b.shapes);
      var r0 := RemoveAll(b, init, true);
      assert last in r0.shapes <==> last in b.shapes && last !in g0;
      assert RemoveAll(b, ids, true) == RemoveStep(r0, last, true);
      if last in r0.shapes {
        assert g == g0 + {last};
        assert RemoveStep(r0, last, true) ==
          Book(r0.canvas - {last}, r0.shapes - {last}, r0.componentMap - {last}, r0.created - {last});
        assert r0.canvas - {last} == b.canvas - g;
        assert r0.shapes - {last} == b.shapes - g;
        assert r0.componentMap - {last} == b.componentMap - g;
        assert r0.created - {last} == b.created - g;
      } else {
        assert g == g0;
      }
    }
  }

  /** After a purge there is nothing left to purge. */
  lemma PurgeSettles(b: Book, updating: set<Id>)
    ensures Missing(Forget(b, Missing(b, updating)), updating) == {}
  {
    var a := Forget(b, Missing(b, updating));
    forall id | id in a.shapes
      ensures id in a.canvas || id in updating
    {
      assert id !in Missing(b, updating);
    }
  }

  /** The purge touches neither the canvas nor any id that still has an overlay or is being
      updated. */
  lemma PurgeKeepsLive(b: Book, updating: set<Id>, id: Id)
    requires id in b.canvas || id in updating
    ensures var a := Forget(b, Missing(b, updating));
      a.canvas == b.canvas && (id in a.shapes <==> id in b.shapes) && (id in a.created <==> id in b.created) &&
      (id in b.componentMap ==> id in a.componentMap && a.componentMap[id] == b.componentMap[id])
  {
  }

  /** After the selection push at most one of the designer's overlays is selected, and it is
      the overlay of the selected id when that id is non-empty, has a handle and is on the
      canvas; the other overlays keep their selection, and no overlay moves. */
  lemma SelectOnlyOne(canvas: map<Id, Overlay>, handles: set<Id>, selected: Option<Id>)
    ensures var r := SelectOnly(canvas, handles, selected);
      (forall a, b | a in r && b in r && a in handles && b in handles && r[a].selected && r[b].selected :: a == b) &&
      (selected.Some? && selected.value != "" && selected.value in canvas && selected.value in handles ==>
         r[selected.value].selected) &&
      (forall id | id in r && id !in handles :: r[id] == canvas[id]) &&
      (forall id | id in r :: r[id].box == canvas[id].box && r[id].text == canvas[id].text)
  {
  }

  /** The ids of the first k components of a list. */
  function IdsOf(saved: seq<Component>, k: nat): set<Id>
    requires k <= |saved|
  {
    set i | 0 <= i < k :: saved[i].id
  }

  /** The components clearAllShapes saves, in some order: one per handle, each the mapped
      component of its id. */
  ghost predicate SavedFrom(b: Book, saved: seq<Component>)
  {
    && |saved| == |b.shapes|
    && (forall i, j | 0 <= i < j < |saved| :: saved[i].id != saved[j].id)
    && (forall i | 0 <= i < |saved| ::
          saved[i].id in b.shapes && saved[i].id in b.componentMap && saved[i] == b.componentMap[saved[i].id])
  }

  /** The records a restore has rebuilt from the saved components it created so far, beside
      the overlays clearAllShapes left alone; each rebuilt overlay is drawn from the stored
      component's location, not from the box it had before. */
  ghost predicate Restored(b: Book, ids: set<Id>, r: Book, s: Sizes)
  {
    RebuiltRecords(b, ids, r) && AllRedrawn(b, ids, r, s)
  }

  ghost predicate RebuiltRecords(b: Book, ids: set<Id>, r: Book)
  {
    && r.shapes == ids && r.created == ids && r.canvas.Keys == (b.canvas.Keys - b.shapes) + ids
    && (forall id | id in b.canvas && id !in b.shapes && id !in ids :: r.canvas[id] == b.canvas[id])
    && r.componentMap.Keys == ids
    && (forall id | id in ids :: id in b.componentMap && r.componentMap[id] == b.componentMap[id])
  }

  ghost predicate AllRedrawn(b: Book, ids: set<Id>, r: Book, s: Sizes)
  {
    forall id | id in ids :: Redrawn(b, r, id, s)
  }

  /** A rebuilt handle's overlay is the one createShape draws for the stored component. */
  ghost predicate Redrawn(b: Book, r: Book, id: Id, s: Sizes)
  {
    && id in b.componentMap && id in r.canvas && ParseRange(b.componentMap[id].location).Some?
    && r.canvas[id] == OverlayFor(b.componentMap[id], ParseRange(b.componentMap[id].location).value, s)
  }

  lemma IdsOfStep(saved: seq<Component>, k: nat)
    requires 0 < k <= |saved|
    requires forall i, j | 0 <= i < j < |saved| :: saved[i].id != saved[j].id
    ensures IdsOf(saved, k) == IdsOf(saved, k - 1) + {saved[k - 1].id}
    ensures saved[k - 1].id !in IdsOf(saved, k - 1)
  {
  }

  /** Creating the next saved component extends what has been rebuilt by its id. */
  lemma RestoreOne(b: Book, saved: seq<Component>, k: nat, r0: Book, s: Sizes)
    requires Consistent(b, true) && SavedFrom(b, saved) && 0 < k <= |saved|
    requires Restored(b, IdsOf(saved, k - 1), r0, s)
    ensures Restored(b, IdsOf(saved, k), CreateStep(r0, saved[k - 1], true, s), s)
  {
    IdsOfStep(saved, k);
    var c := saved[k - 1];
    var ids := IdsOf(saved, k - 1);
    assert c.id in b.shapes && c == b.componentMap[c.id];
    assert Draws(r0, c, true);
    var o := OverlayFor(c, ParseRange(c.location).value, s);
    assert CreateStep(r0, c, true, s) ==
      Book(r0.canvas[c.id := o], r0.shapes + {c.id}, r0.componentMap[c.id := c], r0.created + {c.id});
    RestoredStep(b, ids, r0, c, o, s);
  }

  /** Drawing one more saved component extends a rebuilt book by its id. */
  lemma RestoredStep(b: Book, ids: set<Id>, r0: Book, c: Component, o: Overlay, s: Sizes)
    requires Restored(b, ids, r0, s) && c.id in b.componentMap && b.componentMap[c.id] == c && c.id in b.shapes
    requires ParseRange(c.location).Some? && o == OverlayFor(c, ParseRange(c.location).value, s)
    ensures Restored(b, ids + {c.id},
                     Book(r0.canvas[c.id := o], r0.shapes + {c.id}, r0.componentMap[c.id := c], r0.created + {c.id}), s)
  {
    RebuiltStep(b, ids, r0, c, o);
    RedrawnStep(b, ids, r0, c, o, s);
  }

  lemma RebuiltStep(b: Book, ids: set<Id>, r0: Book, c: Component, o: Overlay)
    requires RebuiltRecords(b, ids, r0) && c.id in b.componentMap && b.componentMap[c.id] == c && c.id in b.shapes
    ensures RebuiltRecords(b, ids + {c.id},
                           Book(r0.canvas[c.id := o], r0.shapes + {c.id}, r0.componentMap[c.id := c], r0.created + {c.id}))
  {
  }

  lemma RedrawnStep(b: Book, ids: set<Id>, r0: Book, c: Component, o: Overlay, s: Sizes)
    requires AllRedrawn(b, ids, r0, s) && c.id in b.componentMap && b.componentMap[c.id] == c
    requires ParseRange(c.location).Some? && o == OverlayFor(c, ParseRange(c.location).value, s)
    ensures AllRedrawn(b, ids + {c.id},
                       Book(r0.canvas[c.id := o], r0.shapes + {c.id}, r0.componentMap[c.id := c], r0.created + {c.id}), s)
  {
    var r := Book(r0.canvas[c.id := o], r0.shapes + {c.id}, r0.componentMap[c.id := c], r0.created + {c.id});
    forall id | id in ids + {c.id}
      ensures Redrawn(b, r, id, s)
    {
      if id != c.id {
        assert Redrawn(b, r0, id, s);
      }
    }
  }

  lemma {:induction false} RestoreStep(b: Book, saved: seq<Component>, k: nat, s: Sizes)
    requires Consistent(b, true) && SavedFrom(b, saved) && k <= |saved|
    ensures Restored(b, IdsOf(saved, k), CreateAll(ClearAll(b), saved[..k], true, s), s)
    decreases k
  {
    if k == 0 {
      RestoredNone(b, s);
      assert saved[..0] == [];
    } else {
      RestoreStep(b, saved, k - 1, s);
      CreateAllPrefix(ClearAll(b), saved, k - 1, true, s);
      RestoreOne(b, saved, k, CreateAll(ClearAll(b), saved[..k - 1], true, s), s);
    }
  }

  /** Right after clearAllShapes nothing has been rebuilt. */
  lemma RestoredNone(b: Book, s: Sizes)
    ensures Restored(b, {}, ClearAll(b), s)
  {
    assert ClearAll(b).canvas.Keys == b.canvas.Keys - b.shapes;
  }

  /** clearAllShapes followed by restoreAllShapes with the saved components rebuilds the same
      handles and the same map entries for them. Every handle's overlay is drawn once more
      from its stored location (a box the user dragged without a commit is not kept), and
      the overlays the designer did not draw stay as they were. */
  lemma ClearThenRestore(b: Book, saved: seq<Component>, s: Sizes)
    requires Consistent(b, true) && SavedFrom(b, saved)
    ensures var r := CreateAll(ClearAll(b), saved, true, s);
      r.shapes == b.shapes && r.created == b.shapes && r.canvas.Keys == b.canvas.Keys + b.shapes &&
      (forall id | id in b.canvas && id !in b.shapes :: r.canvas[id] == b.canvas[id]) &&
      r.componentMap.Keys == b.shapes && (forall id | id in b.shapes :: r.componentMap[id] == b.componentMap[id]) &&
      (forall id | id in b.shapes ::
         r.canvas[id] == OverlayFor(b.componentMap[id], ParseRange(b.componentMap[id].location).value, s))
  {
    RestoreStep(b, saved, |saved|, s);
    assert saved[..|saved|] == saved;
    IdsCardinality(saved, |saved|);
    SubsetOfSameSize(IdsOf(saved, |saved|), b.shapes);
    RestoredAll(b, CreateAll(ClearAll(b), saved, true, s), s);
  }

  /** A book that has rebuilt every handle. */
  lemma RestoredAll(b: Book, r: Book, s: Sizes)
    requires Restored(b, b.shapes, r, s)
    ensures r.shapes == b.shapes && r.created == b.shapes && r.canvas.Keys == b.canvas.Keys + b.shapes
    ensures forall id | id in b.canvas && id !in b.shapes :: r.canvas[id] == b.canvas[id]
    ensures r.componentMap.Keys == b.shapes && (forall id | id in b.shapes :: r.componentMap[id] == b.componentMap[id])
    ensures forall id | id in b.shapes ::
      id in b.componentMap && ParseRange(b.componentMap[id].location).Some? &&
      r.canvas[id] == OverlayFor(b.componentMap[id], ParseRange(b.componentMap[id].location).value, s)
  {
    forall id | id in b.shapes
      ensures id in b.componentMap && ParseRange(b.componentMap[id].location).Some?
      ensures r.canvas[id] == OverlayFor(b.componentMap[id], ParseRange(b.componentMap[id].location).value, s)
    {
      assert Redrawn(b, r, id, s);
    }
  }

  /** A subset as large as its superset is the whole set. */
  lemma SubsetOfSameSize(a: set<Id>, b: set<Id>)
    requires a <= b && |a| == |b|
    ensures a == b
  {
    assert b == a + (b - a);
    assert a * (b - a) == {};
  }

  /** Distinct ids: the first k saved components have k ids. */
  lemma {:induction false} IdsCardinality(saved: seq<Component>, k: nat)
    requires k <= |saved|
    requires forall i, j | 0 <= i < j < |saved| :: saved[i].id != saved[j].id
    ensures |IdsOf(saved, k)| == k
    decreases k
  {
    if k > 0 {
      IdsCardinality(saved, k - 1);
      IdsOfStep(saved, k);
    }
  }
}
