/** The component record of src/types/SmartComponent.ts, its default palette, the
    per-type tables of SmartReportDesigner.tsx and the list updates the designer
    applies to its component list. */
module SmartComponent {
  import opened Common

  type Id = string
  type Color = string

  /** The closed set of component kinds declared for `SmartComponent.type`. */
  datatype ComponentType = Text | Table | Chart | Image | Formula

  /** Optional colour overrides; colours are carried as uninterpreted strings. */
  datatype Style = Style(backgroundColor: Option<Color>, borderColor: Option<Color>, textColor: Option<Color>)

  /** A smart component. `kind` is the field the source calls `type`. */
  datatype Component = Component(
    id: Id,
    location: string,
    kind: ComponentType,
    prompt: string,
    name: string,
    shapeId: Option<string>,
    style: Option<Style>)

  /** `DefaultColors[type].bg`. */
  function DefaultBackground(t: ComponentType): Color
  {
    match t
    case Text => "rgba(59, 130, 246, 0.1)"
    case Table => "rgba(16, 185, 129, 0.1)"
    case Chart => "rgba(245, 158, 11, 0.1)"
    case Image => "rgba(139, 92, 246, 0.1)"
    case Formula => "rgba(239, 68, 68, 0.1)"
  }

  /** `DefaultColors[type].border`. */
  function DefaultBorder(t: ComponentType): Color
  {
    match t
    case Text => "#3b82f6"
    case Table => "#10b981"
    case Chart => "#f59e0b"
    case Image => "#8b5cf6"
    case Formula => "#ef4444"
  }

  /** The overlay's border (and text) colour: an explicit, non-empty `style.borderColor`
      wins, otherwise the type's default. */
  function BorderColor(c: Component): (color: Color)
    ensures (c.style.Some? && c.style.value.borderColor.Some? && c.style.value.borderColor.value != "")
            ==> color == c.style.value.borderColor.value
    ensures c.style.None? || c.style.value.borderColor.None? || c.style.value.borderColor.value == ""
            ==> color == DefaultBorder(c.kind)
  {
    if c.style.Some? && c.style.value.borderColor.Some? && c.style.value.borderColor.value != "" then
      c.style.value.borderColor.value
    else
      DefaultBorder(c.kind)
  }

  /** The overlay's fill colour. The type's default is used whatever the style says:
      `style.backgroundColor` is never consulted. */
  function FillColor(c: Component): Color
  {
    DefaultBackground(c.kind)
  }

  /** Changing a component's style never changes its fill. */
  lemma FillIgnoresStyle(c: Component, s: Option<Style>)
    ensures FillColor(c.(style := s)) == FillColor(c)
  {
  }

  /** `TypeNames[type]`, the label a dropped component is named after. */
  function TypeName(t: ComponentType): string
  {
    match t
    case Text => "文本"
    case Table => "表格"
    case Chart => "图表"
    case Image => "图片"
    case Formula => "公式"
  }

  /** `DefaultSizeMap[type]` as (rows, cols): the size a drop without a selection gets. */
  function DefaultSize(t: ComponentType): (size: (nat, nat))
    ensures size.0 >= 1 && size.1 >= 1
  {
    match t
    case Text => (1, 2)
    case Table => (4, 5)
    case Chart => (3, 4)
    case Image => (3, 3)
    case Formula => (1, 2)
  }

  /** The ids that occur in a component list. */
  function Ids(cs: seq<Component>): set<Id>
  {
    set c | c in cs :: c.id
  }

  /** `prev.filter(c => !gone.has(c.id))`: the list without the components whose id is in
      `gone`; RemoveIdsAppend states that the kept components stay in their order. */
  function RemoveIds(cs: seq<Component>, gone: set<Id>): (r: seq<Component>)
    ensures forall c :: c in r <==> c in cs && c.id !in gone
    ensures Ids(r) == Ids(cs) - gone
    ensures |r| <= |cs|
  {
    if |cs| == 0 then []
    else (if cs[0].id in gone then [] else [cs[0]]) + RemoveIds(cs[1..], gone)
  }

  /** Filtering by no id keeps the whole list. */
  lemma {:induction false} RemoveNoIds(cs: seq<Component>)
    ensures RemoveIds(cs, {}) == cs
  {
    if |cs| > 0 {
      RemoveNoIds(cs[1..]);
      assert cs == [cs[0]] + cs[1..];
    }
  }

  /** The filter works piece by piece: filtering a concatenation concatenates the filtered
      pieces, so the kept components keep their relative order and multiplicity. */
  lemma {:induction false} RemoveIdsAppend(a: seq<Component>, b: seq<Component>, gone: set<Id>)
    ensures RemoveIds(a + b, gone) == RemoveIds(a, gone) + RemoveIds(b, gone)
    decreases |a|
  {
    if |a| > 0 {
      var head := if a[0].id in gone then [] else [a[0]];
      var ab := a + b;
      assert ab[0] == a[0] && ab[1..] == a[1..] + b;
      assert RemoveIds(ab, gone) == head + RemoveIds(a[1..] + b, gone);
      assert RemoveIds(a, gone) == head + RemoveIds(a[1..], gone);
      RemoveIdsAppend(a[1..], b, gone);
    } else {
      assert a + b == b;
    }
  }

  /** A component whose id is not filtered out is kept, and so is a whole list that has none
      of the filtered ids. */
  lemma {:induction false} RemoveIdsDisjoint(cs: seq<Component>, gone: set<Id>)
    requires Ids(cs) !! gone
    ensures RemoveIds(cs, gone) == cs
  {
    if |cs| > 0 {
      assert cs[0] in cs;
      assert Ids(cs[1..]) <= Ids(cs) by {
        forall x | x in Ids(cs[1..]) ensures x in Ids(cs) {
          var c :| c in cs[1..] && c.id == x;
          assert c in cs;
        }
      }
      RemoveIdsDisjoint(cs[1..], gone);
      assert cs == [cs[0]] + cs[1..];
    }
  }

  /** Filtering twice is filtering once by the union: the order in which the designer drops
      ids from its list does not matter. */
  lemma {:induction false} RemoveIdsTwice(cs: seq<Component>, a: set<Id>, b: set<Id>)
    ensures RemoveIds(RemoveIds(cs, a), b) == RemoveIds(cs, a + b)
  {
    if |cs| > 0 {
      RemoveIdsTwice(cs[1..], a, b);
      if cs[0].id in a {
        assert RemoveIds(cs, a) == RemoveIds(cs[1..], a);
      } else {
        assert RemoveIds(cs, a) == [cs[0]] + RemoveIds(cs[1..], a);
        assert RemoveIds(cs, a)[1..] == RemoveIds(cs[1..], a);
      }
    }
  }

  /** `prev.map(c => c.id === u.id ? u : c)`: an unknown id leaves the list as it is; a known
      one puts `u` in the list at the position of every component with its id, and every
      other position keeps its component. */
  function ReplaceById(cs: seq<Component>, u: Component): (r: seq<Component>)
    ensures |r| == |cs| && Ids(r) == Ids(cs)
    ensures u.id !in Ids(cs) ==> r == cs
    ensures u.id in Ids(cs) ==> u in r
    ensures forall c | c in r :: c == u || (c in cs && c.id != u.id)
    ensures forall c | c in cs && c.id != u.id :: c in r
    ensures forall i | 0 <= i < |cs| :: r[i] == (if cs[i].id == u.id then u else cs[i])
  {
    var r := seq(|cs|, i requires 0 <= i < |cs| => if cs[i].id == u.id then u else cs[i]);
    assert forall c | c in r :: c == u || (c in cs && c.id != u.id) by {
      forall c | c in r ensures c == u || (c in cs && c.id != u.id) {
        var i :| 0 <= i < |r| && r[i] == c;
      }
    }
    assert forall c | c in cs && c.id != u.id :: c in r by {
      forall c | c in cs && c.id != u.id ensures c in r {
        var i :| 0 <= i < |cs| && cs[i] == c;
        assert r[i] == c;
      }
    }
    assert u.id in Ids(cs) ==> u in r by {
      if u.id in Ids(cs) {
        var c :| c in cs && c.id == u.id;
        var i :| 0 <= i < |cs| && cs[i] == c;
        assert r[i] == u;
      }
    }
    assert u.id !in Ids(cs) ==> r == cs by {
      if u.id !in Ids(cs) {
        assert forall i | 0 <= i < |cs| :: cs[i] in cs;
      }
    }
    assert Ids(r) <= Ids(cs);
    assert forall x | x in Ids(cs) :: x in Ids(r) by {
      forall x | x in Ids(cs) ensures x in Ids(r) {
        var c :| c in cs && c.id == x;
        var i :| 0 <= i < |cs| && cs[i] == c;
        assert r[i] in r;
      }
    }
    r
  }

  /** Applying the same edit twice is applying it once. */
  lemma ReplaceByIdTwice(cs: seq<Component>, u: Component)
    ensures ReplaceById(ReplaceById(cs, u), u) == ReplaceById(cs, u)
  {
  }

  /** Deleting an edited component leaves the same list as deleting it before the edit. */
  lemma {:induction false} RemoveEdited(cs: seq<Component>, u: Component)
    ensures RemoveIds(ReplaceById(cs, u), {u.id}) == RemoveIds(cs, {u.id})
  {
    if |cs| > 0 {
      var r := ReplaceById(cs, u);
      var tail := ReplaceById(cs[1..], u);
      assert r[1..] == tail;
      assert r[0].id == cs[0].id;
      var head := if cs[0].id == u.id then [] else [cs[0]];
      assert RemoveIds(r, {u.id}) == head + RemoveIds(tail, {u.id});
      assert RemoveIds(cs, {u.id}) == head + RemoveIds(cs[1..], {u.id});
      RemoveEdited(cs[1..], u);
    }
  }

  /** `prev.map(c => c.id === id ? { ...c, location: loc } : c)`. */
  function SetLocation(cs: seq<Component>, id: Id, loc: string): (r: seq<Component>)
    ensures |r| == |cs| && Ids(r) == Ids(cs)
    ensures forall i | 0 <= i < |cs| :: r[i] == (if cs[i].id == id then cs[i].(location := loc) else cs[i])
  {
    var r := seq(|cs|, i requires 0 <= i < |cs| => if cs[i].id == id then cs[i].(location := loc) else cs[i]);
    assert forall c | c in r :: c.id in Ids(cs) by {
      forall c | c in r ensures c.id in Ids(cs) {
        var i :| 0 <= i < |r| && r[i] == c;
        assert cs[i] in cs;
      }
    }
    assert forall x | x in Ids(cs) :: x in Ids(r) by {
      forall x | x in Ids(cs) ensures x in Ids(r) {
        var c :| c in cs && c.id == x;
        var i :| 0 <= i < |cs| && cs[i] == c;
        assert r[i] in r;
      }
    }
    r
  }
}
