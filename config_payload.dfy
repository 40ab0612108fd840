/** The template configuration that `handleExport` writes and `handleFileChange` reads in
    src/components/SmartReportDesigner.tsx, as values: the JSON text itself is not modelled. */
module ConfigPayload {
  import opened Common
  import opened SmartComponent
  import opened RangeCodec

  /** One entry of `component_list`; an empty id or prompt stands for a missing (falsy) one. */
  datatype ConfigEntry = ConfigEntry(
    id: Id,
    location: string,
    kind: ComponentType,
    prompt: string,
    name: string,
    style: Option<Style>)

  /** The exported object: `template_id`, `version` and `component_list`. */
  datatype ExportConfig = ExportConfig(templateId: string, version: string, componentList: seq<ConfigEntry>)

  /** What the file reader hands over: text that is not JSON, or an object whose
      `component_list` is an array (Some) or is missing or not an array (None). */
  datatype ImportPayload = Unreadable | Payload(componentList: Option<seq<ConfigEntry>>)

  /** The fields export keeps of a component: everything but `shapeId`. */
  function ExportEntry(c: Component): ConfigEntry
  {
    ConfigEntry(c.id, c.location, c.kind, c.prompt, c.name, c.style)
  }

  /** handleExport's configuration: empty template id and version, one entry per component
      in list order. */
  function Export(cs: seq<Component>): (config: ExportConfig)
    ensures config.templateId == "" && config.version == ""
    ensures |config.componentList| == |cs|
    ensures forall i | 0 <= i < |cs| :: config.componentList[i] == ExportEntry(cs[i])
  {
    ExportConfig("", "", seq(|cs|, i requires 0 <= i < |cs| => ExportEntry(cs[i])))
  }

  /** One imported component: a missing id gets a fresh one, a missing prompt becomes empty,
      the location is kept as written (not upper-cased). */
  function ImportEntry(e: ConfigEntry, newId: Id): Component
  {
    Component(if e.id == "" then newId else e.id, e.location, e.kind, e.prompt, e.name, None, e.style)
  }

  /** The component list handleFileChange builds; `freshId(i)` is the uuid drawn for entry i. */
  function ImportEntries(es: seq<ConfigEntry>, freshId: nat -> Id): (cs: seq<Component>)
    ensures |cs| == |es|
    ensures forall i | 0 <= i < |es| :: cs[i] == ImportEntry(es[i], freshId(i))
  {
    seq(|es|, i requires 0 <= i < |es| => ImportEntry(es[i], freshId(i)))
  }

  /** Whether handleFileChange accepts the payload, and with which components. */
  function Import(p: ImportPayload, freshId: nat -> Id): (r: Option<seq<Component>>)
    ensures r.Some? <==> p.Payload? && p.componentList.Some?
    ensures r.Some? ==> |r.value| == |p.componentList.value|
  {
    if p.Payload? && p.componentList.Some? then Some(ImportEntries(p.componentList.value, freshId)) else None
  }

  /** A component as it comes back from a file: no shape id. */
  function WithoutShape(c: Component): Component
  {
    c.(shapeId := None)
  }

  /** Exporting and importing again gives back the components, in order, without their shape
      ids, as long as every component has a non-empty id; no fresh id is used. */
  lemma ExportImportRoundTrip(cs: seq<Component>, freshId: nat -> Id)
    requires forall c | c in cs :: c.id != ""
    ensures Import(Payload(Some(Export(cs).componentList)), freshId) ==
            Some(seq(|cs|, i requires 0 <= i < |cs| => WithoutShape(cs[i])))
  {
    var back := ImportEntries(Export(cs).componentList, freshId);
    assert forall i | 0 <= i < |cs| :: cs[i] in cs;
    assert back == seq(|cs|, i requires 0 <= i < |cs| => WithoutShape(cs[i]));
  }

  /** Export after import gives back the entries, except that missing ids are now filled in. */
  lemma ImportExportFillsIds(es: seq<ConfigEntry>, freshId: nat -> Id)
    ensures var back := Export(ImportEntries(es, freshId)).componentList;
      |back| == |es| &&
      forall i | 0 <= i < |es| ::
        back[i] == es[i].(id := if es[i].id == "" then freshId(i) else es[i].id)
  {
  }

  /** Every imported component has a non-empty id when the id source never draws an empty one. */
  lemma ImportedIdsPresent(es: seq<ConfigEntry>, freshId: nat -> Id)
    requires forall i: nat :: freshId(i) != ""
    ensures forall c | c in ImportEntries(es, freshId) :: c.id != ""
  {
    var cs := ImportEntries(es, freshId);
    forall c | c in cs
      ensures c.id != ""
    {
      var i :| 0 <= i < |cs| && cs[i] == c;
      assert c.id == (if es[i].id == "" then freshId(i) else es[i].id);
    }
  }

  /** An imported location is stored as written, but it parses exactly as its ASCII
      upper-case form: for locations of ASCII text, dropping the normalisation changes no
      range. */
  lemma ImportedLocationParsesAsUpper(e: ConfigEntry, newId: Id)
    ensures ImportEntry(e, newId).location == e.location
    ensures ParseRange(ImportEntry(e, newId).location) == ParseRange(UpperCase(e.location))
  {
    ParseRangeCaseInsensitive(e.location);
  }
}
