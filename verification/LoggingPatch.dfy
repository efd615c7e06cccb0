/** Patching and reading the logging block of settings.js (patchLoggingBody,
    mergeLoggingHandlerValue, patchLoggingEntry and parseLoggingBlock of
    internal/service/logging.go). */
module LoggingPatch {
  import opened Wrappers
  import opened JsScan
  import opened JsString
  import opened JsBraces
  import opened JsObject
  import opened JsEdit
  import opened JsInsert
  import opened JsPatch
  import opened JsNested
  import opened LoggingModel
  import opened Lexical

  type Model = map<string, Props>

  const DEFAULT_CONSOLE: Props := map["level" := Str("info"), "metrics" := Flag(false), "audit" := Flag(false)]

  // ---------- Merging the properties of one handler ----------

  /** The edits that merge properties into the body of a handler. */
  function MergeEdits(body: string, props: Props): seq<Edit> {
    var entries := Entries(body, 0);
    EntriesInside(body);
    AllEdits(body, entries, Edits(body, entries, PROPERTIES, PropertyPlan(props)),
      Missing(entries, PROPERTIES, PropertyPlan(props)))
  }

  /** No span that is sliced is inverted and every edit is in range; elsewhere the code panics. */
  predicate Safe(body: string, names: seq<string>, edits: seq<Edit>) {
    && (forall name :: name in names && Find(Entries(body, 0), name).Some? ==>
      IsUpright(Find(Entries(body, 0), name).value, body))
    && Applicable(body, Sort(edits))
  }

  predicate MergeSafe(value: string, props: Props) {
    ObjectBody(value).Some? ==> Safe(ObjectBody(value).value, PROPERTIES, MergeEdits(ObjectBody(value).value, props))
  }

  /** The new text of a handler, and whether it is one. */
  function Merge(name: string, value: string, props: Props): (string, bool) {
    match ObjectBody(value)
    case None => if RenderHandler(name, props) == "" then (value, false) else (RenderHandler(name, props), true)
    case Some(body) =>
      var edits := MergeEdits(body, props);
      if edits == [] || !Safe(body, PROPERTIES, edits) then (value, false)
      else ("{" + AppliedAll(body, Sort(edits)) + "}", true)
  }

  method MergeLoggingHandlerValue(name: string, value: string, props: Props) returns (merged: string, changed: bool)
    requires MergeSafe(value, props)
    ensures (merged, changed) == Merge(name, value, props)
    ensures ObjectBody(value).None? ==> (changed <==> Renderable(props) != map[])
    ensures ObjectBody(value).None? ==> merged == if changed then name + ": " + Rendered(props) else value
  {
    var body := ObjectBody(value);
    PartsEmpty(props);
    if body.None? {
      var rendered := RenderLoggingHandler(name, props);
      if rendered == "" { return value, false; }
      return rendered, true;
    }
    merged, changed := MergeObject(body.value, props);
    if !changed { return value, false; }
    merged := "{" + merged + "}";
  }

  method MergeObject(body: string, props: Props) returns (merged: string, changed: bool)
    requires Safe(body, PROPERTIES, MergeEdits(body, props))
    ensures merged == AppliedAll(body, Sort(MergeEdits(body, props))) && (changed <==> MergeEdits(body, props) != [])
  {
    var entries := ScanObjectEntries(body);
    var byName := FirstByKey(entries);
    var edits, inserted := CollectProperties(body, entries, byName, props);
    EntriesInside(body);
    var all := WithInsertion(body, entries, edits, inserted);
    merged, changed := ApplyEdits(body, all);
  }

  method WithInsertion(body: string, entries: seq<Entry>, edits: seq<Edit>, inserted: seq<Literal>)
      returns (all: seq<Edit>)
    requires Inside(entries, body)
    ensures all == AllEdits(body, entries, edits, inserted)
  {
    all := edits;
    if |inserted| > 0 { all := all + [InsertEntries(body, entries, LiteralTexts(inserted))]; }
  }

  method CollectProperties(body: string, entries: seq<Entry>, byName: map<string, Entry>, props: Props)
    returns (edits: seq<Edit>, inserted: seq<Literal>)
    requires forall key ::
      (key in byName <==> Find(entries, key).Some?) && (key in byName ==> byName[key] == Find(entries, key).value)
    requires forall name :: name in PROPERTIES && Find(entries, name).Some? ==>
      IsUpright(Find(entries, name).value, body)
    ensures edits == Edits(body, entries, PROPERTIES, PropertyPlan(props))
    ensures inserted == Missing(entries, PROPERTIES, PropertyPlan(props))
  {
    edits, inserted := [], [];
    for i := 0 to |PROPERTIES|
      invariant edits == Edits(body, entries, PROPERTIES[..i], PropertyPlan(props))
      invariant inserted == Missing(entries, PROPERTIES[..i], PropertyPlan(props))
    {
      var property := PROPERTIES[i];
      assert PROPERTIES[..i + 1][..i] == PROPERTIES[..i];
      if property !in props { continue; }
      var literal := LiteralText(property, props[property]);
      if literal.None? { continue; }
      if property !in byName {
        inserted := inserted + [Literal(property, literal.value)];
        continue;
      }
      var entry := byName[property];
      if PropertyEqual(property, body[entry.valueStart..entry.valueEnd], props[property]) { continue; }
      edits := edits + [Edit(entry.valueStart, entry.valueEnd, literal.value)];
    }
    assert PROPERTIES[..|PROPERTIES|] == PROPERTIES;
  }

  // ---------- Reading a block ----------

  function Lookup<V>(m: map<string, V>, key: string): Option<V> { if key in m then Some(m[key]) else None }

  function SpanOf(body: string, e: Entry): string {
    if IsUpright(e, body) then body[e.valueStart..e.valueEnd] else ""
  }

  /** The readable properties among the entries; a later one wins. */
  function ParseProps(body: string, es: seq<Entry>): Props {
    if es == [] then map[]
    else
      var before, e := ParseProps(body, es[..|es| - 1]), es[|es| - 1];
      var v := ReadProperty(e.key, SpanOf(body, e));
      if v.Some? then before[e.key := v.value] else before
  }

  function ParseHandler(value: string): Props {
    match ObjectBody(value)
    case None => map[]
    case Some(body) => ParseProps(body, Entries(body, 0))
  }

  /** The handlers among the entries; a later one wins, and one that is no object literal has no
      property. */
  function ParseEntries(body: string, es: seq<Entry>): Model {
    if es == [] then map[]
    else
      var e := es[|es| - 1];
      ParseEntries(body, es[..|es| - 1])[e.key := ParseHandler(SpanOf(body, e))]
  }

  function ParseBody(body: string): Model { ParseEntries(body, Entries(body, 0)) }

  /** Every span in the block and in its handlers can be sliced; elsewhere the code panics. */
  predicate ParseSafe(body: string) {
    forall e :: e in Entries(body, 0) ==> IsUpright(e, body) && HandlerSafe(body[e.valueStart..e.valueEnd])
  }

  predicate HandlerSafe(value: string) {
    ObjectBody(value).Some? ==> forall e :: e in Entries(ObjectBody(value).value, 0) ==>
      IsUpright(e, ObjectBody(value).value)
  }

  method ParseLoggingBody(body: string) returns (model: Model)
    requires ParseSafe(body)
    ensures model == ParseBody(body)
  {
    var children := ScanObjectEntries(body);
    model := ParseChildren(body, children);
  }

  method ParseChildren(body: string, children: seq<Entry>) returns (model: Model)
    requires forall e :: e in children ==> IsUpright(e, body) && HandlerSafe(body[e.valueStart..e.valueEnd])
    ensures model == ParseEntries(body, children)
  {
    model := map[];
    for i := 0 to |children|
      invariant model == ParseEntries(body, children[..i])
    {
      var child := children[i];
      assert child in children && children[..i + 1][..i] == children[..i];
      var props := ParseLoggingHandler(body[child.valueStart..child.valueEnd]);
      model := model[child.key := props];
    }
    assert children[..|children|] == children;
  }

  method ParseLoggingHandler(value: string) returns (props: Props)
    requires HandlerSafe(value)
    ensures props == ParseHandler(value) && (ObjectBody(value).None? ==> props == map[])
  {
    var inner := ObjectBody(value);
    if inner.None? { return map[]; }
    var entries := ScanObjectEntries(inner.value);
    props := ParseProperties(inner.value, entries);
  }

  method ParseProperties(inner: string, entries: seq<Entry>) returns (props: Props)
    requires forall e :: e in entries ==> IsUpright(e, inner)
    ensures props == ParseProps(inner, entries)
  {
    props := map[];
    for i := 0 to |entries|
      invariant props == ParseProps(inner, entries[..i])
    {
      var property := entries[i];
      assert property in entries && entries[..i + 1][..i] == entries[..i];
      var value := ReadProperty(property.key, inner[property.valueStart..property.valueEnd]);
      if value.Some? { props := props[property.key := value.value]; }
    }
    assert entries[..|entries|] == entries;
  }

  predicate DistinctEntries(es: seq<Entry>) { forall i, j :: 0 <= i < j < |es| ==> es[i].key != es[j].key }

  /** No property can be read from an entry whose key an earlier one has. */
  predicate ReadsOnce(body: string, es: seq<Entry>) {
    forall i, j :: 0 <= i < j < |es| && es[i].key == es[j].key ==> ReadProperty(es[j].key, SpanOf(body, es[j])) == None
  }

  /** Then the last entry of a key that can be read is the first. */
  lemma {:induction false} ParsePropsAt(body: string, es: seq<Entry>, p: string)
    requires ReadsOnce(body, es)
    ensures Lookup(ParseProps(body, es), p) ==
      if Find(es, p).Some? then ReadProperty(p, SpanOf(body, Find(es, p).value)) else None
    decreases |es|
  {
    if es != [] {
      var init, e := es[..|es| - 1], es[|es| - 1];
      ParsePropsAt(body, init, p);
      assert es == init + [e];
      FindAppend(init, e, p);
      if e.key == p && Find(init, p).Some? {
        var k := FindIndex(init, p);
        assert es[k].key == es[|es| - 1].key;
      }
    }
  }

  lemma {:induction false} LastIsNew(es: seq<Entry>)
    requires DistinctEntries(es) && es != []
    ensures Find(es[..|es| - 1], es[|es| - 1].key) == None
  {
    NotFound(es[..|es| - 1], es[|es| - 1].key);
  }

  lemma {:induction false} NotFound(es: seq<Entry>, key: string)
    requires forall k :: 0 <= k < |es| ==> es[k].key != key
    ensures Find(es, key) == None
  {
    if es != [] { NotFound(es[1..], key); }
  }

  lemma {:induction false} ParseEntriesAt(body: string, es: seq<Entry>, name: string)
    requires DistinctEntries(es)
    ensures Lookup(ParseEntries(body, es), name) ==
      if Find(es, name).Some? then Some(ParseHandler(SpanOf(body, Find(es, name).value))) else None
    decreases |es|
  {
    if es != [] {
      var init, e := es[..|es| - 1], es[|es| - 1];
      ParseEntriesAt(body, init, name);
      assert es == init + [e];
      FindAppend(init, e, name);
      if e.key == name { LastIsNew(es); }
    }
  }

  lemma {:induction false} ScannedDistinct(b: Body, text: string, entries: seq<Entry>)
    requires Scanned(b, text, entries) && DistinctKeys(b.pieces)
    ensures DistinctEntries(entries)
  {
    ScannedKeys(b, text, entries);
  }

  predicate SaysOnce(ps: seq<Piece>) {
    forall i, j :: 0 <= i < j < |ps| && ps[i].key == ps[j].key ==> ReadProperty(ps[j].key, ps[j].value) == None
  }

  lemma {:induction false} SpanIsValue(b: Body, k: nat)
    requires Tidy(b) && k < |b.pieces|
    ensures |Entries(Render(b), 0)| == |b.pieces| && Entries(Render(b), 0)[k].key == b.pieces[k].key
    ensures SpanOf(Render(b), Entries(Render(b), 0)[k]) == b.pieces[k].value
  {
    ScanOf(b);
    ScannedKeys(b, Render(b), Entries(Render(b), 0));
    ValueSlice(b.pieces, 0, k, Render(b));
  }

  /** What the text of a tidy body says once, its pieces say once. */
  lemma {:induction false} SaysOnceIff(b: Body)
    requires Tidy(b)
    ensures ReadsOnce(Render(b), Entries(Render(b), 0)) <==> SaysOnce(b.pieces)
  {
    var text, es := Render(b), Entries(Render(b), 0);
    ScanOf(b);
    forall k | 0 <= k < |b.pieces|
      ensures k < |es| == |b.pieces| && es[k].key == b.pieces[k].key && SpanOf(text, es[k]) == b.pieces[k].value
    {
      SpanIsValue(b, k);
    }
    SameReads(text, es, b.pieces);
  }

  lemma {:induction false} SameReads(text: string, es: seq<Entry>, ps: seq<Piece>)
    requires |es| == |ps| && forall k :: 0 <= k < |ps| ==> es[k].key == ps[k].key && SpanOf(text, es[k]) == ps[k].value
    ensures ReadsOnce(text, es) <==> SaysOnce(ps)
  {
    if ReadsOnce(text, es) {
      forall i, j | 0 <= i < j < |ps| && ps[i].key == ps[j].key ensures ReadProperty(ps[j].key, ps[j].value) == None {
        assert es[i].key == es[j].key;
      }
    }
    if SaysOnce(ps) {
      forall i, j | 0 <= i < j < |es| && es[i].key == es[j].key
        ensures ReadProperty(es[j].key, SpanOf(text, es[j])) == None
      {
        assert ps[i].key == ps[j].key;
      }
    }
  }

  /** Reading the text of a tidy handler body that says each property once gives its properties. */
  lemma {:induction false} PropsParsed(b: Body)
    requires Tidy(b) && SaysOnce(b.pieces)
    ensures ParseProps(Render(b), Entries(Render(b), 0)) == PropsOf(b.pieces)
  {
    var text, entries := Render(b), Entries(Render(b), 0);
    ScanOf(b);
    ScannedKeys(b, text, entries);
    SaysOnceIff(b);
    var parsed, props := ParseProps(text, entries), PropsOf(b.pieces);
    forall p ensures Lookup(parsed, p) == Lookup(props, p) {
      PropParsed(b, text, entries, p);
    }
    SameLookups(parsed, props);
  }

  lemma {:induction false} PropParsed(b: Body, text: string, entries: seq<Entry>, p: string)
    requires Scanned(b, text, entries) && Upright(entries, text) && ReadsOnce(text, entries)
    ensures Lookup(ParseProps(text, entries), p) == Lookup(PropsOf(b.pieces), p)
  {
    ParsePropsAt(text, entries, p);
    CurrentIsValue(b, text, entries, p);
    if p !in PROPERTIES && Find(entries, p).Some? { OnlyProperties(p, SpanOf(text, Find(entries, p).value)); }
  }

  lemma {:induction false} SameLookups<V>(a: map<string, V>, b: map<string, V>)
    requires forall key :: Lookup(a, key) == Lookup(b, key)
    ensures a == b
  {
    forall key ensures (key in a <==> key in b) && (key in a ==> a[key] == b[key]) {
      assert Lookup(a, key) == Lookup(b, key);
    }
    assert a.Keys == b.Keys;
  }

  lemma {:induction false} OnlyProperties(p: string, raw: string)
    requires p !in PROPERTIES
    ensures ReadProperty(p, raw) == None
  {
    assert PROPERTIES[0] == "level" && PROPERTIES[1] == "metrics" && PROPERTIES[2] == "audit";
  }

  /** Reading the text of a regular block gives, for every name, what its value says. */
  lemma {:induction false} BodyParsed(b: Body, name: string)
    requires Regular(b)
    ensures Lookup(ParseBody(Render(b)), name) ==
      match ValueOf(b.pieces, name) case None => None case Some(v) => Some(ParseHandler(v))
  {
    var text, entries := Render(b), Entries(Render(b), 0);
    ScanOf(b);
    ScannedKeys(b, text, entries);
    ScannedDistinct(b, text, entries);
    ParseEntriesAt(text, entries, name);
    CurrentIsValue(b, text, entries, name);
  }

  // ---------- One handler ----------

  /** A handler whose value is an object literal with a tidy body, and what stands behind the
      literal. */
  datatype Handler = Handler(inner: Body, after: string) {
    function Text(): string { "{" + Render(inner) + "}" + after }
  }

  lemma {:induction false} HandlerBody(h: Handler)
    requires Tidy(h.inner)
    ensures ObjectBody(h.Text()) == Some(Render(h.inner))
    ensures SaysOnce(h.inner.pieces) ==> ParseHandler(h.Text()) == PropsOf(h.inner.pieces)
  {
    BodyPasses(h.inner);
    ObjectBodyOf(Render(h.inner), h.after);
    if SaysOnce(h.inner.pieces) { PropsParsed(h.inner); }
  }

  /** What the edits make of the body of a handler. */
  lemma {:induction false} MergeEditsLaw(b: Body, props: Props)
    requires Tidy(b)
    ensures Inside(Entries(Render(b), 0), Render(b)) && Safe(Render(b), PROPERTIES, MergeEdits(Render(b), props))
    ensures AppliedAll(Render(b), Sort(MergeEdits(Render(b), props))) == Render(MergedBody(b, props))
  {
    var text, entries, plan := Render(b), Entries(Render(b), 0), PropertyPlan(props);
    ScanOf(b);
    ScannedKeys(b, text, entries);
    PropertiesDistinct();
    PatchText(b, text, entries, PROPERTIES, plan, Missing(entries, PROPERTIES, plan));
    LastToFirst(text, MergeEdits(text, props));
  }

  /** Without an edit the body stays what it is. */
  lemma {:induction false} NoEditSame(b: Body, names: seq<string>, plan: Plan, missing: seq<Literal>)
    requires Tidy(b) && Inside(Entries(Render(b), 0), Render(b))
    requires AllEdits(Render(b), Entries(Render(b), 0), Edits(Render(b), Entries(Render(b), 0), names, plan),
      missing) == []
    ensures PatchedBody(b, names, plan, missing, LayoutOf(Render(b), Entries(Render(b), 0))) == b
  {
    var text, entries := Render(b), Entries(Render(b), 0);
    ScanOf(b);
    ScannedKeys(b, text, entries);
    EditsAreValueEdits(b, text, entries, names, plan);
    var cs := Changes(b.pieces, Members(names), plan);
    Memberless(ValueEdits(b.pieces, 0, cs));
    NothingReplaced(b.pieces, 0, cs);
  }

  lemma {:induction false} Memberless(es: seq<Edit>)
    ensures (forall e :: e !in es) ==> es == []
  {
    if es != [] { assert es[0] in es; }
  }

  lemma {:induction false} NothingReplaced(ps: seq<Piece>, i: nat, cs: seq<Option<string>>)
    requires |cs| == |ps| && ValueEdits(ps, i, cs) == []
    ensures Replaced(ps, cs) == ps
    decreases |ps|
  {
    if ps != [] { NothingReplaced(ps[1..], i + |ps[0].Text()|, cs[1..]); }
  }

  /** The keys after a patch: those that were there, and behind them those of the new entries. */
  lemma {:induction false} PatchedKeyAt(b: Body, names: seq<string>, plan: Plan, missing: seq<Literal>, layout: Layout,
      k: nat)
    requires k < |PatchedBody(b, names, plan, missing, layout).pieces|
    ensures var n, p := |b.pieces|, PatchedBody(b, names, plan, missing, layout).pieces[k];
      if k < n then p.key == b.pieces[k].key else k - n < |missing| && p.key == missing[k - n].key
  {
    var cs := Changes(b.pieces, Members(names), plan);
    if k < |b.pieces| { ReplacedAt(b.pieces, cs, k); }
    ExtendKeys(Body(Replaced(b.pieces, cs), b.trailing), missing, layout, k);
  }

  lemma {:induction false} ExtendKeys(b: Body, ls: seq<Literal>, l: Layout, k: nat)
    requires k < |Extend(b, ls, l).pieces|
    ensures var n, p := |b.pieces|, Extend(b, ls, l).pieces[k];
      if k < n then p.key == b.pieces[k].key else k - n < |ls| && p.key == ls[k - n].key
  {
    if k >= |b.pieces| { NewKey(ls, l, k - |b.pieces|); }
  }

  lemma {:induction false} NewKey(ls: seq<Literal>, l: Layout, k: nat)
    requires k < |ls|
    ensures NewPieces(ls, l)[k].key == ls[k].key
    decreases k
  {
    if k > 0 { NewKey(ls[1..], l, k - 1); }
  }

  /** A key that stands twice after a patch stood twice before, and its later entry is as it was. */
  lemma {:induction false} PatchedTwice(b: Body, names: seq<string>, plan: Plan, missing: seq<Literal>, layout: Layout,
      i: nat, j: nat)
    requires AreNew(missing, b) && i < j < |PatchedBody(b, names, plan, missing, layout).pieces|
    requires var after := PatchedBody(b, names, plan, missing, layout).pieces; after[i].key == after[j].key
    ensures j < |b.pieces| && b.pieces[i].key == b.pieces[j].key
    ensures var q := PatchedBody(b, names, plan, missing, layout).pieces[j];
      q.key == b.pieces[j].key && q.value == b.pieces[j].value
  {
    PatchedKeyAt(b, names, plan, missing, layout, i);
    PatchedKeyAt(b, names, plan, missing, layout, j);
    if j < |b.pieces| { PatchedValueAt(b, names, plan, missing, layout, j); }
  }

  lemma {:induction false} MergedSaysOnce(b: Body, props: Props)
    requires Tidy(b) && Inside(Entries(Render(b), 0), Render(b)) && SaysOnce(b.pieces)
    ensures SaysOnce(MergedBody(b, props).pieces)
  {
    var after, layout := MergedBody(b, props).pieces, LayoutOf(Render(b), Entries(Render(b), 0));
    MissingPropsNew(b, props);
    forall i, j | 0 <= i < j < |after| && after[i].key == after[j].key
      ensures ReadProperty(after[j].key, after[j].value) == None
    {
      PatchedTwice(b, PROPERTIES, PropertyPlan(props), MissingProps(b, props), layout, i, j);
    }
  }

  /** Merging properties into a handler: its text, and what it then says. */
  lemma {:induction false} MergeLaw(h: Handler, name: string, props: Props)
    requires Tidy(h.inner)
    ensures MergeSafe(h.Text(), props)
    ensures var r := Merge(name, h.Text(), props);
      && (SaysOnce(h.inner.pieces) ==> ParseHandler(r.0) == PropsOf(h.inner.pieces) + Renderable(props))
      && (!r.1 ==> r.0 == h.Text())
      && (r.1 ==> IsValue(r.0) && Balanced(r.0))
  {
    var b := h.inner;
    HandlerBody(h);
    MergeEditsLaw(b, props);
    if MergeEdits(Render(b), props) == [] {
      NoEditSame(b, PROPERTIES, PropertyPlan(props), MissingProps(b, props));
      MergedProps(b, props);
    } else {
      MergedBodyLaw(b, props);
    }
  }

  lemma {:induction false} MergedBodyLaw(b: Body, props: Props)
    requires Tidy(b) && Inside(Entries(Render(b), 0), Render(b))
    ensures var v := "{" + Render(MergedBody(b, props)) + "}";
      IsValue(v) && Balanced(v) && (SaysOnce(b.pieces) ==> ParseHandler(v) == PropsOf(b.pieces) + Renderable(props))
  {
    var merged := Handler(MergedBody(b, props), "");
    MergedTidy(b, props);
    MergedProps(b, props);
    if SaysOnce(b.pieces) { MergedSaysOnce(b, props); }
    HandlerBody(merged);
    ObjectIsValue(merged.inner);
    assert merged.Text() == "{" + Render(merged.inner) + "}";
  }

  // ---------- The block ----------

  /** What becomes of a handler. */
  function HandlerPlan(model: Model): Plan {
    (name, current: Option<string>) =>
      if name !in model || model[name] == map[] then Keep
      else match current
      case None => if Parts(model[name]) == [] then Keep else Put(Rendered(model[name]))
      case Some(value) =>
        var r := Merge(name, value, model[name]);
        if !r.1 || r.0 == value then Keep else Put(r.0)
  }

  /** The console handler that is added when neither side has one. */
  function DefaultConsole(entries: seq<Entry>, model: Model): seq<Literal> {
    if Find(entries, "console").Some? ||
      ("console" in model && RenderHandler("console", model["console"]) != "") then []
    else [Literal("console", Rendered(DEFAULT_CONSOLE))]
  }

  function Additions(entries: seq<Entry>, model: Model, names: seq<string>): seq<Literal> {
    Missing(entries, names, HandlerPlan(model)) + DefaultConsole(entries, model)
  }

  function PatchEdits(body: string, model: Model, names: seq<string>): seq<Edit> {
    var entries := Entries(body, 0);
    EntriesInside(body);
    AllEdits(body, entries, Edits(body, entries, names, HandlerPlan(model)), Additions(entries, model, names))
  }

  predicate PatchSafe(body: string, model: Model, names: seq<string>) {
    && Safe(body, names, PatchEdits(body, model, names))
    && forall name :: name in names && name in model ==>
        var current := Current(body, Entries(body, 0), name); current.Some? ==> MergeSafe(current.value, model[name])
  }

  /** The patched body. */
  function PatchBody(body: string, model: Model, names: seq<string>): string
    requires PatchSafe(body, model, names)
  {
    AppliedAll(body, Sort(PatchEdits(body, model, names)))
  }

  method PatchLoggingBody(body: string, model: Model, names: seq<string>) returns (patched: string, changed: bool)
    requires PatchSafe(body, model, names) && forall name :: name in names ==> name in model
    ensures patched == PatchBody(body, model, names) && (changed <==> PatchEdits(body, model, names) != [])
  {
    var entries := ScanObjectEntries(body);
    var byName := FirstByKey(entries);
    var edits, inserted := CollectHandlers(body, entries, byName, model, names);
    var modelConsole := false;
    if "console" in model {
      var rendered := RenderLoggingHandler("console", model["console"]);
      modelConsole := rendered != "";
    }
    if "console" !in byName && !modelConsole {
      inserted := inserted + [Literal("console", Rendered(DEFAULT_CONSOLE))];
    }
    EntriesInside(body);
    assert inserted == Additions(entries, model, names);
    var all := WithInsertion(body, entries, edits, inserted);
    patched, changed := ApplyEdits(body, all);
  }

  method CollectHandlers(body: string, entries: seq<Entry>, byName: map<string, Entry>, model: Model,
      names: seq<string>)
    returns (edits: seq<Edit>, inserted: seq<Literal>)
    requires forall key ::
      (key in byName <==> Find(entries, key).Some?) && (key in byName ==> byName[key] == Find(entries, key).value)
    requires forall name :: name in names ==> name in model
    requires forall name :: name in names && Find(entries, name).Some? ==>
      var e := Find(entries, name).value; IsUpright(e, body) && MergeSafe(body[e.valueStart..e.valueEnd], model[name])
    ensures edits == Edits(body, entries, names, HandlerPlan(model))
    ensures inserted == Missing(entries, names, HandlerPlan(model))
  {
    edits, inserted := [], [];
    for i := 0 to |names|
      invariant edits == Edits(body, entries, names[..i], HandlerPlan(model))
      invariant inserted == Missing(entries, names[..i], HandlerPlan(model))
    {
      var name := names[i];
      assert name in names && names[..i + 1][..i] == names[..i];
      var props := model[name];
      if props == map[] { continue; }
      if name !in byName {
        var rendered := RenderLoggingHandler(name, props);
        if rendered == "" { continue; }
        inserted := inserted + [Literal(name, Rendered(props))];
        continue;
      }
      var entry := byName[name];
      var current := body[entry.valueStart..entry.valueEnd];
      var merged, ok := MergeLoggingHandlerValue(name, current, props);
      if !ok || merged == current { continue; }
      edits := edits + [Edit(entry.valueStart, entry.valueEnd, merged)];
    }
    assert names[..|names|] == names;
  }

  // ---------- The order of the handlers ----------

  const MANAGED: seq<string> := ["console", "internal"]

  function Insert(name: string, sorted: seq<string>): seq<string> {
    if sorted == [] || LexLess(name, sorted[0]) then [name] + sorted else [sorted[0]] + Insert(name, sorted[1..])
  }

  predicate Ascending(names: seq<string>) { forall i, j :: 0 <= i < j < |names| ==> LexLess(names[i], names[j]) }

  lemma {:induction false} InsertMembers(name: string, sorted: seq<string>)
    ensures forall x :: x in Insert(name, sorted) <==> x == name || x in sorted
  {
    if sorted != [] && !LexLess(name, sorted[0]) { InsertMembers(name, sorted[1..]); }
  }

  lemma {:induction false} InsertAscending(name: string, sorted: seq<string>)
    requires Ascending(sorted) && name !in sorted
    ensures Ascending(Insert(name, sorted))
  {
    if sorted == [] {
    } else if LexLess(name, sorted[0]) {
      forall j | 1 <= j < |sorted| ensures LexLess(name, sorted[j]) { LexTransitive(name, sorted[0], sorted[j]); }
    } else {
      var rest := Insert(name, sorted[1..]);
      InsertAscending(name, sorted[1..]);
      InsertMembers(name, sorted[1..]);
      LexTotal(name, sorted[0]);
      assert name != sorted[0];
      forall j | 0 <= j < |rest| ensures LexLess(sorted[0], rest[j]) {
        assert rest[j] in rest;
        if rest[j] != name {
          var k :| 0 <= k < |sorted[1..]| && sorted[1..][k] == rest[j];
          assert sorted[k + 1] == rest[j];
        }
      }
    }
  }

  lemma {:induction false} AscendingDistinct(names: seq<string>)
    requires Ascending(names)
    ensures Distinct(names)
  {
    forall i, j | 0 <= i < j < |names| ensures names[i] != names[j] { LexTotal(names[i], names[j]); }
  }

  function ManagedIn(model: Model): seq<string> {
    (if "console" in model then ["console"] else []) + (if "internal" in model then ["internal"] else [])
  }

  /** The handlers the interface manages first, the others in the order of their names. */
  method HandlerNames(model: Model) returns (names: seq<string>)
    ensures Lists(names, model)
    ensures ManagedIn(model) <= names && Ascending(names[|ManagedIn(model)|..])
  {
    var managed := ManagedNames(model);
    var rest := OtherNames(model);
    ManagedFirst(model, rest);
    names := managed + rest;
  }

  method ManagedNames(model: Model) returns (names: seq<string>)
    ensures names == ManagedIn(model)
  {
    names := [];
    if "console" in model { names := names + ["console"]; }
    if "internal" in model { names := names + ["internal"]; }
  }

  lemma {:induction false} ManagedFirst(model: Model, rest: seq<string>)
    requires Ascending(rest) && forall x :: x in rest <==> x in model && x !in MANAGED
    ensures Lists(ManagedIn(model) + rest, model) && (ManagedIn(model) + rest)[|ManagedIn(model)|..] == rest
  {
    AscendingDistinct(rest);
    assert "console"[0] != "internal"[0];
    assert MANAGED == ["console", "internal"];
    forall x ensures x in ManagedIn(model) <==> x in model && x in MANAGED {}
    DistinctAppend(ManagedIn(model), rest);
  }

  lemma {:induction false} DistinctAppend(a: seq<string>, c: seq<string>)
    requires Distinct(a) && Distinct(c) && forall x :: x in a ==> x !in c
    ensures Distinct(a + c) && (a + c)[|a|..] == c && forall x :: x in a + c <==> x in a || x in c
  {
    var all := a + c;
    forall i, j | 0 <= i < j < |all| ensures all[i] != all[j] {
      if i < |a| <= j { assert all[i] in a && all[j] in c; }
    }
  }

  method OtherNames(model: Model) returns (rest: seq<string>)
    ensures Ascending(rest) && forall x :: x in rest <==> x in model && x !in MANAGED
  {
    rest := [];
    var todo := model.Keys;
    while todo != {}
      invariant todo <= model.Keys && Ascending(rest)
      invariant forall x :: x in rest <==> x in model && x !in todo && x !in MANAGED
      decreases todo
    {
      var name :| name in todo;
      if name !in MANAGED {
        InsertMembers(name, rest);
        InsertAscending(name, rest);
        rest := Insert(name, rest);
      }
      todo := todo - {name};
    }
  }

  // ---------- Tidy blocks ----------

  /** A block of `key: value` entries whose values are object literals with tidy bodies. */
  ghost predicate TidyBlock(b: Body) {
    Tidy(b) && forall p :: p in b.pieces ==> IsHandler(p.value)
  }

  ghost predicate IsHandler(value: string) {
    exists h: Handler :: Tidy(h.inner) && value == h.Text()
  }

  /** No handler stands in the block twice, and no property of a handler is read from an entry that
      an earlier one of the same name precedes. */
  predicate Unambiguous(b: Body) { DistinctKeys(b.pieces) && forall p :: p in b.pieces ==> IsClear(p.value) }

  predicate IsClear(value: string) {
    ObjectBody(value).Some? ==> ReadsOnce(ObjectBody(value).value, Entries(ObjectBody(value).value, 0))
  }

  lemma {:induction false} ClearIff(h: Handler)
    requires Tidy(h.inner)
    ensures IsClear(h.Text()) <==> SaysOnce(h.inner.pieces)
  {
    HandlerBody(h);
    SaysOnceIff(h.inner);
  }

  /** The names of a submitted model: each once, and each that may have to be written unquoted is
      an identifier. */
  ghost predicate Lists(names: seq<string>, model: Model) {
    Distinct(names) && forall name :: name in names <==> name in model
  }

  ghost predicate Writable(b: Body, names: seq<string>) {
    forall name :: name in names && ValueOf(b.pieces, name).None? ==> IsIdentifier(name)
  }

  /** The handler behind the value of a name. */
  lemma {:induction false} HandlerOf(b: Body, name: string) returns (h: Handler)
    requires TidyBlock(b) && ValueOf(b.pieces, name).Some?
    ensures Tidy(h.inner) && ValueOf(b.pieces, name) == Some(h.Text())
    ensures Unambiguous(b) ==> SaysOnce(h.inner.pieces)
  {
    var k := ValueOfIndex(b.pieces, name);
    ValueOfAt(b.pieces, k);
    assert b.pieces[k] in b.pieces;
    var g: Handler :| Tidy(g.inner) && b.pieces[k].value == g.Text();
    h := g;
    ClearIff(h);
  }

  lemma {:induction false} HandlerPlanFits(b: Body, model: Model, names: seq<string>)
    requires TidyBlock(b)
    ensures PlanFits(b.pieces, names, HandlerPlan(model))
  {
    forall p | p in b.pieces && p.key in names
      ensures var c := HandlerPlan(model)(p.key, Some(p.value)); c.Put? ==> IsValue(c.text) && Balanced(c.text)
    {
      var h: Handler :| Tidy(h.inner) && p.value == h.Text();
      if p.key in model { MergeLaw(h, p.key, model[p.key]); }
    }
  }

  lemma {:induction false} RenderedIsValue(props: Props)
    requires Parts(props) != []
    ensures IsValue(Rendered(props)) && Balanced(Rendered(props)) && ParseHandler(Rendered(props)) == Renderable(props)
  {
    RenderedIs(props);
    ObjectIsValue(RenderedBody(props));
    var h := Handler(RenderedBody(props), "");
    HandlerBody(h);
    assert h.Text() == Rendered(props);
  }

  lemma {:induction false} DefaultRendered()
    ensures Parts(DEFAULT_CONSOLE) != [] && Renderable(DEFAULT_CONSOLE) == DEFAULT_CONSOLE
  {
    var d := DEFAULT_CONSOLE;
    assert "level" in d && LiteralText("level", d["level"]).Some?;
    assert "level" in Renderable(d);
    PartsEmpty(d);
  }

  /** The text is a name the code writes itself. */
  lemma {:induction false} ConsoleIsIdentifier()
    ensures IsIdentifier("console")
  {}

  lemma {:induction false} AdditionNew(b: Body, text: string, entries: seq<Entry>, model: Model, names: seq<string>,
      l: Literal)
    requires Scanned(b, text, entries) && Writable(b, names) && Upright(entries, text) &&
      l in Additions(entries, model, names)
    ensures IsNew(l) && Balanced(l.value) && forall p :: p in b.pieces ==> p.key != l.key
  {
    if l in Missing(entries, names, HandlerPlan(model)) {
      MissingFrom(entries, names, HandlerPlan(model), l);
      CurrentIsValue(b, text, entries, l.key);
      RenderedIsValue(model[l.key]);
    } else {
      DefaultRendered();
      RenderedIsValue(DEFAULT_CONSOLE);
      ConsoleIsIdentifier();
    }
    NotAKey(b, text, entries, l.key);
  }

  lemma {:induction false} AdditionsDistinct(entries: seq<Entry>, model: Model, names: seq<string>)
    requires Distinct(names)
    ensures DistinctLiterals(Additions(entries, model, names))
  {
    var missing, console := Missing(entries, names, HandlerPlan(model)), DefaultConsole(entries, model);
    MissingDistinct(entries, names, HandlerPlan(model));
    forall l | l in missing && console != [] ensures l.key != "console" {
      MissingFrom(entries, names, HandlerPlan(model), l);
    }
  }

  lemma {:induction false} AdditionsNew(b: Body, text: string, entries: seq<Entry>, model: Model, names: seq<string>)
    requires Scanned(b, text, entries) && Writable(b, names) && Distinct(names)
    ensures AreNew(Additions(entries, model, names), b)
  {
    ScannedKeys(b, text, entries);
    AdditionsDistinct(entries, model, names);
    forall l | l in Additions(entries, model, names)
      ensures IsNew(l) && Balanced(l.value) && forall p :: p in b.pieces ==> p.key != l.key
    {
      AdditionNew(b, text, entries, model, names, l);
    }
  }

  /** The block after the patch. */
  function PatchedBlock(b: Body, model: Model, names: seq<string>): Body
    requires Inside(Entries(Render(b), 0), Render(b))
  {
    var entries := Entries(Render(b), 0);
    PatchedBody(b, names, HandlerPlan(model), Additions(entries, model, names), LayoutOf(Render(b), entries))
  }

  /** Patching the text of a tidy block gives the text of a tidy block. */
  lemma {:induction false} PatchLaw(b: Body, model: Model, names: seq<string>)
    requires TidyBlock(b) && Lists(names, model) && Writable(b, names)
    ensures Inside(Entries(Render(b), 0), Render(b)) && PatchSafe(Render(b), model, names)
    ensures PatchBody(Render(b), model, names) == Render(PatchedBlock(b, model, names))
    ensures Tidy(PatchedBlock(b, model, names)) &&
      (DistinctKeys(b.pieces) ==> DistinctKeys(PatchedBlock(b, model, names).pieces))
    ensures AreNew(Additions(Entries(Render(b), 0), model, names), b)
  {
    var text, entries, plan := Render(b), Entries(Render(b), 0), HandlerPlan(model);
    ScanOf(b);
    ScannedKeys(b, text, entries);
    PatchText(b, text, entries, names, plan, Additions(entries, model, names));
    LastToFirst(text, PatchEdits(text, model, names));
    BlockSafe(b, model, names);
    HandlerPlanFits(b, model, names);
    AdditionsNew(b, text, entries, model, names);
    LayoutIsSpaces(text, entries);
    PatchedTidy(b, names, plan, Additions(entries, model, names), LayoutOf(text, entries));
  }

  lemma {:induction false} BlockSafe(b: Body, model: Model, names: seq<string>)
    requires TidyBlock(b)
    ensures forall name :: name in names && name in model ==>
      var current := Current(Render(b), Entries(Render(b), 0), name); current.Some? ==>
        MergeSafe(current.value, model[name])
  {
    var text, entries := Render(b), Entries(Render(b), 0);
    ScanOf(b);
    ScannedKeys(b, text, entries);
    forall name | name in names && name in model && Current(text, entries, name).Some?
      ensures MergeSafe(Current(text, entries, name).value, model[name])
    {
      CurrentIsValue(b, text, entries, name);
      var h := HandlerOf(b, name);
      MergeLaw(h, name, model[name]);
    }
  }

  // ---------- Patch, then parse ----------

  /** What a handler should say after a patch: its old properties overridden by the submitted ones
      that can be rendered; a handler nobody has appears only if it has something to say, or if it
      is the console. */
  function Expected(before: Option<Props>, submitted: Option<Props>, console: bool): Option<Props> {
    var r := if submitted.Some? then Renderable(submitted.value) else map[];
    if before.Some? then Some(before.value + r)
    else if r != map[] then Some(r)
    else if console then Some(DEFAULT_CONSOLE)
    else None
  }

  /** The value a handler gets if it is new. */
  lemma {:induction false} AdditionOf(entries: seq<Entry>, model: Model, names: seq<string>, name: string)
    requires Lists(names, model) && Find(entries, name).None?
    ensures LiteralOf(Additions(entries, model, names), name) ==
      if name in model && Renderable(model[name]) != map[] then Some(Rendered(model[name]))
      else if name == "console" then Some(Rendered(DEFAULT_CONSOLE))
      else None
  {
    MissingOf(entries, names, HandlerPlan(model), name);
    LiteralOfAppend(Missing(entries, names, HandlerPlan(model)), DefaultConsole(entries, model), name);
    if name in model { PartsEmpty(model[name]); }
    ConsoleOf(entries, model, name);
  }

  lemma {:induction false} ConsoleOf(entries: seq<Entry>, model: Model, name: string)
    requires Find(entries, name).None?
    ensures LiteralOf(DefaultConsole(entries, model), name) ==
      if name == "console" && !(name in model && Renderable(model[name]) != map[]) then Some(Rendered(DEFAULT_CONSOLE))
        else None
  {
    if "console" in model { PartsEmpty(model["console"]); }
  }

  /** Parsing the patched block gives, for every name, what it should say. */
  lemma {:induction false} PatchThenParse(b: Body, model: Model, names: seq<string>, name: string)
    requires TidyBlock(b) && Unambiguous(b) && Lists(names, model) && Writable(b, names)
    ensures PatchSafe(Render(b), model, names)
    ensures Lookup(ParseBody(PatchBody(Render(b), model, names)), name) ==
      Expected(Lookup(ParseBody(Render(b)), name), Lookup(model, name), name == "console")
  {
    var text, entries := Render(b), Entries(Render(b), 0);
    PatchLaw(b, model, names);
    BodyParsed(b, name);
    BodyParsed(PatchedBlock(b, model, names), name);
    PatchedValues(b, names, HandlerPlan(model), Additions(entries, model, names), LayoutOf(text, entries), name);
    if ValueOf(b.pieces, name).Some? {
      HandlerSays(b, model, name);
    } else {
      NewHandlerSays(b, text, entries, model, names, name);
    }
  }

  /** A handler that was there. */
  lemma {:induction false} HandlerSays(b: Body, model: Model, name: string)
    requires TidyBlock(b) && Unambiguous(b) && ValueOf(b.pieces, name).Some?
    ensures var v := ValueOf(b.pieces, name).value; var c := HandlerPlan(model)(name, Some(v));
      ParseHandler(if name in model && c.Put? then c.text else v) ==
        ParseHandler(v) + (if name in model then Renderable(model[name]) else map[])
  {
    var h := HandlerOf(b, name);
    MergedSays(h, model, name);
  }

  lemma {:induction false} MergedSays(h: Handler, model: Model, name: string)
    requires Tidy(h.inner) && SaysOnce(h.inner.pieces)
    ensures var c := HandlerPlan(model)(name, Some(h.Text()));
      ParseHandler(if name in model && c.Put? then c.text else h.Text()) ==
        ParseHandler(h.Text()) + (if name in model then Renderable(model[name]) else map[])
  {
    PlanMerges(h.Text(), model, name);
    if name in model && model[name] != map[] {
      MergeParses(h, name, model[name]);
    } else {
      assert ParseHandler(h.Text()) + map[] == ParseHandler(h.Text());
      if name in model { NothingRenderable(model[name]); }
    }
  }

  lemma {:induction false} NothingRenderable(props: Props)
    requires props == map[]
    ensures Renderable(props) == map[]
  {}

  lemma {:induction false} MergeParses(h: Handler, name: string, props: Props)
    requires Tidy(h.inner) && SaysOnce(h.inner.pieces)
    ensures ParseHandler(Merge(name, h.Text(), props).0) == ParseHandler(h.Text()) + Renderable(props)
  {
    HandlerBody(h);
    MergeLaw(h, name, props);
  }

  /** What the plan makes of a value is its merge with what is submitted. */
  lemma {:induction false} PlanMerges(value: string, model: Model, name: string)
    ensures var c := HandlerPlan(model)(name, Some(value));
      (if name in model && c.Put? then c.text else value) ==
        if name in model && model[name] != map[] then Merge(name, value, model[name]).0 else value
  {
    if name in model { UnmergedSame(name, value, model[name]); }
  }

  lemma {:induction false} UnmergedSame(name: string, value: string, props: Props)
    ensures !Merge(name, value, props).1 ==> Merge(name, value, props).0 == value
  {}

  /** A handler that was not. */
  lemma {:induction false} NewHandlerSays(b: Body, text: string, entries: seq<Entry>, model: Model, names: seq<string>,
      name: string)
    requires Tidy(b) && text == Render(b) && entries == Entries(text, 0)
    requires Lists(names, model) && ValueOf(b.pieces, name).None?
    ensures var l := LiteralOf(Additions(entries, model, names), name);
      (if l.Some? then Some(ParseHandler(l.value)) else None) == Expected(None, Lookup(model, name), name == "console")
  {
    ScanOf(b);
    ScannedKeys(b, text, entries);
    CurrentIsValue(b, text, entries, name);
    AdditionOf(entries, model, names, name);
    DefaultRendered();
    RenderedIsValue(DEFAULT_CONSOLE);
    if name in model {
      PartsEmpty(model[name]);
      if Parts(model[name]) != [] { RenderedIsValue(model[name]); }
    }
  }

  // ---------- Patching again ----------

  /** A handler that says what is submitted is left alone. */
  lemma {:induction false} Satisfied(h: Handler, name: string, props: Props)
    requires Tidy(h.inner)
    requires forall p :: p in Renderable(props) ==> ReadOf(h.inner.pieces, p) == Some(props[p])
    ensures Merge(name, h.Text(), props) == (h.Text(), false)
  {
    var text, entries, plan := Render(h.inner), Entries(Render(h.inner), 0), PropertyPlan(props);
    HandlerBody(h);
    ScanOf(h.inner);
    ScannedKeys(h.inner, text, entries);
    forall p | p in PROPERTIES ensures plan(p, Current(text, entries, p)) == Keep {
      CurrentIsValue(h.inner, text, entries, p);
      if p in props && LiteralText(p, props[p]).Some? { assert p in Renderable(props); }
    }
    NoChange(text, entries, PROPERTIES, plan);
  }

  lemma {:induction false} MergedSatisfied(h: Handler, name: string, props: Props)
    requires Tidy(h.inner) && Merge(name, h.Text(), props).1
    ensures Merge(name, Merge(name, h.Text(), props).0, props) == (Merge(name, h.Text(), props).0, false)
  {
    HandlerBody(h);
    MergeEditsLaw(h.inner, props);
    MergedTidy(h.inner, props);
    var merged := Handler(MergedBody(h.inner, props), "");
    assert merged.Text() == "{" + Render(merged.inner) + "}";
    forall p | p in Renderable(props) ensures ReadOf(merged.inner.pieces, p) == Some(props[p]) {
      ReadLiteral(p, props[p]);
      MergedProperty(h.inner, props, p);
    }
    Satisfied(merged, name, props);
  }

  lemma {:induction false} RenderedSatisfied(name: string, props: Props)
    requires Parts(props) != []
    ensures Merge(name, Rendered(props), props) == (Rendered(props), false)
  {
    var h := Handler(RenderedBody(props), "");
    RenderedIs(props);
    assert h.Text() == Rendered(props);
    RenderedReads(props);
    Satisfied(h, name, props);
  }

  lemma {:induction false} RenderedReads(props: Props)
    ensures forall p :: p in Renderable(props) ==> ReadOf(RenderedBody(props).pieces, p) == Some(props[p])
  {
    PartsAre(props, PROPERTIES);
    forall p | p in Renderable(props) ensures ReadOf(RenderedBody(props).pieces, p) == Some(props[p]) {
      ReadLiteral(p, props[p]);
      ExtendValues(Body([], ""), Parts(props), INLINE, p);
    }
  }

  /** After the patch there is nothing left to do for a name. */
  lemma {:induction false} NameSettled(b: Body, model: Model, names: seq<string>, name: string)
    requires TidyBlock(b) && Lists(names, model) && name in names && Inside(Entries(Render(b), 0), Render(b))
    ensures IsSettled(PatchedBlock(b, model, names), model, name)
  {
    var text, entries, plan := Render(b), Entries(Render(b), 0), HandlerPlan(model);
    PatchedValues(b, names, plan, Additions(entries, model, names), LayoutOf(text, entries), name);
    if ValueOf(b.pieces, name).Some? {
      var h := HandlerOf(b, name);
      OldNameSettled(h, model, name);
    } else {
      NewNameSettled(b, text, entries, model, names, name);
    }
  }

  lemma {:induction false} OldNameSettled(h: Handler, model: Model, name: string)
    requires Tidy(h.inner)
    ensures var plan := HandlerPlan(model); var c := plan(name, Some(h.Text())); c.Put? ==>
      plan(name, Some(c.text)) == Keep
  {
    if HandlerPlan(model)(name, Some(h.Text())).Put? { MergedSatisfied(h, name, model[name]); }
  }

  lemma {:induction false} NewNameSettled(b: Body, text: string, entries: seq<Entry>, model: Model, names: seq<string>,
      name: string)
    requires Tidy(b) && text == Render(b) && entries == Entries(text, 0)
    requires Lists(names, model) && name in names && ValueOf(b.pieces, name).None?
    ensures HandlerPlan(model)(name, LiteralOf(Additions(entries, model, names), name)) == Keep
  {
    ScanOf(b);
    ScannedKeys(b, text, entries);
    CurrentIsValue(b, text, entries, name);
    AdditionOf(entries, model, names, name);
    PartsEmpty(model[name]);
    if Parts(model[name]) != [] { RenderedSatisfied(name, model[name]); } else { NothingToMerge(name, model[name]); }
  }

  /** Submitting nothing that can be rendered changes no handler the code wrote itself. */
  lemma {:induction false} NothingToMerge(name: string, props: Props)
    requires Parts(props) == []
    ensures Merge(name, Rendered(DEFAULT_CONSOLE), props) == (Rendered(DEFAULT_CONSOLE), false)
  {
    DefaultRendered();
    PartsEmpty(props);
    var h := RenderedHandler(DEFAULT_CONSOLE);
    Satisfied(h, name, props);
  }

  lemma {:induction false} ConsoleThere(b: Body, model: Model, names: seq<string>)
    requires Tidy(b) && Lists(names, model) && Inside(Entries(Render(b), 0), Render(b))
    ensures ValueOf(PatchedBlock(b, model, names).pieces, "console").Some?
  {
    var text, entries := Render(b), Entries(Render(b), 0);
    PatchedValues(b, names, HandlerPlan(model), Additions(entries, model, names), LayoutOf(text, entries), "console");
    if ValueOf(b.pieces, "console").None? {
      ScanOf(b);
      ScannedKeys(b, text, entries);
      CurrentIsValue(b, text, entries, "console");
      AdditionOf(entries, model, names, "console");
    }
  }

  /** Patching a patched block is no edit at all: not a character changes. */
  lemma {:induction false} PatchAgain(b: Body, model: Model, names: seq<string>)
    requires TidyBlock(b) && Lists(names, model) && Writable(b, names)
    ensures PatchSafe(Render(b), model, names)
    ensures PatchEdits(PatchBody(Render(b), model, names), model, names) == []
  {
    PatchLaw(b, model, names);
    forall name | name in names ensures IsSettled(PatchedBlock(b, model, names), model, name) {
      NameSettled(b, model, names, name);
    }
    ConsoleThere(b, model, names);
    SettledBlock(PatchedBlock(b, model, names), model, names);
  }

  /** There is nothing to do for this name. */
  predicate IsSettled(b: Body, model: Model, name: string) { HandlerPlan(model)(name, ValueOf(b.pieces, name)) == Keep }

  lemma {:induction false} SettledBlock(c: Body, model: Model, names: seq<string>)
    requires Tidy(c) && ValueOf(c.pieces, "console").Some? && forall name :: name in names ==> IsSettled(c, model, name)
    ensures PatchEdits(Render(c), model, names) == []
  {
    var text, entries, plan := Render(c), Entries(Render(c), 0), HandlerPlan(model);
    ScanOf(c);
    ScannedKeys(c, text, entries);
    forall name | name in names ensures plan(name, Current(text, entries, name)) == Keep {
      assert IsSettled(c, model, name);
      CurrentIsValue(c, text, entries, name);
    }
    NoChange(text, entries, names, plan);
    CurrentIsValue(c, text, entries, "console");
  }

  // ---------- What a patch leaves alone ----------

  /** The entries of the first body are those the second starts with, with everything around their
      values; only a comma may have come to the last. */
  ghost predicate Around(before: Body, after: Body) {
    && |before.pieces| <= |after.pieces| && (before.pieces != [] ==> after.trailing == before.trailing)
    && forall k :: 0 <= k < |before.pieces| ==> SameAround(before.pieces[k], after.pieces[k])
  }

  ghost predicate SameAround(p: Piece, q: Piece) {
    q == p.(value := q.value, comma := q.comma) && (p.comma ==> q.comma)
  }

  lemma {:induction false} PatchedAround(b: Body, names: seq<string>, plan: Plan, missing: seq<Literal>, layout: Layout)
    ensures Around(b, PatchedBody(b, names, plan, missing, layout))
  {
    var cs := Changes(b.pieces, Members(names), plan);
    forall k | 0 <= k < |b.pieces|
      ensures SameAround(b.pieces[k], PatchedBody(b, names, plan, missing, layout).pieces[k])
    {
      ReplacedAt(b.pieces, cs, k);
    }
  }

  /** A patch keeps the handlers in order with everything around their values, and the value of
      every handler that is not submitted. */
  lemma {:induction false} PatchKeepsBlock(b: Body, model: Model, names: seq<string>)
    requires TidyBlock(b) && Lists(names, model) && Writable(b, names)
    ensures PatchSafe(Render(b), model, names) && Inside(Entries(Render(b), 0), Render(b))
    ensures PatchBody(Render(b), model, names) == Render(PatchedBlock(b, model, names))
    ensures Around(b, PatchedBlock(b, model, names))
    ensures forall k :: 0 <= k < |b.pieces| && b.pieces[k].key !in model ==>
      PatchedBlock(b, model, names).pieces[k].value == b.pieces[k].value
  {
    var entries := Entries(Render(b), 0);
    PatchLaw(b, model, names);
    PatchedAround(b, names, HandlerPlan(model), Additions(entries, model, names), LayoutOf(Render(b), entries));
    forall k | 0 <= k < |b.pieces| && b.pieces[k].key !in model
      ensures PatchedBlock(b, model, names).pieces[k].value == b.pieces[k].value
    {
      PatchedValueAt(b, names, HandlerPlan(model), Additions(entries, model, names), LayoutOf(Render(b), entries), k);
    }
  }

  /** And in a handler that is a bare literal it keeps the entries in order with everything around
      theirs: not a character changes outside the values of the submitted properties and the places
      where entries are added. */
  lemma {:induction false} PatchKeepsHandler(b: Body, model: Model, names: seq<string>, k: nat, inner: Body)
    requires TidyBlock(b) && Lists(names, model) && Inside(Entries(Render(b), 0), Render(b))
    requires k < |b.pieces| && Tidy(inner) && b.pieces[k].value == "{" + Render(inner) + "}" &&
      Inside(Entries(Render(inner), 0), Render(inner))
    ensures var props := if b.pieces[k].key in model && First(b.pieces, k) then model[b.pieces[k].key] else map[];
      && k < |PatchedBlock(b, model, names).pieces|
      && PatchedBlock(b, model, names).pieces[k].value == "{" + Render(MergedBody(inner, props)) + "}"
      && Around(inner, MergedBody(inner, props))
      && forall i :: 0 <= i < |inner.pieces| && inner.pieces[i].key !in Renderable(props) ==>
           MergedBody(inner, props).pieces[i].value == inner.pieces[i].value
  {
    var key := b.pieces[k].key;
    var props := if key in model && First(b.pieces, k) then model[key] else map[];
    PatchedAround(inner, PROPERTIES, PropertyPlan(props), MissingProps(inner, props),
      LayoutOf(Render(inner), Entries(Render(inner), 0)));
    UnsubmittedKept(inner, props);
    HandlerAt(b, model, names, k, inner, props);
  }

  lemma {:induction false} HandlerAt(b: Body, model: Model, names: seq<string>, k: nat, inner: Body, props: Props)
    requires Lists(names, model) && Inside(Entries(Render(b), 0), Render(b)) && k < |b.pieces|
    requires Tidy(inner) && b.pieces[k].value == "{" + Render(inner) + "}" &&
      Inside(Entries(Render(inner), 0), Render(inner))
    requires var key := b.pieces[k].key; props == if key in model && First(b.pieces, k) then model[key] else map[]
    ensures var after := PatchedBlock(b, model, names).pieces;
      k < |after| && after[k].value == "{" + Render(MergedBody(inner, props)) + "}"
  {
    var text, entries := Render(b), Entries(Render(b), 0);
    PatchedValueAt(b, names, HandlerPlan(model), Additions(entries, model, names), LayoutOf(text, entries), k);
    BareHandler(inner, model, b.pieces[k].key, First(b.pieces, k), props);
  }

  /** What the plan makes of a bare handler, the first of its name or a later one. */
  lemma {:induction false} BareHandler(inner: Body, model: Model, key: string, first: bool, props: Props)
    requires Tidy(inner) && Inside(Entries(Render(inner), 0), Render(inner))
    requires props == if key in model && first then model[key] else map[]
    ensures var v := "{" + Render(inner) + "}"; var c := HandlerPlan(model)(key, Some(v));
      (if first && key in model && c.Put? then c.text else v) == "{" + Render(MergedBody(inner, props)) + "}"
  {
    var h := Handler(inner, "");
    assert h.Text() == "{" + Render(inner) + "}";
    if first { KeptOrMerged(h, model, key); } else { MergedText(h, key, map[]); }
  }

  /** A property that is not submitted, a handler function for one, keeps its text. */
  lemma {:induction false} UnsubmittedKept(inner: Body, props: Props)
    requires Inside(Entries(Render(inner), 0), Render(inner))
    ensures |inner.pieces| <= |MergedBody(inner, props).pieces|
    ensures forall i :: 0 <= i < |inner.pieces| && inner.pieces[i].key !in Renderable(props) ==>
      MergedBody(inner, props).pieces[i].value == inner.pieces[i].value
  {
    var text, entries := Render(inner), Entries(Render(inner), 0);
    forall i | 0 <= i < |inner.pieces|
      ensures i < |MergedBody(inner, props).pieces|
      ensures inner.pieces[i].key !in Renderable(props) ==>
        MergedBody(inner, props).pieces[i].value == inner.pieces[i].value
    {
      PatchedValueAt(inner, PROPERTIES, PropertyPlan(props), MissingProps(inner, props), LayoutOf(text, entries), i);
    }
  }

  /** The value of a bare handler after the patch. */
  lemma {:induction false} KeptOrMerged(h: Handler, model: Model, name: string)
    requires Tidy(h.inner) && h.after == "" && Inside(Entries(Render(h.inner), 0), Render(h.inner))
    ensures var c := HandlerPlan(model)(name, Some(h.Text()));
      (if name in model && c.Put? then c.text else h.Text()) ==
        "{" + Render(MergedBody(h.inner, if name in model then model[name] else map[])) + "}"
  {
    MergedText(h, name, if name in model then model[name] else map[]);
  }

  lemma {:induction false} PatchedValueAt(b: Body, names: seq<string>, plan: Plan, missing: seq<Literal>,
      layout: Layout, k: nat)
    requires k < |b.pieces|
    ensures var p := b.pieces[k]; var c := plan(p.key, Some(p.value));
      var after := PatchedBody(b, names, plan, missing, layout).pieces;
      k < |after| && after[k].value == if First(b.pieces, k) && p.key in names && c.Put? then c.text else p.value
  {
    var cs := Changes(b.pieces, Members(names), plan);
    ReplacedAt(b.pieces, cs, k);
    ChangesAt(b.pieces, Members(names), plan, k);
    ExtendKeeps(Body(Replaced(b.pieces, cs), b.trailing), missing, layout, k);
  }

  lemma {:induction false} ExtendKeeps(b: Body, ls: seq<Literal>, l: Layout, k: nat)
    requires k < |b.pieces|
    ensures k < |Extend(b, ls, l).pieces| && Extend(b, ls, l).pieces[k].value == b.pieces[k].value
  {}

  /** The text of a bare handler after its merge, changed or not. */
  lemma {:induction false} MergedText(h: Handler, name: string, props: Props)
    requires Tidy(h.inner) && h.after == "" && Inside(Entries(Render(h.inner), 0), Render(h.inner))
    ensures Merge(name, h.Text(), props).0 == "{" + Render(MergedBody(h.inner, props)) + "}"
    ensures !Merge(name, h.Text(), props).1 ==> Merge(name, h.Text(), props).0 == h.Text()
    ensures props == map[] ==> !Merge(name, h.Text(), props).1
  {
    HandlerBody(h);
    MergeEditsLaw(h.inner, props);
    assert h.Text() == "{" + Render(h.inner) + "}";
    if MergeEdits(Render(h.inner), props) == [] {
      NoEditSame(h.inner, PROPERTIES, PropertyPlan(props), MissingProps(h.inner, props));
    }
    if props == map[] {
      Satisfied(h, name, props);
    }
  }

  /** A patched block is a tidy block again, and none of its names or properties has become
      ambiguous, so any number of patches may follow. */
  lemma {:induction false} PatchedBlockTidy(b: Body, model: Model, names: seq<string>)
    requires TidyBlock(b) && Lists(names, model) && Writable(b, names)
    ensures Inside(Entries(Render(b), 0), Render(b)) && TidyBlock(PatchedBlock(b, model, names))
    ensures Unambiguous(b) ==> Unambiguous(PatchedBlock(b, model, names))
  {
    PatchLaw(b, model, names);
    var c := PatchedBlock(b, model, names);
    forall p | p in c.pieces ensures IsHandler(p.value) && (Unambiguous(b) ==> IsClear(p.value)) {
      var k :| 0 <= k < |c.pieces| && c.pieces[k] == p;
      var g := PatchedHandler(b, model, names, k);
      ClearIff(g);
    }
  }

  lemma {:induction false} PatchedHandler(b: Body, model: Model, names: seq<string>, k: nat) returns (g: Handler)
    requires TidyBlock(b) && Lists(names, model) && Inside(Entries(Render(b), 0), Render(b))
    requires AreNew(Additions(Entries(Render(b), 0), model, names), b) && k < |PatchedBlock(b, model, names).pieces|
    ensures Tidy(g.inner) && PatchedBlock(b, model, names).pieces[k].value == g.Text()
    ensures Unambiguous(b) ==> SaysOnce(g.inner.pieces)
  {
    var text, entries, after := Render(b), Entries(Render(b), 0), PatchedBlock(b, model, names).pieces;
    if First(after, k) {
      ValueOfAt(after, k);
      PatchedValues(b, names, HandlerPlan(model), Additions(entries, model, names), LayoutOf(text, entries),
        after[k].key);
      if ValueOf(b.pieces, after[k].key).Some? {
        g := MergedHandler(b, model, after[k].key);
      } else {
        g := AddedHandler(b, text, entries, model, names, after[k].key);
      }
    } else {
      var i :| 0 <= i < k && after[i].key == after[k].key;
      PatchedTwice(b, names, HandlerPlan(model), Additions(entries, model, names), LayoutOf(text, entries), i, k);
      assert b.pieces[k] in b.pieces;
      g :| Tidy(g.inner) && b.pieces[k].value == g.Text();
    }
  }

  lemma {:induction false} MergedHandler(b: Body, model: Model, name: string) returns (g: Handler)
    requires TidyBlock(b) && ValueOf(b.pieces, name).Some?
    ensures var v := ValueOf(b.pieces, name).value; var c := HandlerPlan(model)(name, Some(v));
      Tidy(g.inner) && g.Text() == if name in model && c.Put? then c.text else v
    ensures Unambiguous(b) ==> SaysOnce(g.inner.pieces)
  {
    var h := HandlerOf(b, name);
    g := h;
    if name in model && HandlerPlan(model)(name, Some(h.Text())).Put? {
      HandlerBody(h);
      MergeEditsLaw(h.inner, model[name]);
      MergedTidy(h.inner, model[name]);
      if SaysOnce(h.inner.pieces) { MergedSaysOnce(h.inner, model[name]); }
      g := Handler(MergedBody(h.inner, model[name]), "");
      assert g.Text() == "{" + Render(g.inner) + "}";
    }
  }

  lemma {:induction false} AddedHandler(b: Body, text: string, entries: seq<Entry>, model: Model, names: seq<string>,
      name: string) returns (g: Handler)
    requires Tidy(b) && text == Render(b) && entries == Entries(text, 0)
    requires Lists(names, model) && ValueOf(b.pieces, name).None? &&
      LiteralOf(Additions(entries, model, names), name).Some?
    ensures Regular(g.inner) && Some(g.Text()) == LiteralOf(Additions(entries, model, names), name)
  {
    ScanOf(b);
    ScannedKeys(b, text, entries);
    CurrentIsValue(b, text, entries, name);
    AdditionOf(entries, model, names, name);
    var props := if name in model && Renderable(model[name]) != map[] then model[name] else DEFAULT_CONSOLE;
    DefaultRendered();
    PartsEmpty(props);
    g := RenderedHandler(props);
  }

  lemma {:induction false} RenderedHandler(props: Props) returns (g: Handler)
    requires Parts(props) != []
    ensures Regular(g.inner) && g.Text() == Rendered(props)
  {
    RenderedIs(props);
    g := Handler(RenderedBody(props), "");
    assert g.Text() == "{" + Render(g.inner) + "}";
  }

  // ---------- The whole entry ----------

  /** The body of the block in an entry. */
  function BodyIn(entry: string): Option<string> {
    match BlockSpan(entry)
    case None => None
    case Some((start, end)) => Some(entry[start + 1..end])
  }

  /** The model the block in this text says. */
  function ParseBlock(entry: string): Model {
    match BodyIn(entry)
    case None => map[]
    case Some(body) => ParseBody(body)
  }

  /** The entry with another body. */
  function WithBody(entry: string, body: string): string {
    match BlockSpan(entry)
    case None => entry
    case Some((start, end)) => entry[..start + 1] + body + entry[end..]
  }

  method PatchLoggingEntry(entry: string, model: Model, names: seq<string>) returns (patched: string, changed: bool)
    requires BodyIn(entry).Some? ==> PatchSafe(BodyIn(entry).value, model, names)
    requires forall name :: name in names ==> name in model
    ensures BodyIn(entry).None? ==> patched == entry && !changed
    ensures BodyIn(entry).Some? ==> (changed <==> PatchEdits(BodyIn(entry).value, model, names) != [])
    ensures changed ==> patched == WithBody(entry, PatchBody(BodyIn(entry).value, model, names))
    ensures !changed ==> patched == entry
  {
    var body := BodyIn(entry);
    if body.None? { return entry, false; }
    patched, changed := PatchLoggingBody(body.value, model, names);
    if !changed { return entry, false; }
    patched := WithBody(entry, patched);
  }

  lemma {:induction false} FirstBrace(head: string, rest: string, i: nat)
    requires i <= |head| && '{' !in head
    ensures IndexOf(head + "{" + rest, '{', i) == |head|
    decreases |head| - i
  {
    if i < |head| {
      assert head[i] in head;
      FirstBrace(head, rest, i + 1);
    }
  }

  /** Where the block is in an entry. */
  lemma {:induction false} BlockFound(head: string, body: string, rest: string)
    requires '{' !in head && Balanced(body)
    ensures var entry := head + "{" + body + "}" + rest;
      BlockSpan(entry) == Some((|head|, |head| + 1 + |body|)) && BodyIn(entry) == Some(body)
  {
    var entry := head + "{" + body + "}" + rest;
    assert entry == head + "{" + (body + "}" + rest);
    FirstBrace(head, body + "}" + rest, 0);
    HasMiddle(head, "{" + body + "}", rest);
    assert head + ("{" + body + "}") + rest == entry;
    MatchAround(entry, |head|, body);
    assert entry[|head| + 1..|head| + 1 + |body|] == body;
  }

  /** Changing the body of an entry changes nothing around it, and the new body is found again. */
  lemma {:induction false} BodyChanged(head: string, body: string, rest: string, put: string)
    requires '{' !in head && Balanced(body) && Balanced(put)
    ensures var entry := head + "{" + body + "}" + rest;
      WithBody(entry, put) == head + "{" + put + "}" + rest && BodyIn(WithBody(entry, put)) == Some(put)
  {
    var entry := head + "{" + body + "}" + rest;
    BlockFound(head, body, rest);
    BlockFound(head, put, rest);
    assert entry[..|head| + 1] == head + "{" && entry[|head| + 1 + |body|..] == "}" + rest;
    assert head + "{" + put + ("}" + rest) == head + "{" + put + "}" + rest;
  }

  /** The law for a whole `logging: { ... }` entry. */
  lemma {:induction false} PatchEntryThenParse(head: string, b: Body, rest: string, model: Model, names: seq<string>,
      name: string)
    requires TidyBlock(b) && Unambiguous(b) && Lists(names, model) && Writable(b, names) && '{' !in head
    ensures PatchSafe(Render(b), model, names)
    ensures var entry := head + "{" + Render(b) + "}" + rest;
      var patched := WithBody(entry, PatchBody(Render(b), model, names));
      && BodyIn(entry) == Some(Render(b))
      && Lookup(ParseBlock(patched), name) ==
        Expected(Lookup(ParseBlock(entry), name), Lookup(model, name), name == "console")
  {
    PatchThenParse(b, model, names, name);
    PatchedBalanced(b, model, names);
    BlockFound(head, Render(b), rest);
    BodyChanged(head, Render(b), rest, PatchBody(Render(b), model, names));
  }

  lemma {:induction false} PatchedBalanced(b: Body, model: Model, names: seq<string>)
    requires TidyBlock(b) && Lists(names, model) && Writable(b, names)
    ensures PatchSafe(Render(b), model, names) && Balanced(Render(b)) && Balanced(PatchBody(Render(b), model, names))
  {
    PatchLaw(b, model, names);
    BodyPasses(b);
    BodyPasses(PatchedBlock(b, model, names));
  }
}
