/** Where the law of patching and parsing a logging block ends (internal/service/logging.go): the
    patch looks at the first entry of a name and the parser at the last. */
module LoggingLimits {
  import opened Wrappers
  import opened JsScan
  import opened JsBraces
  import opened JsObject
  import opened JsEdit
  import opened JsInsert
  import opened JsPatch
  import opened JsNested
  import opened LoggingModel
  import opened LoggingPatch

  // ---------- Parsing looks at the last entry of a name ----------

  lemma {:induction false} ParseEntriesLast(body: string, es: seq<Entry>, k: nat)
    requires k < |es| && forall m :: k < m < |es| ==> es[m].key != es[k].key
    ensures Lookup(ParseEntries(body, es), es[k].key) == Some(ParseHandler(SpanOf(body, es[k])))
    decreases |es|
  {
    if k < |es| - 1 { ParseEntriesLast(body, es[..|es| - 1], k); }
  }

  lemma {:induction false} ParsePropsLast(body: string, es: seq<Entry>, k: nat)
    requires k < |es| && ReadProperty(es[k].key, SpanOf(body, es[k])).Some?
    requires forall m :: k < m < |es| && es[m].key == es[k].key ==> ReadProperty(es[m].key, SpanOf(body, es[m])) == None
    ensures Lookup(ParseProps(body, es), es[k].key) == ReadProperty(es[k].key, SpanOf(body, es[k]))
    decreases |es|
  {
    if k < |es| - 1 { ParsePropsLast(body, es[..|es| - 1], k); }
  }

  /** No later entry has the key of this one. */
  predicate Last(ps: seq<Piece>, k: nat)
    requires k < |ps|
  {
    forall m :: k < m < |ps| ==> ps[m].key != ps[k].key
  }

  /** This entry can be read, and no later one of its key can. */
  predicate LastRead(ps: seq<Piece>, k: nat)
    requires k < |ps|
  {
    && ReadProperty(ps[k].key, ps[k].value).Some?
    && forall m :: k < m < |ps| && ps[m].key == ps[k].key ==> ReadProperty(ps[m].key, ps[m].value) == None
  }

  lemma {:induction false} HandlerParsedLast(b: Body, k: nat)
    requires Tidy(b) && k < |b.pieces| && Last(b.pieces, k)
    ensures Lookup(ParseBody(Render(b)), b.pieces[k].key) == Some(ParseHandler(b.pieces[k].value))
  {
    var es := Entries(Render(b), 0);
    SpanIsValue(b, k);
    forall m | k < m < |es| ensures es[m].key != es[k].key { SpanIsValue(b, m); }
    ParseEntriesLast(Render(b), es, k);
  }

  lemma {:induction false} PropertyParsedLast(b: Body, k: nat)
    requires Tidy(b) && k < |b.pieces| && LastRead(b.pieces, k)
    ensures Lookup(ParseProps(Render(b), Entries(Render(b), 0)), b.pieces[k].key) ==
      ReadProperty(b.pieces[k].key, b.pieces[k].value)
  {
    var text, es := Render(b), Entries(Render(b), 0);
    SpanIsValue(b, k);
    forall m | k < m < |es| && es[m].key == es[k].key ensures ReadProperty(es[m].key, SpanOf(text, es[m])) == None {
      SpanIsValue(b, m);
    }
    ParsePropsLast(text, es, k);
  }

  lemma {:induction false} LastFrom(ps: seq<Piece>, j: nat) returns (k: nat)
    requires j < |ps|
    ensures j <= k < |ps| && ps[k].key == ps[j].key && Last(ps, k)
    decreases |ps| - j
  {
    if Last(ps, j) {
      k := j;
    } else {
      var m :| j < m < |ps| && ps[m].key == ps[j].key;
      k := LastFrom(ps, m);
    }
  }

  lemma {:induction false} LastReadFrom(ps: seq<Piece>, j: nat) returns (k: nat)
    requires j < |ps| && ReadProperty(ps[j].key, ps[j].value).Some?
    ensures j <= k < |ps| && ps[k].key == ps[j].key && LastRead(ps, k)
    decreases |ps| - j
  {
    if LastRead(ps, j) {
      k := j;
    } else {
      var m :| j < m < |ps| && ps[m].key == ps[j].key && ReadProperty(ps[m].key, ps[m].value) != None;
      k := LastReadFrom(ps, m);
    }
  }

  // ---------- A patch does not reach a later entry ----------

  /** An entry behind another of its name stands after the patch as it was. */
  lemma {:induction false} LaterKept(b: Body, names: seq<string>, plan: Plan, missing: seq<Literal>, layout: Layout,
      k: nat)
    requires k < |b.pieces| && !First(b.pieces, k)
    ensures var after := PatchedBody(b, names, plan, missing, layout).pieces;
      k < |after| && after[k].key == b.pieces[k].key && after[k].value == b.pieces[k].value
  {
    PatchedValueAt(b, names, plan, missing, layout, k);
    PatchedKeyAt(b, names, plan, missing, layout, k);
  }

  lemma {:induction false} LastStays(b: Body, names: seq<string>, plan: Plan, missing: seq<Literal>, layout: Layout,
      k: nat)
    requires AreNew(missing, b) && k < |b.pieces| && Last(b.pieces, k) && !First(b.pieces, k)
    ensures var after := PatchedBody(b, names, plan, missing, layout).pieces; k < |after| && Last(after, k)
  {
    var after := PatchedBody(b, names, plan, missing, layout).pieces;
    LaterKept(b, names, plan, missing, layout, k);
    forall m | k < m < |after| ensures after[m].key != after[k].key {
      if after[m].key == after[k].key { PatchedTwice(b, names, plan, missing, layout, k, m); }
    }
  }

  lemma {:induction false} LastReadStays(b: Body, names: seq<string>, plan: Plan, missing: seq<Literal>,
      layout: Layout, k: nat)
    requires AreNew(missing, b) && k < |b.pieces| && LastRead(b.pieces, k) && !First(b.pieces, k)
    ensures var after := PatchedBody(b, names, plan, missing, layout).pieces; k < |after| && LastRead(after, k)
  {
    var after := PatchedBody(b, names, plan, missing, layout).pieces;
    LaterKept(b, names, plan, missing, layout, k);
    forall m | k < m < |after| && after[m].key == after[k].key
      ensures ReadProperty(after[m].key, after[m].value) == None
    {
      PatchedTwice(b, names, plan, missing, layout, k, m);
    }
  }

  /** Whatever is submitted for a handler that stands in the block twice, the block says of it what
      it said before. */
  lemma {:induction false} RepeatedHandlerUnheard(b: Body, model: Model, names: seq<string>, i: nat, j: nat)
    requires TidyBlock(b) && Lists(names, model) && Writable(b, names)
    requires i < j < |b.pieces| && b.pieces[i].key == b.pieces[j].key
    ensures PatchSafe(Render(b), model, names) && Lookup(ParseBody(Render(b)), b.pieces[j].key).Some?
    ensures Lookup(ParseBody(PatchBody(Render(b), model, names)), b.pieces[j].key) ==
      Lookup(ParseBody(Render(b)), b.pieces[j].key)
  {
    var text, entries := Render(b), Entries(Render(b), 0);
    PatchLaw(b, model, names);
    var k := LastFrom(b.pieces, j);
    assert b.pieces[i].key == b.pieces[k].key;
    LaterKept(b, names, HandlerPlan(model), Additions(entries, model, names), LayoutOf(text, entries), k);
    LastStays(b, names, HandlerPlan(model), Additions(entries, model, names), LayoutOf(text, entries), k);
    HandlerParsedLast(b, k);
    HandlerParsedLast(PatchedBlock(b, model, names), k);
  }

  /** Whatever is submitted for a property that a handler says again further on, the handler says of
      it what it said before. */
  lemma {:induction false} RepeatedPropertyUnheard(h: Handler, name: string, props: Props, i: nat, j: nat)
    requires Tidy(h.inner) && i < j < |h.inner.pieces| && h.inner.pieces[i].key == h.inner.pieces[j].key
    requires ReadProperty(h.inner.pieces[j].key, h.inner.pieces[j].value).Some?
    ensures var p := h.inner.pieces[j].key;
      && Lookup(ParseHandler(h.Text()), p).Some?
      && Lookup(ParseHandler(Merge(name, h.Text(), props).0), p) == Lookup(ParseHandler(h.Text()), p)
  {
    var b := h.inner;
    var k := LastReadFrom(b.pieces, j);
    assert b.pieces[i].key == b.pieces[k].key;
    HandlerBody(h);
    PropertyParsedLast(b, k);
    MergeEditsLaw(b, props);
    MergedPropertyLast(b, props, k);
    MergedParsed(h, name, props);
  }

  /** What a handler says after a merge is what its merged body says. */
  lemma {:induction false} MergedParsed(h: Handler, name: string, props: Props)
    requires Tidy(h.inner) && Inside(Entries(Render(h.inner), 0), Render(h.inner))
    ensures var r, after := Merge(name, h.Text(), props), Render(MergedBody(h.inner, props));
      ParseHandler(r.0) == if r.1 then ParseProps(after, Entries(after, 0)) else ParseHandler(h.Text())
  {
    MergedAs(h, name, props);
    MergedTidy(h.inner, props);
    HandlerBody(Handler(MergedBody(h.inner, props), ""));
  }

  lemma {:induction false} MergedAs(h: Handler, name: string, props: Props)
    requires Tidy(h.inner) && Inside(Entries(Render(h.inner), 0), Render(h.inner))
    ensures var r := Merge(name, h.Text(), props);
      r.0 == if r.1 then Handler(MergedBody(h.inner, props), "").Text() else h.Text()
  {
    HandlerBody(h);
    MergeEditsLaw(h.inner, props);
    var merged := Handler(MergedBody(h.inner, props), "");
    assert merged.Text() == "{" + Render(merged.inner) + "}";
  }

  lemma {:induction false} MergedPropertyLast(b: Body, props: Props, k: nat)
    requires Tidy(b) && Inside(Entries(Render(b), 0), Render(b)) && k < |b.pieces| && LastRead(b.pieces, k) &&
      !First(b.pieces, k)
    ensures var after := Render(MergedBody(b, props));
      Lookup(ParseProps(after, Entries(after, 0)), b.pieces[k].key) == ReadProperty(b.pieces[k].key, b.pieces[k].value)
  {
    var missing, layout := MissingProps(b, props), LayoutOf(Render(b), Entries(Render(b), 0));
    MissingPropsNew(b, props);
    LaterKept(b, PROPERTIES, PropertyPlan(props), missing, layout, k);
    LastReadStays(b, PROPERTIES, PropertyPlan(props), missing, layout, k);
    MergedTidy(b, props);
    PropertyParsedLast(MergedBody(b, props), k);
  }

  // ---------- The exact law ----------

  /** Parsing the patched block gives for this name what it should say. */
  predicate Obeys(b: Body, model: Model, names: seq<string>, name: string) {
    && PatchSafe(Render(b), model, names)
    && Lookup(ParseBody(PatchBody(Render(b), model, names)), name) ==
        Expected(Lookup(ParseBody(Render(b)), name), Lookup(model, name), name == "console")
  }

  ghost predicate AlwaysObeys(b: Body) {
    forall model, names, name :: Lists(names, model) && Writable(b, names) ==> Obeys(b, model, names, name)
  }

  /** A value for a property that the property does not have yet. */
  function Contrary(property: string, current: Option<Value>): (v: Value)
    ensures current != Some(v)
    ensures property in PROPERTIES ==> LiteralText(property, v).Some?
  {
    assert PROPERTIES == ["level", "metrics", "audit"];
    if property == "level" then Str(if current == Some(Str("info")) then "debug" else "info")
    else Flag(current != Some(Flag(true)))
  }

  /** A submission of one property of one handler. */
  function One(name: string, property: string, v: Value): Model { map[name := map[property := v]] }

  /** The law fails where the patch does not change a property that is submitted anew. */
  lemma {:induction false} Unheard(b: Body, name: string, property: string, v: Value)
    requires PatchSafe(Render(b), One(name, property, v), [name]) && LiteralText(property, v).Some?
    requires var before := Lookup(ParseBody(Render(b)), name);
      var after := Lookup(ParseBody(PatchBody(Render(b), One(name, property, v), [name])), name);
      before.Some? && after.Some? && Lookup(after.value, property) == Lookup(before.value, property) != Some(v)
    ensures !Obeys(b, One(name, property, v), [name], name)
  {
    var before := Lookup(ParseBody(Render(b)), name);
    assert Lookup(before.value + Renderable(map[property := v]), property) == Some(v);
  }

  lemma {:induction false} OneLists(b: Body, name: string, property: string, v: Value)
    requires ValueOf(b.pieces, name).Some?
    ensures Lists([name], One(name, property, v)) && Writable(b, [name]) && One(name, property, v)[name] != map[]
  {
    assert property in One(name, property, v)[name];
  }

  lemma {:induction false} KeyHasValue(ps: seq<Piece>, k: nat)
    requires k < |ps|
    ensures ValueOf(ps, ps[k].key).Some?
    decreases k
  {
    if k > 0 { KeyHasValue(ps[1..], k - 1); }
  }

  lemma {:induction false} RepeatedHandlerFails(b: Body, i: nat, j: nat)
    requires TidyBlock(b) && i < j < |b.pieces| && b.pieces[i].key == b.pieces[j].key
    ensures !AlwaysObeys(b)
  {
    var name := b.pieces[j].key;
    KeyHasValue(b.pieces, j);
    var before := Lookup(ParseBody(Render(b)), name);
    var v := Contrary("level", if before.Some? then Lookup(before.value, "level") else None);
    assert PROPERTIES[0] == "level";
    OneLists(b, name, "level", v);
    RepeatedHandlerUnheard(b, One(name, "level", v), [name], i, j);
    Unheard(b, name, "level", v);
  }

  lemma {:induction false} RepeatedPropertyFails(b: Body, k: nat)
    requires TidyBlock(b) && DistinctKeys(b.pieces) && k < |b.pieces| && !IsClear(b.pieces[k].value)
    ensures !AlwaysObeys(b)
  {
    assert b.pieces[k] in b.pieces;
    var h: Handler :| Tidy(h.inner) && b.pieces[k].value == h.Text();
    var i, j := SaidAgain(h);
    SaidAgainFails(b, h, k, i, j);
  }

  lemma {:induction false} SaidAgain(h: Handler) returns (i: nat, j: nat)
    requires Tidy(h.inner) && !IsClear(h.Text())
    ensures i < j < |h.inner.pieces| && h.inner.pieces[i].key == h.inner.pieces[j].key
    ensures ReadProperty(h.inner.pieces[j].key, h.inner.pieces[j].value).Some?
  {
    ClearIff(h);
    var ps := h.inner.pieces;
    i, j :| 0 <= i < j < |ps| && ps[i].key == ps[j].key && ReadProperty(ps[j].key, ps[j].value) != None;
  }

  lemma {:induction false} SaidAgainFails(b: Body, h: Handler, k: nat, i: nat, j: nat)
    requires TidyBlock(b) && DistinctKeys(b.pieces) && k < |b.pieces| && Tidy(h.inner) && b.pieces[k].value == h.Text()
    requires i < j < |h.inner.pieces| && h.inner.pieces[i].key == h.inner.pieces[j].key
    requires ReadProperty(h.inner.pieces[j].key, h.inner.pieces[j].value).Some?
    ensures !AlwaysObeys(b)
  {
    var name, property := b.pieces[k].key, h.inner.pieces[j].key;
    var v := Contrary(property, Lookup(ParseHandler(h.Text()), property));
    if property !in PROPERTIES { OnlyProperties(property, h.inner.pieces[j].value); }
    KeyHasValue(b.pieces, k);
    OneLists(b, name, property, v);
    HandlerUnheard(b, h, k, i, j, One(name, property, v));
    Unheard(b, name, property, v);
  }

  /** What the block says of a handler after a submission is what its merged value says. */
  lemma {:induction false} HandlerAfter(b: Body, h: Handler, k: nat, model: Model)
    requires TidyBlock(b) && DistinctKeys(b.pieces) && k < |b.pieces| && Tidy(h.inner) && b.pieces[k].value == h.Text()
    requires b.pieces[k].key in model && Lists([b.pieces[k].key], model) && Writable(b, [b.pieces[k].key])
    ensures var name := b.pieces[k].key;
      && PatchSafe(Render(b), model, [name])
      && Lookup(ParseBody(Render(b)), name) == Some(ParseHandler(h.Text()))
      && Lookup(ParseBody(PatchBody(Render(b), model, [name])), name) == Some(ParseHandler(Merged(h, name, model)))
  {
    var name, text, entries := b.pieces[k].key, Render(b), Entries(Render(b), 0);
    ValueOfAt(b.pieces, k);
    PatchLaw(b, model, [name]);
    BodyParsed(b, name);
    BodyParsed(PatchedBlock(b, model, [name]), name);
    PatchedValues(b, [name], HandlerPlan(model), Additions(entries, model, [name]), LayoutOf(text, entries), name);
  }

  /** The value of a handler after the patch. */
  function Merged(h: Handler, name: string, model: Model): string {
    var c := HandlerPlan(model)(name, Some(h.Text())); if c.Put? then c.text else h.Text()
  }

  lemma {:induction false} MergedIs(h: Handler, name: string, model: Model)
    requires name in model && model[name] != map[]
    ensures Merged(h, name, model) == Merge(name, h.Text(), model[name]).0
  {
    PlanMerges(h.Text(), model, name);
  }

  lemma {:induction false} HandlerUnheard(b: Body, h: Handler, k: nat, i: nat, j: nat, model: Model)
    requires TidyBlock(b) && DistinctKeys(b.pieces) && k < |b.pieces| && Tidy(h.inner) && b.pieces[k].value == h.Text()
    requires i < j < |h.inner.pieces| && h.inner.pieces[i].key == h.inner.pieces[j].key
    requires ReadProperty(h.inner.pieces[j].key, h.inner.pieces[j].value).Some?
    requires var name := b.pieces[k].key;
      name in model && model[name] != map[] && Lists([name], model) && Writable(b, [name])
    ensures var name, property := b.pieces[k].key, h.inner.pieces[j].key;
      && PatchSafe(Render(b), model, [name])
      && Lookup(ParseBody(Render(b)), name) == Some(ParseHandler(h.Text()))
      && var after := Lookup(ParseBody(PatchBody(Render(b), model, [name])), name);
         after.Some? && Lookup(after.value, property) == Lookup(ParseHandler(h.Text()), property)
  {
    var name := b.pieces[k].key;
    HandlerAfter(b, h, k, model);
    MergedIs(h, name, model);
    RepeatedPropertyUnheard(h, name, model[name], i, j);
  }

  lemma {:induction false} UnambiguousObeys(b: Body)
    requires TidyBlock(b) && Unambiguous(b)
    ensures AlwaysObeys(b)
  {
    forall model, names, name | Lists(names, model) && Writable(b, names) ensures Obeys(b, model, names, name) {
      PatchThenParse(b, model, names, name);
    }
  }

  /** Over all tidy blocks, repeated names or not: the law holds for every submission and every name
      if and only if no handler stands in the block twice and no handler says a property again
      further on. */
  lemma {:induction false} PatchThenParseIff(b: Body)
    requires TidyBlock(b)
    ensures AlwaysObeys(b) <==> Unambiguous(b)
  {
    if Unambiguous(b) {
      UnambiguousObeys(b);
    } else if DistinctKeys(b.pieces) {
      var p :| p in b.pieces && !IsClear(p.value);
      var k :| 0 <= k < |b.pieces| && b.pieces[k] == p;
      RepeatedPropertyFails(b, k);
    } else {
      var i, j :| 0 <= i < j < |b.pieces| && b.pieces[i].key == b.pieces[j].key;
      RepeatedHandlerFails(b, i, j);
    }
  }

  const TWICE := Body(
    [Piece("", "console", "", " ", "{}", "", true), Piece(" ", "console", "", " ", "{}", "", false)], "")

  lemma {:induction false} BraceIsHandler()
    ensures IsHandler("{}") && IsValue("{}") && Balanced("{}") && ParseHandler("{}") == map[]
  {
    EmptyRegular();
    EmptyHandler(Body([], ""));
    assert "{" + "" + "}" == "{}";
  }

  lemma {:induction false} EmptyHandler(b: Body)
    requires Tidy(b) && b.pieces == []
    ensures var v := "{" + b.trailing + "}"; IsHandler(v) && IsValue(v) && Balanced(v) && ParseHandler(v) == map[]
  {
    ObjectIsValue(b);
    var h := Handler(b, "");
    assert h.Text() == "{" + b.trailing + "}" && Render(b) == b.trailing;
    HandlerBody(h);
    assert PropsOf([]) == map[];
  }

  lemma {:induction false} TwiceIsTidy()
    ensures TidyBlock(TWICE)
  {
    BraceIsHandler();
    EmptyPiece("", true);
    EmptyPiece(" ", false);
  }

  lemma {:induction false} EmptyPiece(gap: string, comma: bool)
    requires AllSpaces(gap)
    ensures RegularPiece(Piece(gap, "console", "", " ", "{}", "", comma))
  {
    BraceIsHandler();
    SpacesClean(gap);
    SpacesClean("");
    SpacesClean(" ");
    ConsoleIsIdentifier();
  }

  lemma {:induction false} LevelUnheard(b: Body)
    requires TidyBlock(b) && |b.pieces| == 2 && b.pieces[0].key == b.pieces[1].key == "console" &&
      b.pieces[1].value == "{}"
    ensures var text, model := Render(b), One("console", "level", Str("debug"));
      && PatchSafe(text, model, ["console"])
      && Lookup(ParseBody(text), "console") == Some(map[])
      && Lookup(ParseBody(PatchBody(text, model, ["console"])), "console") == Some(map[])
  {
    var model := One("console", "level", Str("debug"));
    KeyHasValue(b.pieces, 1);
    OneLists(b, "console", "level", Str("debug"));
    RepeatedHandlerUnheard(b, model, ["console"], 0, 1);
    BraceIsHandler();
    HandlerParsedLast(b, 1);
  }

  /** A level submitted for a console that stands twice is not what is read back. */
  lemma {:induction false} LevelOfRepeatedConsole()
    ensures var text, model := Render(TWICE), One("console", "level", Str("debug"));
      && text == "console: {}, console: {}" && PatchSafe(text, model, ["console"])
      && Lookup(ParseBody(PatchBody(text, model, ["console"])), "console") == Some(map[])
      && Expected(Lookup(ParseBody(text), "console"), Lookup(model, "console"), true) ==
        Some(map["level" := Str("debug")])
  {
    var b :| b == TWICE;
    TwiceIsTidy();
    TwiceText();
    LevelUnheard(b);
    LevelExpected();
  }

  lemma {:induction false} LevelExpected()
    ensures Expected(Some(map[]), Some(map["level" := Str("debug")]), true) == Some(map["level" := Str("debug")])
  {
    var none: Props, props: Props := map[], map["level" := Str("debug")];
    assert Renderable(props) == props && none + props == props;
  }

  lemma {:induction false} TwiceText()
    ensures Render(TWICE) == "console: {}, console: {}"
  {
    var ps := TWICE.pieces;
    assert ps[0].Text() == "console: {},";
    assert ps[1].Text() == " console: {}";
    assert ps[1..] == [ps[1]] && ps[1..][1..] == [];
    assert Texts(ps) == ps[0].Text() + (ps[1].Text() + "");
  }
}
