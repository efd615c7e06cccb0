/** The properties of a logging handler: how they are rendered, read back and merged into the
    text of an existing handler (internal/service/logging.go). */
module LoggingModel {
  import opened Wrappers
  import opened JsScan
  import opened JsString
  import opened JsBraces
  import opened JsObject
  import opened JsInsert
  import opened JsPatch

  /** A property value of the submitted model. */
  datatype Value = Str(text: string) | Flag(on: bool) | Other

  type Props = map<string, Value>

  /** The properties that are rendered, in this order. */
  const PROPERTIES: seq<string> := ["level", "metrics", "audit"]

  /** Which submitted values are taken: any level but the empty one, and any flag. */
  predicate IsRenderable(property: string, value: Value) {
    || (property == "level" && value.Str? && value.text != "")
    || (property in ["metrics", "audit"] && value.Flag?)
  }

  /** A property as a literal, unless it is of the wrong type, empty or not modelled. */
  function LiteralText(property: string, value: Value): (r: Option<string>)
    ensures r.Some? <==> IsRenderable(property, value)
  {
    if property == "level" then (if value.Str? && value.text != "" then Some(Quoted(value.text)) else None)
    else if property == "metrics" || property == "audit" then (if value.Flag? then Some(BoolText(value.on)) else None)
    else None
  }

  /** What a literal in the source says, if it can be read. */
  function ReadProperty(property: string, raw: string): Option<Value> {
    if property == "level" then (match ParseString(raw) case Some(t) => Some(Str(t)) case None => None)
    else if property == "metrics" || property == "audit" then
      (match ParseBool(raw) case Some(b) => Some(Flag(b)) case None => None)
    else None
  }

  /** The submitted properties that can be rendered. */
  function Renderable(props: Props): Props {
    map p | p in props && IsRenderable(p, props[p]) :: props[p]
  }

  /** The text that is written: the level as a quoted string, a flag as a word. */
  lemma {:induction false} WrittenLiteral(property: string, value: Value)
    requires IsRenderable(property, value)
    ensures property == "level" ==> LiteralText(property, value) == Some("'" + Escaped(value.text) + "'")
    ensures property != "level" && value.on ==> LiteralText(property, value) == Some("true")
    ensures property != "level" && !value.on ==> LiteralText(property, value) == Some("false")
  {
    assert "level" != "metrics" && "level" != "audit";
  }

  /** A rendered literal reads back as the value. */
  lemma {:induction false} ReadLiteral(property: string, value: Value)
    requires LiteralText(property, value).Some?
    ensures ReadProperty(property, LiteralText(property, value).value) == Some(value) && property in PROPERTIES
  {
    assert PROPERTIES[0] == "level" && PROPERTIES[1] == "metrics" && PROPERTIES[2] == "audit";
    if property == "level" { ParseQuoted(value.text); } else { ParseBoolText(value.on); }
  }

  /** The source already says the submitted value. */
  predicate PropertyEqual(property: string, source: string, value: Value) {
    ReadProperty(property, source) == Some(value)
  }

  // ---------- A literal is a closed value ----------

  lemma {:induction false} EscapeCharText(c: char, depth: nat)
    ensures BraceRun(Text('\'', depth), EscapeChar(c)) == Text('\'', depth)
  {
    var m := Text('\'', depth);
    var e := EscapeChar(c);
    if |e| == 2 {
      assert BraceRun(m, e) == BraceRun(TextEscape('\'', depth), e[1..]) == BraceRun(m, e[1..][1..]);
    } else if |e| == 6 {
      HexPlain(c as nat / 16);
      HexPlain(c as nat % 16);
      assert BraceRun(m, e) == BraceRun(TextEscape('\'', depth), e[1..]) == BraceRun(m, e[1..][1..]);
      assert e[1..][1..] == ['0', '0', e[4], e[5]];
      TextKeeps(['0', '0', e[4], e[5]], depth);
    } else {
      assert e == [c] && BraceRun(m, e) == BraceRun(BraceStep(m, c), e[1..]);
    }
  }

  lemma {:induction false} TextKeeps(s: string, depth: nat)
    requires forall k :: 0 <= k < |s| ==> s[k] != '\\' && s[k] != '\''
    ensures BraceRun(Text('\'', depth), s) == Text('\'', depth)
  {
    if s != [] { TextKeeps(s[1..], depth); }
  }

  lemma {:induction false} EscapedText(s: string, depth: nat)
    ensures BraceRun(Text('\'', depth), Escaped(s)) == Text('\'', depth)
  {
    if s != [] {
      BraceRunAppend(Text('\'', depth), EscapeChar(s[0]), Escaped(s[1..]));
      EscapeCharText(s[0], depth);
      EscapedText(s[1..], depth);
    }
  }

  lemma {:induction false} QuotedBalanced(s: string)
    ensures Balanced(Quoted(s))
  {
    forall depth: nat | depth >= 1 ensures BraceRun(Code(depth), Quoted(s)) == Code(depth) {
      BraceRunAppend(Code(depth), "'" + Escaped(s), "'");
      BraceRunAppend(Code(depth), "'", Escaped(s));
      assert BraceRun(Code(depth), "'") == Text('\'', depth);
      EscapedText(s, depth);
      assert BraceRun(Text('\'', depth), "'") == Code(depth);
    }
  }

  lemma {:induction false} WordIsValue(flag: bool)
    ensures IsValue(BoolText(flag)) && Balanced(BoolText(flag))
  {
    var w := BoolText(flag);
    OrdinaryBalanced(w);
    PlainRun(w);
  }

  lemma {:induction false} PlainRun(s: string)
    requires forall k :: 0 <= k < |s| ==> 'a' <= s[k] <= 'z'
    ensures Run(Plain(0), s) == Plain(0)
  {
    if s != [] { PlainRun(s[1..]); }
  }

  lemma {:induction false} LiteralIsValue(property: string, value: Value)
    requires LiteralText(property, value).Some?
    ensures IsValue(LiteralText(property, value).value) && Balanced(LiteralText(property, value).value)
  {
    if property == "level" {
      QuotedCloses(value.text, 0);
      QuotedBalanced(value.text);
    } else {
      WordIsValue(value.on);
    }
  }

  // ---------- Merging properties into the body of a handler ----------

  /** What becomes of a property: nothing if the source already says it. */
  function PropertyPlan(props: Props): Plan {
    (property, current: Option<string>) =>
      if property !in props || LiteralText(property, props[property]).None? then Keep
      else if current.Some? && PropertyEqual(property, current.value, props[property]) then Keep
      else Put(LiteralText(property, props[property]).value)
  }

  /** The properties a handler with these entries has. */
  function PropsOf(ps: seq<Piece>): Props {
    map p | p in PROPERTIES && ValueOf(ps, p).Some? && ReadProperty(p, ValueOf(ps, p).value).Some?
      :: ReadProperty(p, ValueOf(ps, p).value).value
  }

  lemma {:induction false} PropertiesDistinct()
    ensures Distinct(PROPERTIES)
  {
    assert PROPERTIES[0] == "level" && PROPERTIES[1] == "metrics" && PROPERTIES[2] == "audit";
    assert "level"[0] != "metrics"[0] && "level"[0] != "audit"[0] && "metrics"[0] != "audit"[0];
  }

  function ReadOf(ps: seq<Piece>, property: string): Option<Value> {
    if ValueOf(ps, property).Some? then ReadProperty(property, ValueOf(ps, property).value) else None
  }

  /** The entries that the merge adds, and the body it makes. */
  function MissingProps(b: Body, props: Props): seq<Literal> {
    Missing(Entries(Render(b), 0), PROPERTIES, PropertyPlan(props))
  }

  function MergedBody(b: Body, props: Props): Body
    requires Inside(Entries(Render(b), 0), Render(b))
  {
    PatchedBody(b, PROPERTIES, PropertyPlan(props), MissingProps(b, props), LayoutOf(Render(b), Entries(Render(b), 0)))
  }

  lemma {:induction false} EntriesInside(text: string)
    ensures Inside(Entries(text, 0), text)
  {
    EntriesInOrder(text, 0);
    forall e | e in Entries(text, 0) ensures e.start <= |text| {
      var k :| 0 <= k < |Entries(text, 0)| && Entries(text, 0)[k] == e;
    }
  }

  /** One property after the merge: the submitted value if it can be rendered, else the old one. */
  lemma {:induction false} MergedProperty(b: Body, props: Props, property: string)
    requires Tidy(b) && property in PROPERTIES && Inside(Entries(Render(b), 0), Render(b))
    ensures ReadOf(MergedBody(b, props).pieces, property) ==
      if property in Renderable(props) then Some(props[property]) else ReadOf(b.pieces, property)
  {
    if ValueOf(b.pieces, property).None? { MissingProperty(b, props, property); }
    PatchedValues(b, PROPERTIES, PropertyPlan(props), MissingProps(b, props),
      LayoutOf(Render(b), Entries(Render(b), 0)), property);
    if property in Renderable(props) { ReadLiteral(property, props[property]); }
  }

  /** A property that is not there is added if it can be rendered. */
  lemma {:induction false} MissingProperty(b: Body, props: Props, property: string)
    requires Tidy(b) && property in PROPERTIES && ValueOf(b.pieces, property).None?
    ensures LiteralOf(MissingProps(b, props), property) ==
      if property in Renderable(props) then LiteralText(property, props[property]) else None
  {
    var text, entries, plan := Render(b), Entries(Render(b), 0), PropertyPlan(props);
    ScanOf(b);
    ScannedKeys(b, text, entries);
    PropertiesDistinct();
    CurrentIsValue(b, text, entries, property);
    MissingOf(entries, PROPERTIES, plan, property);
    assert property in props ==> (LiteralText(property, props[property]).Some? <==> property in Renderable(props));
  }

  lemma {:induction false} MergedProps(b: Body, props: Props)
    requires Tidy(b) && Inside(Entries(Render(b), 0), Render(b))
    ensures PropsOf(MergedBody(b, props).pieces) == PropsOf(b.pieces) + Renderable(props)
  {
    var after, r := MergedBody(b, props).pieces, Renderable(props);
    forall p | p in PROPERTIES ensures ReadOf(after, p) == if p in r then Some(r[p]) else ReadOf(b.pieces, p) {
      MergedProperty(b, props, p);
    }
    forall p | p in r ensures p in PROPERTIES { ReadLiteral(p, props[p]); }
    PropsFromReads(after, b.pieces, r);
  }

  lemma {:induction false} PropsFromReads(after: seq<Piece>, before: seq<Piece>, r: Props)
    requires forall p :: p in PROPERTIES ==> ReadOf(after, p) == if p in r then Some(r[p]) else ReadOf(before, p)
    requires forall p :: p in r ==> p in PROPERTIES
    ensures PropsOf(after) == PropsOf(before) + r
  {
    var a, c := PropsOf(after), PropsOf(before) + r;
    forall p ensures (p in a <==> p in c) && (p in a ==> a[p] == c[p]) {
      if p in PROPERTIES { assert ReadOf(after, p) == if p in r then Some(r[p]) else ReadOf(before, p); }
    }
    assert a.Keys == c.Keys;
  }

  lemma {:induction false} PropertyPlanFits(b: Body, props: Props)
    ensures PlanFits(b.pieces, PROPERTIES, PropertyPlan(props))
  {
    forall p | p in b.pieces && p.key in PROPERTIES
      ensures var c := PropertyPlan(props)(p.key, Some(p.value)); c.Put? ==> IsValue(c.text) && Balanced(c.text)
    {
      if p.key in props && LiteralText(p.key, props[p.key]).Some? { LiteralIsValue(p.key, props[p.key]); }
    }
  }

  lemma {:induction false} PropertyIsIdentifier(property: string)
    requires property in PROPERTIES
    ensures IsIdentifier(property)
  {
    var l, m, a := "level", "metrics", "audit";
    assert PROPERTIES == [l, m, a];
    assert property == l || property == m || property == a;
  }

  lemma {:induction false} MissingPropsNew(b: Body, props: Props)
    requires Tidy(b)
    ensures AreNew(MissingProps(b, props), b)
  {
    var text, entries, plan := Render(b), Entries(Render(b), 0), PropertyPlan(props);
    ScanOf(b);
    ScannedKeys(b, text, entries);
    PropertiesDistinct();
    MissingDistinct(entries, PROPERTIES, plan);
    forall l | l in MissingProps(b, props)
      ensures IsNew(l) && Balanced(l.value) && forall p :: p in b.pieces ==> p.key != l.key
    {
      MissingFrom(entries, PROPERTIES, plan, l);
      LiteralIsValue(l.key, props[l.key]);
      PropertyIsIdentifier(l.key);
      NotAKey(b, text, entries, l.key);
    }
  }

  /** A name that is not found is no key. */
  lemma {:induction false} NotAKey(b: Body, text: string, entries: seq<JsScan.Entry>, name: string)
    requires Scanned(b, text, entries) && Find(entries, name).None?
    ensures forall p :: p in b.pieces ==> p.key != name
  {
    forall p | p in b.pieces ensures p.key != name {
      var k :| 0 <= k < |b.pieces| && b.pieces[k] == p;
      ScannedKeys(b, text, entries);
      KeyFindable(entries, k);
    }
  }

  /** The merged body is tidy again. */
  lemma {:induction false} MergedTidy(b: Body, props: Props)
    requires Tidy(b) && Inside(Entries(Render(b), 0), Render(b))
    ensures Tidy(MergedBody(b, props))
  {
    var text, entries := Render(b), Entries(Render(b), 0);
    PropertyPlanFits(b, props);
    MissingPropsNew(b, props);
    ScanOf(b);
    LayoutIsSpaces(text, entries);
    PatchedTidy(b, PROPERTIES, PropertyPlan(props), MissingProps(b, props), LayoutOf(text, entries));
  }

  // ---------- A handler that is rendered anew ----------

  /** The properties that are rendered, as entries. */
  function PartsFrom(props: Props, properties: seq<string>): seq<Literal> {
    if properties == [] then []
    else
      var p, rest := properties[0], PartsFrom(props, properties[1..]);
      if p in props && LiteralText(p, props[p]).Some? then [Literal(p, LiteralText(p, props[p]).value)] + rest else rest
  }

  function Parts(props: Props): seq<Literal> { PartsFrom(props, PROPERTIES) }

  /** The value of a rendered handler. */
  function Rendered(props: Props): string { "{ " + Join(LiteralTexts(Parts(props)), ", ") + " }" }

  /** A rendered handler, or nothing when no property can be rendered. */
  function RenderHandler(name: string, props: Props): string {
    if Parts(props) == [] then "" else Literal(name, Rendered(props)).Text()
  }

  const INLINE := Layout(" ", false, " ")

  function RenderedBody(props: Props): Body { Extend(Body([], ""), Parts(props), INLINE) }

  lemma {:induction false} PartsAre(props: Props, properties: seq<string>)
    requires forall p :: p in properties ==> p in PROPERTIES
    ensures forall l :: l in PartsFrom(props, properties) ==>
      l.key in properties && l.key in Renderable(props) && Some(l.value) == LiteralText(l.key, props[l.key])
    ensures forall p :: p in properties ==>
      LiteralOf(PartsFrom(props, properties), p) == if p in Renderable(props) then LiteralText(p, props[p]) else None
    ensures Distinct(properties) ==> DistinctLiterals(PartsFrom(props, properties))
  {
    if properties != [] {
      PartsAre(props, properties[1..]);
      var p, rest := properties[0], PartsFrom(props, properties[1..]);
      forall q | q in properties
        ensures LiteralOf(PartsFrom(props, properties), q) ==
          if q in Renderable(props) then LiteralText(q, props[q]) else None
      {
        PartsHead(props, properties, q);
      }
      if Distinct(properties) {
        forall l | l in rest ensures l.key != p { assert l.key in properties[1..]; }
      }
    }
  }

  lemma {:induction false} PartsHead(props: Props, properties: seq<string>, q: string)
    requires properties != [] && q in properties
    requires q in properties[1..] ==>
      LiteralOf(PartsFrom(props, properties[1..]), q) ==
        if q in Renderable(props) then LiteralText(q, props[q]) else None
    requires forall l :: l in PartsFrom(props, properties[1..]) ==> l.key in properties[1..]
    ensures LiteralOf(PartsFrom(props, properties), q) ==
      if q in Renderable(props) then LiteralText(q, props[q]) else None
  {
    var rest := PartsFrom(props, properties[1..]);
    assert properties == [properties[0]] + properties[1..];
    if q !in properties[1..] { NoLiteral(rest, q); }
    if q != properties[0] || q !in Renderable(props) {
      assert LiteralOf(PartsFrom(props, properties), q) == LiteralOf(rest, q);
    }
  }

  lemma {:induction false} NoLiteral(ls: seq<Literal>, key: string)
    requires forall l :: l in ls ==> l.key != key
    ensures LiteralOf(ls, key) == None
  {
    if ls != [] { NoLiteral(ls[1..], key); }
  }

  lemma {:induction false} PartsNew(props: Props)
    ensures AreNew(Parts(props), Body([], ""))
  {
    PropertiesDistinct();
    PartsAre(props, PROPERTIES);
    forall l | l in Parts(props) ensures IsNew(l) && Balanced(l.value) {
      PropertyIsIdentifier(l.key);
      LiteralIsValue(l.key, props[l.key]);
    }
  }

  /** A rendered handler is a regular body with exactly the properties that can be rendered. */
  lemma {:induction false} RenderedIs(props: Props)
    requires Parts(props) != []
    ensures Regular(RenderedBody(props)) && Rendered(props) == "{" + Render(RenderedBody(props)) + "}"
    ensures PropsOf(RenderedBody(props).pieces) == Renderable(props)
  {
    RenderedRegular(props);
    RenderedText(props);
    RenderedProps(props);
  }

  lemma {:induction false} RenderedText(props: Props)
    requires Parts(props) != []
    ensures Rendered(props) == "{" + Render(RenderedBody(props)) + "}"
  {
    ExtendText(Body([], ""), Parts(props), INLINE);
    assert "," + INLINE.gap == ", ";
    InSpaces(Join(LiteralTexts(Parts(props)), ", "));
  }

  lemma {:induction false} InSpaces(s: string)
    ensures "{ " + s + " }" == "{" + (" " + s + "" + " ") + "}"
  {
    assert "{ " == "{" + " " && " }" == " " + "}";
  }

  lemma {:induction false} RenderedRegular(props: Props)
    ensures Regular(RenderedBody(props))
  {
    PartsNew(props);
    EmptyRegular();
    ExtendRegular(Body([], ""), Parts(props), INLINE);
  }

  lemma {:induction false} EmptyRegular()
    ensures Regular(Body([], ""))
  {
    SpacesClean("");
  }

  lemma {:induction false} RenderedProps(props: Props)
    ensures PropsOf(RenderedBody(props).pieces) == Renderable(props)
  {
    var r := Renderable(props);
    PartsAre(props, PROPERTIES);
    forall p | p in PROPERTIES
      ensures ReadOf(RenderedBody(props).pieces, p) == if p in r then Some(r[p]) else ReadOf([], p)
    {
      ExtendValues(Body([], ""), Parts(props), INLINE, p);
      if p in r { ReadLiteral(p, props[p]); }
    }
    forall p | p in r ensures p in PROPERTIES { ReadLiteral(p, props[p]); }
    PropsFromReads(RenderedBody(props).pieces, [], r);
    assert PropsOf([]) == map[];
  }

  /** Nothing is rendered exactly when nothing can be. */
  lemma {:induction false} PartsEmpty(props: Props)
    ensures Parts(props) == [] <==> Renderable(props) == map[]
  {
    PartsAre(props, PROPERTIES);
    if Parts(props) != [] {
      assert Parts(props)[0] in Parts(props);
    }
    if Renderable(props) != map[] {
      var p :| p in Renderable(props);
      ReadLiteral(p, props[p]);
      assert LiteralOf(Parts(props), p).Some?;
    }
  }

  /** The loop that renders a handler. */
  method RenderLoggingHandler(name: string, props: Props) returns (r: string)
    ensures r == RenderHandler(name, props)
  {
    var parts: seq<Literal> := [];
    for i := 0 to |PROPERTIES|
      invariant parts + PartsFrom(props, PROPERTIES[i..]) == Parts(props)
    {
      var property := PROPERTIES[i];
      assert PROPERTIES[i..][0] == property && PROPERTIES[i..][1..] == PROPERTIES[i + 1..];
      if property in props {
        var literal := LiteralText(property, props[property]);
        if literal.Some? { parts := parts + [Literal(property, literal.value)]; }
      }
    }
    assert PROPERTIES[|PROPERTIES|..] == [] && parts + [] == parts;
    if |parts| == 0 { return ""; }
    r := name + ": " + ("{ " + Join(LiteralTexts(parts), ", ") + " }");
  }
}
