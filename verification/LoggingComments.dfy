/** Where the law of patching and parsing a logging block ends because of a comment
    (internal/service/logging.go and insertJSEntries of internal/service/logging_scan.go): new entries
    go right behind the last character that is no white space, also when a line comment holds it. */
module LoggingComments {
  import opened Wrappers
  import opened JsScan
  import opened JsString
  import opened JsBraces
  import opened JsObject
  import opened JsEdit
  import opened JsInsert
  import opened JsPatch
  import opened LoggingModel
  import opened LoggingPatch
  import opened LoggingLimits

  // ---------- Blocks that end in a comment ----------

  /** The entries of a tidy block, the last without a comma. */
  ghost predicate EndsOpen(ps: seq<Piece>) {
    ps != [] && RegularPiece(ps[0]) && (if |ps| == 1 then !ps[0].comma else ps[0].comma && EndsOpen(ps[1..]))
  }

  predicate OneLine(s: string) { forall k :: 0 <= k < |s| ==> s[k] != '\n' }

  /** The note of a comment is one line, and the white space behind it is not part of it. */
  predicate IsNote(note: string) { OneLine(note) && (note != [] ==> !IsSpace(note[|note| - 1])) }

  /** The last value of the block runs into a line comment that nothing but white space follows. */
  ghost predicate RunsOn(b: Body, gap: string, note: string, spaces: string) {
    && EndsOpen(b.pieces) && AllSpaces(gap) && IsNote(note) && AllSpaces(spaces)
    && b.trailing == gap + "//" + note + spaces
  }

  ghost predicate OpenBlock(b: Body) { exists gap, note, spaces :: RunsOn(b, gap, note, spaces) }

  // ---------- What the scanner finds in their text ----------

  /** Where the scanner goes on behind a value that ends at `q`. */
  function Behind(text: string, q: nat): nat { if q < |text| then q + 1 else |text| }

  /** The value at `i` ends at `q`, at a comma right behind it or at the end of the text. */
  ghost predicate Ends(text: string, i: nat, q: nat) {
    && i <= q <= |text| && 0 < q && Stop(Plain(0), text, i) == Ending(q, false)
    && (q < |text| ==> text[q] == ',' && !IsSpace(text[q - 1]))
  }

  lemma {:induction false} ValueBehind(text: string, i: nat, q: nat)
    requires Ends(text, i, q)
    ensures Entries(text, CommaEnd(text, ValueEnd(text, i))) == Entries(text, Behind(text, q))
  {
    if q < |text| {
      assert ValueEnd(text, i) == q && SpacesEnd(text, q) == q;
    } else {
      TrimmedSpaces(text);
      SpacesHold(text, Trim(text, |text|));
    }
  }

  lemma {:induction false} TrimmedSpaces(text: string)
    ensures AllSpaces(text[Trim(text, |text|)..])
  {
    var t := Trim(text, |text|);
    forall k | 0 <= k < |text[t..]| ensures IsSpace(text[t..][k]) { TrimmedAway(text, |text|, t + k); }
  }

  lemma {:induction false} SpacesHold(text: string, i: nat)
    requires i <= |text| && AllSpaces(text[i..])
    ensures Entries(text, i) == [] && SpacesEnd(text, i) == |text|
  {
    HasIff(text, i, text[i..]);
    SpacesClean(text[i..]);
    GapLeads(text, i, text[i..]);
    SpacesSkipped(text, i, text[i..]);
  }

  /** The entry of a piece, wherever its value ends. */
  function RunningEntry(text: string, p: Piece, i: nat): Entry
    requires i + |p.Head()| <= |text|
  {
    var v := i + |p.Head()|;
    Entry(p.key, i + |p.gap|, v, ValueEnd(text, v), CommaEnd(text, ValueEnd(text, v)))
  }

  lemma {:induction false} ValueMet(text: string, p: Piece, i: nat)
    requires RegularPiece(p) && Has(text, i, p.Text()) && ColonAt(p, i) < |text| && i + |p.Head()| <= |text|
    ensures MeetsValue(text, ColonAt(p, i), RunningEntry(text, p, i))
  {
    MiddlePart(text, p, i);
    ValueFound(text, ColonAt(p, i), p.afterColon, p.value);
  }

  lemma {:induction false} MiddlePart(text: string, p: Piece, i: nat)
    requires Has(text, i, p.Text())
    ensures Has(text, ColonAt(p, i) + 1, p.afterColon + p.value)
    ensures ColonAt(p, i) + 1 + |p.afterColon| == i + |p.Head()|
  {
    ValuePart(text, p, i);
  }

  lemma {:induction false} ValueFound(text: string, colon: nat, gap: string, v: string)
    requires IsGap(gap) && IsValue(v) && colon < |text| && Has(text, colon + 1, gap + v)
    ensures SkipBlank(text, colon + 1) == colon + 1 + |gap|
  {
    HasParts(text, colon + 1, gap, v);
    GapLeads(text, colon + 1, gap);
    ValueStarts(text, colon + 1 + |gap|, v);
  }

  // ---------- Names that are not found ----------

  ghost predicate Lacks(es: seq<Entry>, x: string) { forall e :: e in es ==> e.key != x }

  ghost predicate Unused(ps: seq<Piece>, x: string) { forall p :: p in ps ==> p.key != x }

  lemma {:induction false} PlacedLacks(ps: seq<Piece>, i: nat, x: string)
    requires Unused(ps, x)
    ensures Lacks(Placed(ps, i), x)
  {
    if ps != [] {
      assert ps[0] in ps && forall p :: p in ps[1..] ==> p in ps;
      PlacedLacks(ps[1..], i + |ps[0].Text()|, x);
    }
  }

  lemma {:induction false} LacksParsed(text: string, es: seq<Entry>, x: string)
    requires Lacks(es, x)
    ensures Lookup(ParseEntries(text, es), x) == None && Find(es, x) == None
    decreases |es|
  {
    if es != [] {
      assert es[|es| - 1] in es && forall e :: e in es[..|es| - 1] ==> e in es;
      LacksParsed(text, es[..|es| - 1], x);
      assert es == es[..|es| - 1] + [es[|es| - 1]];
      FindAppend(es[..|es| - 1], es[|es| - 1], x);
    }
  }

  /** A piece with its comma, and then what follows. */
  lemma {:induction false} PieceLacks(text: string, p: Piece, i: nat, x: string)
    requires RegularPiece(p) && p.comma && p.key != x && Has(text, i, p.Text())
    requires i + |p.Text()| <= |text| && Lacks(Entries(text, i + |p.Text()|), x)
    ensures Lacks(Entries(text, i), x) && Entries(text, i) != []
  {
    PieceScanned(text, p, i, "");
  }

  /** A piece whose value runs on up to `q`, and then what follows. */
  lemma {:induction false} RunningLacks(text: string, p: Piece, i: nat, q: nat, x: string)
    requires RegularPiece(p) && p.key != x && Has(text, i, p.Text()) && Ends(text, i + |p.Head()|, q)
    requires Lacks(Entries(text, Behind(text, q)), x)
    ensures Lacks(Entries(text, i), x) && Entries(text, i) != []
  {
    PieceGap(text, p, i);
    KeyLacks(text, p, i, q, x);
  }

  lemma {:induction false} KeyLacks(text: string, p: Piece, i: nat, q: nat, x: string)
    requires RegularPiece(p) && p.key != x && Has(text, i, p.Text()) && Ends(text, i + |p.Head()|, q)
    requires Lacks(Entries(text, Behind(text, q)), x)
    ensures i + |p.gap| <= |text| && Lacks(Entries(text, i + |p.gap|), x) && Entries(text, i + |p.gap|) != []
  {
    PieceMeetsKey(text, p, i);
    ValueMet(text, p, i);
    MetLacks(text, p, i, q, x);
  }

  lemma {:induction false} MetLacks(text: string, p: Piece, i: nat, q: nat, x: string)
    requires p.key != x && Ends(text, i + |p.Head()|, q) && Lacks(Entries(text, Behind(text, q)), x)
    requires MeetsKey(text, i + |p.gap|, p.key, i + |p.gap| + |p.key|, ColonAt(p, i))
    requires MeetsValue(text, ColonAt(p, i), RunningEntry(text, p, i))
    ensures Lacks(Entries(text, i + |p.gap|), x) && Entries(text, i + |p.gap|) != []
  {
    var e := RunningEntry(text, p, i);
    Turn(text, e, i + |p.gap| + |p.key|, ColonAt(p, i));
    ValueBehind(text, e.valueStart, q);
  }

  /** Where the last piece and the last value start. */
  function LastFrom(ps: seq<Piece>, i: nat): nat
    requires ps != []
  {
    if |ps| == 1 then i else LastFrom(ps[1..], i + |ps[0].Text()|)
  }

  function ValueFrom(ps: seq<Piece>, i: nat): nat
    requires ps != []
  {
    LastFrom(ps, i) + |ps[|ps| - 1].Head()|
  }

  lemma {:induction false} HasRest(text: string, ps: seq<Piece>, i: nat)
    requires ps != [] && Has(text, i, Texts(ps))
    ensures Has(text, i, ps[0].Text()) && Has(text, i + |ps[0].Text()|, Texts(ps[1..]))
    ensures |Texts(ps)| == |ps[0].Text()| + |Texts(ps[1..])|
  {
    HasParts(text, i, ps[0].Text(), Texts(ps[1..]));
  }

  lemma {:induction false} UnusedRest(ps: seq<Piece>, x: string)
    requires ps != [] && Unused(ps, x)
    ensures ps[0].key != x && Unused(ps[1..], x)
  {
    assert ps[0] in ps && forall p :: p in ps[1..] ==> p in ps;
  }

  /** A name the block does not use is not found in it, unless behind its last value. */
  lemma {:induction false} BlockLacks(text: string, ps: seq<Piece>, q: nat, x: string)
    requires EndsOpen(ps) && Unused(ps, x) && Has(text, 0, Texts(ps)) && Ends(text, ValueFrom(ps, 0), q)
    requires Lacks(Entries(text, Behind(text, q)), x)
    ensures Lacks(Entries(text, 0), x) && Entries(text, 0) != []
  {
    var last := ps[|ps| - 1];
    assert last in ps;
    LastRegular(ps);
    LastThere(text, ps, 0);
    RunningLacks(text, last, LastFrom(ps, 0), q, x);
    LeadingLacks(text, ps, 0, x);
  }

  lemma {:induction false} LastRegular(ps: seq<Piece>)
    requires EndsOpen(ps)
    ensures RegularPiece(ps[|ps| - 1])
  {
    if |ps| > 1 { LastRegular(ps[1..]); }
  }

  lemma {:induction false} LastThere(text: string, ps: seq<Piece>, i: nat)
    requires ps != [] && Has(text, i, Texts(ps))
    ensures Has(text, LastFrom(ps, i), ps[|ps| - 1].Text())
    decreases |ps|
  {
    HasRest(text, ps, i);
    if |ps| > 1 { LastThere(text, ps[1..], i + |ps[0].Text()|); }
  }

  lemma {:induction false} LeadingLacks(text: string, ps: seq<Piece>, i: nat, x: string)
    requires EndsOpen(ps) && Unused(ps, x) && Has(text, i, Texts(ps)) && LastFrom(ps, i) <= |text|
    requires Lacks(Entries(text, LastFrom(ps, i)), x) && Entries(text, LastFrom(ps, i)) != []
    ensures i <= |text| && Lacks(Entries(text, i), x) && Entries(text, i) != []
    decreases |ps|
  {
    if |ps| > 1 {
      HasRest(text, ps, i);
      UnusedRest(ps, x);
      LeadingLacks(text, ps[1..], i + |ps[0].Text()|, x);
      FirstLacks(text, ps, i, x);
    }
  }

  lemma {:induction false} FirstLacks(text: string, ps: seq<Piece>, i: nat, x: string)
    requires ps != [] && RegularPiece(ps[0]) && ps[0].comma && Unused(ps, x) && Has(text, i, Texts(ps))
    requires i + |ps[0].Text()| <= |text| && Lacks(Entries(text, i + |ps[0].Text()|), x)
    ensures i <= |text| && Lacks(Entries(text, i), x) && Entries(text, i) != []
  {
    HasRest(text, ps, i);
    UnusedRest(ps, x);
    PieceLacks(text, ps[0], i, x);
  }

  /** The last piece ends with its value. */
  predicate Bare(ps: seq<Piece>) { ps != [] && !ps[|ps| - 1].comma && ps[|ps| - 1].beforeComma == [] }

  predicate EndsWithValue(ps: seq<Piece>) { Bare(ps) && IsValue(ps[|ps| - 1].value) }

  lemma {:induction false} OpenIsBare(ps: seq<Piece>)
    requires EndsOpen(ps)
    ensures EndsWithValue(ps)
  {
    if |ps| > 1 { OpenIsBare(ps[1..]); }
  }

  /** The last value in the text. */
  lemma {:induction false} LastValue(text: string, ps: seq<Piece>)
    requires Bare(ps) && Has(text, 0, Texts(ps))
    ensures Has(text, ValueFrom(ps, 0), ps[|ps| - 1].value) && ValueFrom(ps, 0) + |ps[|ps| - 1].value| == |Texts(ps)|
  {
    LastThere(text, ps, 0);
    LastEnds(ps, 0);
    OneValue(text, ps[|ps| - 1], LastFrom(ps, 0));
  }

  lemma {:induction false} LastEnds(ps: seq<Piece>, i: nat)
    requires ps != []
    ensures LastFrom(ps, i) + |ps[|ps| - 1].Text()| == i + |Texts(ps)|
    decreases |ps|
  {
    assert Texts(ps) == ps[0].Text() + Texts(ps[1..]);
    if |ps| > 1 { LastEnds(ps[1..], i + |ps[0].Text()|); }
  }

  lemma {:induction false} OneValue(text: string, p: Piece, i: nat)
    requires !p.comma && p.beforeComma == [] && Has(text, i, p.Text())
    ensures Has(text, i + |p.Head()|, p.value) && |p.Text()| == |p.Head()| + |p.value|
  {
    HasParts(text, i, p.Head() + p.value, p.Tail());
    HasParts(text, i, p.Head(), p.value);
  }

  // ---------- Through the comment ----------

  /** The text of the block up to the note. */
  function Front(ps: seq<Piece>, gap: string): string { Texts(ps) + gap + "//" }

  lemma {:induction false} NoteRuns(s: string)
    requires OneLine(s)
    ensures Run(Line(0), s) == Line(0)
  {
    if s != [] { NoteRuns(s[1..]); }
  }

  lemma {:induction false} SlashesRun()
    ensures Run(Plain(0), "//") == Line(0)
  {
    assert Run(Plain(0), "//") == Run(Slash(0), "//"[1..]) == Run(Line(0), "//"[1..][1..]);
  }

  /** The last value runs on into the comment. */
  lemma {:induction false} RunsIntoComment(ps: seq<Piece>, gap: string, text: string)
    requires EndsWithValue(ps) && AllSpaces(gap) && Front(ps, gap) <= text
    ensures Has(text, 0, Texts(ps)) && ValueFrom(ps, 0) <= |Front(ps, gap)|
    ensures Stop(Plain(0), text, ValueFrom(ps, 0)) == Stop(Line(0), text, |Front(ps, gap)|)
  {
    FrontHas(Texts(ps), gap, text);
    LastValue(text, ps);
    ValueIntoComment(text, ValueFrom(ps, 0), ps[|ps| - 1].value, gap);
  }

  lemma {:induction false} ValueIntoComment(text: string, i: nat, v: string, gap: string)
    requires IsValue(v) && AllSpaces(gap)
    requires Has(text, i, v) && Has(text, i + |v|, gap) && Has(text, i + |v| + |gap|, "//")
    ensures Stop(Plain(0), text, i) == Stop(Line(0), text, i + |v| + |gap| + 2)
  {
    ValueRead(text, i, v);
    SpacesRead(text, i + |v|, gap);
    SlashesRun();
    Advance(Plain(0), text, i + |v| + |gap|, "//");
  }

  lemma {:induction false} FrontHas(a: string, gap: string, text: string)
    requires a + gap + "//" <= text
    ensures Has(text, 0, a) && Has(text, |a|, gap) && Has(text, |a| + |gap|, "//")
  {
    HasIff(text, 0, a + gap + "//");
    assert text[0..|a + gap + "//"|] == text[..|a + gap + "//"|];
    HasParts(text, 0, a + gap, "//");
    HasParts(text, 0, a, gap);
  }

  /** Text that does not end the value leads to what follows it. */
  lemma {:induction false} Passes(before: string, m: Mode, s: string, rest: string)
    requires Run(m, s) != Halt
    ensures var text := before + s + rest; Stop(m, text, |before|) == Stop(Run(m, s), text, |before| + |s|)
  {
    HasMiddle(before, s, rest);
    Advance(m, before + s + rest, |before|, s);
  }

  /** From the last value to behind the comment and what follows it. */
  lemma {:induction false} PassesNote(ps: seq<Piece>, gap: string, note: string, s: string, rest: string)
    requires EndsWithValue(ps) && AllSpaces(gap) && OneLine(note) && Run(Line(0), s) != Halt
    ensures var front := Front(ps, gap); var text := front + note + s + rest;
      && Has(text, 0, Texts(ps)) && ValueFrom(ps, 0) <= |front|
      && Stop(Plain(0), text, ValueFrom(ps, 0)) == Stop(Run(Line(0), s), text, |front| + |note| + |s|)
  {
    var front := Front(ps, gap);
    RunsIntoComment(ps, gap, front + note + s + rest);
    NotePasses(front, note, s, rest);
  }

  lemma {:induction false} NotePasses(front: string, note: string, s: string, rest: string)
    requires OneLine(note) && Run(Line(0), s) != Halt
    ensures var text := front + note + s + rest;
      Stop(Line(0), text, |front|) == Stop(Run(Line(0), s), text, |front| + |note| + |s|)
  {
    assert front + note + s + rest == front + note + (s + rest);
    NoteRuns(note);
    Passes(front, Line(0), note, s + rest);
    Passes(front + note, Line(0), s, rest);
  }

  lemma {:induction false} SpacesRun(m: Mode, s: string)
    requires AllSpaces(s) && (m == Line(0) || m == Plain(0))
    ensures Run(m, s) == Line(0) || Run(m, s) == Plain(0)
    ensures m == Plain(0) ==> Run(m, s) == Plain(0)
    decreases |s|
  {
    if s != [] { SpacesRun(Step(m, s[0]), s[1..]); }
  }

  /** A comment up to the end of the text hides nothing but itself. */
  lemma {:induction false} CommentLacks(ps: seq<Piece>, gap: string, note: string, spaces: string, x: string)
    requires EndsOpen(ps) && AllSpaces(gap) && OneLine(note) && AllSpaces(spaces) && Unused(ps, x)
    ensures var text := Front(ps, gap) + note + spaces; Lacks(Entries(text, 0), x) && Entries(text, 0) != []
  {
    var text := Front(ps, gap) + note + spaces;
    OpenIsBare(ps);
    CommentEnds(ps, gap, note, spaces);
    BlockLacks(text, ps, |text|, x);
  }

  lemma {:induction false} CommentEnds(ps: seq<Piece>, gap: string, note: string, spaces: string)
    requires EndsWithValue(ps) && AllSpaces(gap) && OneLine(note) && AllSpaces(spaces)
    ensures var text := Front(ps, gap) + note + spaces;
      Has(text, 0, Texts(ps)) && Ends(text, ValueFrom(ps, 0), |text|)
  {
    var text := Front(ps, gap) + note + spaces;
    assert text + "" == text;
    SpacesRun(Line(0), spaces);
    PassesNote(ps, gap, note, spaces, "");
  }

  /** A line behind the comment is part of the last value, and what follows its comma is not. */
  lemma {:induction false} LineLacks(ps: seq<Piece>, gap: string, note: string, line: string, b: Body, x: string)
    requires EndsOpen(ps) && AllSpaces(gap) && OneLine(note) && Unused(ps, x)
    requires IsLine(line) && Tidy(b) && Unused(b.pieces, x)
    ensures Lacks(Entries(Front(ps, gap) + note + line + ("," + Render(b)), 0), x)
  {
    var text, q := Front(ps, gap) + note + line + ("," + Render(b)), |Front(ps, gap) + note + line|;
    OpenIsBare(ps);
    LineEnds(ps, gap, note, line, Render(b));
    TextLacks(text, ps, q, b, x);
  }

  lemma {:induction false} TextLacks(text: string, ps: seq<Piece>, q: nat, b: Body, x: string)
    requires EndsOpen(ps) && Unused(ps, x) && Has(text, 0, Texts(ps)) && Ends(text, ValueFrom(ps, 0), q) && q < |text|
    requires Tidy(b) && Unused(b.pieces, x) && Has(text, q + 1, Render(b)) && q + 1 + |Render(b)| == |text|
    ensures Lacks(Entries(text, 0), x)
  {
    BodyLacks(text, q + 1, b, x);
    BlockLacks(text, ps, q, x);
  }

  /** A line that ends the comment before it and no value. */
  predicate IsLine(line: string) {
    Run(Line(0), line) == Plain(0) && line != [] && !IsSpace(line[|line| - 1])
  }

  lemma {:induction false} LineEnds(ps: seq<Piece>, gap: string, note: string, line: string, rest: string)
    requires EndsWithValue(ps) && AllSpaces(gap) && OneLine(note) && IsLine(line)
    ensures var text, q := Front(ps, gap) + note + line + ("," + rest), |Front(ps, gap) + note + line|;
      && Has(text, 0, Texts(ps)) && Ends(text, ValueFrom(ps, 0), q)
      && Has(text, q + 1, rest) && q + 1 + |rest| == |text|
  {
    PassesNote(ps, gap, note, line, "," + rest);
    CommaThere(Front(ps, gap) + note + line, rest);
    assert (Front(ps, gap) + note + line)[|Front(ps, gap) + note + line| - 1] == line[|line| - 1];
  }

  lemma {:induction false} CommaThere(a: string, rest: string)
    ensures var text := a + ("," + rest);
      text[|a|] == ',' && Has(text, |a| + 1, rest) && (a != [] ==> text[|a| - 1] == a[|a| - 1])
      && Stop(Plain(0), text, |a|) == Ending(|a|, false)
  {
    HasMiddle(a + ",", rest, "");
    assert a + "," + rest + "" == a + ("," + rest);
  }

  lemma {:induction false} BodyLacks(text: string, i: nat, b: Body, x: string)
    requires Tidy(b) && Unused(b.pieces, x) && Has(text, i, Render(b)) && i + |Render(b)| == |text|
    ensures Lacks(Entries(text, i), x)
  {
    BodyScanned(text, b, i);
    PlacedLacks(b.pieces, i, x);
  }

  // ---------- A rendered handler is written on one line ----------

  lemma {:induction false} EscapedOneLine(s: string)
    ensures OneLine(Escaped(s))
  {
    if s != [] { EscapedOneLine(s[1..]); }
  }

  lemma {:induction false} JoinOneLine(ls: seq<Literal>)
    requires forall l :: l in ls ==> OneLine(l.Text())
    ensures OneLine(Join(LiteralTexts(ls), ", "))
  {
    if |ls| > 1 {
      JoinOneLine(ls[1..]);
      assert LiteralTexts(ls)[1..] == LiteralTexts(ls[1..]);
    }
  }

  lemma {:induction false} LiteralOneLine(property: string, value: Value)
    requires LiteralText(property, value).Some?
    ensures OneLine(Literal(property, LiteralText(property, value).value).Text())
  {
    if property == "level" {
      EscapedOneLine(value.text);
      assert OneLine(Quoted(value.text));
    } else {
      assert OneLine(BoolText(value.on));
    }
  }

  lemma {:induction false} RenderedOneLine(props: Props)
    ensures OneLine(Rendered(props))
  {
    PartsAre(props, PROPERTIES);
    forall l | l in Parts(props) ensures OneLine(l.Text()) { LiteralOneLine(l.key, props[l.key]); }
    JoinOneLine(Parts(props));
  }

  lemma {:induction false} NameRuns(s: string)
    requires forall k :: 0 <= k < |s| ==> IsIdentifierPart(s[k]) || s[k] == ':' || s[k] == ' '
    ensures Run(Plain(0), s) == Plain(0)
  {
    if s != [] { NameRuns(s[1..]); }
  }

  /** A new entry as it is written: on one line, and closed for both readers. */
  ghost predicate IsWritten(l: Literal) { IsNew(l) && Balanced(l.value) && OneLine(l.Text()) }

  lemma {:induction false} HandlerWritten(x: string, props: Props)
    requires IsIdentifier(x) && Parts(props) != []
    ensures IsWritten(Literal(x, Rendered(props)))
  {
    RenderedIsValue(props);
    RenderedOneLine(props);
    var name := x + ": ";
    assert OneLine(name);
  }

  /** The line of an entry ends the comment before it and no value. */
  lemma {:induction false} EntryIsLine(gap: string, l: Literal)
    requires gap != [] && gap[0] == '\n' && AllSpaces(gap) && IsNew(l)
    ensures IsLine(gap + l.Text())
  {
    var name := l.key + ": ";
    NameRuns(name);
    RunAppend(Plain(0), name, l.value);
    assert Run(Line(0), gap) == Run(Plain(0), gap[1..]);
    SpacesRun(Plain(0), gap[1..]);
    RunAppend(Line(0), gap, l.Text());
  }

  // ---------- What the patch inserts ----------

  /** New entries on lines of their own, or all on one. */
  predicate IsShape(l: Layout) {
    IsLayout(l) && if l.commas then l.gap != [] && l.gap[0] == '\n' else l.gap == " "
  }

  lemma {:induction false} LayoutShape(text: string, entries: seq<Entry>)
    requires entries != [] && entries[|entries| - 1].start <= |text|
    ensures IsShape(LayoutOf(text, entries)) && (!LayoutOf(text, entries).commas ==> '\n' !in text)
  {}

  lemma {:induction false} SeparatedPieces(comma: bool, ls: seq<Literal>, l: Layout)
    requires ls != []
    ensures Separated(comma, ls, l) == (if comma then "" else ",") + Texts(NewPieces(ls, l))
  {
    NewPiecesText(ls, l);
    assert "" + Texts(NewPieces(ls, l)) == Texts(NewPieces(ls, l));
  }

  /** The first of the new entries, when each has a line. */
  lemma {:induction false} FirstPiece(ls: seq<Literal>, l: Layout)
    requires ls != [] && l.commas
    ensures Texts(NewPieces(ls, l)) == (l.gap + ls[0].Text()) + ("," + Texts(NewPieces(ls[1..], l)))
  {
    var p := NewPieces(ls, l)[0];
    assert NewPieces(ls, l)[1..] == NewPieces(ls[1..], l);
    NewPieceText(l.gap, ls[0], true);
    assert p.Text() == l.gap + ls[0].Text() + ",";
  }

  /** The new entries behind the first are a body. */
  lemma {:induction false} OthersTidy(ls: seq<Literal>, l: Layout, spaces: string, x: string)
    requires (forall m :: m in ls ==> IsWritten(m) && m.key != x) && IsLayout(l) && l.commas && AllSpaces(spaces)
    ensures Tidy(Body(NewPieces(ls, l), spaces)) && Unused(NewPieces(ls, l), x)
  {
    SpacesClean(spaces);
    forall p | p in NewPieces(ls, l) ensures RegularPiece(p) && p.key != x && p.comma {
      var k :| 0 <= k < |ls| && NewPieces(ls, l)[k] == p;
      assert ls[k] in ls;
      NewPiecesRegular(ls, l, k);
      CommasThere(ls, l, k);
    }
    assert forall k :: 0 <= k < |NewPieces(ls, l)| ==> NewPieces(ls, l)[k] in NewPieces(ls, l);
  }

  lemma {:induction false} CommasThere(ls: seq<Literal>, l: Layout, k: nat)
    requires k < |ls| && l.commas
    ensures NewPieces(ls, l)[k].comma
    decreases k
  {
    if k > 0 { CommasThere(ls[1..], l, k - 1); }
  }

  /** Behind the note the first new entry is part of the comment, or of the last value. */
  lemma {:induction false} AddedLacks(ps: seq<Piece>, gap: string, note: string, spaces: string, comma: bool,
      ls: seq<Literal>, l: Layout)
    requires EndsOpen(ps) && AllSpaces(gap) && OneLine(note) && AllSpaces(spaces) && IsShape(l)
    requires ls != [] && Unused(ps, ls[0].key) && (forall m :: m in ls ==> IsWritten(m))
    requires forall m :: m in ls[1..] ==> m.key != ls[0].key
    ensures Lacks(Entries(Front(ps, gap) + note + Separated(comma, ls, l) + spaces, 0), ls[0].key)
  {
    if l.commas {
      LinesLack(ps, gap, note, spaces, comma, ls, l);
    } else {
      OneLineLacks(ps, gap, note, spaces, comma, ls, l);
    }
  }

  lemma {:induction false} LinesLack(ps: seq<Piece>, gap: string, note: string, spaces: string, comma: bool,
      ls: seq<Literal>, l: Layout)
    requires EndsOpen(ps) && AllSpaces(gap) && OneLine(note) && AllSpaces(spaces) && IsShape(l) && l.commas
    requires ls != [] && Unused(ps, ls[0].key) && (forall m :: m in ls ==> IsWritten(m))
    requires forall m :: m in ls[1..] ==> m.key != ls[0].key
    ensures Lacks(Entries(Front(ps, gap) + note + Separated(comma, ls, l) + spaces, 0), ls[0].key)
  {
    var c, line, b := if comma then "" else ",", l.gap + ls[0].Text(), Body(NewPieces(ls[1..], l), spaces);
    assert ls[0] in ls && forall m :: m in ls[1..] ==> m in ls;
    EntryIsLine(l.gap, ls[0]);
    OthersTidy(ls[1..], l, spaces, ls[0].key);
    LineLacks(ps, gap, note + c, line, b, ls[0].key);
    SeparatedPieces(comma, ls, l);
    FirstPiece(ls, l);
    Regrouped(Front(ps, gap), note, c, line, Texts(b.pieces), spaces);
  }

  lemma {:induction false} Regrouped(front: string, note: string, c: string, line: string, t: string, spaces: string)
    ensures front + note + (c + (line + ("," + t))) + spaces == front + (note + c) + line + ("," + (t + spaces))
  {}

  lemma {:induction false} OneLineLacks(ps: seq<Piece>, gap: string, note: string, spaces: string, comma: bool,
      ls: seq<Literal>, l: Layout)
    requires EndsOpen(ps) && AllSpaces(gap) && OneLine(note) && AllSpaces(spaces) && IsShape(l) && !l.commas
    requires ls != [] && Unused(ps, ls[0].key) && (forall m :: m in ls ==> IsWritten(m))
    ensures Lacks(Entries(Front(ps, gap) + note + Separated(comma, ls, l) + spaces, 0), ls[0].key)
  {
    var put := Separated(comma, ls, l);
    JoinOneLine(ls);
    assert "," + l.gap == ", " && OneLine(put);
    CommentLacks(ps, gap, note + put, spaces, ls[0].key);
    assert Front(ps, gap) + (note + put) + spaces == Front(ps, gap) + note + put + spaces;
  }

  // ---------- What the patch does ----------

  lemma {:induction false} InsertBehind(t: string, spaces: string, entries: seq<Entry>, ls: seq<Literal>)
    requires t != [] && !IsSpace(t[|t| - 1]) && AllSpaces(spaces)
    requires entries != [] && entries[|entries| - 1].start <= |t + spaces|
    ensures InsertEntries(t + spaces, entries, LiteralTexts(ls)) ==
      Edit(|t|, |t|, Separated(t[|t| - 1] == ',', ls, LayoutOf(t + spaces, entries)))
  {
    CoreAt(t, spaces);
  }

  lemma {:induction false} NothingFound(text: string, entries: seq<Entry>, x: string, plan: Plan)
    requires Find(entries, x) == None
    ensures Edits(text, entries, [x], plan) == []
  {
    assert [x][..0] == [] && Edits(text, entries, [], plan) == [];
  }

  /** The new handler comes first, and perhaps the console behind it. */
  lemma {:induction false} AdditionsOfOne(entries: seq<Entry>, x: string, props: Props)
    requires Find(entries, x) == None && IsIdentifier(x) && Parts(props) != []
    ensures var ls := Additions(entries, map[x := props], [x]);
      && ls != [] && ls[0] == Literal(x, Rendered(props)) && (forall l :: l in ls ==> IsWritten(l))
      && forall l :: l in ls[1..] ==> l.key != x
  {
    MissingOne(entries, x, props);
    HandlerWritten(x, props);
    ConsoleWritten(entries, x, props);
  }

  lemma {:induction false} MissingOne(entries: seq<Entry>, x: string, props: Props)
    requires Find(entries, x) == None && Parts(props) != []
    ensures Missing(entries, [x], HandlerPlan(map[x := props])) == [Literal(x, Rendered(props))]
  {
    PartsEmpty(props);
    assert props != map[];
    assert [x][..0] == [] && Missing(entries, [], HandlerPlan(map[x := props])) == [];
  }

  lemma {:induction false} ConsoleWritten(entries: seq<Entry>, x: string, props: Props)
    requires Parts(props) != []
    ensures forall l :: l in DefaultConsole(entries, map[x := props]) ==> IsWritten(l) && l.key != x
  {
    DefaultRendered();
    ConsoleIsIdentifier();
    HandlerWritten("console", DEFAULT_CONSOLE);
    RenderedNotEmpty(x, props);
  }

  lemma {:induction false} RenderedNotEmpty(x: string, props: Props)
    requires Parts(props) != []
    ensures RenderHandler(x, props) != ""
  {
    assert |Literal(x, Rendered(props)).Text()| >= 2;
  }

  lemma {:induction false} OneEdit(text: string, model: Model, x: string, edit: Edit)
    requires PatchEdits(text, model, [x]) == [edit] && edit.start <= edit.end <= |text|
    requires Find(Entries(text, 0), x) == None
    ensures PatchSafe(text, model, [x]) && PatchBody(text, model, [x]) == Applied(text, edit)
  {
    assert Sort([edit]) == JsEdit.Insert(edit, []) == [edit];
    assert Applicable(Applied(text, edit), []) && [edit][1..] == [];
    assert AppliedAll(text, [edit]) == AppliedAll(Applied(text, edit), []);
  }

  lemma {:induction false} AppliedBehind(t: string, put: string, rest: string)
    ensures Applied(t + rest, Edit(|t|, |t|, put)) == t + put + rest
  {
    assert (t + rest)[..|t|] == t && (t + rest)[|t|..] == rest;
  }

  /** The text the patch makes of one new handler. */
  lemma {:induction false} PatchedBehind(t: string, spaces: string, x: string, props: Props)
    requires t != [] && !IsSpace(t[|t| - 1]) && AllSpaces(spaces) && IsIdentifier(x) && Parts(props) != []
    requires Lacks(Entries(t + spaces, 0), x) && Entries(t + spaces, 0) != []
    ensures var text, model, entries := t + spaces, map[x := props], Entries(t + spaces, 0);
      && Inside(entries, text) && entries[|entries| - 1] in entries && PatchSafe(text, model, [x])
      && PatchBody(text, model, [x]) ==
          t + Separated(t[|t| - 1] == ',', Additions(entries, model, [x]), LayoutOf(text, entries)) + spaces
  {
    var text, model, entries := t + spaces, map[x := props], Entries(t + spaces, 0);
    LacksParsed(text, entries, x);
    EntriesInside(text);
    assert entries[|entries| - 1] in entries;
    var ls := Additions(entries, model, [x]);
    AdditionsOfOne(entries, x, props);
    NothingFound(text, entries, x, HandlerPlan(model));
    InsertBehind(t, spaces, entries, ls);
    var edit := InsertEntries(text, entries, LiteralTexts(ls));
    assert PatchEdits(text, model, [x]) == [edit];
    OneEdit(text, model, x, edit);
    AppliedBehind(t, edit.text, spaces);
  }

  /** Neither the text nor the patched text has the new name. */
  lemma {:induction false} PatchedLacks(ps: seq<Piece>, gap: string, note: string, spaces: string, x: string,
      props: Props)
    requires EndsOpen(ps) && AllSpaces(gap) && IsNote(note) && AllSpaces(spaces)
    requires IsIdentifier(x) && Unused(ps, x) && Parts(props) != []
    ensures var text := Front(ps, gap) + note + spaces;
      && PatchSafe(text, map[x := props], [x])
      && Lacks(Entries(text, 0), x) && Lacks(Entries(PatchBody(text, map[x := props], [x]), 0), x)
  {
    var t := Front(ps, gap) + note;
    CommentLacks(ps, gap, note, spaces, x);
    assert !IsSpace(t[|t| - 1]);
    PatchedBehind(t, spaces, x, props);
    InsertedLacks(ps, gap, note, spaces, t[|t| - 1] == ',', x, props);
  }

  lemma {:induction false} InsertedLacks(ps: seq<Piece>, gap: string, note: string, spaces: string, comma: bool,
      x: string, props: Props)
    requires EndsOpen(ps) && AllSpaces(gap) && OneLine(note) && AllSpaces(spaces)
    requires IsIdentifier(x) && Unused(ps, x) && Parts(props) != []
    requires var entries := Entries(Front(ps, gap) + note + spaces, 0);
      Lacks(entries, x) && entries != [] && Inside(entries, Front(ps, gap) + note + spaces)
    ensures var text := Front(ps, gap) + note + spaces; var entries := Entries(text, 0);
      && entries[|entries| - 1] in entries
      && var put := Separated(comma, Additions(entries, map[x := props], [x]), LayoutOf(text, entries));
         Lacks(Entries(Front(ps, gap) + note + put + spaces, 0), x)
  {
    var text := Front(ps, gap) + note + spaces;
    var entries := Entries(text, 0);
    assert entries[|entries| - 1] in entries;
    LacksParsed(text, entries, x);
    AdditionsOfOne(entries, x, props);
    LayoutShape(text, entries);
    AddedLacks(ps, gap, note, spaces, comma, Additions(entries, map[x := props], [x]), LayoutOf(text, entries));
  }

  /** Whatever new handler is submitted to a block whose last value runs into a comment, it is not
      read back. */
  lemma {:induction false} CommentHidesHandler(b: Body, gap: string, note: string, spaces: string, x: string,
      props: Props)
    requires RunsOn(b, gap, note, spaces) && IsIdentifier(x) && Unused(b.pieces, x) && Renderable(props) != map[]
    ensures var text, model := Render(b), map[x := props];
      && PatchSafe(text, model, [x]) && Lookup(ParseBody(PatchBody(text, model, [x])), x) == None
      && Expected(Lookup(ParseBody(text), x), Lookup(model, x), x == "console") == Some(Renderable(props))
  {
    PartsEmpty(props);
    FrontText(b, gap, note, spaces);
    PatchedLacks(b.pieces, gap, note, spaces, x, props);
    LacksParsed(Render(b), Entries(Render(b), 0), x);
    var after := PatchBody(Render(b), map[x := props], [x]);
    LacksParsed(after, Entries(after, 0), x);
  }

  lemma {:induction false} FrontText(b: Body, gap: string, note: string, spaces: string)
    requires b.trailing == gap + "//" + note + spaces
    ensures Render(b) == Front(b.pieces, gap) + note + spaces
  {}

  // ---------- The exact law ----------

  /** A name that is longer than every key. */
  function LongName(ps: seq<Piece>): (x: string)
    ensures IsIdentifier(x)
  {
    seq(Longest(ps) + 1, _ => 'x')
  }

  function Longest(ps: seq<Piece>): nat {
    if ps == [] then 0 else if |ps[0].key| > Longest(ps[1..]) then |ps[0].key| else Longest(ps[1..])
  }

  lemma {:induction false} LongerThanAll(ps: seq<Piece>, p: Piece)
    requires p in ps
    ensures |p.key| <= Longest(ps)
  {
    if p != ps[0] { LongerThanAll(ps[1..], p); }
  }

  lemma {:induction false} LongNameUnused(ps: seq<Piece>)
    ensures Unused(ps, LongName(ps))
  {
    forall p | p in ps ensures p.key != LongName(ps) { LongerThanAll(ps, p); }
  }

  lemma {:induction false} OpenBlockFails(b: Body)
    requires OpenBlock(b)
    ensures !AlwaysObeys(b)
  {
    var gap, note, spaces :| RunsOn(b, gap, note, spaces);
    LongNameUnused(b.pieces);
    NewNameFails(b, gap, note, spaces, LongName(b.pieces));
  }

  lemma {:induction false} NewNameFails(b: Body, gap: string, note: string, spaces: string, x: string)
    requires RunsOn(b, gap, note, spaces) && IsIdentifier(x) && Unused(b.pieces, x)
    ensures !AlwaysObeys(b)
  {
    var props: Props := map["audit" := Flag(true)];
    assert "audit" in Renderable(props);
    CommentHidesHandler(b, gap, note, spaces, x, props);
    NotObeyed(b, x, props);
  }

  lemma {:induction false} NotObeyed(b: Body, x: string, props: Props)
    requires IsIdentifier(x) && !Obeys(b, map[x := props], [x], x)
    ensures !AlwaysObeys(b)
  {
    assert Lists([x], map[x := props]) && Writable(b, [x]);
  }

  /** Over all tidy blocks and all that would be but for a comment their last value runs into: the law
      holds for every submission and every name if and only if the block is unambiguous and its last
      value is closed. */
  lemma {:induction false} PatchThenParseClosedIff(b: Body)
    requires TidyBlock(b) || OpenBlock(b)
    ensures AlwaysObeys(b) <==> Unambiguous(b) && !OpenBlock(b)
  {
    if OpenBlock(b) {
      OpenBlockFails(b);
    } else {
      PatchThenParseIff(b);
    }
  }
}
