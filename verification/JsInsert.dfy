/** Adding entries to an object literal (insertJSEntries of internal/service/logging_scan.go). */
module JsInsert {
  import opened Wrappers
  import opened JsScan
  import opened JsBraces
  import opened JsObject
  import opened JsEdit

  // ---------- The text that is inserted ----------

  function Join(parts: seq<string>, separator: string): string {
    if parts == [] then [] else if |parts| == 1 then parts[0]
    else parts[0] + separator + Join(parts[1..], separator)
  }

  /** The start of the line that holds the offset. */
  function LineStart(text: string, i: nat): (r: nat)
    requires i <= |text|
    ensures r <= i
  {
    if i == 0 || text[i - 1] == '\n' then i else LineStart(text, i - 1)
  }

  /** The blanks and tabs from `i` up to `end`. */
  function Indent(text: string, i: nat, end: nat): (r: string)
    requires i <= end <= |text|
    ensures forall k :: 0 <= k < |r| ==> r[k] == ' ' || r[k] == '\t'
    decreases end - i
  {
    if i < end && (text[i] == ' ' || text[i] == '\t') then [text[i]] + Indent(text, i + 1, end) else []
  }

  /** The indentation of the line that holds the offset. */
  function LineIndent(text: string, offset: nat): (r: string)
    requires offset <= |text|
    ensures forall k :: 0 <= k < |r| ==> r[k] == ' ' || r[k] == '\t'
  {
    Indent(text, LineStart(text, offset), offset)
  }

  /** It is the whole run of blanks and tabs the line begins with, up to the offset. */
  lemma {:induction false} LineIndentIs(text: string, offset: nat)
    requires offset <= |text|
    ensures var s, r := LineStart(text, offset), LineIndent(text, offset);
      && (s == 0 || text[s - 1] == '\n') && (forall k :: s <= k < offset ==> text[k] != '\n')
      && s + |r| <= offset && r == text[s..s + |r|]
      && (s + |r| < offset ==> text[s + |r|] != ' ' && text[s + |r|] != '\t')
  {
    LineStartIs(text, offset);
    IndentIs(text, LineStart(text, offset), offset);
  }

  lemma {:induction false} LineStartIs(text: string, i: nat)
    requires i <= |text|
    ensures var s := LineStart(text, i); (s == 0 || text[s - 1] == '\n') && forall k :: s <= k < i ==> text[k] != '\n'
  {
    if i > 0 && text[i - 1] != '\n' { LineStartIs(text, i - 1); }
  }

  lemma {:induction false} IndentIs(text: string, i: nat, end: nat)
    requires i <= end <= |text|
    ensures var r := Indent(text, i, end);
      && i + |r| <= end && r == text[i..i + |r|] && (i + |r| < end ==> text[i + |r|] != ' ' && text[i + |r|] != '\t')
    decreases end - i
  {
    if i < end && (text[i] == ' ' || text[i] == '\t') {
      IndentIs(text, i + 1, end);
      assert text[i..i + 1 + |Indent(text, i + 1, end)|] == [text[i]] + text[i + 1..i + 1 + |Indent(text, i + 1, end)|];
    }
  }

  /** New entries of a body on several lines stand each on a line of its own, indented like the line the
      last entry starts on (or, in an empty object, two blanks further than the closing line); those of
      a body on one line go on that line. */
  lemma {:induction false} NewEntriesLine(body: string, entries: seq<Entry>, ls: seq<Literal>, k: nat)
    requires (entries != [] ==> entries[|entries| - 1].start <= |body|) && k < |ls|
    ensures var p := NewPieces(ls, LayoutOf(body, entries))[k];
      && p.key == ls[k].key && p.value == ls[k].value && p.beforeColon == "" && p.afterColon == " " &&
        p.beforeComma == ""
      && ('\n' !in body ==> p.gap == " " && (p.comma <==> k < |ls| - 1))
      && ('\n' in body && entries != [] ==> p.gap == "\n" + LineIndent(body, entries[|entries| - 1].start) && p.comma)
      && ('\n' in body && entries == [] ==> p.gap == "\n" + LineIndent(body, |body|) + "  " && p.comma)
  {
    NewPieceAt(ls, LayoutOf(body, entries), k);
  }

  lemma {:induction false} NewPieceAt(ls: seq<Literal>, l: Layout, k: nat)
    requires k < |ls|
    ensures NewPieces(ls, l)[k] == Piece(l.gap, ls[k].key, "", " ", ls[k].value, "", l.commas || k < |ls| - 1)
    decreases k
  {
    if k > 0 { NewPieceAt(ls[1..], l, k - 1); }
  }

  /** What goes before each new entry, whether the last gets a comma, and what follows it in an
      object that was empty. */
  datatype Layout = Layout(gap: string, commas: bool, closing: string)

  /** A body on several lines gets every entry on its own, like its siblings. */
  function LayoutOf(body: string, entries: seq<Entry>): (r: Layout)
    requires entries != [] ==> entries[|entries| - 1].start <= |body|
  {
    if '\n' !in body then Layout(" ", false, " ")
    else if entries == [] then
      var closing := LineIndent(body, |body|);
      Layout("\n" + closing + "  ", true, "\n" + closing)
    else Layout("\n" + LineIndent(body, entries[|entries| - 1].start), true, "")
  }

  /** The edit that adds the rendered entries. */
  function InsertEntries(body: string, entries: seq<Entry>, literals: seq<string>): Edit
    requires entries != [] ==> entries[|entries| - 1].start <= |body|
  {
    var l := LayoutOf(body, entries);
    var text := l.gap + Join(literals, "," + l.gap) + (if l.commas then "," else "");
    if entries == [] then Edit(0, |body|, text + l.closing)
    else
      var core := Trim(body, |body|);
      Edit(core, core, if core > 0 && body[core - 1] == ',' then text else "," + text)
  }

  // ---------- The pieces that are added ----------

  /** A rendered entry. */
  datatype Literal = Literal(key: string, value: string) {
    function Text(): string { key + ": " + value }
  }

  function LiteralTexts(ls: seq<Literal>): (r: seq<string>)
    ensures |r| == |ls|
  {
    if ls == [] then [] else [ls[0].Text()] + LiteralTexts(ls[1..])
  }

  function NewPieces(ls: seq<Literal>, l: Layout): (r: seq<Piece>)
    ensures |r| == |ls|
  {
    if ls == [] then []
    else [Piece(l.gap, ls[0].key, "", " ", ls[0].value, "", l.commas || |ls| > 1)] + NewPieces(ls[1..], l)
  }

  lemma {:induction false} NewPiecesText(ls: seq<Literal>, l: Layout)
    requires ls != []
    ensures Texts(NewPieces(ls, l)) == l.gap + Join(LiteralTexts(ls), "," + l.gap) + (if l.commas then "," else "")
  {
    var p := NewPieces(ls, l)[0];
    assert NewPieces(ls, l)[1..] == NewPieces(ls[1..], l);
    NewPieceText(l.gap, ls[0], p.comma);
    if |ls| == 1 {
      assert Texts(NewPieces(ls, l)) == p.Text();
    } else {
      var rest := LiteralTexts(ls[1..]);
      NewPiecesText(ls[1..], l);
      assert LiteralTexts(ls)[1..] == rest;
      Regroup(l.gap, ls[0].Text(), Join(rest, "," + l.gap), if l.commas then "," else "");
    }
  }

  lemma {:induction false} NewPieceText(gap: string, l: Literal, comma: bool)
    ensures Piece(gap, l.key, "", " ", l.value, "", comma).Text() == gap + l.Text() + (if comma then "," else "")
  {
    var p := Piece(gap, l.key, "", " ", l.value, "", comma);
    assert p.Head() == gap + (l.key + ": ");
  }

  lemma {:induction false} Regroup(gap: string, a: string, b: string, c: string)
    ensures (gap + a + ",") + (gap + b + c) == gap + (a + ("," + gap) + b) + c
  {}

  /** The last entry gets the comma that separates it from the new ones. */
  function Closed(ps: seq<Piece>): seq<Piece> {
    if ps == [] then [] else ps[..|ps| - 1] + [ps[|ps| - 1].(comma := true)]
  }

  /** A body with entries added. */
  function Extend(b: Body, ls: seq<Literal>, l: Layout): Body {
    if ls == [] then b
    else if b.pieces == [] then Body(NewPieces(ls, l), l.closing)
    else Body(Closed(b.pieces) + NewPieces(ls, l), b.trailing)
  }

  lemma {:induction false} TextsAppend(a: seq<Piece>, b: seq<Piece>)
    ensures Texts(a + b) == Texts(a) + Texts(b)
  {
    if a == [] {
      assert a + b == b;
    } else {
      assert (a + b)[1..] == a[1..] + b;
      TextsAppend(a[1..], b);
    }
  }

  lemma {:induction false} ClosedText(ps: seq<Piece>)
    requires ps != [] && (ps[|ps| - 1].comma || ps[|ps| - 1].beforeComma == [])
    ensures Texts(Closed(ps)) == Texts(ps) + (if ps[|ps| - 1].comma then "" else ",")
  {
    var init, last := ps[..|ps| - 1], ps[|ps| - 1];
    assert ps == init + [last];
    TextsAppend(init, [last]);
    TextsAppend(init, [last.(comma := true)]);
    assert Texts([last]) == last.Text() + Texts([]);
    assert Texts([last.(comma := true)]) == last.(comma := true).Text() + Texts([]);
  }

  /** What extending a body does to its text. */
  lemma {:induction false} ExtendText(b: Body, ls: seq<Literal>, l: Layout)
    requires ls != [] && (b.pieces != [] ==> var p := b.pieces[|b.pieces| - 1]; p.comma || p.beforeComma == [])
    ensures var text := l.gap + Join(LiteralTexts(ls), "," + l.gap) + (if l.commas then "," else "");
      Render(Extend(b, ls, l)) ==
        if b.pieces == [] then text + l.closing
        else Texts(b.pieces) + (if b.pieces[|b.pieces| - 1].comma then text else "," + text) + b.trailing
  {
    NewPiecesText(ls, l);
    if b.pieces != [] {
      TextsAppend(Closed(b.pieces), NewPieces(ls, l));
      ClosedText(b.pieces);
    }
  }

  // ---------- Extending keeps a body tidy, and its keys distinct ----------

  predicate IsNew(l: Literal) { IsIdentifier(l.key) && IsValue(l.value) }

  ghost predicate AreNew(ls: seq<Literal>, b: Body) {
    && (forall l :: l in ls ==> IsNew(l) && Balanced(l.value) && forall p :: p in b.pieces ==> p.key != l.key)
    && (forall i, j :: 0 <= i < j < |ls| ==> ls[i].key != ls[j].key)
  }

  predicate IsLayout(l: Layout) { AllSpaces(l.gap) && AllSpaces(l.closing) }

  lemma {:induction false} LayoutIsSpaces(body: string, entries: seq<Entry>)
    requires entries != [] ==> entries[|entries| - 1].start <= |body|
    ensures IsLayout(LayoutOf(body, entries))
  {}

  lemma {:induction false} NewPiecesRegular(ls: seq<Literal>, l: Layout, k: nat)
    requires IsLayout(l) && k < |ls| && IsNew(ls[k]) && Balanced(ls[k].value)
    ensures var p := NewPieces(ls, l)[k];
      RegularPiece(p) && p.key == ls[k].key && p.value == ls[k].value && (k < |ls| - 1 ==> p.comma)
    decreases k
  {
    if k > 0 {
      NewPiecesRegular(ls[1..], l, k - 1);
    } else {
      SpacesClean(l.gap);
      SpacesClean("");
      SpacesClean(" ");
    }
  }

  /** Pieces that stand one after the other; the last has a comma if it must. */
  ghost predicate AreRegular(ps: seq<Piece>, comma: bool) {
    && (forall k :: 0 <= k < |ps| ==> RegularPiece(ps[k]))
    && (forall k :: 0 <= k < (if comma then |ps| else |ps| - 1) ==> ps[k].comma)
  }

  lemma {:induction false} ClosedRegular(b: Body)
    requires Tidy(b)
    ensures AreRegular(Closed(b.pieces), true)
  {
    var r := Closed(b.pieces);
    forall k | 0 <= k < |r| ensures RegularPiece(r[k]) && r[k].comma {
      assert b.pieces[k] in b.pieces;
    }
  }

  lemma {:induction false} NewAreRegular(ls: seq<Literal>, l: Layout, b: Body)
    requires AreNew(ls, b) && IsLayout(l)
    ensures AreRegular(NewPieces(ls, l), false)
    ensures forall k :: 0 <= k < |ls| ==> NewPieces(ls, l)[k].key == ls[k].key
  {
    var r := NewPieces(ls, l);
    forall k | 0 <= k < |r| ensures RegularPiece(r[k]) && r[k].key == ls[k].key && (k < |r| - 1 ==> r[k].comma) {
      assert ls[k] in ls;
      NewPiecesRegular(ls, l, k);
    }
  }

  lemma {:induction false} RegularAppend(a: seq<Piece>, c: seq<Piece>)
    requires AreRegular(a, true) && AreRegular(c, false)
    ensures AreRegular(a + c, false)
  {}

  lemma {:induction false} TidyBody(b: Body)
    requires AreRegular(b.pieces, false) && b.pieces != [] && AllSpaces(b.trailing)
    ensures Tidy(b)
  {}

  lemma {:induction false} ExtendRegular(b: Body, ls: seq<Literal>, l: Layout)
    requires Tidy(b) && AreNew(ls, b) && IsLayout(l)
    ensures Tidy(Extend(b, ls, l))
    ensures Regular(b) ==> Regular(Extend(b, ls, l))
  {
    if ls != [] {
      var kept, added := Closed(b.pieces), NewPieces(ls, l);
      ClosedRegular(b);
      NewAreRegular(ls, l, b);
      RegularAppend(kept, added);
      assert Extend(b, ls, l).pieces == kept + added;
      if DistinctKeys(b.pieces) { ExtendDistinct(b, ls, kept + added, |kept|); }
      TidyBody(Extend(b, ls, l));
    }
  }

  lemma {:induction false} ExtendDistinct(b: Body, ls: seq<Literal>, all: seq<Piece>, n: nat)
    requires AreNew(ls, b) && DistinctKeys(b.pieces) && n == |b.pieces| && |all| == n + |ls|
    requires forall k :: 0 <= k < n ==> all[k].key == b.pieces[k].key
    requires forall k :: 0 <= k < |ls| ==> all[n + k].key == ls[k].key
    ensures DistinctKeys(all)
  {
    forall i, j | 0 <= i < j < |all| ensures all[i].key != all[j].key {
      if j >= n {
        assert all[n + (j - n)].key == ls[j - n].key && ls[j - n] in ls;
        if i < n { assert b.pieces[i] in b.pieces; } else { assert all[n + (i - n)].key == ls[i - n].key; }
      }
    }
  }

  /** The value of a key, if the body has it. */
  function ValueOf(ps: seq<Piece>, key: string): Option<string> {
    if ps == [] then None else if ps[0].key == key then Some(ps[0].value) else ValueOf(ps[1..], key)
  }

  function LiteralOf(ls: seq<Literal>, key: string): Option<string> {
    if ls == [] then None else if ls[0].key == key then Some(ls[0].value) else LiteralOf(ls[1..], key)
  }

  lemma {:induction false} ValueOfAppend(a: seq<Piece>, b: seq<Piece>, key: string)
    ensures ValueOf(a + b, key) == if ValueOf(a, key).Some? then ValueOf(a, key) else ValueOf(b, key)
  {
    if a == [] {
      assert a + b == b;
    } else {
      assert (a + b)[1..] == a[1..] + b;
      ValueOfAppend(a[1..], b, key);
    }
  }

  lemma {:induction false} ValueOfNew(ls: seq<Literal>, l: Layout, key: string)
    ensures ValueOf(NewPieces(ls, l), key) == LiteralOf(ls, key)
  {
    if ls != [] {
      ValueOfNew(ls[1..], l, key);
      assert NewPieces(ls, l)[1..] == NewPieces(ls[1..], l);
    }
  }

  /** An extended body has the values it had and the new ones. */
  lemma {:induction false} ExtendValues(b: Body, ls: seq<Literal>, l: Layout, key: string)
    ensures ValueOf(Extend(b, ls, l).pieces, key) ==
      if ValueOf(b.pieces, key).Some? then ValueOf(b.pieces, key) else LiteralOf(ls, key)
  {
    if ls != [] {
      ValueOfNew(ls, l, key);
      if b.pieces != [] {
        var init, last := b.pieces[..|b.pieces| - 1], b.pieces[|b.pieces| - 1];
        assert b.pieces == init + [last];
        ValueOfAppend(init, [last], key);
        ValueOfAppend(init, [last.(comma := true)], key);
        ValueOfAppend(Closed(b.pieces), NewPieces(ls, l), key);
      }
    }
  }
}
