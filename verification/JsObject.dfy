/** Object literals whose body is made of `key: value` entries, seen as a sequence of pieces, and
    what the scanner finds in their text (internal/service/logging_scan.go). */
module JsObject {
  import opened Wrappers
  import opened JsScan
  import opened JsBraces

  /** One entry with everything around it. */
  datatype Piece = Piece(
    gap: string, key: string, beforeColon: string, afterColon: string,
    value: string, beforeComma: string, comma: bool)
  {
    function Head(): string { gap + key + beforeColon + ":" + afterColon }
    function Tail(): string { if comma then beforeComma + "," else beforeComma }
    function Text(): string { Head() + value + Tail() }
  }

  datatype Body = Body(pieces: seq<Piece>, trailing: string)

  function Texts(ps: seq<Piece>): string {
    if ps == [] then [] else ps[0].Text() + Texts(ps[1..])
  }

  function Render(b: Body): string { Texts(b.pieces) + b.trailing }

  // ---------- Regular bodies ----------

  predicate IsIdentifier(s: string) {
    s != [] && IsIdentifierStart(s[0]) && forall k :: 0 <= k < |s| ==> IsIdentifierPart(s[k])
  }

  predicate AllSpaces(s: string) { forall k :: 0 <= k < |s| ==> IsSpace(s[k]) }

  /** A value the scanner reads as a whole: it starts and ends with something, and every bracket,
      literal and comment in it is closed in it. */
  predicate IsValue(s: string) {
    && s != [] && Run(Plain(0), s) == Plain(0)
    && !IsSpace(s[0]) && !LineStarts(s, 0) && !BlockStarts(s, 0) && !IsSpace(s[|s| - 1])
  }

  /** A gap both readers pass over. */
  ghost predicate IsCleanGap(s: string) { IsGap(s) && Balanced(s) }

  ghost predicate RegularPiece(p: Piece) {
    && IsCleanGap(p.gap) && IsIdentifier(p.key) && IsCleanGap(p.beforeColon) && IsCleanGap(p.afterColon)
    && IsValue(p.value) && Balanced(p.value) && AllSpaces(p.beforeComma) && (p.comma || p.beforeComma == [])
  }

  /** Only the last entry may go without a comma, and nothing but white space follows the last. */
  ghost predicate Tidy(b: Body) {
    && (forall p :: p in b.pieces ==> RegularPiece(p))
    && (forall k :: 0 <= k < |b.pieces| - 1 ==> b.pieces[k].comma)
    && (if b.pieces == [] then IsCleanGap(b.trailing) else AllSpaces(b.trailing))
  }

  /** And no two entries have the same key. */
  ghost predicate Regular(b: Body) { Tidy(b) && DistinctKeys(b.pieces) }

  predicate DistinctKeys(ps: seq<Piece>) {
    forall i, j :: 0 <= i < j < |ps| ==> ps[i].key != ps[j].key
  }

  /** No earlier entry has the key of this one. */
  predicate First(ps: seq<Piece>, k: nat)
    requires k < |ps|
  {
    forall j :: 0 <= j < k ==> ps[j].key != ps[k].key
  }

  // ---------- What the scanner finds ----------

  function EntryOf(p: Piece, i: nat): Entry {
    var start := i + |p.gap|;
    var valueStart := i + |p.Head()|;
    var valueEnd := valueStart + |p.value|;
    Entry(p.key, start, valueStart, valueEnd, valueEnd + |p.Tail()|)
  }

  function Placed(ps: seq<Piece>, i: nat): (r: seq<Entry>)
    ensures |r| == |ps|
  {
    if ps == [] then [] else [EntryOf(ps[0], i)] + Placed(ps[1..], i + |ps[0].Text()|)
  }

  lemma {:induction false} IdentifierEnds(text: string, i: nat, key: string, k: nat)
    requires Has(text, i, key) && i + |key| <= |text| && k <= |key| &&
      (forall j :: 0 <= j < |key| ==> IsIdentifierPart(key[j]))
    requires i + |key| < |text| && !IsIdentifierPart(text[i + |key|])
    ensures IdentifierEnd(text, i + k) == i + |key|
    decreases |key| - k
  {
    if k < |key| {
      HasAt(text, i, key, k);
      IdentifierEnds(text, i, key, k + 1);
    }
  }

  lemma {:induction false} GapStarts(s: string)
    requires IsGap(s) && s != []
    ensures IsSpace(s[0]) || s[0] == '/'
  {
    if !IsSpace(s[0]) && s[0] != '/' { GapHaltStays(s[1..]); }
  }

  /** A gap in the text leads to what follows it. */
  lemma {:induction false} GapLeads(text: string, i: nat, gap: string)
    requires Has(text, i, gap) && IsGap(gap)
    ensures i + |gap| <= |text|
    ensures SkipBlank(text, i) == SkipBlank(text, i + |gap|)
    ensures Entries(text, i) == Entries(text, i + |gap|)
  {
    GapSkips(Plain(0), text, i, gap);
  }

  lemma {:induction false} KeyFound(text: string, start: nat, key: string, gap: string)
    requires IsIdentifier(key) && IsGap(gap)
    requires Has(text, start, key) && Has(text, start + |key|, gap) && Has(text, start + |key| + |gap|, ":")
    ensures start < |text| && !IsSpace(text[start]) && text[start] != ',' && text[start] != '/'
    ensures KeyAt(text, start) == Some((key, start + |key|))
  {
    HasAt(text, start, key, 0);
    if gap == [] {
      HasAt(text, start + |key|, ":", 0);
    } else {
      GapStarts(gap);
      HasAt(text, start + |key|, gap, 0);
    }
    IdentifierEnds(text, start, key, 0);
    HasIff(text, start, key);
  }

  lemma {:induction false} ColonFound(text: string, next: nat, gap: string)
    requires IsGap(gap) && Has(text, next, gap) && Has(text, next + |gap|, ":")
    ensures next + |gap| < |text| && text[next + |gap|] == ':' && SkipBlank(text, next) == next + |gap|
  {
    GapLeads(text, next, gap);
    HasAt(text, next + |gap|, ":", 0);
  }

  lemma {:induction false} LoneCharacter(v: string)
    requires IsValue(v) && |v| == 1
    ensures v[0] != '/'
  {
    assert Run(Plain(0), v) == Run(Step(Plain(0), v[0]), v[1..]) == Step(Plain(0), v[0]);
  }

  /** The value starts right behind the gap. */
  lemma {:induction false} ValueStarts(text: string, i: nat, v: string)
    requires IsValue(v) && Has(text, i, v)
    ensures i + |v| <= |text| && SkipBlank(text, i) == i
  {
    HasAt(text, i, v, 0);
    if |v| == 1 { LoneCharacter(v); } else { HasAt(text, i, v, 1); }
  }

  lemma {:induction false} ValueRead(text: string, i: nat, v: string)
    requires IsValue(v) && Has(text, i, v)
    ensures i + |v| <= |text|
    ensures Stop(Plain(0), text, i) == Stop(Plain(0), text, i + |v|) && !IsSpace(text[i + |v| - 1])
  {
    HasAt(text, i, v, |v| - 1);
    Advance(Plain(0), text, i, v);
  }

  lemma {:induction false} SpacesRead(text: string, i: nat, s: string)
    requires AllSpaces(s) && Has(text, i, s)
    ensures Stop(Plain(0), text, i) == Stop(Plain(0), text, i + |s|)
    decreases |s|
  {
    if s != [] { SpacesRead(text, i + 1, s[1..]); }
  }

  lemma {:induction false} SpacesSkipped(text: string, i: nat, s: string)
    requires AllSpaces(s) && Has(text, i, s)
    ensures SpacesEnd(text, i) == SpacesEnd(text, i + |s|)
    decreases |s|
  {
    if s != [] { SpacesSkipped(text, i + 1, s[1..]); }
  }

  lemma {:induction false} TrimsTo(text: string, end: nat, s: string)
    requires AllSpaces(s) && Has(text, end, s) && end + |s| <= |text| && end > 0 && !IsSpace(text[end - 1])
    ensures Trim(text, end + |s|) == end
    decreases |s|
  {
    if s != [] {
      HasAt(text, end, s, |s| - 1);
      assert s == s[..|s| - 1] + [s[|s| - 1]];
      HasParts(text, end, s[..|s| - 1], [s[|s| - 1]]);
      TrimsTo(text, end, s[..|s| - 1]);
    }
  }

  lemma {:induction false} EndsAtComma(text: string, i: nat, end: nat, comma: nat)
    requires i <= |text| && end <= comma < |text| && text[comma] == ','
    requires Stop(Plain(0), text, i) == Stop(Plain(0), text, comma) && Trim(text, comma) == end
    requires SpacesEnd(text, end) == SpacesEnd(text, comma)
    ensures ValueEnd(text, i) == end && CommaEnd(text, end) == comma + 1
  {
    assert Stop(Plain(0), text, comma) == Ending(comma, false);
    assert SpacesEnd(text, comma) == comma;
  }

  /** A value with its comma. */
  lemma {:induction false} ValueWithComma(text: string, i: nat, v: string, spaces: string)
    requires IsValue(v) && AllSpaces(spaces) && Has(text, i, v) && Has(text, i + |v|, spaces + ",")
    ensures i + |v| <= |text| && ValueEnd(text, i) == i + |v| && CommaEnd(text, i + |v|) == i + |v| + |spaces| + 1
  {
    var end := i + |v|;
    HasParts(text, end, spaces, ",");
    HasAt(text, end + |spaces|, ",", 0);
    ValueRead(text, i, v);
    SpacesRead(text, end, spaces);
    SpacesSkipped(text, end, spaces);
    TrimsTo(text, end, spaces);
    EndsAtComma(text, i, end, end + |spaces|);
  }

  /** A last value without one. */
  lemma {:induction false} ValueWithoutComma(text: string, i: nat, v: string, spaces: string)
    requires IsValue(v) && AllSpaces(spaces) && Has(text, i, v) && Has(text, i + |v|, spaces)
    requires i + |v| + |spaces| == |text|
    ensures i + |v| <= |text| && ValueEnd(text, i) == i + |v| && CommaEnd(text, i + |v|) == i + |v|
  {
    ValueRead(text, i, v);
    SpacesRead(text, i + |v|, spaces);
    SpacesSkipped(text, i + |v|, spaces);
    TrimsTo(text, i + |v|, spaces);
  }

  /** What the scanner meets in one turn: a key, a colon, a value and perhaps a comma. */
  ghost predicate MeetsKey(text: string, start: nat, key: string, next: nat, colon: nat) {
    && start < next <= colon < |text| && text[colon] == ':' && SkipBlank(text, next) == colon
    && !IsSpace(text[start]) && text[start] != ',' && text[start] != '/'
    && KeyAt(text, start) == Some((key, next))
  }

  ghost predicate MeetsValue(text: string, colon: nat, e: Entry) {
    && colon < |text| && SkipBlank(text, colon + 1) == e.valueStart && ValueEnd(text, e.valueStart) == e.valueEnd
    && CommaEnd(text, e.valueEnd) == e.commaEnd
  }

  lemma {:induction false} Turn(text: string, e: Entry, next: nat, colon: nat)
    requires MeetsKey(text, e.start, e.key, next, colon) && MeetsValue(text, colon, e)
    ensures e.commaEnd <= |text| && Entries(text, e.start) == [e] + Entries(text, e.commaEnd)
  {
    assert ValueAt(text, e.start, e.key, colon) == e;
    assert TurnAt(text, e.start) == (Some(e), e.commaEnd);
  }

  lemma {:induction false} PieceKey(text: string, start: nat, key: string, gap: string)
    requires IsIdentifier(key) && IsGap(gap) && Has(text, start, key + gap + ":")
    ensures MeetsKey(text, start, key, start + |key|, start + |key| + |gap|)
  {
    HasParts(text, start, key + gap, ":");
    HasParts(text, start, key, gap);
    KeyFound(text, start, key, gap);
    ColonFound(text, start + |key|, gap);
  }

  lemma {:induction false} PieceValue(text: string, colon: nat, gap: string, v: string, e: Entry)
    requires IsGap(gap) && IsValue(v) && colon < |text| && Has(text, colon + 1, gap + v)
    requires e.valueStart == colon + 1 + |gap| && e.valueEnd == e.valueStart + |v|
    requires ValueEnd(text, e.valueStart) == e.valueEnd && CommaEnd(text, e.valueEnd) == e.commaEnd
    ensures MeetsValue(text, colon, e)
  {
    HasParts(text, colon + 1, gap, v);
    GapLeads(text, colon + 1, gap);
    ValueStarts(text, e.valueStart, v);
  }

  /** The end of a value and of its entry. */
  lemma {:induction false} PieceEnd(text: string, i: nat, p: Piece, rest: string)
    requires IsValue(p.value) && AllSpaces(p.beforeComma) && (p.comma || p.beforeComma == [])
    requires Has(text, i, p.value + p.Tail())
    requires p.comma || (AllSpaces(rest) && Has(text, i + |p.value|, rest) && i + |p.value| + |rest| == |text|)
    ensures ValueEnd(text, i) == i + |p.value| && CommaEnd(text, i + |p.value|) == i + |p.value| + |p.Tail()|
  {
    HasParts(text, i, p.value, p.Tail());
    if p.comma {
      ValueWithComma(text, i, p.value, p.beforeComma);
    } else {
      ValueWithoutComma(text, i, p.value, rest);
    }
  }

  /** The piece in three parts. */
  lemma {:induction false} PieceParts(text: string, p: Piece, i: nat)
    requires Has(text, i, p.Text())
    ensures var start := i + |p.gap|; var colon := start + |p.key| + |p.beforeColon|;
      && Has(text, i, p.gap) && Has(text, start, p.key + p.beforeColon + ":")
      && Has(text, colon + 1, p.afterColon + p.value) && Has(text, i + |p.Head()|, p.value + p.Tail())
  {
    var name := p.key + p.beforeColon + ":";
    assert p.Text() == p.gap + (name + (p.afterColon + (p.value + p.Tail())));
    assert |p.Head()| == |p.gap| + |name| + |p.afterColon|;
    FiveParts(text, i, p.gap, name, p.afterColon, p.value, p.Tail());
  }

  lemma {:induction false} FiveParts(text: string, i: nat, a: string, b: string, c: string, d: string, e: string)
    requires Has(text, i, a + (b + (c + (d + e))))
    ensures Has(text, i, a) && Has(text, i + |a|, b)
    ensures Has(text, i + |a| + |b|, c + d) && Has(text, i + |a| + |b| + |c|, d + e)
  {
    HasParts(text, i, a, b + (c + (d + e)));
    HasParts(text, i + |a|, b, c + (d + e));
    HasParts(text, i + |a| + |b|, c, d + e);
    HasParts(text, i + |a| + |b| + |c|, d, e);
    HasParts(text, i + |a| + |b|, c, d);
  }

  function ColonAt(p: Piece, i: nat): nat { i + |p.gap| + |p.key| + |p.beforeColon| }

  lemma {:induction false} Lengths(p: Piece, i: nat)
    ensures EntryOf(p, i).valueStart == ColonAt(p, i) + 1 + |p.afterColon|
    ensures EntryOf(p, i).commaEnd == i + |p.Text()| == i + |p.Head()| + |p.value| + |p.Tail()|
  {}

  lemma {:induction false} PieceMeetsKey(text: string, p: Piece, i: nat)
    requires RegularPiece(p) && Has(text, i, p.Text())
    ensures MeetsKey(text, i + |p.gap|, p.key, i + |p.gap| + |p.key|, ColonAt(p, i))
  {
    NamePart(text, p, i);
    PieceKey(text, i + |p.gap|, p.key, p.beforeColon);
  }

  lemma {:induction false} NamePart(text: string, p: Piece, i: nat)
    requires Has(text, i, p.Text())
    ensures Has(text, i + |p.gap|, p.key + p.beforeColon + ":")
  {
    PieceParts(text, p, i);
  }

  lemma {:induction false} ValuePart(text: string, p: Piece, i: nat)
    requires Has(text, i, p.Text())
    ensures Has(text, ColonAt(p, i) + 1, p.afterColon + p.value) && Has(text, i + |p.Head()|, p.value + p.Tail())
  {
    PieceParts(text, p, i);
  }

  lemma {:induction false} PieceGap(text: string, p: Piece, i: nat)
    requires IsGap(p.gap) && Has(text, i, p.Text())
    ensures Entries(text, i) == Entries(text, i + |p.gap|)
  {
    PieceParts(text, p, i);
    GapLeads(text, i, p.gap);
  }

  lemma {:induction false} PieceEnds(text: string, p: Piece, i: nat, rest: string)
    requires RegularPiece(p) && Has(text, i + |p.Head()|, p.value + p.Tail())
    requires p.comma || (AllSpaces(rest) && Has(text, i + |p.Text()|, rest) && i + |p.Text()| + |rest| == |text|)
    ensures var e := EntryOf(p, i);
      e.valueEnd <= |text| && ValueEnd(text, e.valueStart) == e.valueEnd && CommaEnd(text, e.valueEnd) == e.commaEnd
  {
    Lengths(p, i);
    PieceEnd(text, i + |p.Head()|, p, rest);
  }

  lemma {:induction false} PieceMeetsValue(text: string, p: Piece, i: nat, rest: string)
    requires RegularPiece(p) && Has(text, i, p.Text()) && ColonAt(p, i) < |text|
    requires p.comma || (AllSpaces(rest) && Has(text, i + |p.Text()|, rest) && i + |p.Text()| + |rest| == |text|)
    ensures MeetsValue(text, ColonAt(p, i), EntryOf(p, i))
  {
    Lengths(p, i);
    ValuePart(text, p, i);
    PieceEnds(text, p, i, rest);
    PieceValue(text, ColonAt(p, i), p.afterColon, p.value, EntryOf(p, i));
  }

  /** The piece is the next entry of a text that holds it. */
  lemma {:induction false} PieceScanned(text: string, p: Piece, i: nat, rest: string)
    requires RegularPiece(p) && Has(text, i, p.Text())
    requires p.comma || (AllSpaces(rest) && Has(text, i + |p.Text()|, rest) && i + |p.Text()| + |rest| == |text|)
    ensures Entries(text, i) == [EntryOf(p, i)] + Entries(text, i + |p.Text()|)
  {
    Lengths(p, i);
    PieceGap(text, p, i);
    PieceTurn(text, p, i, rest);
  }

  lemma {:induction false} PieceTurn(text: string, p: Piece, i: nat, rest: string)
    requires RegularPiece(p) && Has(text, i, p.Text())
    requires p.comma || (AllSpaces(rest) && Has(text, i + |p.Text()|, rest) && i + |p.Text()| + |rest| == |text|)
    ensures var e := EntryOf(p, i); e.commaEnd <= |text| && Entries(text, e.start) == [e] + Entries(text, e.commaEnd)
  {
    PieceMeetsKey(text, p, i);
    PieceMeetsValue(text, p, i, rest);
    TurnOf(text, p, i);
  }

  lemma {:induction false} TurnOf(text: string, p: Piece, i: nat)
    requires MeetsKey(text, i + |p.gap|, p.key, i + |p.gap| + |p.key|, ColonAt(p, i))
    requires MeetsValue(text, ColonAt(p, i), EntryOf(p, i))
    ensures var e := EntryOf(p, i); e.commaEnd <= |text| && Entries(text, e.start) == [e] + Entries(text, e.commaEnd)
  {
    Turn(text, EntryOf(p, i), i + |p.gap| + |p.key|, ColonAt(p, i));
  }

  /** The scanner finds exactly the entries of a tidy body, where they are. */
  lemma {:induction false} BodyScanned(text: string, b: Body, i: nat)
    requires Tidy(b) && Has(text, i, Render(b)) && i + |Render(b)| == |text|
    ensures Entries(text, i) == Placed(b.pieces, i)
    decreases |b.pieces|
  {
    if b.pieces == [] {
      assert Render(b) == b.trailing;
      GapLeads(text, i, b.trailing);
    } else {
      HeadScanned(text, b, i);
      TidyRest(b);
      BodyScanned(text, Body(b.pieces[1..], b.trailing), i + |b.pieces[0].Text()|);
    }
  }

  lemma {:induction false} HeadScanned(text: string, b: Body, i: nat)
    requires Tidy(b) && Has(text, i, Render(b)) && i + |Render(b)| == |text| && b.pieces != []
    ensures var n := i + |b.pieces[0].Text()|; var rest := Body(b.pieces[1..], b.trailing);
      && Has(text, n, Render(rest)) && n + |Render(rest)| == |text|
      && Entries(text, i) == [EntryOf(b.pieces[0], i)] + Entries(text, n)
  {
    var p, rest := b.pieces[0], Body(b.pieces[1..], b.trailing);
    TidyRest(b);
    HasParts(text, i, p.Text(), Render(rest));
    PieceScanned(text, p, i, Render(rest));
  }

  lemma {:induction false} TidyRest(b: Body)
    requires Tidy(b) && b.pieces != []
    ensures var rest := Body(b.pieces[1..], b.trailing);
      && RegularPiece(b.pieces[0]) && Tidy(rest) && Render(b) == b.pieces[0].Text() + Render(rest)
      && (b.pieces[0].comma || (rest.pieces == [] && AllSpaces(Render(rest))))
  {
    var rest := Body(b.pieces[1..], b.trailing);
    assert b.pieces[0] in b.pieces && forall q :: q in rest.pieces ==> q in b.pieces;
    assert Render(b) == b.pieces[0].Text() + Render(rest);
    if rest.pieces == [] {
      SpacesClean(b.trailing);
      assert Render(rest) == b.trailing;
    }
  }

  lemma {:induction false} SpacesClean(s: string)
    requires AllSpaces(s)
    ensures IsCleanGap(s)
  {
    SpacesAreGap(s);
    OrdinaryBalanced(s);
  }
}
