/** Rewriting the entries of an object literal in place: the shape both loops of
    internal/service/logging.go share (patchLoggingBody over the handlers, and
    mergeLoggingHandlerValue over the properties of one). */
module JsPatch {
  import opened Wrappers
  import opened JsScan
  import opened JsBraces
  import opened JsObject
  import opened JsEdit
  import opened JsInsert

  /** What is to become of a name: nothing, or a new value. */
  datatype Change = Keep | Put(text: string)

  /** The change for a name, given its current value if it has one. */
  type Plan = (string, Option<string>) -> Change

  /** The first entry with the name. */
  function Find(entries: seq<Entry>, key: string): (r: Option<Entry>)
    ensures r.Some? ==> r.value in entries && r.value.key == key
  {
    if entries == [] then None else if entries[0].key == key then Some(entries[0]) else Find(entries[1..], key)
  }

  method FirstByKey(entries: seq<Entry>) returns (m: map<string, Entry>)
    ensures forall key :: (key in m <==> Find(entries, key).Some?) && (key in m ==> m[key] == Find(entries, key).value)
  {
    m := map[];
    for i := 0 to |entries|
      invariant forall key :: Seen(m, key) == Find(entries[..i], key)
    {
      ghost var before := m;
      if entries[i].key !in m { m := m[entries[i].key := entries[i]]; }
      forall key ensures Seen(m, key) == Find(entries[..i + 1], key) {
        assert entries[..i + 1] == entries[..i] + [entries[i]];
        FindAppend(entries[..i], entries[i], key);
        assert Seen(before, key) == Find(entries[..i], key);
        assert Seen(before, entries[i].key) == Find(entries[..i], entries[i].key);
      }
    }
    assert entries[..|entries|] == entries;
    assert forall key :: Seen(m, key) == Find(entries, key);
  }

  function Seen(m: map<string, Entry>, key: string): Option<Entry> {
    if key in m then Some(m[key]) else None
  }

  lemma {:induction false} FindAppend(entries: seq<Entry>, e: Entry, key: string)
    ensures Find(entries + [e], key) ==
      if Find(entries, key).Some? then Find(entries, key) else if e.key == key then Some(e) else None
  {
    if entries != [] {
      assert (entries + [e])[1..] == entries[1..] + [e];
      FindAppend(entries[1..], e, key);
    }
  }

  /** The values that are looked at have a span; slicing an inverted one is a panic. */
  ghost predicate Upright(entries: seq<Entry>, body: string) {
    forall e :: e in entries ==> IsUpright(e, body)
  }

  predicate IsUpright(e: Entry, body: string) { e.valueStart <= e.valueEnd <= |body| }

  function Current(body: string, entries: seq<Entry>, name: string): Option<string> {
    var e := Find(entries, name);
    if e.Some? && IsUpright(e.value, body) then Some(body[e.value.valueStart..e.value.valueEnd]) else None
  }

  function EditOf(e: Entry, text: string): Edit { Edit(e.valueStart, e.valueEnd, text) }

  /** The edit for one name, if there is one. */
  function EditFor(body: string, entries: seq<Entry>, name: string, plan: Plan): seq<Edit> {
    var c := plan(name, Current(body, entries, name));
    if c.Keep? || Find(entries, name).None? then [] else [EditOf(Find(entries, name).value, c.text)]
  }

  function Edits(body: string, entries: seq<Entry>, names: seq<string>, plan: Plan): seq<Edit> {
    if names == [] then []
    else Edits(body, entries, names[..|names| - 1], plan) + EditFor(body, entries, names[|names| - 1], plan)
  }

  /** The new entries, for the names that have none. */
  function Missing(entries: seq<Entry>, names: seq<string>, plan: Plan): seq<Literal> {
    if names == [] then []
    else
      var name := names[|names| - 1];
      var c := plan(name, None);
      Missing(entries, names[..|names| - 1], plan) +
        if Find(entries, name).None? && c.Put? then [Literal(name, c.text)] else []
  }

  ghost predicate Inside(entries: seq<Entry>, body: string) {
    forall e :: e in entries ==> e.start <= |body|
  }

  /** All the edits: those of the values, and the one that inserts what is missing. */
  function AllEdits(body: string, entries: seq<Entry>, edits: seq<Edit>, missing: seq<Literal>): seq<Edit>
    requires Inside(entries, body)
  {
    edits + if missing == [] then [] else [InsertEntries(body, entries, LiteralTexts(missing))]
  }

  // ---------- On the pieces of a tidy body ----------

  /** The new value of each piece that gets one: of the entries of a name, the first. */
  function Changes(ps: seq<Piece>, names: set<string>, plan: Plan): (r: seq<Option<string>>)
    ensures |r| == |ps|
  {
    if ps == [] then []
    else
      var c := plan(ps[0].key, Some(ps[0].value));
      [if ps[0].key in names && c.Put? then Some(c.text) else None] + Changes(ps[1..], names - {ps[0].key}, plan)
  }

  function Members(names: seq<string>): set<string> { set name | name in names }

  function Replaced(ps: seq<Piece>, cs: seq<Option<string>>): (r: seq<Piece>)
    requires |cs| == |ps|
    ensures |r| == |ps|
  {
    if ps == [] then []
    else [Changed(ps[0], cs[0])] + Replaced(ps[1..], cs[1..])
  }

  /** The edits of the values, in the order of the text. */
  function ValueEdits(ps: seq<Piece>, i: nat, cs: seq<Option<string>>): seq<Edit>
    requires |cs| == |ps|
  {
    if ps == [] then []
    else
      (if cs[0].Some? then [EditOf(EntryOf(ps[0], i), cs[0].value)] else []) +
      ValueEdits(ps[1..], i + |ps[0].Text()|, cs[1..])
  }


  // ---------- One splice rewrites the pieces ----------

  lemma {:induction false} SpliceHas(text: string, i: nat, s: string, m: map<nat, Edit>)
    requires Has(text, i, s) && Spans(m, |text|) && forall k :: i <= k < i + |s| ==> k !in m
    ensures Splice(text, i, m) == s + Splice(text, i + |s|, m)
  {
    HasIff(text, i, s);
    SpliceCopies(text, i, i + |s|, m);
  }

  lemma {:induction false} SpliceChanged(text: string, i: nat, head: string, value: string, tail: string, put: string,
      m: map<nat, Edit>)
    requires var v := i + |head|; var w := v + |value|;
      && Has(text, i, head) && Has(text, w, tail) && Spans(m, |text|) && value != []
      && v in m && m[v] == Edit(v, w, put) && forall k :: k in m && i <= k < w + |tail| ==> k == v
    ensures Splice(text, i, m) == head + put + tail + Splice(text, i + |head| + |value| + |tail|, m)
  {
    var v := i + |head|;
    SpliceHas(text, i, head, m);
    SpliceHas(text, v + |value|, tail, m);
    var end := Splice(text, v + |value| + |tail|, m);
    assert Splice(text, v, m) == put + Splice(text, v + |value|, m);
    Chain(Splice(text, i, m), head, Splice(text, v, m), put, Splice(text, v + |value|, m));
    Chain(Splice(text, i, m), head + put, Splice(text, v + |value|, m), tail, end);
  }

  function Changed(p: Piece, c: Option<string>): Piece { if c.Some? then p.(value := c.value) else p }

  lemma {:induction false} SplicePiece(text: string, i: nat, p: Piece, c: Option<string>, m: map<nat, Edit>)
    requires Has(text, i, p.Text()) && Spans(m, |text|) && HoldsPiece(m, p, i, c)
    ensures Splice(text, i, m) == Changed(p, c).Text() + Splice(text, i + |p.Text()|, m)
  {
    if c.None? {
      SpliceHas(text, i, p.Text(), m);
    } else {
      HasParts(text, i, p.Head() + p.value, p.Tail());
      HasParts(text, i, p.Head(), p.value);
      SpliceChanged(text, i, p.Head(), p.value, p.Tail(), c.value, m);
      assert p.(value := c.value).Head() == p.Head();
    }
  }

  predicate Filled(ps: seq<Piece>) { ps != [] ==> ps[0].value != [] && Filled(ps[1..]) }

  /** The map holds exactly the edits of these pieces, where they are. */
  ghost predicate Holds(m: map<nat, Edit>, ps: seq<Piece>, i: nat, cs: seq<Option<string>>)
    requires |cs| == |ps|
  {
    && (forall e :: e in ValueEdits(ps, i, cs) ==> e.start in m && m[e.start] == e)
    && (forall k :: k in m && i <= k < i + |Texts(ps)| ==> m[k] in ValueEdits(ps, i, cs))
  }

  lemma {:induction false} ValueEditsBounds(ps: seq<Piece>, i: nat, cs: seq<Option<string>>)
    requires |cs| == |ps|
    ensures forall e :: e in ValueEdits(ps, i, cs) ==> i <= e.start <= e.end <= i + |Texts(ps)|
  {
    if ps != [] { ValueEditsBounds(ps[1..], i + |ps[0].Text()|, cs[1..]); }
  }

  /** The map holds the edit of this piece and no other inside it. */
  ghost predicate HoldsPiece(m: map<nat, Edit>, p: Piece, i: nat, c: Option<string>) {
    && p.value != []
    && (forall k :: k in m && i <= k < i + |p.Text()| ==> k == i + |p.Head()| && c.Some?)
    && (c.Some? ==> var e := EditOf(EntryOf(p, i), c.value); e.start in m && m[e.start] == e)
  }

  ghost predicate HoldsEach(m: map<nat, Edit>, ps: seq<Piece>, i: nat, cs: seq<Option<string>>)
    requires |cs| == |ps|
  {
    ps != [] ==> HoldsPiece(m, ps[0], i, cs[0]) && HoldsEach(m, ps[1..], i + |ps[0].Text()|, cs[1..])
  }

  ghost predicate ByStarts(m: map<nat, Edit>) { forall k :: k in m ==> m[k].start == k }

  lemma {:induction false} HoldsHead(m: map<nat, Edit>, ps: seq<Piece>, i: nat, cs: seq<Option<string>>)
    requires |cs| == |ps| && ps != [] && ps[0].value != [] && Holds(m, ps, i, cs) && ByStarts(m)
    ensures HoldsPiece(m, ps[0], i, cs[0])
  {
    var n := i + |ps[0].Text()|;
    var head, rest := ValueEdits(ps, i, cs), ValueEdits(ps[1..], n, cs[1..]);
    ValueEditsBounds(ps[1..], n, cs[1..]);
    forall k | k in m && i <= k < n ensures k == i + |ps[0].Head()| && cs[0].Some? {
      assert m[k] in head && m[k] !in rest;
    }
  }

  lemma {:induction false} HoldsTail(m: map<nat, Edit>, ps: seq<Piece>, i: nat, cs: seq<Option<string>>)
    requires |cs| == |ps| && ps != [] && ps[0].value != [] && Holds(m, ps, i, cs) && ByStarts(m)
    ensures Holds(m, ps[1..], i + |ps[0].Text()|, cs[1..])
  {
    var n := i + |ps[0].Text()|;
    var head, rest := ValueEdits(ps, i, cs), ValueEdits(ps[1..], n, cs[1..]);
    forall k | k in m && n <= k < n + |Texts(ps[1..])| ensures m[k] in rest {
      assert m[k] in head;
    }
  }

  lemma {:induction false} HoldsSplit(m: map<nat, Edit>, ps: seq<Piece>, i: nat, cs: seq<Option<string>>)
    requires |cs| == |ps| && Holds(m, ps, i, cs) && Filled(ps) && ByStarts(m)
    ensures HoldsEach(m, ps, i, cs)
    decreases |ps|
  {
    if ps != [] {
      HoldsHead(m, ps, i, cs);
      HoldsTail(m, ps, i, cs);
      HoldsSplit(m, ps[1..], i + |ps[0].Text()|, cs[1..]);
    }
  }

  lemma {:induction false} SplicePieces(text: string, i: nat, ps: seq<Piece>, cs: seq<Option<string>>,
      m: map<nat, Edit>)
    requires |cs| == |ps| && Has(text, i, Texts(ps)) && Spans(m, |text|) && HoldsEach(m, ps, i, cs)
    ensures Splice(text, i, m) == Texts(Replaced(ps, cs)) + Splice(text, i + |Texts(ps)|, m)
    decreases |ps|
  {
    if ps != [] {
      HasNext(text, i, ps);
      SplicePieces(text, i + |ps[0].Text()|, ps[1..], cs[1..], m);
      SpliceFirst(text, i, ps, cs, m, Splice(text, i + |Texts(ps)|, m));
    }
  }

  lemma {:induction false} SpliceFirst(text: string, i: nat, ps: seq<Piece>, cs: seq<Option<string>>,
      m: map<nat, Edit>, end: string)
    requires |cs| == |ps| && ps != [] && Has(text, i, ps[0].Text()) && Spans(m, |text|)
    requires HoldsPiece(m, ps[0], i, cs[0])
    requires Splice(text, i + |ps[0].Text()|, m) == Texts(Replaced(ps[1..], cs[1..])) + end
    ensures Splice(text, i, m) == Texts(Replaced(ps, cs)) + end
  {
    SplicePiece(text, i, ps[0], cs[0], m);
    SpliceOn(ps, cs, Splice(text, i, m), Splice(text, i + |ps[0].Text()|, m), end);
  }

  lemma {:induction false} SpliceOn(ps: seq<Piece>, cs: seq<Option<string>>, all: string, behind: string, end: string)
    requires |cs| == |ps| && ps != []
    requires all == Changed(ps[0], cs[0]).Text() + behind && behind == Texts(Replaced(ps[1..], cs[1..])) + end
    ensures all == Texts(Replaced(ps, cs)) + end
  {
    ReplacedText(ps, cs);
    Chain(all, Changed(ps[0], cs[0]).Text(), behind, Texts(Replaced(ps[1..], cs[1..])), end);
  }

  lemma {:induction false} Chain(a: string, x: string, b: string, y: string, c: string)
    requires a == x + b && b == y + c
    ensures a == (x + y) + c
  {}

  lemma {:induction false} HasNext(text: string, i: nat, ps: seq<Piece>)
    requires ps != [] && Has(text, i, Texts(ps))
    ensures Has(text, i, ps[0].Text()) && Has(text, i + |ps[0].Text()|, Texts(ps[1..]))
  {
    HasParts(text, i, ps[0].Text(), Texts(ps[1..]));
  }

  lemma {:induction false} ReplacedText(ps: seq<Piece>, cs: seq<Option<string>>)
    requires |cs| == |ps| && ps != []
    ensures Texts(Replaced(ps, cs)) == Changed(ps[0], cs[0]).Text() + Texts(Replaced(ps[1..], cs[1..]))
    ensures Texts(ps) == ps[0].Text() + Texts(ps[1..])
  {
    assert Replaced(ps, cs)[1..] == Replaced(ps[1..], cs[1..]);
  }

  /** Two lists of edits with the same members hold the same. */
  lemma {:induction false} HoldsOf(edits: seq<Edit>, ps: seq<Piece>, i: nat, cs: seq<Option<string>>, more: seq<Edit>,
      length: nat)
    requires |cs| == |ps| && Disjoint(edits, length)
    requires forall e :: e in edits <==> e in ValueEdits(ps, i, cs) || e in more
    requires forall e :: e in more ==> i + |Texts(ps)| <= e.start
    ensures Holds(ByStart(edits), ps, i, cs)
  {
    var m := ByStart(edits);
    forall e | e in ValueEdits(ps, i, cs) ensures e.start in m && m[e.start] == e {
      ByStartHas(edits, length, e);
    }
  }

  // ---------- Which edits there are ----------

  lemma {:induction false} PlacedAt(ps: seq<Piece>, i: nat, k: nat)
    requires k < |ps|
    ensures Placed(ps, i)[k].key == ps[k].key
    ensures i <= Placed(ps, i)[k].start && Placed(ps, i)[k].commaEnd <= i + |Texts(ps)|
    ensures Placed(ps, i)[k].valueEnd == Placed(ps, i)[k].valueStart + |ps[k].value| <= Placed(ps, i)[k].commaEnd
    ensures Placed(ps, i)[k].start <= Placed(ps, i)[k].valueStart
    decreases k
  {
    if k > 0 { PlacedAt(ps[1..], i + |ps[0].Text()|, k - 1); }
  }

  lemma {:induction false} PlacedValue(ps: seq<Piece>, i: nat, k: nat, text: string)
    requires k < |ps| && Has(text, i, Texts(ps))
    ensures Has(text, Placed(ps, i)[k].valueStart, ps[k].value)
    decreases k
  {
    PlacedAt(ps, i, k);
    var p := ps[0];
    HasParts(text, i, p.Text(), Texts(ps[1..]));
    if k > 0 {
      PlacedValue(ps[1..], i + |p.Text()|, k - 1, text);
    } else {
      HasParts(text, i, p.Head() + p.value, p.Tail());
      HasParts(text, i, p.Head(), p.value);
    }
  }

  lemma {:induction false} FindFirst(entries: seq<Entry>, k: nat)
    requires k < |entries| && forall j :: 0 <= j < k ==> entries[j].key != entries[k].key
    ensures Find(entries, entries[k].key) == Some(entries[k])
    decreases k
  {
    if k > 0 { FindFirst(entries[1..], k - 1); }
  }

  lemma {:induction false} FindIndex(entries: seq<Entry>, name: string) returns (k: nat)
    requires Find(entries, name).Some?
    ensures k < |entries| && entries[k].key == name && forall j :: 0 <= j < k ==> entries[j].key != name
  {
    if entries[0].key == name {
      k := 0;
    } else {
      var l := FindIndex(entries[1..], name);
      k := l + 1;
    }
  }

  lemma {:induction false} KeyFindable(entries: seq<Entry>, k: nat)
    requires k < |entries|
    ensures Find(entries, entries[k].key).Some?
    decreases k
  {
    if k > 0 { KeyFindable(entries[1..], k - 1); }
  }

  lemma {:induction false} ChangesAt(ps: seq<Piece>, names: set<string>, plan: Plan, k: nat)
    requires k < |ps|
    ensures var c := plan(ps[k].key, Some(ps[k].value));
      Changes(ps, names, plan)[k] == if First(ps, k) && ps[k].key in names && c.Put? then Some(c.text) else None
    decreases k
  {
    if k > 0 {
      FirstLater(ps, k);
      ChangesAt(ps[1..], names - {ps[0].key}, plan, k - 1);
    }
  }

  lemma {:induction false} FirstLater(ps: seq<Piece>, k: nat)
    requires 0 < k < |ps|
    ensures First(ps, k) <==> ps[0].key != ps[k].key && First(ps[1..], k - 1)
  {
    if ps[0].key != ps[k].key && First(ps[1..], k - 1) {
      forall j | 0 <= j < k ensures ps[j].key != ps[k].key {
        if j > 0 { assert ps[1..][j - 1].key != ps[1..][k - 1].key; }
      }
    }
    if First(ps, k) {
      forall j | 0 <= j < k - 1 ensures ps[1..][j].key != ps[1..][k - 1].key { assert ps[j + 1].key != ps[k].key; }
    }
  }

  lemma {:induction false} ValueEditsHas(ps: seq<Piece>, i: nat, cs: seq<Option<string>>, k: nat)
    requires |cs| == |ps| && k < |ps| && cs[k].Some?
    ensures EditOf(Placed(ps, i)[k], cs[k].value) in ValueEdits(ps, i, cs)
    decreases k
  {
    PlacedAt(ps, i, k);
    if k > 0 { ValueEditsHas(ps[1..], i + |ps[0].Text()|, cs[1..], k - 1); }
  }

  lemma {:induction false} ValueEditsFrom(ps: seq<Piece>, i: nat, cs: seq<Option<string>>, e: Edit) returns (k: nat)
    requires |cs| == |ps| && e in ValueEdits(ps, i, cs)
    ensures k < |ps| && cs[k].Some? && e == EditOf(Placed(ps, i)[k], cs[k].value)
    decreases |ps|
  {
    PlacedAt(ps, i, 0);
    var rest := ValueEdits(ps[1..], i + |ps[0].Text()|, cs[1..]);
    if e in rest {
      var l := ValueEditsFrom(ps[1..], i + |ps[0].Text()|, cs[1..], e);
      k := l + 1;
    } else {
      k := 0;
    }
  }

  lemma {:induction false} EditsHas(body: string, entries: seq<Entry>, names: seq<string>, plan: Plan, name: string)
    requires Upright(entries, body) && name in names
    ensures forall e :: e in EditFor(body, entries, name, plan) ==> e in Edits(body, entries, names, plan)
  {
    if name != names[|names| - 1] { EditsHas(body, entries, names[..|names| - 1], plan, name); }
  }

  lemma {:induction false} EditsFrom(body: string, entries: seq<Entry>, names: seq<string>, plan: Plan, e: Edit)
      returns (name: string)
    requires Upright(entries, body) && e in Edits(body, entries, names, plan)
    ensures name in names && e in EditFor(body, entries, name, plan)
  {
    if e in EditFor(body, entries, names[|names| - 1], plan) {
      name := names[|names| - 1];
    } else {
      name := EditsFrom(body, entries, names[..|names| - 1], plan, e);
    }
  }

  predicate Distinct(names: seq<string>) { forall i, j :: 0 <= i < j < |names| ==> names[i] != names[j] }

  /** What scanning the text of a tidy body gives. */
  ghost predicate Scanned(b: Body, text: string, entries: seq<Entry>) {
    && Tidy(b) && text == Render(b) && entries == Placed(b.pieces, 0) && InOrder(text, 0, entries)
    && Has(text, 0, Texts(b.pieces)) && Has(text, |Texts(b.pieces)|, b.trailing)
  }

  lemma {:induction false} ScanOf(b: Body)
    requires Tidy(b)
    ensures Scanned(b, Render(b), Entries(Render(b), 0))
  {
    var text := Render(b);
    HasIff(text, 0, text);
    assert text[0..|text|] == text;
    HasParts(text, 0, Texts(b.pieces), b.trailing);
    BodyScanned(text, b, 0);
    EntriesInOrder(text, 0);
  }

  lemma {:induction false} ScannedKeys(b: Body, text: string, entries: seq<Entry>)
    requires Scanned(b, text, entries)
    ensures |entries| == |b.pieces| && forall k :: 0 <= k < |entries| ==> entries[k].key == b.pieces[k].key
    ensures forall k :: 0 <= k < |entries| ==>
      entries[k].valueStart < entries[k].valueEnd <= entries[k].commaEnd <= |Texts(b.pieces)|
    ensures Upright(entries, text) && Inside(entries, text)
  {
    forall k | 0 <= k < |entries|
      ensures entries[k].key == b.pieces[k].key &&
        entries[k].valueStart < entries[k].valueEnd <= entries[k].commaEnd <= |Texts(b.pieces)|
    {
      assert b.pieces[k] in b.pieces;
      PlacedAt(b.pieces, 0, k);
    }
    forall e | e in entries ensures e.valueStart <= e.valueEnd <= |text| && e.start <= |text| {
      var k :| 0 <= k < |entries| && entries[k] == e;
    }
  }

  lemma {:induction false} CurrentIs(b: Body, text: string, entries: seq<Entry>, k: nat)
    requires Scanned(b, text, entries) && k < |b.pieces| && First(b.pieces, k) && Upright(entries, text)
    ensures Find(entries, b.pieces[k].key) == Some(entries[k])
    ensures Current(text, entries, b.pieces[k].key) == Some(b.pieces[k].value)
  {
    KeyIsFound(b, text, entries, k);
    ValueSlice(b.pieces, 0, k, text);
  }

  lemma {:induction false} KeyIsFound(b: Body, text: string, entries: seq<Entry>, k: nat)
    requires Scanned(b, text, entries) && k < |b.pieces| && First(b.pieces, k)
    ensures Find(entries, b.pieces[k].key) == Some(entries[k])
  {
    ScannedKeys(b, text, entries);
    FindFirst(entries, k);
  }

  lemma {:induction false} ValueSlice(ps: seq<Piece>, i: nat, k: nat, text: string)
    requires k < |ps| && Has(text, i, Texts(ps))
    ensures var e := Placed(ps, i)[k];
      e.valueStart <= e.valueEnd <= |text| && text[e.valueStart..e.valueEnd] == ps[k].value
  {
    PlacedAt(ps, i, k);
    PlacedValue(ps, i, k, text);
    HasIff(text, Placed(ps, i)[k].valueStart, ps[k].value);
  }

  /** A name that is found is the key of a piece, the first that has it. */
  lemma {:induction false} FoundPiece(b: Body, text: string, entries: seq<Entry>, name: string) returns (k: nat)
    requires Scanned(b, text, entries) && Upright(entries, text) && Find(entries, name).Some?
    ensures k < |b.pieces| && b.pieces[k].key == name && First(b.pieces, k) && Find(entries, name) == Some(entries[k])
    ensures Current(text, entries, name) == Some(b.pieces[k].value)
  {
    k := FindIndex(entries, name);
    ScannedKeys(b, text, entries);
    CurrentIs(b, text, entries, k);
  }

  /** The edits the loop collects are the edits of the pieces. */
  lemma {:induction false} EditsAreValueEdits(b: Body, text: string, entries: seq<Entry>, names: seq<string>,
      plan: Plan)
    requires Scanned(b, text, entries) && Upright(entries, text)
    ensures SameMembers(Edits(text, entries, names, plan),
      ValueEdits(b.pieces, 0, Changes(b.pieces, Members(names), plan)))
  {
    var ps, cs := b.pieces, Changes(b.pieces, Members(names), plan);
    forall e | e in Edits(text, entries, names, plan) ensures e in ValueEdits(ps, 0, cs) {
      EditIsValueEdit(b, text, entries, names, plan, e);
    }
    forall e | e in ValueEdits(ps, 0, cs) ensures e in Edits(text, entries, names, plan) {
      ValueEditIsEdit(b, text, entries, names, plan, e);
    }
  }

  lemma {:induction false} EditIsValueEdit(b: Body, text: string, entries: seq<Entry>, names: seq<string>, plan: Plan,
      e: Edit)
    requires Scanned(b, text, entries) && Upright(entries, text) && e in Edits(text, entries, names, plan)
    ensures e in ValueEdits(b.pieces, 0, Changes(b.pieces, Members(names), plan))
  {
    var name := EditsFrom(text, entries, names, plan, e);
    var k := FoundPiece(b, text, entries, name);
    ChangesAt(b.pieces, Members(names), plan, k);
    ValueEditsHas(b.pieces, 0, Changes(b.pieces, Members(names), plan), k);
  }

  lemma {:induction false} ValueEditIsEdit(b: Body, text: string, entries: seq<Entry>, names: seq<string>, plan: Plan,
      e: Edit)
    requires Scanned(b, text, entries) && Upright(entries, text) &&
      e in ValueEdits(b.pieces, 0, Changes(b.pieces, Members(names), plan))
    ensures e in Edits(text, entries, names, plan)
  {
    var k := ValueEditsFrom(b.pieces, 0, Changes(b.pieces, Members(names), plan), e);
    ChangesAt(b.pieces, Members(names), plan, k);
    CurrentIs(b, text, entries, k);
    EditsHas(text, entries, names, plan, b.pieces[k].key);
  }

  /** An edit of a value is the span of an entry. */
  lemma {:induction false} EditSpan(b: Body, text: string, entries: seq<Entry>, names: seq<string>, plan: Plan, e: Edit)
    returns (name: string, k: nat)
    requires Scanned(b, text, entries) && Upright(entries, text) && e in Edits(text, entries, names, plan)
    ensures name in names && k < |entries| && entries[k].key == name && e.start == entries[k].valueStart &&
      e.end == entries[k].valueEnd
    ensures e.start < e.end <= |Texts(b.pieces)|
  {
    name := EditsFrom(text, entries, names, plan, e);
    k := FoundPiece(b, text, entries, name);
    ScannedKeys(b, text, entries);
  }

  /** Different names have edits that start apart. */
  lemma {:induction false} EditsApart(b: Body, text: string, entries: seq<Entry>, names: seq<string>, plan: Plan)
    requires Scanned(b, text, entries) && Upright(entries, text) && Distinct(names)
    ensures StartsDiffer(Edits(text, entries, names, plan))
    decreases |names|
  {
    if names != [] {
      var init, last := names[..|names| - 1], names[|names| - 1];
      EditsApart(b, text, entries, init, plan);
      var before, added := Edits(text, entries, init, plan), EditFor(text, entries, last, plan);
      forall e, f | e in before && f in added ensures e.start != f.start {
        var name, k := EditSpan(b, text, entries, init, plan, e);
        var l := FoundPiece(b, text, entries, last);
        ScannedKeys(b, text, entries);
        SpansApart(text, entries, k, l);
      }
      AppendApart(before, added);
    }
  }

  lemma {:induction false} SpansApart(text: string, entries: seq<Entry>, k: nat, l: nat)
    requires InOrder(text, 0, entries) && k < |entries| && l < |entries| && entries[k].key != entries[l].key
    requires entries[k].valueStart < entries[k].valueEnd && entries[l].valueStart < entries[l].valueEnd
    ensures entries[k].valueStart != entries[l].valueStart
  {
    if k < l {
      assert entries[k].commaEnd <= entries[l].start;
    } else {
      assert entries[l].commaEnd <= entries[k].start;
    }
  }

  lemma {:induction false} EditsDisjoint(b: Body, text: string, entries: seq<Entry>, names: seq<string>, plan: Plan)
    requires Scanned(b, text, entries) && Upright(entries, text) && Distinct(names)
    ensures Disjoint(Edits(text, entries, names, plan), |text|)
  {
    var es := Edits(text, entries, names, plan);
    EditsApart(b, text, entries, names, plan);
    forall e | e in es ensures e.start <= e.end <= |text| {
      var _, _ := EditSpan(b, text, entries, names, plan, e);
    }
    forall i, j | 0 <= i < j < |es| ensures Before(es[i], es[j]) || Before(es[j], es[i]) {
      var _, k := EditSpan(b, text, entries, names, plan, es[i]);
      var _, l := EditSpan(b, text, entries, names, plan, es[j]);
      SpansOrdered(text, entries, k, l, es[i], es[j]);
    }
  }

  lemma {:induction false} SpansOrdered(text: string, entries: seq<Entry>, k: nat, l: nat, e: Edit, f: Edit)
    requires InOrder(text, 0, entries) && k < |entries| && l < |entries| && e.start != f.start
    requires e.start == entries[k].valueStart < e.end == entries[k].valueEnd
    requires f.start == entries[l].valueStart < f.end == entries[l].valueEnd
    ensures Before(e, f) || Before(f, e)
  {
    if k < l {
      assert entries[k].commaEnd <= entries[l].start;
    } else {
      assert entries[l].commaEnd <= entries[k].start;
    }
  }

  ghost predicate StartsDiffer(es: seq<Edit>) { forall i, j :: 0 <= i < j < |es| ==> es[i].start != es[j].start }

  lemma {:induction false} AppendApart(a: seq<Edit>, c: seq<Edit>)
    requires StartsDiffer(a) && |c| <= 1 && forall e, f :: e in a && f in c ==> e.start != f.start
    ensures StartsDiffer(a + c)
  {
    var all := a + c;
    forall i, j | 0 <= i < j < |all| ensures all[i].start != all[j].start {
      if j >= |a| { assert all[i] in a && all[j] in c; }
    }
  }

  // ---------- What the patch makes of a tidy body ----------

  /** The body after the patch. */
  function PatchedBody(b: Body, names: seq<string>, plan: Plan, missing: seq<Literal>, layout: Layout): Body {
    Extend(Body(Replaced(b.pieces, Changes(b.pieces, Members(names), plan)), b.trailing), missing, layout)
  }

  lemma {:induction false} LastOfPiece(p: Piece)
    requires RegularPiece(p)
    ensures var t := p.Text(); t != [] && !IsSpace(t[|t| - 1]) && (t[|t| - 1] == ',' <==> p.comma)
  {
    NoCommaLast(p.value);
  }

  lemma {:induction false} LastCharacter(ps: seq<Piece>)
    requires ps != [] && RegularPiece(ps[|ps| - 1])
    ensures var t := Texts(ps); t != [] && !IsSpace(t[|t| - 1]) && (t[|t| - 1] == ',' <==> ps[|ps| - 1].comma)
  {
    var init, last := ps[..|ps| - 1], ps[|ps| - 1];
    LastOfPiece(last);
    assert ps == init + [last];
    TextsAppend(init, [last]);
    assert Texts([last]) == last.Text();
  }

  /** A closed value does not end with a comma. */
  lemma {:induction false} NoCommaLast(v: string)
    requires IsValue(v)
    ensures v[|v| - 1] != ','
  {
    var init := v[..|v| - 1];
    assert v == init + [v[|v| - 1]];
    RunAppend(Plain(0), init, [v[|v| - 1]]);
    SaneRun(Plain(0), init);
    assert Run(Run(Plain(0), init), [v[|v| - 1]]) == Step(Run(Plain(0), init), v[|v| - 1]);
  }

  /** Only quotes open a quoted literal. */
  predicate Sane(m: Mode) {
    match m
    case Quote(quote, below) => IsQuote(quote) && Sane(below)
    case Escape(quote, below) => IsQuote(quote) && Sane(below)
    case Template(below) => Sane(below)
    case TemplateEscape(below) => Sane(below)
    case Dollar(below) => Sane(below)
    case Braces(_, below) => Sane(below)
    case _ => true
  }

  lemma {:induction false} SaneRun(m: Mode, s: string)
    requires Sane(m)
    ensures Sane(Run(m, s))
    decreases |s|
  {
    if s != [] {
      assert Sane(Step(m, s[0]));
      SaneRun(Step(m, s[0]), s[1..]);
    }
  }

  /** Where the new entries go: right behind the last one. */
  lemma {:induction false} InsertionPoint(ps: seq<Piece>, trailing: string, entries: seq<Entry>, missing: seq<Literal>)
    requires ps != [] && RegularPiece(ps[|ps| - 1]) && AllSpaces(trailing)
    requires entries != [] && Inside(entries, Texts(ps) + trailing)
    ensures var text := Texts(ps) + trailing;
      var e := InsertEntries(text, entries, LiteralTexts(missing));
      && e.start == e.end == |Texts(ps)|
      && e.text == Separated(ps[|ps| - 1].comma, missing, LayoutOf(text, entries))
  {
    LastCharacter(ps);
    CoreAt(Texts(ps), trailing);
    assert entries[|entries| - 1] in entries;
  }

  lemma {:induction false} CoreAt(t: string, trailing: string)
    requires t != [] && !IsSpace(t[|t| - 1]) && AllSpaces(trailing)
    ensures var text := t + trailing; Trim(text, |text|) == |t| && text[|t| - 1] == t[|t| - 1]
  {
    HasMiddle(t, trailing, "");
    assert t + trailing + "" == t + trailing;
    assert (t + trailing)[|t| - 1] == t[|t| - 1];
    TrimsTo(t + trailing, |t|, trailing);
  }

  /** The new entries as they follow the last one. */
  function Separated(comma: bool, missing: seq<Literal>, l: Layout): string {
    var put := l.gap + Join(LiteralTexts(missing), "," + l.gap) + (if l.commas then "," else "");
    if comma then put else "," + put
  }

  /** The result of the edits, on the text of a tidy body: exactly the values that were to
      change are replaced, the missing entries follow the last one, and nothing else moves. */
  lemma {:induction false} PatchText(b: Body, text: string, entries: seq<Entry>, names: seq<string>, plan: Plan,
      missing: seq<Literal>)
    requires Scanned(b, text, entries) && Upright(entries, text) && Inside(entries, text) && Distinct(names)
    ensures var all := AllEdits(text, entries, Edits(text, entries, names, plan), missing);
      && Disjoint(all, |text|) && Spans(ByStart(all), |text|)
      && Splice(text, 0, ByStart(all)) == Render(PatchedBody(b, names, plan, missing, LayoutOf(text, entries)))
  {
    if b.pieces == [] {
      assert text == b.trailing && entries == [];
      assert Body(Replaced(b.pieces, Changes(b.pieces, Members(names), plan)), b.trailing) == b;
      NoEdits(text, names, plan);
      PatchEmpty(b, missing);
    } else {
      EditsDisjoint(b, text, entries, names, plan);
      AllDisjoint(b, text, entries, names, plan, missing);
      PatchPieces(b, text, entries, names, plan, missing);
    }
  }

  lemma {:induction false} NoEdits(text: string, names: seq<string>, plan: Plan)
    ensures Edits(text, [], names, plan) == []
  {
    if names != [] { NoEdits(text, names[..|names| - 1], plan); }
  }

  lemma {:induction false} PatchEmpty(b: Body, missing: seq<Literal>)
    requires b.pieces == []
    ensures var all := AllEdits(b.trailing, [], [], missing);
      && Disjoint(all, |b.trailing|) && Spans(ByStart(all), |b.trailing|)
      && Splice(b.trailing, 0, ByStart(all)) == Render(Extend(b, missing, LayoutOf(b.trailing, [])))
  {
    var text := b.trailing;
    var all := AllEdits(text, [], [], missing);
    if missing == [] {
      assert all == [];
      SpliceRest(text, 0, ByStart(all));
    } else {
      ExtendText(b, missing, LayoutOf(text, []));
      var e := InsertEntries(text, [], LiteralTexts(missing));
      assert all == [e] && ByStart(all) == map[0 := e];
      if text != [] { SpliceRest(text, |text|, ByStart(all)); }
    }
  }

  lemma {:induction false} AllDisjoint(b: Body, text: string, entries: seq<Entry>, names: seq<string>, plan: Plan,
      missing: seq<Literal>)
    requires Scanned(b, text, entries) && Upright(entries, text) && Inside(entries, text) && b.pieces != []
    requires Disjoint(Edits(text, entries, names, plan), |text|)
    ensures Disjoint(AllEdits(text, entries, Edits(text, entries, names, plan), missing), |text|)
  {
    var edits := Edits(text, entries, names, plan);
    if missing == [] {
      assert AllEdits(text, entries, edits, missing) == edits;
    } else {
      assert b.pieces[|b.pieces| - 1] in b.pieces;
      InsertionPoint(b.pieces, b.trailing, entries, missing);
      forall e | e in edits ensures e.start < e.end <= |Texts(b.pieces)| {
        var _, _ := EditSpan(b, text, entries, names, plan, e);
      }
      SnocDisjoint(edits, InsertEntries(text, entries, LiteralTexts(missing)), |text|);
    }
  }

  lemma {:induction false} SnocDisjoint(es: seq<Edit>, last: Edit, length: nat)
    requires Disjoint(es, length) && last.start <= last.end <= length && forall e :: e in es ==> Before(e, last)
    ensures Disjoint(es + [last], length)
  {
    var all := es + [last];
    forall i, j | 0 <= i < j < |all| ensures Before(all[i], all[j]) || Before(all[j], all[i]) {
      if j == |es| { assert all[i] in es; }
    }
  }

  lemma {:induction false} PatchPieces(b: Body, text: string, entries: seq<Entry>, names: seq<string>, plan: Plan,
      missing: seq<Literal>)
    requires Scanned(b, text, entries) && Upright(entries, text) && Inside(entries, text) && b.pieces != []
    requires Disjoint(AllEdits(text, entries, Edits(text, entries, names, plan), missing), |text|)
    ensures var all := AllEdits(text, entries, Edits(text, entries, names, plan), missing);
      && Spans(ByStart(all), |text|)
      && Splice(text, 0, ByStart(all)) == Render(PatchedBody(b, names, plan, missing, LayoutOf(text, entries)))
  {
    EditsAreValueEdits(b, text, entries, names, plan);
    RegularFilled(b.pieces);
    if missing == [] {
      PatchChanged(b, text, entries, names, plan);
    } else {
      PatchGrown(b, text, entries, names, plan, missing);
    }
  }

  lemma {:induction false} PatchChanged(b: Body, text: string, entries: seq<Entry>, names: seq<string>, plan: Plan)
    requires text == Render(b) && Upright(entries, text) && Inside(entries, text) && Filled(b.pieces)
    requires Disjoint(AllEdits(text, entries, Edits(text, entries, names, plan), []), |text|)
    requires SameMembers(Edits(text, entries, names, plan),
      ValueEdits(b.pieces, 0, Changes(b.pieces, Members(names), plan)))
    ensures var all := AllEdits(text, entries, Edits(text, entries, names, plan), []);
      && Spans(ByStart(all), |text|)
      && Splice(text, 0, ByStart(all)) == Render(PatchedBody(b, names, plan, [], LayoutOf(text, entries)))
  {
    var edits := Edits(text, entries, names, plan);
    assert AllEdits(text, entries, edits, []) == edits;
    OnlyChanged(b.pieces, b.trailing, edits, Changes(b.pieces, Members(names), plan));
  }

  lemma {:induction false} OnlyChanged(ps: seq<Piece>, trailing: string, edits: seq<Edit>, cs: seq<Option<string>>)
    requires |cs| == |ps| && Filled(ps) && SameMembers(edits, ValueEdits(ps, 0, cs)) &&
      Disjoint(edits, |Texts(ps) + trailing|)
    ensures var text := Texts(ps) + trailing;
      && Spans(ByStart(edits), |text|)
      && Splice(text, 0, ByStart(edits)) == Texts(Replaced(ps, cs)) + trailing
  {
    SplicedBy(ps, edits, cs, None, |Texts(ps) + trailing|);
    SpliceAll(ps, trailing, ByStart(edits), cs, None);
    assert "" + trailing == trailing;
  }

  lemma {:induction false} PatchGrown(b: Body, text: string, entries: seq<Entry>, names: seq<string>, plan: Plan,
      missing: seq<Literal>)
    requires Scanned(b, text, entries) && Upright(entries, text) && Inside(entries, text) && b.pieces != [] &&
      missing != []
    requires Disjoint(AllEdits(text, entries, Edits(text, entries, names, plan), missing), |text|) && Filled(b.pieces)
    requires SameMembers(Edits(text, entries, names, plan),
      ValueEdits(b.pieces, 0, Changes(b.pieces, Members(names), plan)))
    ensures var all := AllEdits(text, entries, Edits(text, entries, names, plan), missing);
      && Spans(ByStart(all), |text|)
      && Splice(text, 0, ByStart(all)) == Render(PatchedBody(b, names, plan, missing, LayoutOf(text, entries)))
  {
    assert b.pieces[|b.pieces| - 1] in b.pieces;
    Grown(b.pieces, b.trailing, entries, Edits(text, entries, names, plan), Changes(b.pieces, Members(names), plan),
      missing);
  }

  ghost predicate SameMembers(a: seq<Edit>, c: seq<Edit>) { forall e :: e in a <==> e in c }

  lemma {:induction false} Grown(ps: seq<Piece>, trailing: string, entries: seq<Entry>, edits: seq<Edit>,
      cs: seq<Option<string>>, missing: seq<Literal>)
    requires |cs| == |ps| && Filled(ps) && ps != [] && RegularPiece(ps[|ps| - 1]) && AllSpaces(trailing)
    requires entries != [] && Inside(entries, Texts(ps) + trailing) && missing != [] &&
      SameMembers(edits, ValueEdits(ps, 0, cs))
    requires Disjoint(edits + [InsertEntries(Texts(ps) + trailing, entries, LiteralTexts(missing))],
      |Texts(ps) + trailing|)
    ensures var text := Texts(ps) + trailing;
      var m := ByStart(edits + [InsertEntries(text, entries, LiteralTexts(missing))]);
      && Spans(m, |text|)
      && Splice(text, 0, m) == Render(Extend(Body(Replaced(ps, cs), trailing), missing, LayoutOf(text, entries)))
  {
    var text := Texts(ps) + trailing;
    var e := InsertEntries(text, entries, LiteralTexts(missing));
    InsertionPoint(ps, trailing, entries, missing);
    SplicedBy(ps, edits + [e], cs, Some(e), |text|);
    PatchInserted(ps, trailing, ByStart(edits + [e]), e, cs, missing, LayoutOf(text, entries));
  }

  lemma {:induction false} PatchInserted(ps: seq<Piece>, trailing: string, m: map<nat, Edit>, e: Edit,
      cs: seq<Option<string>>, missing: seq<Literal>, l: Layout)
    requires |cs| == |ps| && Filled(ps) && ps != [] && missing != []
    requires ps[|ps| - 1].comma || ps[|ps| - 1].beforeComma == []
    requires Splices(m, ps, cs, Some(e), |Texts(ps) + trailing|) && e.text == Separated(ps[|ps| - 1].comma, missing, l)
    ensures Splice(Texts(ps) + trailing, 0, m) == Render(Extend(Body(Replaced(ps, cs), trailing), missing, l))
  {
    SpliceAll(ps, trailing, m, cs, Some(e));
    ReplacedAt(ps, cs, |ps| - 1);
    ExtendInserted(Replaced(ps, cs), trailing, missing, l);
  }

  lemma {:induction false} RegularFilled(ps: seq<Piece>)
    requires forall p :: p in ps ==> RegularPiece(p)
    ensures Filled(ps)
  {
    if ps != [] {
      assert ps[0] in ps && forall p :: p in ps[1..] ==> p in ps;
      RegularFilled(ps[1..]);
    }
  }

  lemma {:induction false} FilledAt(ps: seq<Piece>, k: nat)
    requires Filled(ps) && k < |ps|
    ensures ps[k].value != []
    decreases k
  {
    if k > 0 { FilledAt(ps[1..], k - 1); }
  }

  /** The map holds the edits of the pieces and perhaps an insertion behind the last. */
  ghost predicate Splices(m: map<nat, Edit>, ps: seq<Piece>, cs: seq<Option<string>>, insert: Option<Edit>, length: nat)
    requires |cs| == |ps|
  {
    var n := |Texts(ps)|;
    && Spans(m, length) && Holds(m, ps, 0, cs) && (forall k :: k in m ==> k <= n)
    && (if insert.None? then n !in m else n in m && m[n] == insert.value && insert.value.start == insert.value.end == n)
  }

  lemma {:induction false} SplicedBy(ps: seq<Piece>, all: seq<Edit>, cs: seq<Option<string>>, insert: Option<Edit>,
      length: nat)
    requires |cs| == |ps| && Filled(ps) && Disjoint(all, length)
    requires insert.Some? ==> insert.value.start == insert.value.end == |Texts(ps)|
    requires forall e :: e in all <==> (e in ValueEdits(ps, 0, cs) || insert == Some(e))
    ensures Splices(ByStart(all), ps, cs, insert, length)
  {
    SpansOf(all, length);
    HoldsOf(all, ps, 0, cs, if insert.Some? then [insert.value] else [], length);
    ValueEditsEarly(ps, 0, cs);
    if insert.Some? { ByStartHas(all, length, insert.value); }
  }

  /** One pass replaces the values and puts the insertion behind the last piece. */
  lemma {:induction false} SpliceAll(ps: seq<Piece>, trailing: string, m: map<nat, Edit>, cs: seq<Option<string>>,
      insert: Option<Edit>)
    requires |cs| == |ps| && Filled(ps)
    requires Splices(m, ps, cs, insert, |Texts(ps) + trailing|)
    ensures Splice(Texts(ps) + trailing, 0, m) ==
      Texts(Replaced(ps, cs)) + ((if insert.Some? then insert.value.text else "") + trailing)
  {
    var text, n := Texts(ps) + trailing, |Texts(ps)|;
    HasFront(Texts(ps), trailing);
    HoldsSplit(m, ps, 0, cs);
    SplicePieces(text, 0, ps, cs, m);
    SpliceTail(text, n, m);
    assert text[n..] == trailing;
  }

  lemma {:induction false} HasFront(a: string, b: string)
    ensures Has(a + b, 0, a)
  {
    HasIff(a + b, 0, a);
    assert (a + b)[0..|a|] == a;
  }

  lemma {:induction false} ValueEditsEarly(ps: seq<Piece>, i: nat, cs: seq<Option<string>>)
    requires |cs| == |ps| && Filled(ps)
    ensures forall e :: e in ValueEdits(ps, i, cs) ==> e.start < i + |Texts(ps)|
  {
    forall e | e in ValueEdits(ps, i, cs) ensures e.start < i + |Texts(ps)| {
      var k := ValueEditsFrom(ps, i, cs, e);
      FilledAt(ps, k);
      PlacedAt(ps, i, k);
    }
  }

  lemma {:induction false} ReplacedAt(ps: seq<Piece>, cs: seq<Option<string>>, k: nat)
    requires |cs| == |ps| && k < |ps|
    ensures Replaced(ps, cs)[k] == Changed(ps[k], cs[k])
    decreases k
  {
    if k > 0 { ReplacedAt(ps[1..], cs[1..], k - 1); }
  }

  lemma {:induction false} ExtendInserted(ps: seq<Piece>, trailing: string, missing: seq<Literal>, l: Layout)
    requires ps != [] && missing != [] && (ps[|ps| - 1].comma || ps[|ps| - 1].beforeComma == [])
    ensures Render(Extend(Body(ps, trailing), missing, l)) ==
      Texts(ps) + (Separated(ps[|ps| - 1].comma, missing, l) + trailing)
  {
    ExtendText(Body(ps, trailing), missing, l);
    Chain(Texts(ps) + (Separated(ps[|ps| - 1].comma, missing, l) + trailing), Texts(ps),
          Separated(ps[|ps| - 1].comma, missing, l) + trailing, Separated(ps[|ps| - 1].comma, missing, l), trailing);
  }

  // ---------- The patched body ----------

  /** Every new value the plan has for these pieces is a closed value. */
  ghost predicate PlanFits(ps: seq<Piece>, names: seq<string>, plan: Plan) {
    forall p :: p in ps && p.key in names ==>
      var c := plan(p.key, Some(p.value)); c.Put? ==> IsValue(c.text) && Balanced(c.text)
  }

  lemma {:induction false} ChangedRegular(b: Body, names: seq<string>, plan: Plan, k: nat)
    requires Tidy(b) && PlanFits(b.pieces, names, plan) && k < |b.pieces|
    ensures var r := Replaced(b.pieces, Changes(b.pieces, Members(names), plan));
      RegularPiece(r[k]) && r[k].key == b.pieces[k].key && r[k].comma == b.pieces[k].comma
  {
    var p := b.pieces[k];
    assert p in b.pieces;
    ChangesAt(b.pieces, Members(names), plan, k);
    ReplacedAt(b.pieces, Changes(b.pieces, Members(names), plan), k);
  }

  lemma {:induction false} ReplacedTidy(b: Body, names: seq<string>, plan: Plan)
    requires Tidy(b) && PlanFits(b.pieces, names, plan)
    ensures var r := Body(Replaced(b.pieces, Changes(b.pieces, Members(names), plan)), b.trailing);
      Tidy(r) && (Regular(b) ==> Regular(r))
  {
    var r := Replaced(b.pieces, Changes(b.pieces, Members(names), plan));
    forall k | 0 <= k < |r|
      ensures RegularPiece(r[k]) && r[k].key == b.pieces[k].key && r[k].comma == b.pieces[k].comma
    {
      ChangedRegular(b, names, plan, k);
    }
    if r != [] { TidyBody(Body(r, b.trailing)); }
  }

  lemma {:induction false} PatchedTidy(b: Body, names: seq<string>, plan: Plan, missing: seq<Literal>, layout: Layout)
    requires Tidy(b) && PlanFits(b.pieces, names, plan) && AreNew(missing, b) && IsLayout(layout)
    ensures Tidy(PatchedBody(b, names, plan, missing, layout))
    ensures Regular(b) ==> Regular(PatchedBody(b, names, plan, missing, layout))
  {
    var r := Body(Replaced(b.pieces, Changes(b.pieces, Members(names), plan)), b.trailing);
    ReplacedTidy(b, names, plan);
    forall l, p | l in missing && p in r.pieces ensures p.key != l.key {
      var k :| 0 <= k < |r.pieces| && r.pieces[k] == p;
      ChangedRegular(b, names, plan, k);
      assert b.pieces[k] in b.pieces;
    }
    ExtendRegular(r, missing, layout);
  }

  /** The value of every key after the patch. */
  lemma {:induction false} PatchedValues(b: Body, names: seq<string>, plan: Plan, missing: seq<Literal>,
      layout: Layout, key: string)
    ensures ValueOf(PatchedBody(b, names, plan, missing, layout).pieces, key) ==
      match ValueOf(b.pieces, key)
      case None => LiteralOf(missing, key)
      case Some(v) => var c := plan(key, Some(v)); Some(if key in names && c.Put? then c.text else v)
  {
    ReplacedValues(b.pieces, Members(names), plan, key);
    ExtendValues(Body(Replaced(b.pieces, Changes(b.pieces, Members(names), plan)), b.trailing), missing, layout, key);
  }

  lemma {:induction false} ReplacedValues(ps: seq<Piece>, names: set<string>, plan: Plan, key: string)
    ensures ValueOf(Replaced(ps, Changes(ps, names, plan)), key) ==
      match ValueOf(ps, key)
      case None => None
      case Some(v) => var c := plan(key, Some(v)); Some(if key in names && c.Put? then c.text else v)
  {
    if ps != [] {
      var cs := Changes(ps, names, plan);
      assert cs[1..] == Changes(ps[1..], names - {ps[0].key}, plan);
      assert Replaced(ps, cs)[1..] == Replaced(ps[1..], cs[1..]);
      ReplacedValues(ps[1..], names - {ps[0].key}, plan, key);
    }
  }

  // ---------- Looking names up ----------

  lemma {:induction false} ValueOfAt(ps: seq<Piece>, k: nat)
    requires k < |ps| && First(ps, k)
    ensures ValueOf(ps, ps[k].key) == Some(ps[k].value)
    decreases k
  {
    if k > 0 {
      FirstLater(ps, k);
      ValueOfAt(ps[1..], k - 1);
    }
  }

  lemma {:induction false} ValueOfIndex(ps: seq<Piece>, key: string) returns (k: nat)
    requires ValueOf(ps, key).Some?
    ensures k < |ps| && ps[k].key == key && First(ps, k)
  {
    if ps[0].key == key {
      k := 0;
    } else {
      var l := ValueOfIndex(ps[1..], key);
      k := l + 1;
    }
  }

  /** What the loop sees of a name is the value of its piece. */
  lemma {:induction false} CurrentIsValue(b: Body, text: string, entries: seq<Entry>, name: string)
    requires Scanned(b, text, entries) && Upright(entries, text)
    ensures Current(text, entries, name) == ValueOf(b.pieces, name)
  {
    if Find(entries, name).Some? {
      var k := FoundPiece(b, text, entries, name);
      ValueOfAt(b.pieces, k);
    } else if ValueOf(b.pieces, name).Some? {
      var k := ValueOfIndex(b.pieces, name);
      CurrentIs(b, text, entries, k);
    }
  }

  /** The missing entries are those of the names that have none and get one. */
  lemma {:induction false} MissingOf(entries: seq<Entry>, names: seq<string>, plan: Plan, key: string)
    requires Distinct(names)
    ensures LiteralOf(Missing(entries, names, plan), key) ==
      var c := plan(key, None); if key in names && Find(entries, key).None? && c.Put? then Some(c.text) else None
    decreases |names|
  {
    if names != [] {
      var init, last := names[..|names| - 1], names[|names| - 1];
      MissingOf(entries, init, plan, key);
      var c := plan(last, None);
      var added := if Find(entries, last).None? && c.Put? then [Literal(last, c.text)] else [];
      LiteralOfAppend(Missing(entries, init, plan), added, key);
      assert names == init + [last];
    }
  }

  lemma {:induction false} LiteralOfAppend(a: seq<Literal>, c: seq<Literal>, key: string)
    ensures LiteralOf(a + c, key) == if LiteralOf(a, key).Some? then LiteralOf(a, key) else LiteralOf(c, key)
  {
    if a == [] {
      assert a + c == c;
    } else {
      assert (a + c)[1..] == a[1..] + c;
      LiteralOfAppend(a[1..], c, key);
    }
  }

  lemma {:induction false} MissingFrom(entries: seq<Entry>, names: seq<string>, plan: Plan, l: Literal)
    requires l in Missing(entries, names, plan)
    ensures l.key in names && Find(entries, l.key).None? && plan(l.key, None) == Put(l.value)
    decreases |names|
  {
    var init, last := names[..|names| - 1], names[|names| - 1];
    if l in Missing(entries, init, plan) { MissingFrom(entries, init, plan, l); }
  }

  predicate DistinctLiterals(ls: seq<Literal>) { forall i, j :: 0 <= i < j < |ls| ==> ls[i].key != ls[j].key }

  lemma {:induction false} MissingDistinct(entries: seq<Entry>, names: seq<string>, plan: Plan)
    requires Distinct(names)
    ensures DistinctLiterals(Missing(entries, names, plan))
    decreases |names|
  {
    if names != [] {
      var init, last := names[..|names| - 1], names[|names| - 1];
      var before := Missing(entries, init, plan);
      MissingDistinct(entries, init, plan);
      forall l | l in before ensures l.key != last {
        MissingFrom(entries, init, plan, l);
      }
    }
  }

  /** With nothing to change there is no edit. */
  lemma {:induction false} NoChange(body: string, entries: seq<Entry>, names: seq<string>, plan: Plan)
    requires Upright(entries, body) && forall name :: name in names ==> plan(name, Current(body, entries, name)) == Keep
    ensures Edits(body, entries, names, plan) == [] && Missing(entries, names, plan) == []
    decreases |names|
  {
    if names != [] { NoChange(body, entries, names[..|names| - 1], plan); }
  }
}
