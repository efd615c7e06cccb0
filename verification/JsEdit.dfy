/** Edits of a text region (applyJSEdits of internal/service/logging_scan.go).  The code applies
    them from the last to the first; the result is one pass from left to right that copies what
    no edit covers. */
module JsEdit {

  /** Replaces the characters from `start` up to `end`. */
  datatype Edit = Edit(start: nat, end: nat, text: string)

  predicate Before(a: Edit, b: Edit) { a.start < b.start && a.end <= b.start }

  /** The edits lie in a region of this length and do not overlap. */
  ghost predicate Disjoint(edits: seq<Edit>, length: nat) {
    && (forall e :: e in edits ==> e.start <= e.end <= length)
    && (forall i, j {:trigger Before(edits[i], edits[j])} :: 0 <= i < j < |edits| ==>
        Before(edits[i], edits[j]) || Before(edits[j], edits[i]))
  }

  /** The edits by where they start. */
  function ByStart(edits: seq<Edit>): (m: map<nat, Edit>)
    ensures forall k :: k in m ==> m[k] in edits && m[k].start == k
  {
    if edits == [] then map[] else ByStart(edits[1..])[edits[0].start := edits[0]]
  }

  ghost predicate Spans(m: map<nat, Edit>, length: nat) {
    forall k :: k in m ==> m[k].start == k && k <= m[k].end <= length
  }

  /** One pass over the text from `i` on. */
  function Splice(text: string, i: nat, m: map<nat, Edit>): string
    requires i <= |text| && Spans(m, |text|)
    decreases |text| - i
  {
    if i == |text| then PutAt(m, i) else SpliceTurn(text, i, m).0 + Splice(text, SpliceTurn(text, i, m).1, m)
  }

  function PutAt(m: map<nat, Edit>, i: nat): string { if i in m then m[i].text else [] }

  /** What the pass writes at `i`, and where it goes on. */
  function SpliceTurn(text: string, i: nat, m: map<nat, Edit>): (r: (string, nat))
    requires i < |text| && Spans(m, |text|)
    ensures i < r.1 <= |text|
  {
    if i in m && m[i].end > i then (m[i].text, m[i].end) else (PutAt(m, i) + [text[i]], i + 1)
  }

  /** What no edit starts in is copied. */
  lemma {:induction false} SpliceCopies(text: string, i: nat, j: nat, m: map<nat, Edit>)
    requires i <= j <= |text| && Spans(m, |text|) && forall k :: i <= k < j ==> k !in m
    ensures Splice(text, i, m) == text[i..j] + Splice(text, j, m)
    decreases j - i
  {
    if i < j {
      SpliceCopies(text, i + 1, j, m);
      CopyTurn(text, i, m);
      assert text[i..j] == [text[i]] + text[i + 1..j];
    }
  }

  lemma {:induction false} CopyTurn(text: string, i: nat, m: map<nat, Edit>)
    requires i < |text| && Spans(m, |text|) && i !in m
    ensures Splice(text, i, m) == [text[i]] + Splice(text, i + 1, m)
  {
    assert PutAt(m, i) + [text[i]] == [text[i]];
  }

  lemma {:induction false} SpliceRest(text: string, i: nat, m: map<nat, Edit>)
    requires i <= |text| && Spans(m, |text|) && forall k :: k in m ==> k < i
    ensures Splice(text, i, m) == text[i..]
  {
    SpliceCopies(text, i, |text|, m);
    assert text[i..|text|] == text[i..];
  }

  /** Behind the last edit the rest is copied. */
  lemma {:induction false} SpliceTail(text: string, n: nat, m: map<nat, Edit>)
    requires n <= |text| && Spans(m, |text|) && forall k :: k in m ==> k <= n
    requires n in m ==> m[n].end == n
    ensures Splice(text, n, m) == PutAt(m, n) + text[n..]
  {
    if n < |text| {
      SpliceRest(text, n + 1, m);
      assert text[n..] == [text[n]] + text[n + 1..];
    }
  }

  function Applied(text: string, e: Edit): string
    requires e.start <= e.end <= |text|
  {
    text[..e.start] + e.text + text[e.end..]
  }

  lemma {:induction false} LastEditHere(text: string, e: Edit, m: map<nat, Edit>)
    requires e.start <= e.end <= |text|
    requires Spans(m, |text|) && forall k :: k in m ==> Before(m[k], e)
    requires Spans(m, |Applied(text, e)|) && Spans(m[e.start := e], |text|)
    ensures Splice(Applied(text, e), e.start, m) == Splice(text, e.start, m[e.start := e])
  {
    var after, all := Applied(text, e), m[e.start := e];
    SpliceRest(after, e.start, m);
    assert after[e.start..] == e.text + text[e.end..];
    if e.end > e.start {
      SpliceRest(text, e.end, all);
    } else if e.end < |text| {
      SpliceRest(text, e.end + 1, all);
      assert text[e.end..] == [text[e.end]] + text[e.end + 1..];
    } else {
      assert text[e.end..] == [];
    }
  }

  /** Applying the last edit first changes nothing about the others. */
  lemma {:induction false} LastEdit(text: string, e: Edit, m: map<nat, Edit>, i: nat)
    requires i <= e.start <= e.end <= |text|
    requires Spans(m, |text|) && forall k :: k in m ==> Before(m[k], e)
    ensures Spans(m, |Applied(text, e)|) && Spans(m[e.start := e], |text|)
    ensures Splice(Applied(text, e), i, m) == Splice(text, i, m[e.start := e])
    decreases e.start - i
  {
    LastEditSpans(text, e, m);
    if i == e.start {
      LastEditHere(text, e, m);
    } else {
      SameTurn(text, e, m, i);
      LastEdit(text, e, m, SpliceTurn(text, i, m[e.start := e]).1);
    }
  }

  lemma {:induction false} LastEditSpans(text: string, e: Edit, m: map<nat, Edit>)
    requires e.start <= e.end <= |text| && Spans(m, |text|) && forall k :: k in m ==> Before(m[k], e)
    ensures Spans(m, |Applied(text, e)|) && Spans(m[e.start := e], |text|)
  {}

  /** Before the last edit the pass writes the same with it and without. */
  lemma {:induction false} SameTurn(text: string, e: Edit, m: map<nat, Edit>, i: nat)
    requires i < e.start <= e.end <= |text|
    requires Spans(m, |text|) && forall k :: k in m ==> Before(m[k], e)
    requires Spans(m, |Applied(text, e)|) && Spans(m[e.start := e], |text|)
    ensures SpliceTurn(Applied(text, e), i, m) == SpliceTurn(text, i, m[e.start := e])
    ensures SpliceTurn(Applied(text, e), i, m).1 <= e.start
  {}

  // ---------- The stable sort ----------

  /** From the last start to the first; equal starts keep their order. */
  function Sort(es: seq<Edit>): seq<Edit> {
    if es == [] then [] else Insert(es[0], Sort(es[1..]))
  }

  function Insert(e: Edit, sorted: seq<Edit>): seq<Edit> {
    if sorted == [] || e.start >= sorted[0].start then [e] + sorted
    else [sorted[0]] + Insert(e, sorted[1..])
  }

  predicate Descending(es: seq<Edit>) {
    forall i, j :: 0 <= i < j < |es| ==> es[i].start > es[j].start
  }

  lemma {:induction false} InsertMembers(e: Edit, sorted: seq<Edit>)
    ensures forall x :: x in Insert(e, sorted) <==> x == e || x in sorted
  {
    if sorted != [] && e.start < sorted[0].start { InsertMembers(e, sorted[1..]); }
  }

  lemma {:induction false} InsertDescending(e: Edit, sorted: seq<Edit>)
    requires Descending(sorted) && forall x :: x in sorted ==> x.start != e.start
    ensures Descending(Insert(e, sorted))
  {
    if sorted != [] && e.start < sorted[0].start {
      InsertDescending(e, sorted[1..]);
      InsertMembers(e, sorted[1..]);
      var rest := Insert(e, sorted[1..]);
      forall j | 0 <= j < |rest| ensures sorted[0].start > rest[j].start {
        assert rest[j] in rest;
      }
    }
  }

  lemma {:induction false} SortMembers(es: seq<Edit>)
    ensures forall x :: x in Sort(es) <==> x in es
  {
    if es != [] {
      SortMembers(es[1..]);
      InsertMembers(es[0], Sort(es[1..]));
    }
  }

  lemma {:induction false} SortDescending(es: seq<Edit>)
    requires forall i, j :: 0 <= i < j < |es| ==> es[i].start != es[j].start
    ensures Descending(Sort(es))
  {
    if es != [] {
      SortDescending(es[1..]);
      SortMembers(es[1..]);
      InsertDescending(es[0], Sort(es[1..]));
    }
  }

  /** Sorting keeps the edits apart. */
  lemma {:induction false} SortDisjoint(es: seq<Edit>, length: nat)
    requires Disjoint(es, length)
    ensures Disjoint(Sort(es), length) && Descending(Sort(es))
    ensures ByStart(Sort(es)) == ByStart(es)
  {
    SortMembers(es);
    forall i, j | 0 <= i < j < |es| ensures es[i].start != es[j].start {
      assert Before(es[i], es[j]) || Before(es[j], es[i]);
    }
    SortDescending(es);
    DescendingDisjoint(es, Sort(es), length);
    SameByStart(es, Sort(es), length);
  }

  lemma {:induction false} DescendingDisjoint(es: seq<Edit>, r: seq<Edit>, length: nat)
    requires Disjoint(es, length) && Descending(r) && forall x :: x in r ==> x in es
    ensures Disjoint(r, length)
  {
    forall i, j | 0 <= i < j < |r| ensures Before(r[j], r[i]) {
      assert r[i] in r && r[j] in r;
      MembersApart(es, length, r[i], r[j]);
    }
  }

  /** Where disjoint edits start does not depend on their order. */
  lemma {:induction false} SameByStart(a: seq<Edit>, b: seq<Edit>, length: nat)
    requires Disjoint(a, length) && Disjoint(b, length) && forall x :: x in a <==> x in b
    ensures ByStart(a) == ByStart(b)
  {
    SubByStart(a, b, length);
    SubByStart(b, a, length);
    assert ByStart(a).Keys == ByStart(b).Keys;
  }

  lemma {:induction false} SubByStart(a: seq<Edit>, b: seq<Edit>, length: nat)
    requires Disjoint(b, length) && forall x :: x in a ==> x in b
    ensures forall k :: k in ByStart(a) ==> k in ByStart(b) && ByStart(b)[k] == ByStart(a)[k]
  {
    forall k | k in ByStart(a) ensures k in ByStart(b) && ByStart(b)[k] == ByStart(a)[k] {
      ByStartHas(b, length, ByStart(a)[k]);
    }
  }

  lemma {:induction false} MembersApart(es: seq<Edit>, length: nat, a: Edit, b: Edit)
    requires Disjoint(es, length) && a in es && b in es && a.start > b.start
    ensures Before(b, a)
  {
    var i :| 0 <= i < |es| && es[i] == a;
    var j :| 0 <= j < |es| && es[j] == b;
    if i < j {
      assert Before(es[i], es[j]) || Before(es[j], es[i]);
    } else {
      assert Before(es[j], es[i]) || Before(es[i], es[j]);
    }
  }

  lemma {:induction false} ByStartHas(es: seq<Edit>, length: nat, e: Edit)
    requires Disjoint(es, length) && e in es
    ensures e.start in ByStart(es) && ByStart(es)[e.start] == e
  {
    if e != es[0] {
      ByStartHas(es[1..], length, e);
      MembersDiffer(es, length, e);
    }
  }

  lemma {:induction false} MembersDiffer(es: seq<Edit>, length: nat, e: Edit)
    requires Disjoint(es, length) && e in es && e != es[0]
    ensures e.start != es[0].start
  {
    var i :| 0 <= i < |es| && es[i] == e;
    assert Before(es[0], es[i]) || Before(es[i], es[0]);
  }

  // ---------- The loop ----------

  /** Every edit is inside the text it is applied to; slicing outside it is a panic. */
  predicate Applicable(text: string, es: seq<Edit>)
    decreases |es|
  {
    es != [] ==> es[0].start <= es[0].end <= |text| && Applicable(Applied(text, es[0]), es[1..])
  }

  function AppliedAll(text: string, es: seq<Edit>): string
    requires Applicable(text, es)
    decreases |es|
  {
    if es == [] then text else AppliedAll(Applied(text, es[0]), es[1..])
  }

  method ApplyEdits(region: string, edits: seq<Edit>) returns (patched: string, changed: bool)
    requires Applicable(region, Sort(edits))
    ensures patched == AppliedAll(region, Sort(edits)) && (changed <==> edits != [])
  {
    if |edits| == 0 { return region, false; }
    var sorted := Sort(edits);
    patched := region;
    var k := 0;
    assert sorted[0..] == sorted;
    while k < |sorted|
      invariant 0 <= k <= |sorted|
      invariant Applicable(patched, sorted[k..]) && AppliedAll(patched, sorted[k..]) == AppliedAll(region, sorted)
    {
      assert sorted[k..][1..] == sorted[k + 1..];
      patched := Applied(patched, sorted[k]);
      k := k + 1;
    }
    changed := true;
  }

  /** Applying disjoint edits from the last to the first is one splice from left to right: every
      character outside them keeps its content and its order. */
  lemma {:induction false} LastToFirst(region: string, edits: seq<Edit>)
    requires Disjoint(edits, |region|)
    ensures Applicable(region, Sort(edits)) && Spans(ByStart(edits), |region|)
    ensures AppliedAll(region, Sort(edits)) == Splice(region, 0, ByStart(edits))
  {
    SortDisjoint(edits, |region|);
    SpansOf(edits, |region|);
    SortedToFirst(region, Sort(edits));
  }

  lemma {:induction false} SortedToFirst(text: string, es: seq<Edit>)
    requires Disjoint(es, |text|) && Descending(es)
    ensures Applicable(text, es) && Spans(ByStart(es), |text|)
    ensures AppliedAll(text, es) == Splice(text, 0, ByStart(es))
    decreases |es|
  {
    if es == [] {
      SpliceRest(text, 0, map[]);
    } else {
      FirstOfSorted(es, text);
      SortedToFirst(Applied(text, es[0]), es[1..]);
    }
  }

  lemma {:induction false} SpansOf(edits: seq<Edit>, length: nat)
    requires Disjoint(edits, length)
    ensures Spans(ByStart(edits), length)
  {}

  lemma {:induction false} FirstOfSorted(es: seq<Edit>, text: string)
    requires es != [] && Disjoint(es, |text|) && Descending(es)
    ensures Spans(ByStart(es), |text|)
    ensures var after := Applied(text, es[0]);
      && Disjoint(es[1..], |after|) && Descending(es[1..]) && Spans(ByStart(es[1..]), |after|)
      && Splice(after, 0, ByStart(es[1..])) == Splice(text, 0, ByStart(es))
  {
    var e, rest := es[0], es[1..];
    forall x | x in rest ensures Before(x, e) {
      var i :| 0 <= i < |rest| && rest[i] == x;
      assert es[i + 1] == x && (Before(es[0], es[i + 1]) || Before(es[i + 1], es[0]));
    }
    SpansOf(es, |text|);
    SpansOf(rest, |text|);
    LastEdit(text, e, ByStart(rest), 0);
  }
}
