/** The environment variables of the configuration store (internal/service/env_linux.go,
    internal/service/env_bulk_linux.go and the source merge of
    internal/service/config_reconcile.go).

    `Service` updates the stored list in place.  Every update is one atomic commit of the JSON
    store, so each method states the list it commits; the laws about those lists are lemmas.
 */
module EnvStore {
  import opened Wrappers

  datatype EnvVar = EnvVar(
    key: string, value: string, kind: string, description: string, encrypted: bool, source: string)

  /** One parsed line of a bulk import. */
  datatype Line = Line(key: string, value: string, kind: string)

  predicate IsEncrypted(value: string) { "enc:" <= value }

  /** The randomness of the encryptions. */
  type Coins = nat -> nat
  type CoinRows = nat -> Coins

  type ValueCheck = (string, string) -> bool

  /** Encryption at rest: randomised (the coin), and it may fail. */
  datatype Crypto = Crypto(encrypt: (string, string, nat) -> Option<string>,
    decrypt: (string, string) -> Option<string>) {
    ghost predicate Lawful() {
      forall plain, key, coin {:trigger encrypt(plain, key, coin)} ::
        encrypt(plain, key, coin).Some? ==>
          var sealed := encrypt(plain, key, coin).value;
          IsEncrypted(sealed) && decrypt(sealed, key) == Some(plain)
    }
  }

  predicate ValidKey(key: string) {
    key != "" && '\0' !in key && '\r' !in key && '\n' !in key && '=' !in key
  }

  /** A key is valid exactly when it is not empty and has none of the four characters in it. */
  lemma {:induction false} ValidKeyIs(key: string)
    ensures ValidKey(key) <==> key != "" && forall k :: 0 <= k < |key| ==> key[k] !in ['\0', '\r', '\n', '=']
  {
    if ValidKey(key) {
      forall k | 0 <= k < |key| ensures key[k] !in ['\0', '\r', '\n', '='] { assert key[k] in key; }
    }
  }

  // ---------- Positions ----------

  ghost predicate Distinct(vars: seq<EnvVar>) {
    forall i, j :: 0 <= i < j < |vars| ==> vars[i].key != vars[j].key
  }

  function FirstIndex(vars: seq<EnvVar>, key: string): (r: Option<nat>)
    ensures r.Some? ==> r.value < |vars| && vars[r.value].key == key
    ensures r.Some? ==> forall j :: 0 <= j < r.value ==> vars[j].key != key
    ensures r.None? ==> forall i :: 0 <= i < |vars| ==> vars[i].key != key
  {
    if vars == [] then None
    else if vars[0].key == key then Some(0)
    else
      var rest := FirstIndex(vars[1..], key);
      if rest.None? then None else Some(rest.value + 1)
  }

  ghost predicate LastAt(vars: seq<EnvVar>, key: string, i: nat) {
    i < |vars| && vars[i].key == key && forall j :: i < j < |vars| ==> vars[j].key != key
  }

  /** The position of the last entry with the key. */
  ghost function LastIndex(vars: seq<EnvVar>, key: string): (r: Option<nat>)
    ensures r.Some? ==> LastAt(vars, key, r.value)
    ensures r.None? ==> forall i :: 0 <= i < |vars| ==> vars[i].key != key
  {
    if exists i: nat :: LastAt(vars, key, i) then
      var i: nat :| LastAt(vars, key, i);
      Some(i)
    else
      NoLastMeansAbsent(vars, key, |vars|);
      None
  }

  lemma {:induction false} NoLastMeansAbsent(vars: seq<EnvVar>, key: string, n: nat)
    requires n <= |vars| && !exists i: nat :: LastAt(vars, key, i)
    requires forall j :: n <= j < |vars| ==> vars[j].key != key
    ensures forall i :: 0 <= i < |vars| ==> vars[i].key != key
  {
    if n > 0 {
      assert !LastAt(vars, key, n - 1);
      NoLastMeansAbsent(vars, key, n - 1);
    }
  }

  /** The index map the code builds: later positions of a key overwrite earlier ones. */
  ghost predicate Indexes(index: map<string, nat>, vars: seq<EnvVar>) {
    forall key :: LastIndex(vars, key) == if key in index then Some(index[key]) else None
  }

  method BuildIndex(vars: seq<EnvVar>) returns (index: map<string, nat>)
    ensures Indexes(index, vars)
  {
    index := map[];
    for i := 0 to |vars|
      invariant Indexes(index, vars[..i])
    {
      IndexAfterAppend(index, vars[..i], vars[i]);
      assert vars[..i] + [vars[i]] == vars[..i + 1];
      index := index[vars[i].key := i];
    }
    assert vars[..|vars|] == vars;
  }

  lemma {:induction false} IndexAfterAppend(index: map<string, nat>, vars: seq<EnvVar>, v: EnvVar)
    requires Indexes(index, vars)
    ensures Indexes(index[v.key := |vars|], vars + [v])
  {
    forall key
      ensures LastIndex(vars + [v], key) ==
        if key in index[v.key := |vars|] then Some(index[v.key := |vars|][key]) else None
    {
      LastOfAppend(vars, v, key);
    }
  }

  lemma {:induction false} LastOfAppend(vars: seq<EnvVar>, v: EnvVar, key: string)
    ensures LastIndex(vars + [v], key) == if v.key == key then Some(|vars|) else LastIndex(vars, key)
  {
    var all, before := vars + [v], LastIndex(vars, key);
    if v.key == key {
      assert all[|vars|].key == key;
    } else if before.Some? {
      assert all[before.value].key == key;
      assert LastAt(all, key, before.value);
    }
  }

  lemma {:induction false} IndexAfterReplace(index: map<string, nat>, vars: seq<EnvVar>, v: EnvVar)
    requires Indexes(index, vars) && v.key in index
    ensures index[v.key] < |vars| && Indexes(index, vars[index[v.key] := v])
  {
    assert LastIndex(vars, v.key) == Some(index[v.key]);
    forall key ensures LastIndex(vars[index[v.key] := v], key) == LastIndex(vars, key) {
      SameKeysSameLast(vars, vars[index[v.key] := v], key);
    }
  }

  lemma {:induction false} SameKeysSameLast(a: seq<EnvVar>, b: seq<EnvVar>, key: string)
    requires |a| == |b| && forall i :: 0 <= i < |a| ==> a[i].key == b[i].key
    ensures LastIndex(a, key) == LastIndex(b, key)
  {}

  lemma {:induction false} DistinctFirstIsLast(vars: seq<EnvVar>, key: string)
    requires Distinct(vars)
    ensures FirstIndex(vars, key) == LastIndex(vars, key)
  {}

  // ---------- One set, and a batch ----------

  /** A value ready to be committed: `raw` is what the caller sent, `v.value` what is stored. */
  datatype Staged = Staged(raw: string, v: EnvVar)

  /** An empty submitted value keeps a stored secret. */
  function Committed(existing: EnvVar, s: Staged): EnvVar {
    if s.raw == "" && existing.encrypted then s.v.(value := existing.value) else s.v
  }

  /** The commit of a single set: the first entry with the key is replaced. */
  function SetOne(vars: seq<EnvVar>, s: Staged): seq<EnvVar> {
    match FirstIndex(vars, s.v.key)
    case None => vars + [s.v]
    case Some(i) => vars[i := Committed(vars[i], s)]
  }

  /** Which entry of a key a commit looks at: the first, or the indexed one, which is the last. */
  datatype Pick = TheFirst | TheLast

  ghost predicate Picked(vars: seq<EnvVar>, key: string, i: nat, pick: Pick) {
    if pick == TheLast then LastAt(vars, key, i)
    else i < |vars| && vars[i].key == key && forall j :: 0 <= j < i ==> vars[j].key != key
  }

  /** One submitted entry is stored.  The entry the commit looks at gets the submitted kind,
      description, flag and origin, and the submitted value unless that is empty and the entry was
      encrypted, in which case it keeps its value; no other entry changes, and a key nobody has is
      appended once. */
  ghost predicate Stores(before: seq<EnvVar>, after: seq<EnvVar>, v: EnvVar, raw: string, pick: Pick) {
    && ((forall w :: w in before ==> w.key != v.key) ==> after == before + [v])
    && forall i: nat :: Picked(before, v.key, i, pick) ==>
      && OthersSame(before, after, i)
      && after[i].key == v.key && after[i].kind == v.kind && after[i].description == v.description
      && after[i].encrypted == v.encrypted && after[i].source == v.source
      && (raw == "" && before[i].encrypted ==> after[i].value == before[i].value)
      && (raw != "" || !before[i].encrypted ==> after[i].value == v.value)
  }

  /** No entry but the one at `i` changes. */
  ghost predicate OthersSame(before: seq<EnvVar>, after: seq<EnvVar>, i: nat) {
    i < |before| == |after| && forall j :: 0 <= j < |before| && j != i ==> after[j] == before[j]
  }

  /** The submitted entries one after the other. */
  ghost predicate StoresAll(before: seq<EnvVar>, after: seq<EnvVar>, staged: seq<Staged>, pick: Pick)
    decreases |staged|, 1
  {
    if staged == [] then after == before else exists mid :: StoresLast(before, mid, after, staged, pick)
  }

  ghost predicate StoresLast(before: seq<EnvVar>, mid: seq<EnvVar>, after: seq<EnvVar>, staged: seq<Staged>, pick: Pick)
    requires staged != []
    decreases |staged|, 0
  {
    var s := staged[|staged| - 1];
    StoresAll(before, mid, staged[..|staged| - 1], pick) && Stores(mid, after, s.v, s.raw, pick)
  }

  lemma {:induction false} SetOneStores(vars: seq<EnvVar>, s: Staged)
    ensures Stores(vars, SetOne(vars, s), s.v, s.raw, TheFirst)
  {
    assert FirstIndex(vars, s.v.key).Some? ==> vars[FirstIndex(vars, s.v.key).value] in vars;
    forall i: nat | Picked(vars, s.v.key, i, TheFirst) ensures FirstIndex(vars, s.v.key) == Some(i) {}
  }

  lemma {:induction false} BatchOneStores(vars: seq<EnvVar>, s: Staged)
    ensures Stores(vars, BatchOne(vars, s), s.v, s.raw, TheLast)
  {
    assert LastIndex(vars, s.v.key).Some? ==> vars[LastIndex(vars, s.v.key).value] in vars;
    forall i: nat | Picked(vars, s.v.key, i, TheLast) ensures LastIndex(vars, s.v.key) == Some(i) {}
  }

  lemma {:induction false} SetAllStores(vars: seq<EnvVar>, staged: seq<Staged>)
    ensures StoresAll(vars, SetAll(vars, staged), staged, TheFirst)
  {
    if staged != [] {
      var mid := SetAll(vars, staged[..|staged| - 1]);
      SetAllStores(vars, staged[..|staged| - 1]);
      SetOneStores(mid, staged[|staged| - 1]);
      assert StoresLast(vars, mid, SetAll(vars, staged), staged, TheFirst);
    }
  }

  lemma {:induction false} BatchAllStores(vars: seq<EnvVar>, staged: seq<Staged>)
    ensures StoresAll(vars, BatchAll(vars, staged), staged, TheLast)
  {
    if staged != [] {
      var mid := BatchAll(vars, staged[..|staged| - 1]);
      BatchAllStores(vars, staged[..|staged| - 1]);
      BatchOneStores(mid, staged[|staged| - 1]);
      assert StoresLast(vars, mid, BatchAll(vars, staged), staged, TheLast);
    }
  }

  function SetAll(vars: seq<EnvVar>, staged: seq<Staged>): seq<EnvVar> {
    if staged == [] then vars else SetOne(SetAll(vars, staged[..|staged| - 1]), staged[|staged| - 1])
  }

  /** One line of the batch commit: the indexed entry with the key is replaced. */
  ghost function BatchOne(vars: seq<EnvVar>, s: Staged): seq<EnvVar> {
    match LastIndex(vars, s.v.key)
    case None => vars + [s.v]
    case Some(i) => vars[i := Committed(vars[i], s)]
  }

  ghost function BatchAll(vars: seq<EnvVar>, staged: seq<Staged>): seq<EnvVar> {
    if staged == [] then vars else BatchOne(BatchAll(vars, staged[..|staged| - 1]), staged[|staged| - 1])
  }

  /** A blank source label reads as "nrcc". */
  function Label(v: EnvVar): EnvVar {
    v.(source := if v.source == "node-red" then "node-red" else "nrcc")
  }

  function Labels(vars: seq<EnvVar>): (r: seq<EnvVar>)
    ensures |r| == |vars| && forall i :: 0 <= i < |vars| ==> r[i] == Label(vars[i])
  {
    seq(|vars|, i requires 0 <= i < |vars| => Label(vars[i]))
  }

  /** The batch leaves the source blank where a single set writes "nrcc". */
  function Unlabelled(staged: seq<Staged>): (r: seq<Staged>)
    ensures |r| == |staged| && forall i :: 0 <= i < |staged| ==>
      r[i] == Staged(staged[i].raw, staged[i].v.(source := ""))
  {
    seq(|staged|, i requires 0 <= i < |staged| => Staged(staged[i].raw, staged[i].v.(source := "")))
  }

  lemma {:induction false} SetOneKeepsDistinct(vars: seq<EnvVar>, s: Staged)
    requires Distinct(vars)
    ensures Distinct(SetOne(vars, s))
  {
    var r := SetOne(vars, s);
    forall i, j | 0 <= i < j < |r| ensures r[i].key != r[j].key {
      if FirstIndex(vars, s.v.key).None? && j == |vars| {
        assert vars[i] in vars;
      }
    }
  }

  lemma {:induction false} LabelsDecideIndexes(a: seq<EnvVar>, b: seq<EnvVar>, key: string)
    requires Labels(a) == Labels(b)
    ensures LastIndex(a, key) == LastIndex(b, key)
  {
    forall i | 0 <= i < |a| ensures a[i].key == b[i].key {
      assert Labels(a)[i] == Labels(b)[i];
    }
    SameKeysSameLast(a, b, key);
  }

  lemma {:induction false} LabelsDecideDistinct(a: seq<EnvVar>, b: seq<EnvVar>)
    requires Labels(a) == Labels(b) && Distinct(b)
    ensures Distinct(a)
  {
    forall i, j | 0 <= i < j < |a| ensures a[i].key != a[j].key {
      assert Labels(a)[i] == Labels(b)[i] && Labels(a)[j] == Labels(b)[j];
      assert b[i].key != b[j].key;
    }
  }

  lemma {:induction false} BatchStep(a: seq<EnvVar>, b: seq<EnvVar>, s: Staged)
    requires Labels(a) == Labels(b) && Distinct(b) && s.v.source == "nrcc"
    ensures Labels(BatchOne(a, Staged(s.raw, s.v.(source := "")))) == Labels(SetOne(b, s))
  {
    DistinctFirstIsLast(b, s.v.key);
    LabelsDecideIndexes(a, b, s.v.key);
    var blank := Staged(s.raw, s.v.(source := ""));
    var at := LastIndex(a, s.v.key);
    if at.Some? {
      assert Labels(a)[at.value] == Labels(b)[at.value];
      assert Label(Committed(a[at.value], blank)) == Label(Committed(b[at.value], s));
    }
    var a', b' := BatchOne(a, blank), SetOne(b, s);
    forall i | 0 <= i < |a'| ensures Label(a'[i]) == Label(b'[i]) {
      if i < |a| { assert Labels(a)[i] == Labels(b)[i]; }
    }
  }

  /** The one-shot batch commit is the single set folded over the lines, up to the blank
      source label, on every store with distinct keys. */
  lemma {:induction false} BatchIsFoldedSet(vars: seq<EnvVar>, staged: seq<Staged>)
    requires Distinct(vars)
    requires forall s :: s in staged ==> s.v.source == "nrcc"
    ensures Labels(BatchAll(vars, Unlabelled(staged))) == Labels(SetAll(vars, staged))
    ensures Distinct(SetAll(vars, staged)) && Distinct(BatchAll(vars, Unlabelled(staged)))
  {
    if staged != [] {
      var init, last := staged[..|staged| - 1], staged[|staged| - 1];
      BatchIsFoldedSet(vars, init);
      assert Unlabelled(staged)[..|init|] == Unlabelled(init);
      BatchStep(BatchAll(vars, Unlabelled(init)), SetAll(vars, init), last);
      SetOneKeepsDistinct(SetAll(vars, init), last);
      LabelsDecideDistinct(BatchAll(vars, Unlabelled(staged)), SetAll(vars, staged));
    }
  }

  /** Batch and folded set agree on every batch exactly when no key is stored twice: with a
      duplicate the set replaces the first entry and the batch the last. */
  lemma {:induction false} BatchAgreesIffDistinct(vars: seq<EnvVar>)
    ensures (forall staged :: AgreeOn(vars, staged)) <==> Distinct(vars)
  {
    if Distinct(vars) {
      forall staged: seq<Staged> ensures AgreeOn(vars, staged) {
        if forall s: Staged :: s in staged ==> s.v.source == "nrcc" {
          BatchIsFoldedSet(vars, staged);
        }
      }
    } else {
      var i, j :| 0 <= i < j < |vars| && vars[i].key == vars[j].key;
      DuplicateDisagrees(vars, i, j);
    }
  }

  ghost predicate AgreeOn(vars: seq<EnvVar>, staged: seq<Staged>) {
    (forall s :: s in staged ==> s.v.source == "nrcc") ==>
      Labels(BatchAll(vars, Unlabelled(staged))) == Labels(SetAll(vars, staged))
  }

  lemma {:induction false} DuplicateDisagrees(vars: seq<EnvVar>, i: nat, j: nat)
    requires i < j < |vars| && vars[i].key == vars[j].key
    ensures exists staged :: !AgreeOn(vars, staged)
  {
    var key := vars[i].key;
    var f, l := FirstIndex(vars, key), LastIndex(vars, key);
    assert vars[i] in vars;
    assert f.Some? && l.Some? && f.value <= i < j <= l.value;
    // A description no stored entry can have, so that replacing one entry always shows.
    var v := EnvVar(key, "x", "string", vars[f.value].description + "!", false, "nrcc");
    var staged := [Staged("x", v)];
    assert staged[..0] == [] && Unlabelled(staged)[..0] == [];
    assert SetAll(vars, staged) == SetOne(vars, staged[0]);
    assert BatchAll(vars, Unlabelled(staged)) == BatchOne(vars, Unlabelled(staged)[0]);
    var b, s := Labels(BatchAll(vars, Unlabelled(staged))), Labels(SetAll(vars, staged));
    assert b[f.value] == Label(vars[f.value]) && s[f.value] == Label(v);
    assert |vars[f.value].description + "!"| != |vars[f.value].description|;
    assert b != s;
    assert !AgreeOn(vars, staged);
  }

  // ---------- The merge of a source's env block ----------

  /** Takes over what the source declares for an entry, unless the entry is a secret. */
  function Adopt(existing: EnvVar, declared: EnvVar): EnvVar {
    if Locked(existing) then existing
    else existing.(value := declared.value, kind := if declared.kind != "" then declared.kind else existing.kind)
  }

  predicate Locked(v: EnvVar) { v.encrypted || v.kind == "secret" }

  ghost function MergeOne(vars: seq<EnvVar>, declared: EnvVar): seq<EnvVar> {
    match LastIndex(vars, declared.key)
    case None => vars + [declared]
    case Some(i) => vars[i := Adopt(vars[i], declared)]
  }

  ghost function MergeSource(vars: seq<EnvVar>, source: seq<EnvVar>): seq<EnvVar> {
    if source == [] then vars else MergeOne(MergeSource(vars, source[..|source| - 1]), source[|source| - 1])
  }

  /** One declaration of the source: the indexed entry of the key takes its value, and its kind if it
      has one, unless that entry is encrypted or a secret; nothing else of the entry and no other entry
      changes, and a key nobody has is appended. */
  ghost predicate Declares(before: seq<EnvVar>, after: seq<EnvVar>, d: EnvVar) {
    && ((forall v :: v in before ==> v.key != d.key) ==> after == before + [d])
    && forall i: nat :: LastAt(before, d.key, i) ==>
      && OthersSame(before, after, i)
      && (if before[i].encrypted || before[i].kind == "secret" then after[i] == before[i]
          else
            && after[i].key == before[i].key && after[i].description == before[i].description
            && !after[i].encrypted && after[i].source == before[i].source && after[i].value == d.value
            && after[i].kind == if d.kind == "" then before[i].kind else d.kind)
  }

  /** The declarations one after the other. */
  ghost predicate DeclaresAll(before: seq<EnvVar>, after: seq<EnvVar>, source: seq<EnvVar>)
    decreases |source|, 1
  {
    if source == [] then after == before else exists mid :: DeclaresLast(before, mid, after, source)
  }

  ghost predicate DeclaresLast(before: seq<EnvVar>, mid: seq<EnvVar>, after: seq<EnvVar>, source: seq<EnvVar>)
    requires source != []
    decreases |source|, 0
  {
    DeclaresAll(before, mid, source[..|source| - 1]) && Declares(mid, after, source[|source| - 1])
  }

  lemma {:induction false} MergeOneDeclares(vars: seq<EnvVar>, d: EnvVar)
    ensures Declares(vars, MergeOne(vars, d), d)
  {
    assert LastIndex(vars, d.key).Some? ==> vars[LastIndex(vars, d.key).value] in vars;
    forall i: nat | LastAt(vars, d.key, i) ensures LastIndex(vars, d.key) == Some(i) {}
  }

  lemma {:induction false} MergeDeclares(vars: seq<EnvVar>, source: seq<EnvVar>)
    ensures DeclaresAll(vars, MergeSource(vars, source), source)
  {
    if source != [] {
      var mid := MergeSource(vars, source[..|source| - 1]);
      MergeDeclares(vars, source[..|source| - 1]);
      MergeOneDeclares(mid, source[|source| - 1]);
      assert DeclaresLast(vars, mid, MergeSource(vars, source), source);
    }
  }

  /** The entry keeps its key, its description, its encryption and its origin, and a secret
      everything. */
  predicate EntryKept(v: EnvVar, w: EnvVar) {
    && w.key == v.key && w.description == v.description && w.encrypted == v.encrypted && w.source == v.source
    && (v.encrypted || v.kind == "secret" ==> w == v)
  }

  /** Whatever the source declares, no entry that was there goes, and an undeclared one stays as it
      is. */
  lemma {:induction false} DeclaredKeeps(before: seq<EnvVar>, after: seq<EnvVar>, source: seq<EnvVar>, i: nat)
    requires DeclaresAll(before, after, source) && i < |before|
    ensures i < |after| && EntryKept(before[i], after[i])
    ensures (forall d :: d in source ==> d.key != before[i].key) ==> after[i] == before[i]
    decreases |source|
  {
    if source != [] {
      var mid :| DeclaresLast(before, mid, after, source);
      DeclaredKeeps(before, mid, source[..|source| - 1], i);
      DeclaredOnce(mid, after, source[|source| - 1], i);
      assert forall d :: d in source[..|source| - 1] ==> d in source;
    }
  }

  lemma {:induction false} DeclaredOnce(before: seq<EnvVar>, after: seq<EnvVar>, d: EnvVar, i: nat)
    requires Declares(before, after, d) && i < |before|
    ensures i < |after| && EntryKept(before[i], after[i])
    ensures d.key != before[i].key ==> after[i] == before[i]
  {
    var at := LastIndex(before, d.key);
    if at.Some? {
      assert LastAt(before, d.key, at.value);
    } else {
      assert after == before + [d];
    }
  }

  method MergeEnvVars(current: seq<EnvVar>, source: seq<EnvVar>) returns (merged: seq<EnvVar>)
    ensures merged == MergeSource(current, source)
    ensures DeclaresAll(current, merged, source)
  {
    merged := current;
    var index: map<string, nat> := BuildIndex(current);
    for i := 0 to |source|
      invariant merged == MergeSource(current, source[..i]) && Indexes(index, merged)
    {
      assert source[..i + 1][..i] == source[..i];
      var v := source[i];
      assert LastIndex(merged, v.key) == if v.key in index then Some(index[v.key]) else None;
      if v.key !in index {
        IndexAfterAppend(index, merged, v);
        index := index[v.key := |merged|];
        merged := merged + [v];
      } else {
        var existing := merged[index[v.key]];
        if existing.encrypted || existing.kind == "secret" {
          assert merged[index[v.key] := existing] == merged;
          continue;
        }
        existing := existing.(value := v.value);
        if v.kind != "" {
          existing := existing.(kind := v.kind);
        }
        IndexAfterReplace(index, merged, existing);
        merged := merged[index[v.key] := existing];
      }
    }
    assert source[..|source|] == source;
    MergeDeclares(current, source);
  }

  lemma {:induction false} MergeSourceKeepsDistinct(vars: seq<EnvVar>, source: seq<EnvVar>)
    requires Distinct(vars)
    ensures Distinct(MergeSource(vars, source))
  {
    if source != [] {
      var before := MergeSource(vars, source[..|source| - 1]);
      MergeSourceKeepsDistinct(vars, source[..|source| - 1]);
      var r := MergeSource(vars, source);
      forall i, j | 0 <= i < j < |r| ensures r[i].key != r[j].key {
        if LastIndex(before, source[|source| - 1].key).None? && j == |before| {
          assert before[i] in before;
        }
      }
    }
  }

  /** What the declarations of one key make of an entry. */
  function AdoptAll(v: EnvVar, source: seq<EnvVar>): (r: EnvVar)
    ensures r.key == v.key && (Locked(v) ==> r == v)
  {
    if source == [] then v
    else
      var before := AdoptAll(v, source[..|source| - 1]);
      var declared := source[|source| - 1];
      if declared.key == v.key then Adopt(before, declared) else before
  }

  /** The last value, and the last kind, the source declares for a key. */
  function LastValue(key: string, source: seq<EnvVar>, default: string): string {
    if source == [] then default
    else if source[|source| - 1].key == key then source[|source| - 1].value
    else LastValue(key, source[..|source| - 1], default)
  }

  function LastKind(key: string, source: seq<EnvVar>, default: string): string {
    if source == [] then default
    else if source[|source| - 1].key == key && source[|source| - 1].kind != "" then source[|source| - 1].kind
    else LastKind(key, source[..|source| - 1], default)
  }

  /** An entry that is not a secret after the merge took the last declared value and kind. */
  lemma {:induction false} AdoptAllUnlocked(v: EnvVar, source: seq<EnvVar>)
    requires !Locked(AdoptAll(v, source))
    ensures AdoptAll(v, source) ==
      v.(value := LastValue(v.key, source, v.value), kind := LastKind(v.key, source, v.kind))
  {
    if source != [] {
      AdoptAllUnlocked(v, source[..|source| - 1]);
    }
  }

  lemma {:induction false} LastOfMerged(key: string, source: seq<EnvVar>, value: string, kind: string)
    ensures LastValue(key, source, LastValue(key, source, value)) == LastValue(key, source, value)
    ensures LastKind(key, source, LastKind(key, source, kind)) == LastKind(key, source, kind)
  {
    LastValueDefault(key, source, value, LastValue(key, source, value));
    LastKindDefault(key, source, kind, LastKind(key, source, kind));
  }

  lemma {:induction false} LastValueDefault(key: string, source: seq<EnvVar>, a: string, b: string)
    ensures LastValue(key, source, a) == LastValue(key, source, b)
      || (LastValue(key, source, a) == a && LastValue(key, source, b) == b)
  {
    if source != [] { LastValueDefault(key, source[..|source| - 1], a, b); }
  }

  lemma {:induction false} LastKindDefault(key: string, source: seq<EnvVar>, a: string, b: string)
    ensures LastKind(key, source, a) == LastKind(key, source, b)
      || (LastKind(key, source, a) == a && LastKind(key, source, b) == b)
  {
    if source != [] { LastKindDefault(key, source[..|source| - 1], a, b); }
  }

  /** An entry that already took the declarations is unchanged by them. */
  lemma {:induction false} AdoptAllStable(v: EnvVar, source: seq<EnvVar>, prefix: nat)
    requires prefix <= |source| && !Locked(AdoptAll(v, source))
    ensures !Locked(AdoptAll(AdoptAll(v, source), source[..prefix]))
  {
    if prefix > 0 {
      AdoptAllStable(v, source, prefix - 1);
      assert source[..prefix][..prefix - 1] == source[..prefix - 1];
      if source[prefix - 1].key == v.key {
        UnlockedNeverSecret(v, source, prefix - 1);
      }
    }
  }

  lemma {:induction false} UnlockedNeverSecret(v: EnvVar, source: seq<EnvVar>, i: nat)
    requires i < |source| && !Locked(AdoptAll(v, source)) && source[i].key == v.key
    ensures source[i].kind != "secret"
  {
    var init := source[..|source| - 1];
    if i < |init| {
      UnlockedNeverSecret(v, init, i);
    }
  }

  lemma {:induction false} AdoptAllIdempotent(v: EnvVar, source: seq<EnvVar>)
    ensures AdoptAll(AdoptAll(v, source), source) == AdoptAll(v, source)
  {
    var once := AdoptAll(v, source);
    if !Locked(once) {
      AdoptAllStable(v, source, |source|);
      assert source[..|source|] == source;
      AdoptAllUnlocked(v, source);
      AdoptAllUnlocked(once, source);
      LastOfMerged(v.key, source, v.value, v.kind);
    }
  }

  /** The list after a merge: the indexed entry of each key took that key's declarations, and
      every declared key has an entry. */
  ghost predicate MergedShape(vars: seq<EnvVar>, source: seq<EnvVar>, r: seq<EnvVar>) {
    && (forall d :: d in source ==> LastIndex(r, d.key).Some?)
    && (forall i {:trigger MergedEntry(vars, source, r, i)} :: 0 <= i < |r| ==> MergedEntry(vars, source, r, i))
  }

  ghost predicate MergedEntry(vars: seq<EnvVar>, source: seq<EnvVar>, r: seq<EnvVar>, i: nat)
    requires i < |r|
  {
    if LastIndex(r, r[i].key) == Some(i) then Settled(r[i], source) else i < |vars| && r[i] == vars[i]
  }

  ghost predicate Settled(v: EnvVar, source: seq<EnvVar>) {
    exists origin: EnvVar {:trigger AdoptAll(origin, source)} :: origin.key == v.key && v == AdoptAll(origin, source)
  }

  lemma {:induction false} MergeShape(vars: seq<EnvVar>, source: seq<EnvVar>)
    ensures MergedShape(vars, source, MergeSource(vars, source))
  {
    if source == [] {
      forall i | 0 <= i < |vars| ensures MergedEntry(vars, source, vars, i) {
        assert vars[i] == AdoptAll(vars[i], source);
      }
    } else {
      var init, d := source[..|source| - 1], source[|source| - 1];
      MergeShape(vars, init);
      MergeShapeStep(vars, init, d, MergeSource(vars, init));
      assert source == init + [d];
    }
  }

  lemma {:induction false} MergeShapeStep(vars: seq<EnvVar>, init: seq<EnvVar>, d: EnvVar, before: seq<EnvVar>)
    requires MergedShape(vars, init, before)
    ensures MergedShape(vars, init + [d], MergeOne(before, d))
  {
    var r := MergeOne(before, d);
    LastAfterMergeOne(before, d);
    forall x | x in init + [d] ensures LastIndex(r, x.key).Some? {
      if x in init { assert LastIndex(before, x.key).Some?; }
    }
    forall i | 0 <= i < |r| ensures MergedEntry(vars, init + [d], r, i) {
      if i < |before| {
        assert MergedEntry(vars, init, before, i);
        MergeOldEntry(vars, init, d, before, i);
      } else {
        MergeNewEntry(vars, init, d, before);
      }
    }
  }

  /** A new key gets the declaration itself, which takes its own values again. */
  lemma {:induction false} MergeNewEntry(vars: seq<EnvVar>, init: seq<EnvVar>, d: EnvVar, before: seq<EnvVar>)
    requires LastIndex(before, d.key).None? && forall x :: x in init ==> LastIndex(before, x.key).Some?
    ensures MergedEntry(vars, init + [d], before + [d], |before|)
  {
    AbsentAdoptsNothing(d, init, before);
    LastOfAppend(before, d, d.key);
    assert (init + [d])[..|init|] == init;
    assert d == AdoptAll(d, init + [d]);
  }

  lemma {:induction false} LastAfterMergeOne(vars: seq<EnvVar>, d: EnvVar)
    ensures var r := MergeOne(vars, d);
      && LastIndex(r, d.key).Some?
      && forall key :: LastIndex(vars, key).Some? ==> LastIndex(r, key) == LastIndex(vars, key)
  {
    var r := MergeOne(vars, d);
    if LastIndex(vars, d.key).Some? {
      SameKeysSameLast(vars, r, d.key);
    } else {
      LastOfAppend(vars, d, d.key);
    }
    forall key | LastIndex(vars, key).Some? ensures LastIndex(r, key) == LastIndex(vars, key) {
      if LastIndex(vars, d.key).Some? {
        SameKeysSameLast(vars, r, key);
      } else {
        LastOfAppend(vars, d, key);
      }
    }
  }

  lemma {:induction false} MergeOldEntry(vars: seq<EnvVar>, init: seq<EnvVar>, d: EnvVar, before: seq<EnvVar>, i: nat)
    requires i < |before| && MergedEntry(vars, init, before, i)
    ensures i < |MergeOne(before, d)| && MergedEntry(vars, init + [d], MergeOne(before, d), i)
  {
    var r := MergeOne(before, d);
    LastAfterMergeOne(before, d);
    assert before[i] in before;
    assert before[i].key == r[i].key && LastIndex(before, before[i].key).Some?;
    if LastIndex(r, r[i].key) == Some(i) {
      var origin: EnvVar :| origin.key == before[i].key && before[i] == AdoptAll(origin, init);
      assert (init + [d])[..|init|] == init;
      assert r[i] == AdoptAll(origin, init + [d]);
    }
  }

  lemma {:induction false} AbsentAdoptsNothing(v: EnvVar, source: seq<EnvVar>, r: seq<EnvVar>)
    requires forall d :: d in source ==> LastIndex(r, d.key).Some?
    requires LastIndex(r, v.key).None?
    ensures AdoptAll(v, source) == v
  {
    if source != [] {
      assert source[|source| - 1] in source;
      assert forall d :: d in source[..|source| - 1] ==> d in source;
      AbsentAdoptsNothing(v, source[..|source| - 1], r);
    }
  }

  /** Merging into a list that has every declared key changes entries in place. */
  lemma {:induction false} MergeInPlace(vars: seq<EnvVar>, source: seq<EnvVar>)
    requires forall d :: d in source ==> LastIndex(vars, d.key).Some?
    ensures var r := MergeSource(vars, source);
      && |r| == |vars|
      && (forall i :: 0 <= i < |vars| ==> r[i].key == vars[i].key)
      && forall i :: 0 <= i < |vars| ==>
        r[i] == if LastIndex(vars, vars[i].key) == Some(i) then AdoptAll(vars[i], source) else vars[i]
  {
    if source != [] {
      var init, d := source[..|source| - 1], source[|source| - 1];
      assert forall x :: x in init ==> x in source;
      assert d in source;
      MergeInPlace(vars, init);
      MergeInPlaceStep(vars, init, d, MergeSource(vars, init));
      assert source == init + [d];
    }
  }

  lemma {:induction false} MergeInPlaceStep(vars: seq<EnvVar>, init: seq<EnvVar>, d: EnvVar, before: seq<EnvVar>)
    requires LastIndex(vars, d.key).Some? && |before| == |vars|
    requires forall i :: 0 <= i < |vars| ==> before[i].key == vars[i].key
    requires forall i :: 0 <= i < |vars| ==>
      before[i] == if LastIndex(vars, vars[i].key) == Some(i) then AdoptAll(vars[i], init) else vars[i]
    ensures var r := MergeOne(before, d);
      && |r| == |vars|
      && (forall i :: 0 <= i < |vars| ==> r[i].key == vars[i].key)
      && forall i :: 0 <= i < |vars| ==>
        r[i] == if LastIndex(vars, vars[i].key) == Some(i) then AdoptAll(vars[i], init + [d]) else vars[i]
  {
    SameKeysSameLast(vars, before, d.key);
    var r, at := MergeOne(before, d), LastIndex(vars, d.key).value;
    assert r == before[at := Adopt(before[at], d)];
    assert (init + [d])[..|init|] == init && (init + [d])[|init|] == d;
    forall i | 0 <= i < |vars|
      ensures r[i] == if LastIndex(vars, vars[i].key) == Some(i) then AdoptAll(vars[i], init + [d]) else vars[i]
    {
      if LastIndex(vars, vars[i].key) == Some(i) && i != at {
        assert vars[i].key != d.key;
      }
    }
  }

  /** Merging the same source again changes nothing. */
  lemma {:induction false} MergeSourceIdempotent(vars: seq<EnvVar>, source: seq<EnvVar>)
    ensures MergeSource(MergeSource(vars, source), source) == MergeSource(vars, source)
  {
    var once := MergeSource(vars, source);
    MergeShape(vars, source);
    MergeInPlace(once, source);
    var twice := MergeSource(once, source);
    forall i | 0 <= i < |once| ensures twice[i] == once[i] {
      assert MergedEntry(vars, source, once, i);
      if LastIndex(once, once[i].key) == Some(i) {
        var origin: EnvVar :| origin.key == once[i].key && once[i] == AdoptAll(origin, source);
        AdoptAllIdempotent(origin, source);
      }
    }
  }

  // ---------- The service ----------

  /** What a single set stages for a line of a bulk import, or why it refuses it. */
  function StageLine(crypto: Crypto, encryptionKey: string, line: Line, coin: nat): Option<Staged> {
    var secret := line.kind == "secret";
    if !ValidKey(line.key) || (secret && line.value != "" && encryptionKey == "") then None
    else
      var stored := if secret && line.value != "" then crypto.encrypt(line.value, encryptionKey, coin)
        else Some(line.value);
      if stored.None? then None
      else Some(Staged(line.value, EnvVar(line.key, stored.value, line.kind, "bulk import", secret, "nrcc")))
  }

  /** A line is refused: its key is not valid, or its value cannot be encrypted although it has to. */
  predicate IsRefused(crypto: Crypto, encryptionKey: string, line: Line, coin: nat) {
    || !ValidKey(line.key)
    || (line.kind == "secret" && line.value != "" &&
        (encryptionKey == "" || crypto.encrypt(line.value, encryptionKey, coin).None?))
  }

  /** What is stored for a line: its key and kind, a fixed description, encrypted if it is a secret, and
      then as its ciphertext if there is a value. */
  predicate Submits(crypto: Crypto, encryptionKey: string, line: Line, coin: nat, s: Staged, source: string) {
    && s.raw == line.value && s.v.key == line.key && s.v.kind == line.kind && s.v.description == "bulk import"
    && (s.v.encrypted <==> line.kind == "secret") && s.v.source == source
    && (if line.kind == "secret" &&
      line.value != "" then crypto.encrypt(line.value, encryptionKey, coin) == Some(s.v.value)
        else s.v.value == line.value)
  }

  /** These lines, and no other, are stored one after the other. */
  ghost predicate Imports(crypto: Crypto, encryptionKey: string, before: seq<EnvVar>, after: seq<EnvVar>,
      lines: seq<Line>, coins: Coins, source: string, pick: Pick)
  {
    exists staged: seq<Staged> :: StoresAll(before, after, staged, pick) && |staged| == |lines| &&
      forall k :: 0 <= k < |lines| ==> Submits(crypto, encryptionKey, lines[k], coins(k), staged[k], source)
  }

  /** What is accepted are the lines before the first refused one. */
  lemma {:induction false} AcceptedSubmits(crypto: Crypto, encryptionKey: string, lines: seq<Line>, coins: Coins)
    ensures var r := Accepted(crypto, encryptionKey, lines, coins);
      && (forall k :: 0 <= k < |r| ==>
            && Submits(crypto, encryptionKey, lines[k], coins(k), r[k], "nrcc")
            && !IsRefused(crypto, encryptionKey, lines[k], coins(k)))
      && (|r| < |lines| ==> IsRefused(crypto, encryptionKey, lines[|r|], coins(|r|)))
  {
    if lines != [] { AcceptedSubmits(crypto, encryptionKey, lines[..|lines| - 1], coins); }
  }

  /** The staged entries beside the values the lines carried. */
  function Paired(lines: seq<Line>, staged: seq<EnvVar>): (r: seq<Staged>)
    requires |staged| == |lines|
    ensures |r| == |lines| && forall i :: 0 <= i < |lines| ==> r[i] == Staged(lines[i].value, staged[i])
  {
    seq(|lines|, i requires 0 <= i < |lines| => Staged(lines[i].value, staged[i]))
  }

  /** The lines a run of single sets gets through before the first one it refuses. */
  function Accepted(crypto: Crypto, encryptionKey: string, lines: seq<Line>, coins: Coins): (r: seq<Staged>)
    ensures |r| <= |lines| && forall s :: s in r ==> s.v.source == "nrcc"
  {
    if lines == [] then []
    else
      var init := Accepted(crypto, encryptionKey, lines[..|lines| - 1], coins);
      var last := StageLine(crypto, encryptionKey, lines[|lines| - 1], coins(|lines| - 1));
      if |init| < |lines| - 1 || last.None? then init else init + [last.value]
  }

  /** Every line passes the check of its value. */
  predicate AllPass(lines: seq<Line>, validValue: ValueCheck) { Passing(lines, validValue, |lines|) }

  predicate Passing(lines: seq<Line>, validValue: ValueCheck, n: nat)
    requires n <= |lines|
  {
    forall k :: 0 <= k < n ==> validValue(lines[k].value, lines[k].kind)
  }

  lemma {:induction false} PassingNext(lines: seq<Line>, validValue: ValueCheck, i: nat)
    requires i < |lines| && Passing(lines, validValue, i)
    ensures validValue(lines[i].value, lines[i].kind) ==> Passing(lines, validValue, i + 1)
    ensures !validValue(lines[i].value, lines[i].kind) ==> !AllPass(lines, validValue)
  {}

  /** An entry of the list that the migration has to rewrite. */
  predicate Stale(v: EnvVar, encryptionKey: string) {
    v.kind == "" || v.kind == "plain" || (v.encrypted && v.kind != "secret") || Unsealed(v, encryptionKey)
  }

  predicate Unsealed(v: EnvVar, encryptionKey: string) {
    v.encrypted && encryptionKey != "" && !IsEncrypted(v.value)
  }

  function MigrateKind(v: EnvVar): EnvVar {
    v.(kind := if v.encrypted then "secret" else if v.kind == "" || v.kind == "plain" then "string" else v.kind)
  }

  /** What a list read shows: an encrypted entry never shows its value. */
  function Mask(v: EnvVar): EnvVar {
    Label(v).(value := if v.encrypted then "" else v.value)
  }

  function Masked(vars: seq<EnvVar>): (r: seq<EnvVar>)
    ensures |r| == |vars| && forall i :: 0 <= i < |vars| ==> r[i] == Mask(vars[i])
  {
    seq(|vars|, i requires 0 <= i < |vars| => Mask(vars[i]))
  }

  /** What a reader sees of an entry: everything, but never the value of an encrypted one. */
  predicate Shows(v: EnvVar, w: EnvVar) {
    && w.key == v.key && w.kind == v.kind && w.description == v.description && w.encrypted == v.encrypted
    && w.source == (if v.source == "node-red" then "node-red" else "nrcc")
    && (v.encrypted ==> w.value == "") && (!v.encrypted ==> w.value == v.value)
  }

  /** A migration changes a kind only if it is of the old vocabulary or outdated by encryption. */
  predicate KindKept(v: EnvVar, w: EnvVar) {
    && w.key == v.key && w.description == v.description && w.encrypted == v.encrypted && w.source == v.source
    && (v.encrypted ==> w.kind == "secret")
    && (!v.encrypted && v.kind in ["", "plain"] ==> w.kind == "string")
    && (!v.encrypted && v.kind !in ["", "plain"] ==> w.kind == v.kind)
  }

  predicate ShowAll(vars: seq<EnvVar>, shown: seq<EnvVar>) {
    |shown| == |vars| && forall i :: 0 <= i < |vars| ==> Shows(vars[i], shown[i])
  }

  predicate KindsKept(before: seq<EnvVar>, after: seq<EnvVar>) {
    |after| == |before| && forall i :: 0 <= i < |before| ==> KindKept(before[i], after[i])
  }

  lemma {:induction false} MaskedShows(vars: seq<EnvVar>)
    ensures ShowAll(vars, Masked(vars))
  {}

  lemma {:induction false} FreshKept(vars: seq<EnvVar>, encryptionKey: string)
    requires !exists v :: v in vars && Stale(v, encryptionKey)
    ensures KindsKept(vars, vars)
  {
    forall i | 0 <= i < |vars| ensures KindKept(vars[i], vars[i]) { assert !Stale(vars[i], encryptionKey); }
  }

  lemma {:induction false} MigratedKept(crypto: Crypto, encryptionKey: string, before: seq<EnvVar>, after: seq<EnvVar>)
    requires Migrated(crypto, encryptionKey, before, after)
    ensures KindsKept(before, after)
  {
    forall i | 0 <= i < |before| ensures KindKept(before[i], after[i]) {
      assert after[i] == MigrateKind(before[i]).(value := after[i].value);
    }
  }

  /** Nothing but the migration separates `after` from `before`: each entry that had to be
      sealed now decrypts to the value it had, and every other value is the same. */
  ghost predicate Migrated(crypto: Crypto, encryptionKey: string, before: seq<EnvVar>, after: seq<EnvVar>) {
    && |after| == |before|
    && forall i :: 0 <= i < |before| ==>
      && after[i] == MigrateKind(before[i]).(value := after[i].value)
      && (if Unsealed(before[i], encryptionKey)
          then crypto.decrypt(after[i].value, encryptionKey) == Some(before[i].value)
          else after[i].value == before[i].value)
      && !Stale(after[i], encryptionKey)
  }

  datatype SetError = InvalidKey | EncryptionKeyRequired | EncryptFailed

  class Service {
    var vars: seq<EnvVar>
    const encryptionKey: string
    const crypto: Crypto

    constructor (vars: seq<EnvVar>, encryptionKey: string, crypto: Crypto)
      ensures this.vars == vars && this.encryptionKey == encryptionKey && this.crypto == crypto
    {
      this.vars, this.encryptionKey, this.crypto := vars, encryptionKey, crypto;
    }

    method Set(key: string, value: string, kind: string, description: string, encrypted: bool, source: string,
        coin: nat)
      returns (r: Result<(), SetError>)
      modifies this
      ensures r.Err? ==> vars == old(vars)
      ensures r.Ok? <==>
        ValidKey(key) &&
        (encrypted && value != "" ==> encryptionKey != "" && crypto.encrypt(value, encryptionKey, coin).Some?)
      ensures r.Ok? ==>
        var stored := if encrypted && value != "" then crypto.encrypt(value, encryptionKey, coin).value else value;
        && vars == SetOne(old(vars), Staged(value, EnvVar(key, stored, kind, description, encrypted, source)))
        && Stores(old(vars), vars, EnvVar(key, stored, kind, description, encrypted, source), value, TheFirst)
    {
      if !ValidKey(key) { return Err(InvalidKey); }
      if encrypted && value != "" && encryptionKey == "" { return Err(EncryptionKeyRequired); }
      var staged := value;
      if encrypted && value != "" {
        var sealed := crypto.encrypt(value, encryptionKey, coin);
        if sealed.None? { return Err(EncryptFailed); }
        staged := sealed.value;
      }
      var i := 0;
      while i < |vars| && vars[i].key != key
        invariant i <= |vars| && forall j :: 0 <= j < i ==> vars[j].key != key
      {
        i := i + 1;
      }
      var v := EnvVar(key, staged, kind, description, encrypted, source);
      ghost var found := FirstIndex(vars, key);
      if i < |vars| {
        assert vars[i] in vars;
        assert found == Some(i);
        if value == "" && vars[i].encrypted {
          v := v.(value := vars[i].value);
        }
        vars := vars[i := v];
      } else {
        assert found.None?;
        vars := vars + [v];
      }
      SetOneStores(old(vars), Staged(value, EnvVar(key, staged, kind, description, encrypted, source)));
      r := Ok(());
    }

    method Delete(key: string) returns (r: Result<(), SetError>)
      modifies this
      ensures r.Err? <==> !ValidKey(key)
      ensures r.Err? ==> vars == old(vars)
      ensures r.Ok? ==> vars == Without(old(vars), key)
    {
      if !ValidKey(key) { return Err(InvalidKey); }
      var kept := [];
      for i := 0 to |vars|
        invariant vars == old(vars) && kept == Without(vars[..i], key)
      {
        assert vars[..i + 1][..i] == vars[..i];
        if vars[i].key != key {
          kept := kept + [vars[i]];
        }
      }
      assert vars[..|vars|] == vars;
      vars := kept;
      r := Ok(());
    }

    /** Validates and encrypts every line before anything is committed. */
    method StageBatch(lines: seq<Line>, validValue: ValueCheck, coins: Coins)
      returns (staged: seq<EnvVar>, ok: bool)
      ensures ok ==> var accepted := Accepted(crypto, encryptionKey, lines, coins);
        |staged| == |lines| == |accepted| && Paired(lines, staged) == Unlabelled(accepted)
      ensures ok <==> AllPass(lines, validValue) && |Accepted(crypto, encryptionKey, lines, coins)| == |lines|
    {
      staged := [];
      for i := 0 to |lines|
        invariant Passing(lines, validValue, i)
        invariant |staged| == i && |Accepted(crypto, encryptionKey, lines[..i], coins)| == i
        invariant Paired(lines[..i], staged) == Unlabelled(Accepted(crypto, encryptionKey, lines[..i], coins))
      {
        PassingNext(lines, validValue, i);
        if !validValue(lines[i].value, lines[i].kind) { return [], false; }
        var v := StageOne(lines[i], coins(i));
        if v.None? {
          AcceptedStops(crypto, encryptionKey, lines, coins, i);
          return [], false;
        }
        StagedNext(crypto, encryptionKey, lines, coins, i, staged, v.value);
        staged := staged + [v.value];
      }
      assert lines[..|lines|] == lines;
      ok := true;
    }

    method StageOne(line: Line, coin: nat) returns (v: Option<EnvVar>)
      ensures StageLine(crypto, encryptionKey, line, coin) ==
        if v.Some? then Some(Staged(line.value, v.value.(source := "nrcc"))) else None
      ensures v.Some? ==> v.value.source == ""
    {
      if !ValidKey(line.key) { return None; }
      var value, encrypted := line.value, line.kind == "secret";
      if encrypted && value != "" && encryptionKey == "" { return None; }
      if encrypted && value != "" {
        var sealed := crypto.encrypt(value, encryptionKey, coin);
        if sealed.None? { return None; }
        value := sealed.value;
      }
      v := Some(EnvVar(line.key, value, line.kind, "bulk import", encrypted, ""));
    }

    /** The commit callback of the batch: entries are found through an index map. */
    method CommitBatch(current: seq<EnvVar>, lines: seq<Line>, staged: seq<EnvVar>) returns (next: seq<EnvVar>)
      requires |staged| == |lines|
      ensures next == BatchAll(current, Paired(lines, staged))
    {
      next := current;
      var index: map<string, nat> := BuildIndex(current);
      ghost var pairs := Paired(lines, staged);
      for i := 0 to |staged|
        invariant next == BatchAll(current, pairs[..i]) && Indexes(index, next)
      {
        assert pairs[..i + 1][..i] == pairs[..i];
        var v := staged[i];
        assert LastIndex(next, v.key) == if v.key in index then Some(index[v.key]) else None;
        if v.key in index {
          var at := index[v.key];
          if lines[i].value == "" && next[at].encrypted {
            v := v.(value := next[at].value);
          }
          IndexAfterReplace(index, next, v);
          next := next[at := v];
        } else {
          IndexAfterAppend(index, next, v);
          index := index[v.key := |next|];
          next := next + [v];
        }
      }
      assert pairs[..|staged|] == pairs;
    }

    /** The direct batch commit; it declines (and changes nothing) exactly when a line fails a check. */
    method ApplyBatch(lines: seq<Line>, validValue: ValueCheck, coins: Coins) returns (committed: bool)
      modifies this
      ensures committed ==> var staged := Accepted(crypto, encryptionKey, lines, coins);
        |staged| == |lines| && vars == BatchAll(old(vars), Unlabelled(staged))
      ensures !committed ==> vars == old(vars)
      ensures committed <==> AllPass(lines, validValue) && |Accepted(crypto, encryptionKey, lines, coins)| == |lines|
      ensures committed <==>
        forall k :: 0 <= k < |lines| ==>
          validValue(lines[k].value, lines[k].kind) && !IsRefused(crypto, encryptionKey, lines[k], coins(k))
      ensures committed ==> Imports(crypto, encryptionKey, old(vars), vars, lines, coins, "", TheLast)
    {
      AcceptedSubmits(crypto, encryptionKey, lines, coins);
      var staged, ok := StageBatch(lines, validValue, coins);
      if !ok { return false; }
      vars := CommitBatch(vars, lines, staged);
      BatchAllStores(old(vars), Unlabelled(Accepted(crypto, encryptionKey, lines, coins)));
      committed := true;
    }

    /** A bulk import with no restart envelope.  On a store with distinct keys its outcome, up to
        the blank source label, is the one of single sets run line by line until the first
        refusal, whether or not the direct batch took it. */
    method ApplyBulk(lines: seq<Line>, validValue: ValueCheck, coins: Coins) returns (ok: bool)
      modifies this
      ensures Distinct(old(vars)) ==>
        && Labels(vars) == Labels(SetAll(old(vars), Accepted(crypto, encryptionKey, lines, coins)))
        && Distinct(vars)
      ensures ok <==> |Accepted(crypto, encryptionKey, lines, coins)| == |lines|
      ensures ok <==> forall k :: 0 <= k < |lines| ==> !IsRefused(crypto, encryptionKey, lines[k], coins(k))
      ensures Imports(crypto, encryptionKey, old(vars), vars, lines, coins, "", TheLast) ||
        Sets(old(vars), vars, lines, coins)
    {
      AcceptedSubmits(crypto, encryptionKey, lines, coins);
      var committed := ApplyBatch(lines, validValue, coins);
      if committed {
        if Distinct(old(vars)) {
          BatchIsFoldedSet(old(vars), Accepted(crypto, encryptionKey, lines, coins));
        }
        return true;
      }
      ok := SetEach(lines, coins);
      SetsAccepted(old(vars), lines, coins);
      if Distinct(old(vars)) {
        BatchIsFoldedSet(old(vars), Accepted(crypto, encryptionKey, lines, coins));
      }
    }

    /** The lines before the first refused one are stored as single sets store them. */
    ghost predicate Sets(before: seq<EnvVar>, after: seq<EnvVar>, lines: seq<Line>, coins: Coins) {
      exists m: nat :: m <= |lines|
        && Imports(crypto, encryptionKey, before, after, lines[..m], coins, "nrcc", TheFirst)
        && (forall k :: 0 <= k < m ==> !IsRefused(crypto, encryptionKey, lines[k], coins(k)))
        && (m < |lines| ==> IsRefused(crypto, encryptionKey, lines[m], coins(m)))
    }

    lemma {:induction false} SetsAccepted(before: seq<EnvVar>, lines: seq<Line>, coins: Coins)
      ensures Sets(before, SetAll(before, Accepted(crypto, encryptionKey, lines, coins)), lines, coins)
    {
      var r := Accepted(crypto, encryptionKey, lines, coins);
      AcceptedSubmits(crypto, encryptionKey, lines, coins);
      SetAllStores(before, r);
      assert Imports(crypto, encryptionKey, before, SetAll(before, r), lines[..|r|], coins, "nrcc", TheFirst);
    }

    /** Single sets line by line, up to the first one that is refused. */
    method SetEach(lines: seq<Line>, coins: Coins) returns (ok: bool)
      modifies this
      ensures vars == SetAll(old(vars), Accepted(crypto, encryptionKey, lines, coins))
      ensures ok <==> |Accepted(crypto, encryptionKey, lines, coins)| == |lines|
    {
      for i := 0 to |lines|
        invariant |Accepted(crypto, encryptionKey, lines[..i], coins)| == i
        invariant vars == SetAll(old(vars), Accepted(crypto, encryptionKey, lines[..i], coins))
      {
        assert lines[..i + 1][..i] == lines[..i];
        var line := lines[i];
        var r := Set(line.key, line.value, line.kind, "bulk import", line.kind == "secret", "nrcc", coins(i));
        ghost var staged := StageLine(crypto, encryptionKey, line, coins(i));
        if r.Err? {
          AcceptedStops(crypto, encryptionKey, lines, coins, i);
          return false;
        }
        AcceptedNext(crypto, encryptionKey, lines, coins, i, staged.value, old(vars));
      }
      assert lines[..|lines|] == lines;
      ok := true;
    }

    /** With a key no encrypted value stays in clear; a value that was, now decrypts to itself, and every
        other value is the same. */
    predicate SealedKept(v: EnvVar, w: EnvVar) {
      var clear := v.encrypted && encryptionKey != "" && !("enc:" <= v.value);
      && (clear ==> "enc:" <= w.value && crypto.decrypt(w.value, encryptionKey) == Some(v.value))
      && (!clear ==> w.value == v.value)
    }

    lemma {:induction false} FreshSealed(config: seq<EnvVar>)
      requires !exists v :: v in config && Stale(v, encryptionKey)
      ensures forall i :: 0 <= i < |config| ==> SealedKept(config[i], config[i])
    {
      forall i | 0 <= i < |config| ensures SealedKept(config[i], config[i]) { assert !Stale(config[i], encryptionKey); }
    }

    lemma {:induction false} MigratedSealed(before: seq<EnvVar>, after: seq<EnvVar>)
      requires Migrated(crypto, encryptionKey, before, after)
      ensures |after| == |before| && forall i :: 0 <= i < |before| ==> SealedKept(before[i], after[i])
    {
      forall i | 0 <= i < |before| ensures SealedKept(before[i], after[i]) {
        assert after[i] == MigrateKind(before[i]).(value := after[i].value) && !Stale(after[i], encryptionKey);
      }
    }

    /** Lists the variables, migrating entries of an older format first.  `others` is the store
        as concurrent writers leave it just before each commit attempt; once they stop, the
        loop ends.  `seen` is the store the commit was applied to. */
    method List(others: seq<seq<EnvVar>>, coins: CoinRows)
      returns (r: Result<seq<EnvVar>, SetError>, ghost seen: seq<EnvVar>)
      requires crypto.Lawful()
      modifies this
      ensures seen == old(vars) || seen in others
      ensures r.Ok? ==>
        Migrated(crypto, encryptionKey, seen, vars) ||
        (vars == seen && !exists v :: v in seen && Stale(v, encryptionKey))
      ensures r.Ok? ==> r.value == Masked(vars)
      ensures r.Ok? ==> ShowAll(vars, r.value) && KindsKept(seen, vars)
      ensures r.Ok? ==> |vars| == |seen| && forall i :: 0 <= i < |vars| ==> SealedKept(seen[i], vars[i])
      ensures r.Ok? ==> forall v :: v in vars ==> !Stale(v, encryptionKey)
      ensures r.Err? ==> vars == seen
    {
      var attempt := 0;
      seen := vars;
      while true
        invariant attempt <= |others| && vars == seen
        invariant seen == old(vars) || seen in others
        decreases |others| - attempt
      {
        var config := vars;
        if !exists v :: v in config && Stale(v, encryptionKey) {
          MaskedShows(config);
          FreshKept(config, encryptionKey);
          FreshSealed(config);
          return Ok(Masked(config)), seen;
        }
        var staged: map<(string, string), string> := map[];
        for i := 0 to |config|
          invariant forall j :: 0 <= j < i && Unsealed(config[j], encryptionKey) ==>
            (config[j].key, config[j].value) in staged
          invariant forall k :: k in staged ==>
            IsEncrypted(staged[k]) && crypto.decrypt(staged[k], encryptionKey) == Some(k.1)
        {
          var v := config[i];
          if Unsealed(v, encryptionKey) {
            var sealed := crypto.encrypt(v.value, encryptionKey, coins(attempt)(i));
            if sealed.None? { return Err(EncryptFailed), seen; }
            staged := staged[(v.key, v.value) := sealed.value];
          }
        }
        if attempt < |others| {
          vars := others[attempt]; // what the other writers committed meanwhile
          seen := vars;
        }
        if !exists v :: v in vars && Stale(v, encryptionKey) {
          MaskedShows(vars);
          FreshKept(vars, encryptionKey);
          FreshSealed(vars);
          return Ok(Masked(vars)), seen;
        }
        var next, upToDate := CommitMigration(vars, staged);
        if upToDate {
          vars := next;
          MaskedShows(vars);
          MigratedKept(crypto, encryptionKey, seen, vars);
          MigratedSealed(seen, vars);
          return Ok(Masked(vars)), seen;
        }
        assert attempt < |others|;
        attempt := attempt + 1;
      }
    }

    /** The commit callback: refuses when an entry that must be sealed was not staged. */
    method CommitMigration(current: seq<EnvVar>, staged: map<(string, string), string>)
      returns (next: seq<EnvVar>, upToDate: bool)
      requires forall k :: k in staged ==>
        IsEncrypted(staged[k]) && crypto.decrypt(staged[k], encryptionKey) == Some(k.1)
      ensures upToDate <==> forall i :: 0 <= i < |current| && Unsealed(current[i], encryptionKey) ==>
        (current[i].key, current[i].value) in staged
      ensures upToDate ==> Migrated(crypto, encryptionKey, current, next)
    {
      next := [];
      for i := 0 to |current|
        invariant |next| == i && Migrated(crypto, encryptionKey, current[..i], next)
        invariant forall j :: 0 <= j < i && Unsealed(current[j], encryptionKey) ==>
          (current[j].key, current[j].value) in staged
      {
        var v := MigrateKind(current[i]);
        if Unsealed(v, encryptionKey) {
          if (v.key, v.value) !in staged {
            return [], false;
          }
          v := v.(value := staged[(v.key, v.value)]);
        }
        next := next + [v];
      }
      assert current[..|current|] == current;
      upToDate := true;
    }
  }

  function Without(vars: seq<EnvVar>, key: string): seq<EnvVar> {
    if vars == [] then []
    else
      var init, last := Without(vars[..|vars| - 1], key), vars[|vars| - 1];
      if last.key == key then init else init + [last]
  }

  /** What is left keeps its order: a delete works on each part of the list by itself. */
  lemma {:induction false} WithoutAppend(a: seq<EnvVar>, b: seq<EnvVar>, key: string)
    ensures Without(a + b, key) == Without(a, key) + Without(b, key)
    ensures (forall v :: v in a ==> v.key != key) ==> Without(a, key) == a
    ensures (forall v :: v in a ==> v.key == key) ==> Without(a, key) == []
  {
    WithoutParts(a, b, key);
    WithoutAllOrNone(a, key);
  }

  lemma {:induction false} WithoutParts(a: seq<EnvVar>, b: seq<EnvVar>, key: string)
    ensures Without(a + b, key) == Without(a, key) + Without(b, key)
  {
    if b == [] {
      assert a + b == a;
    } else {
      assert (a + b)[..|a + b| - 1] == a + b[..|b| - 1];
      WithoutParts(a, b[..|b| - 1], key);
    }
  }

  lemma {:induction false} WithoutAllOrNone(a: seq<EnvVar>, key: string)
    ensures (forall v :: v in a ==> v.key != key) ==> Without(a, key) == a
    ensures (forall v :: v in a ==> v.key == key) ==> Without(a, key) == []
  {
    if a != [] {
      WithoutAllOrNone(a[..|a| - 1], key);
      assert a == a[..|a| - 1] + [a[|a| - 1]];
    }
  }

  /** A delete removes every entry with the key, and keeps keys distinct. */
  lemma {:induction false} WithoutKey(vars: seq<EnvVar>, key: string)
    ensures forall v :: v in Without(vars, key) <==> v in vars && v.key != key
    ensures Distinct(vars) ==> Distinct(Without(vars, key))
  {
    if vars != [] {
      var init := vars[..|vars| - 1];
      WithoutKey(init, key);
      assert vars == init + [vars[|vars| - 1]];
      if Distinct(vars) {
        var r, w := Without(vars, key), Without(init, key);
        assert Distinct(init);
        forall i, j | 0 <= i < j < |r| ensures r[i].key != r[j].key {
          if j == |w| {
            assert w[i] in init;
          }
        }
      }
    }
  }

  lemma {:induction false} StagedNext(crypto: Crypto, encryptionKey: string, lines: seq<Line>, coins: Coins, i: nat,
                   staged: seq<EnvVar>, v: EnvVar)
    requires i < |lines| && |staged| == i && |Accepted(crypto, encryptionKey, lines[..i], coins)| == i
    requires Paired(lines[..i], staged) == Unlabelled(Accepted(crypto, encryptionKey, lines[..i], coins))
    requires StageLine(crypto, encryptionKey, lines[i], coins(i)) == Some(Staged(lines[i].value, v.(source := "nrcc")))
    requires v.source == ""
    ensures |Accepted(crypto, encryptionKey, lines[..i + 1], coins)| == i + 1
    ensures Paired(lines[..i + 1], staged + [v]) == Unlabelled(Accepted(crypto, encryptionKey, lines[..i + 1], coins))
  {
    var before, after := Accepted(crypto, encryptionKey, lines[..i], coins),
      Accepted(crypto, encryptionKey, lines[..i + 1], coins);
    assert lines[..i + 1][..i] == lines[..i];
    assert after == before + [Staged(lines[i].value, v.(source := "nrcc"))];
    assert Unlabelled(after) == Unlabelled(before) + [Staged(lines[i].value, v)];
    assert Paired(lines[..i + 1], staged + [v]) == Paired(lines[..i], staged) + [Staged(lines[i].value, v)];
  }

  lemma {:induction false} AcceptedNext(crypto: Crypto, encryptionKey: string, lines: seq<Line>, coins: Coins, i: nat,
      s: Staged, vars: seq<EnvVar>)
    requires i < |lines| && |Accepted(crypto, encryptionKey, lines[..i], coins)| == i
    requires StageLine(crypto, encryptionKey, lines[i], coins(i)) == Some(s)
    ensures var before, after := Accepted(crypto, encryptionKey, lines[..i], coins),
      Accepted(crypto, encryptionKey, lines[..i + 1], coins);
      |after| == i + 1 && SetAll(vars, after) == SetOne(SetAll(vars, before), s)
  {
    var before, after := Accepted(crypto, encryptionKey, lines[..i], coins),
      Accepted(crypto, encryptionKey, lines[..i + 1], coins);
    assert lines[..i + 1][..i] == lines[..i];
    assert after == before + [s];
    assert after[..i] == before;
  }

  lemma {:induction false} AcceptedStops(crypto: Crypto, encryptionKey: string, lines: seq<Line>, coins: Coins, i: nat)
    requires i < |lines| && |Accepted(crypto, encryptionKey, lines[..i], coins)| == i
    requires StageLine(crypto, encryptionKey, lines[i], coins(i)).None?
    ensures Accepted(crypto, encryptionKey, lines, coins) == Accepted(crypto, encryptionKey, lines[..i], coins)
  {
    if |lines| == i + 1 {
      assert lines[..|lines| - 1] == lines[..i];
    } else {
      var init := lines[..|lines| - 1];
      assert init[..i] == lines[..i];
      AcceptedStops(crypto, encryptionKey, init, coins, i);
    }
  }
}
