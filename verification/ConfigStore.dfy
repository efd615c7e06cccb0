/** The persisted configuration and the field-aware restore of a failed transaction
    (internal/service/config.go, internal/service/config_reconcile.go and
    internal/store/json_store.go).

    The store keeps what a value becomes when it is written as JSON and read back.  Other
    writers, the environment service among them, commit in between the steps of a transaction.
 */
module ConfigStore {
  import opened Wrappers
  import opened EnvStore

  /** The managed fields of the configuration, apart from the two ports. */
  datatype Field =
    | UIHost | HTTPAdminRoot | HTTPNodeRoot | FlowFile | UserDir | NodesDir | Lang
    | DisableEditor | ProjectsEnabled | CredentialSecret | RequireHttps | Https | Logging
    | AdminAuth | HTTPNodeAuth | HTTPStaticAuth | EditorTheme

  /** An in-memory value of a field; two of them are equal when deep equality says so. */
  datatype Value = Absent | Data(text: string, repr: nat)

  type Fields = m: map<Field, Value> | forall f: Field :: f in m
    witness map f: Field | true :: Absent

  datatype Config = Config(
    port: int, uiPort: int, fields: Fields,
    env: seq<EnvVar>, libraries: Value, runtime: Value,
    path: string, source: string)

  const ZERO := Config(0, 0, map f: Field | true :: Absent, [], Absent, Absent, "", "")

  type ConfigCheck = Config -> bool

  /** What a value becomes when it is written as JSON and read back. */
  datatype Codec = Codec(load: Value -> Value) {
    ghost predicate Lawful() {
      load(Absent) == Absent && forall v {:trigger load(load(v))} :: load(load(v)) == load(v)
    }
  }

  function LoadFields(codec: Codec, fields: Fields): Fields {
    map f: Field | true :: codec.load(fields[f])
  }

  /** A configuration written and read back; a missing port is read as the editor port. */
  function Reload(codec: Codec, c: Config): Config {
    c.(port := if c.port == 0 && c.uiPort > 0 then c.uiPort else c.port,
       fields := LoadFields(codec, c.fields),
       libraries := codec.load(c.libraries),
       runtime := codec.load(c.runtime))
  }

  /** A configuration as it is read from the store. */
  ghost predicate Loaded(codec: Codec, c: Config) { Reload(codec, c) == c }

  lemma {:induction false} ReloadLoaded(codec: Codec, c: Config)
    requires codec.Lawful()
    ensures Loaded(codec, Reload(codec, c)) && Loaded(codec, ZERO)
  {
    assert Reload(codec, Reload(codec, c)).fields == Reload(codec, c).fields;
    assert Reload(codec, ZERO).fields == ZERO.fields;
  }

  /** What an update of the store starts from: a missing store reads as the zero value. */
  function Current(store: Option<Config>): Config {
    if store.Some? then store.value else ZERO
  }

  // ---------- Updates of the environment ----------

  type EnvUpdate = seq<EnvVar> -> seq<EnvVar>

  function EnvCommit(codec: Codec, store: Option<Config>, u: EnvUpdate): Option<Config> {
    var c := Current(store);
    Some(Reload(codec, c.(env := u(c.env))))
  }

  function EnvAll(codec: Codec, store: Option<Config>, us: seq<EnvUpdate>): Option<Config> {
    if us == [] then store else EnvCommit(codec, EnvAll(codec, store, us[..|us| - 1]), us[|us| - 1])
  }

  function EnvFold(env: seq<EnvVar>, us: seq<EnvUpdate>): seq<EnvVar> {
    if us == [] then env else us[|us| - 1](EnvFold(env, us[..|us| - 1]))
  }

  /** Environment updates touch nothing but the environment. */
  lemma {:induction false} EnvAllKeeps(codec: Codec, c: Config, us: seq<EnvUpdate>)
    requires Loaded(codec, c)
    ensures EnvAll(codec, Some(c), us) == Some(c.(env := EnvFold(c.env, us)))
  {
    if us != [] {
      EnvAllKeeps(codec, c, us[..|us| - 1]);
      var before := c.(env := EnvFold(c.env, us[..|us| - 1]));
      var after := before.(env := us[|us| - 1](before.env));
      assert Reload(codec, after).fields == Reload(codec, c).fields;
    }
  }

  lemma {:induction false} EnvFoldAppend(env: seq<EnvVar>, us: seq<EnvUpdate>, vs: seq<EnvUpdate>)
    ensures EnvFold(env, us + vs) == EnvFold(EnvFold(env, us), vs)
  {
    if vs == [] {
      assert us + vs == us;
    } else {
      assert (us + vs)[..|us + vs| - 1] == us + vs[..|vs| - 1];
      EnvFoldAppend(env, us, vs[..|vs| - 1]);
    }
  }

  // ---------- The structured commit and its undoing ----------

  /** What the commit captured under the store's lock: the state before, and what it published. */
  datatype Commit = Commit(previous: Config, committed: Config)

  /** The values a structured apply writes: the ports and the managed fields. */
  datatype Edit = Edit(port: int, uiPort: int, fields: Fields)

  /** The structured commit keeps what other services own and records where the settings are. */
  function Published(current: Config, edit: Edit, path: string, source: string): Commit {
    Commit(current,
      current.(port := edit.port, uiPort := edit.uiPort, fields := edit.fields, path := path, source := source))
  }

  /** The configuration has the submitted values and keeps what other services own. */
  ghost predicate Takes(c: Config, edit: Edit, current: Config, path: string, source: string) {
    && c.port == edit.port && c.uiPort == edit.uiPort && (forall f: Field :: c.fields[f] == edit.fields[f])
    && c.env == current.env && c.libraries == current.libraries && c.runtime == current.runtime
    && c.path == path && c.source == source
  }

  /** Puts the previous value back into every structured field that still holds the committed
      one. */
  function RestoredFields(current: Config, c: Commit): Config {
    current.(
      port := if current.port == c.committed.port then c.previous.port else current.port,
      uiPort := if current.uiPort == c.committed.uiPort then c.previous.uiPort else current.uiPort,
      fields := map f: Field | true ::
        if current.fields[f] == c.committed.fields[f] then c.previous.fields[f] else current.fields[f])
  }

  /** The mirror restore owns the environment as well. */
  function RestoredMirror(current: Config, c: Commit): Config {
    RestoredFields(current, c).(env := if current.env == c.committed.env then c.previous.env else current.env)
  }

  /** The loop over the fields of the configuration. */
  method RestoreUnchangedFields(current: Config, c: Commit, mirror: bool) returns (r: Config)
    ensures r == if mirror then RestoredMirror(current, c) else RestoredFields(current, c)
  {
    var fields := RestoreUnchanged(current.fields, c.previous.fields, c.committed.fields);
    r := current.(fields := fields);
    if r.port == c.committed.port { r := r.(port := c.previous.port); }
    if r.uiPort == c.committed.uiPort { r := r.(uiPort := c.previous.uiPort); }
    if mirror && r.env == c.committed.env { r := r.(env := c.previous.env); }
  }

  method RestoreUnchanged(current: Fields, previous: Fields, committed: Fields) returns (r: Fields)
    ensures r == map f: Field | true :: if current[f] == committed[f] then previous[f] else current[f]
  {
    var fields: map<Field, Value>, todo := current, current.Keys;
    while todo != {}
      invariant forall f: Field :: f in fields
      invariant forall f :: f in todo ==> fields[f] == current[f]
      invariant forall f :: f !in todo ==> fields[f] == if current[f] == committed[f] then previous[f] else current[f]
      decreases todo
    {
      var f :| f in todo;
      if fields[f] == committed[f] { fields := fields[f := previous[f]]; }
      todo := todo - {f};
    }
    r := fields;
  }

  /** The commit, the restore and every environment update in between, before and after. */
  function CommitThenRestore(codec: Codec, c: Config, edit: Edit, path: string, source: string,
                             us: seq<EnvUpdate>, vs: seq<EnvUpdate>, ws: seq<EnvUpdate>): Config
  {
    var start := Current(EnvAll(codec, Some(c), us));
    var commit := Published(start, edit, path, source);
    var during := Current(EnvAll(codec, Some(Reload(codec, commit.committed)), vs));
    Current(EnvAll(codec, Some(Reload(codec, RestoredFields(during, commit))), ws))
  }

  /** Some committed value is not what the store read back, and so is never put back. */
  predicate Sticks(codec: Codec, c: Config, edit: Edit) {
    || (edit.port == 0 && edit.uiPort > 0 && edit.uiPort != c.port)
    || exists f :: codec.load(edit.fields[f]) != edit.fields[f] && codec.load(edit.fields[f]) != c.fields[f]
  }

  /** Two configurations agree on everything but where the settings are. */
  predicate SameButPlace(a: Config, b: Config) {
    a == b.(path := a.path, source := a.source)
  }

  /** Rollback erases the transaction.  For every interleaving with environment updates, the
      store ends up as if only those updates had happened, exactly when every value the
      transaction published survives being written and read back (or is what was there). */
  lemma {:induction false} RollbackErases(codec: Codec, c: Config, edit: Edit, path: string, source: string,
                       us: seq<EnvUpdate>, vs: seq<EnvUpdate>, ws: seq<EnvUpdate>)
    requires codec.Lawful() && Loaded(codec, c)
    ensures SameButPlace(CommitThenRestore(codec, c, edit, path, source, us, vs, ws),
                         Current(EnvAll(codec, Some(c), us + vs + ws)))
      <==> !Sticks(codec, c, edit)
  {
    EnvAllKeeps(codec, c, us);
    var start := c.(env := EnvFold(c.env, us));
    var commit := Published(start, edit, path, source);
    var stored := Reload(codec, commit.committed);
    ReloadLoaded(codec, commit.committed);
    EnvAllKeeps(codec, stored, vs);
    var during := stored.(env := EnvFold(stored.env, vs));
    var restored := RestoredFields(during, commit);
    RestoredLoaded(codec, start, commit, during);
    EnvAllKeeps(codec, restored, ws);
    EnvAllKeeps(codec, c, us + vs + ws);
    EnvFoldAppend(c.env, us, vs);
    EnvFoldAppend(c.env, us + vs, ws);
    assert CommitThenRestore(codec, c, edit, path, source, us, vs, ws) == restored.(env := EnvFold(restored.env, ws));
    RestoredWhole(codec, c, edit, path, source, during);
  }

  lemma {:induction false} RestoredWhole(codec: Codec, c: Config, edit: Edit, path: string, source: string,
      during: Config)
    requires Loaded(codec, c)
    requires var stored := Reload(codec, Published(c, edit, path, source).committed);
      during == stored.(env := during.env)
    ensures var restored := RestoredFields(during, Published(c, edit, path, source));
      SameButPlace(restored, c.(env := during.env)) <==> !Sticks(codec, c, edit)
  {
    var restored := RestoredFields(during, Published(c, edit, path, source));
    forall f: Field
      ensures restored.fields[f] == c.fields[f] <==>
        codec.load(edit.fields[f]) == edit.fields[f] || codec.load(edit.fields[f]) == c.fields[f]
    {}
    if !Sticks(codec, c, edit) {
      assert restored.fields == c.fields;
    }
  }

  /** What a restore writes survives being written and read back. */
  lemma {:induction false} RestoredLoaded(codec: Codec, start: Config, commit: Commit, during: Config)
    requires codec.Lawful() && Loaded(codec, start) && Loaded(codec, during) && commit.previous == start
    requires during.port == Reload(codec, commit.committed).port && during.uiPort == commit.committed.uiPort
    ensures Loaded(codec, RestoredFields(during, commit))
  {
    var restored := RestoredFields(during, commit);
    forall f: Field ensures codec.load(restored.fields[f]) == restored.fields[f] {
      assert Reload(codec, start).fields[f] == start.fields[f];
      assert Reload(codec, during).fields[f] == during.fields[f];
    }
    assert Reload(codec, restored).fields == restored.fields;
  }

  // ---------- Reconciling the mirror with a source ----------

  /** What one field takes from the source. */
  function ReconciledField(live: Value, src: Source, f: Field): Value {
    if f == EditorTheme then (if src.theme.Some? then src.theme.value else live)
    else if f in src.declared then src.parsed.fields[f]
    else live
  }

  function ReconciledFields(live: Fields, src: Source): Fields {
    map f: Field | true :: ReconciledField(live[f], src, f)
  }

  /** What the sandbox and the parser read in a settings.js: the parsed values, which fields the
      source declares, and the blocks only an evaluated source can give. */
  datatype Source = Source(parsed: Config, ports: bool, declared: set<Field>, theme: Option<Value>,
    env: Option<seq<EnvVar>>)

  /** The source wins for what it declares, the mirror keeps the rest. */
  ghost function Reconciled(base: Config, src: Source): Config {
    base.(
      port := if src.ports then src.parsed.port else base.port,
      uiPort := if src.ports then src.parsed.uiPort else base.uiPort,
      fields := ReconciledFields(base.fields, src),
      env := if src.env.Some? then MergeSource(base.env, src.env.value) else base.env)
  }

  /** The source wins for every field it declares, and every other field stays; the editor theme and
      the environment come from an evaluated source only, both ports together, and what the code
      itself owns never comes from the source. */
  ghost predicate Follows(r: Config, base: Config, src: Source) {
    && (forall f: Field :: f != EditorTheme && f in src.declared ==> r.fields[f] == src.parsed.fields[f])
    && (forall f: Field :: f != EditorTheme && f !in src.declared ==> r.fields[f] == base.fields[f])
    && (src.theme.Some? ==> r.fields[EditorTheme] == src.theme.value)
    && (src.theme.None? ==> r.fields[EditorTheme] == base.fields[EditorTheme])
    && (src.ports ==> r.port == src.parsed.port && r.uiPort == src.parsed.uiPort)
    && (!src.ports ==> r.port == base.port && r.uiPort == base.uiPort)
    && (src.env.Some? ==> DeclaresAll(base.env, r.env, src.env.value))
    && (src.env.None? ==> r.env == base.env)
    && r.libraries == base.libraries && r.runtime == base.runtime
  }

  /** The merge of the source into a copy of the mirror. */
  method ReconcileWithSource(base: Config, src: Source) returns (r: Config)
    ensures r == Reconciled(base, src)
    ensures Follows(r, base, src) && r.path == base.path && r.source == base.source
  {
    var env := base.env;
    if src.env.Some? { env := MergeEnvVars(base.env, src.env.value); }
    r := base.(
      port := if src.ports then src.parsed.port else base.port,
      uiPort := if src.ports then src.parsed.uiPort else base.uiPort,
      fields := ReconciledFields(base.fields, src),
      env := env);
  }

  /** The commit of a reconciliation; a store that did not exist starts from the parsed source. */
  ghost function Mirrored(current: Config, existed: bool, src: Source, path: string, source: string): Commit {
    Commit(current, Reconciled(if existed then current else src.parsed, src).(path := path, source := source))
  }

  /** Validates the reconciled mirror and says what to publish. */
  method ReconcileCommit(current: Config, existed: bool, src: Source, path: string, source: string, valid: ConfigCheck)
    returns (c: Option<Commit>)
    ensures c.Some? ==> c.value == Mirrored(current, existed, src, path, source)
    ensures c.Some? ==>
      && c.value.previous == current && c.value.committed.path == path && c.value.committed.source == source
      && Follows(c.value.committed, if existed then current else src.parsed, src)
    ensures c.Some? <==> valid(Reconciled(if existed then current else src.parsed, src))
  {
    var candidate := ReconcileWithSource(if existed then current else src.parsed, src);
    PlaceFollows(candidate, if existed then current else src.parsed, src, path, source);
    c := if valid(candidate) then Some(Commit(current, candidate.(path := path, source := source))) else None;
  }

  /** Where the settings are has no part in it. */
  lemma {:induction false} PlaceFollows(r: Config, base: Config, src: Source, path: string, source: string)
    requires Follows(r, base, src)
    ensures Follows(r.(path := path, source := source), base, src)
  {}

  /** Reconciling the stored mirror with the same source again changes nothing. */
  lemma {:induction false} ReconcileAgain(codec: Codec, current: Config, existed: bool, src: Source, path: string,
      source: string)
    requires codec.Lawful()
    ensures var stored := Reload(codec, Mirrored(current, existed, src, path, source).committed);
      Reload(codec, Mirrored(stored, true, src, path, source).committed) == stored
  {
    var base := if existed then current else src.parsed;
    var stored := Reload(codec, Reconciled(base, src).(path := path, source := source));
    ReconciledFieldsAgain(codec, base.fields, src);
    if src.env.Some? {
      MergeSourceIdempotent(base.env, src.env.value);
    }
    var twice := Reconciled(stored, src).(path := path, source := source);
    assert twice.env == stored.env && Reload(codec, twice).fields == stored.fields;
    assert twice.uiPort == stored.uiPort && Reload(codec, twice).port == stored.port;
  }

  lemma {:induction false} ReconciledFieldsAgain(codec: Codec, live: Fields, src: Source)
    requires codec.Lawful()
    ensures var stored := LoadFields(codec, ReconciledFields(live, src));
      LoadFields(codec, ReconciledFields(stored, src)) == stored
  {}

  /** The values of a configuration that a structured restore looks at. */
  function EditOf(c: Config): Edit { Edit(c.port, c.uiPort, c.fields) }

  /** The reconciliation of an existing mirror, its restore and every environment update before,
      in between and after. */
  ghost function MirrorThenRestore(codec: Codec, c: Config, src: Source, path: string, source: string,
                                   us: seq<EnvUpdate>, vs: seq<EnvUpdate>, ws: seq<EnvUpdate>): Config
  {
    var start := Current(EnvAll(codec, Some(c), us));
    var commit := Mirrored(start, true, src, path, source);
    var during := Current(EnvAll(codec, Some(Reload(codec, commit.committed)), vs));
    Current(EnvAll(codec, Some(Reload(codec, RestoredMirror(during, commit))), ws))
  }

  /** The environment a reconciliation makes of the stored one. */
  ghost function MergedEnv(env: seq<EnvVar>, src: Source): seq<EnvVar> {
    if src.env.Some? then MergeSource(env, src.env.value) else env
  }

  /** The environment the restore leaves: the one before the reconciliation if the updates since have
      made no difference to the reconciled one, else what they made of the reconciled one. */
  ghost function EnvLeft(env: seq<EnvVar>, src: Source, vs: seq<EnvUpdate>): seq<EnvVar> {
    var merged := MergedEnv(env, src);
    if EnvFold(merged, vs) == merged then env else EnvFold(merged, vs)
  }

  /** Restoring a reconciled mirror leaves only the environment updates, for every interleaving,
      exactly when every reconciled value survives being written and read back and the environment
      the restore leaves is, for the updates that still follow, as good as the one the updates in
      between make by themselves. */
  lemma {:induction false} MirrorErases(codec: Codec, c: Config, src: Source, path: string, source: string,
                                        us: seq<EnvUpdate>, vs: seq<EnvUpdate>, ws: seq<EnvUpdate>)
    requires codec.Lawful() && Loaded(codec, c)
    ensures SameButPlace(MirrorThenRestore(codec, c, src, path, source, us, vs, ws),
                         Current(EnvAll(codec, Some(c), us + vs + ws)))
      <==> !Sticks(codec, c, EditOf(Reconciled(c, src))) && EnvErased(EnvFold(c.env, us), src, vs, ws)
  {
    EnvAllKeeps(codec, c, us);
    var start := c.(env := EnvFold(c.env, us));
    var commit := Mirrored(start, true, src, path, source);
    var stored := Reload(codec, commit.committed);
    ReloadLoaded(codec, commit.committed);
    EnvAllKeeps(codec, stored, vs);
    var during := stored.(env := EnvFold(stored.env, vs));
    var restored := RestoredMirror(during, commit);
    MirrorWhole(codec, start, src, path, source, during);
    EnvAllKeeps(codec, restored, ws);
    EnvAllKeeps(codec, c, us + vs + ws);
    EnvFoldAppend(c.env, us, vs);
    EnvFoldAppend(c.env, us + vs, ws);
    assert restored.env == EnvLeft(start.env, src, vs);
    assert MirrorThenRestore(codec, c, src, path, source, us, vs, ws) == restored.(env := EnvFold(restored.env, ws));
    assert EditOf(Reconciled(c, src)) == EditOf(commit.committed);
  }

  /** The environment part of the condition. */
  ghost predicate EnvErased(env: seq<EnvVar>, src: Source, vs: seq<EnvUpdate>, ws: seq<EnvUpdate>) {
    EnvFold(EnvLeft(env, src, vs), ws) == EnvFold(EnvFold(env, vs), ws)
  }

  /** The updates in between can be told apart: none, or a source that has nothing new for the
      environment, is enough for it, whatever follows; and for it to hold whatever follows, what the
      restore leaves must be what the updates in between make. */
  lemma {:induction false} EnvErasedWhen(env: seq<EnvVar>, src: Source, vs: seq<EnvUpdate>)
    ensures vs == [] || MergedEnv(env, src) == env ==> forall ws :: EnvErased(env, src, vs, ws)
    ensures (forall ws :: EnvErased(env, src, vs, ws)) <==> EnvLeft(env, src, vs) == EnvFold(env, vs)
  {
    if vs == [] || MergedEnv(env, src) == env {
      assert EnvLeft(env, src, vs) == EnvFold(env, vs);
    }
    if forall ws :: EnvErased(env, src, vs, ws) {
      assert EnvErased(env, src, vs, []);
    }
  }

  lemma {:induction false} MirrorWhole(codec: Codec, start: Config, src: Source, path: string, source: string,
      during: Config)
    requires codec.Lawful() && Loaded(codec, start) && Loaded(codec, during)
    requires during == Reload(codec, Mirrored(start, true, src, path, source).committed).(env := during.env)
    ensures var commit := Mirrored(start, true, src, path, source);
      var restored := RestoredMirror(during, commit);
      && Loaded(codec, restored)
      && (SameButPlace(restored, start.(env := restored.env)) <==> !Sticks(codec, start, EditOf(commit.committed)))
  {
    var commit := Mirrored(start, true, src, path, source);
    var edit := EditOf(commit.committed);
    var structured := Published(start, edit, path, source);
    RestoredLoaded(codec, start, commit, during);
    RestoredWhole(codec, start, edit, path, source, during);
    var fields := RestoredFields(during, commit);
    assert fields == RestoredFields(during, structured);
    var restored := RestoredMirror(during, commit);
    assert restored == fields.(env := restored.env);
    assert Reload(codec, restored).fields == Reload(codec, fields).fields;
  }

  /** An update that agrees with the source is undone with it: the restore takes the value for
      its own. */
  lemma {:induction false} MirrorLosesAgreeingUpdate(codec: Codec, c: Config, src: Source, path: string,
      source: string, u: EnvUpdate)
    requires codec.Lawful() && Loaded(codec, c)
    requires u(Reconciled(c, src).env) == Reconciled(c, src).env && u(c.env) != c.env
    ensures MirrorThenRestore(codec, c, src, path, source, [], [u], []).env == c.env
    ensures Current(EnvAll(codec, Some(c), [u])).env != c.env
  {
    var commit := Mirrored(c, true, src, path, source);
    var stored := Reload(codec, commit.committed);
    ReloadLoaded(codec, commit.committed);
    OneUpdate(codec, c, u);
    OneUpdate(codec, stored, u);
    assert RestoredMirror(stored, commit).env == c.env;
  }

  /** Any other update keeps the rejected source's environment in the store: the restore compares
      the environment as a whole and no longer recognises it. */
  lemma {:induction false} MirrorKeepsRejectedEnv(codec: Codec, c: Config, src: Source, path: string, source: string,
      u: EnvUpdate)
    requires codec.Lawful() && Loaded(codec, c)
    requires u(Reconciled(c, src).env) != Reconciled(c, src).env
    ensures MirrorThenRestore(codec, c, src, path, source, [], [u], []).env == u(Reconciled(c, src).env)
    ensures Current(EnvAll(codec, Some(c), [u])).env == u(c.env)
  {
    var commit := Mirrored(c, true, src, path, source);
    var stored := Reload(codec, commit.committed);
    ReloadLoaded(codec, commit.committed);
    OneUpdate(codec, c, u);
    OneUpdate(codec, stored, u);
    assert RestoredMirror(stored.(env := u(stored.env)), commit).env == u(stored.env);
  }

  /** A store that does not exist takes updates as the empty one does. */
  lemma {:induction false} EnvAllFromNothing(codec: Codec, us: seq<EnvUpdate>)
    ensures Current(EnvAll(codec, None, us)) == Current(EnvAll(codec, Some(ZERO), us))
  {
    if us != [] { EnvAllFromNothing(codec, us[..|us| - 1]); }
  }

  lemma {:induction false} OneUpdate(codec: Codec, c: Config, u: EnvUpdate)
    requires Loaded(codec, c)
    ensures EnvAll(codec, Some(c), []) == Some(c)
    ensures EnvAll(codec, Some(c), [u]) == Some(c.(env := u(c.env)))
  {
    EnvAllKeeps(codec, c, [u]);
    assert EnvFold(c.env, [u]) == u(EnvFold(c.env, []));
  }
}
