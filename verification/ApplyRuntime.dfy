/** One settings apply transaction, from the revision check to the rollback
    (internal/service/apply_runtime.go, apply.go, apply_rollback.go, apply_snapshot.go,
    apply_atomic.go and the commits of config.go and config_reconcile.go).

    The transaction holds its path's slot, so nobody else writes settings.js.  Environment
    updates commit to the shared store at any point in between: `traffic` says which ones, for
    every gap between two steps.  Every other call may fail.
 */
module ApplyRuntime {
  import opened Wrappers
  import opened ConfigStore

  datatype Stage = Validate | Backup | Write | Reconcile | Restart | Ready

  type Planner = Config -> Option<Edit>
  type Inspector = string -> Option<Source>
  type Renderer = Config -> string
  type Printer = string -> string
  type Traffic = nat -> seq<EnvUpdate>
  type NameSource = (nat, nat) -> Option<string>

  /** A raw request carries the new settings.js; a structured one says what it makes of the
      stored configuration, or that it is refused. */
  datatype Request = Raw(content: string) | Structured(plan: Planner)

  /** How a transaction ended: at which stage it failed, whether every step that takes it back
      reported success, and the snapshot it made. */
  datatype Outcome = Outcome(failed: Option<Stage>, restored: bool, backup: Option<string>)

  datatype Mirror = Mirror(existed: bool, commit: Commit)

  /** What the write stages of a raw transaction leave behind for the runtime stages. */
  datatype Applied = Applied(backup: Option<string>, mirror: Mirror)

  const SNAPSHOT_ATTEMPTS := 8

  class Host {
    var live: Option<string>            // settings.js, if it exists
    var store: Option<Config>           // config.json, if it exists
    var snapshots: map<string, string>  // the snapshot directory
    var gap: nat
    ghost var arrived: seq<EnvUpdate>   // the environment updates so far

    const codec: Codec
    const inspect: Inspector
    const render: Renderer
    const valid: ConfigCheck
    const fingerprint: Printer
    const default: string
    const path: string
    const source: string
    const traffic: Traffic
    const draw: NameSource

    /** What the sandbox and the parser read in a settings.js, if it can be read. */
    function Inspect(content: string): Option<Source> { inspect(content) }

    function Render(c: Config): string { render(c) }

    function Fingerprint(content: string): string { fingerprint(content) }

    ghost predicate Valid()
      reads this
    {
      codec.Lawful() && (store.Some? ==> Loaded(codec, store.value))
    }

    /** The store is what the updates since `n` made of `s`. */
    ghost predicate Carries(s: Option<Config>, n: nat)
      reads this
    {
      n <= |arrived| && store == EnvAll(codec, s, arrived[n..])
    }

    function LiveText(): string
      reads this
    {
      if live.Some? then live.value else default
    }

    /** The caller's revision is the live one; an empty one matches any. */
    predicate Matches(expected: string)
      reads this
    {
      expected == "" || expected == Fingerprint(LiveText())
    }

    /** The other writers get their turn. */
    method Others(ghost s: Option<Config>, ghost n: nat)
      requires Valid() && Carries(s, n)
      modifies this`store, this`gap, this`arrived
      ensures Valid() && Carries(s, n) && old(arrived) <= arrived
    {
      var updates := traffic(gap);
      gap := gap + 1;
      for i := 0 to |updates|
        invariant Valid() && Carries(s, n) && old(arrived) <= arrived
      {
        var c := Current(store);
        ghost var before := arrived[n..];
        store := Some(Reload(codec, c.(env := updates[i](c.env))));
        arrived := arrived + [updates[i]];
        assert arrived[n..] == before + [updates[i]];
        assert arrived[n..][..|before|] == before;
        ReloadLoaded(codec, c.(env := updates[i](c.env)));
      }
    }

    /** Publishes a structured configuration, capturing what was there under the same lock. */
    method CommitStructured(plan: Planner, ghost s: Option<Config>, ghost n: nat) returns (c: Option<Commit>)
      requires Valid() && Carries(s, n)
      modifies this`store, this`gap, this`arrived
      ensures Valid() && n <= |arrived| && old(arrived) <= arrived
      ensures c.None? ==> Carries(s, n)
      ensures c.Some? ==>
        var current := Current(EnvAll(codec, s, arrived[n..]));
        && plan(current).Some? && c.value == Published(current, plan(current).value, path, source)
        && c.value.previous == current && Takes(c.value.committed, plan(current).value, current, path, source)
        && store == Some(Reload(codec, c.value.committed))
    {
      Others(s, n);
      var fails: bool := *;
      var current := Current(store);
      var edit := plan(current);
      if fails || edit.None? { return None; }
      c := Some(Published(current, edit.value, path, source));
      store := Some(Reload(codec, c.value.committed));
      ReloadLoaded(codec, c.value.committed);
    }

    method RestoreStructured(c: Commit, ghost s: Option<Config>, ghost n: nat) returns (ok: bool)
      requires Valid() && Carries(s, n)
      modifies this`store, this`gap, this`arrived
      ensures Valid() && n <= |arrived| && old(arrived) <= arrived
      ensures !ok ==> Carries(s, n)
      ensures ok ==> store == Some(Reload(codec, RestoredFields(Current(EnvAll(codec, s, arrived[n..])), c)))
    {
      Others(s, n);
      var fails: bool := *;
      if fails { return false; }
      var r := RestoreUnchangedFields(Current(store), c, false);
      store := Some(Reload(codec, r));
      ReloadLoaded(codec, r);
      ok := true;
    }

    /** The commit of a mirror captures the store and follows the source, from the parsed source when
        there was no mirror. */
    ghost predicate Adopts(m: Mirror, current: Config, src: Source) {
      && m.commit.previous == current && m.commit.committed.path == path && m.commit.committed.source == source
      && Follows(m.commit.committed, if m.existed then current else src.parsed, src)
    }

    /** The mirror was re-derived from `content` at the current point: its commit starts from the
        store as the updates since `n` left it. */
    ghost predicate Reconciles(m: Mirror, content: string, s: Option<Config>, n: nat)
      reads this
    {
      && n <= |arrived| && Inspect(content).Some? && Asked(m.existed, s, arrived[n..])
      && m.commit == Mirrored(Current(EnvAll(codec, s, arrived[n..])), m.existed, Inspect(content).value, path, source)
      && Adopts(m, Current(EnvAll(codec, s, arrived[n..])), Inspect(content).value)
      && store == Some(Reload(codec, m.commit.committed))
    }

    /** Re-derives the mirror from the applied source.  Whether the store existed is asked before
        its lock is taken. */
    method ReconcileRaw(content: string, ghost s: Option<Config>, ghost n: nat) returns (m: Option<Mirror>)
      requires Valid() && Carries(s, n)
      modifies this`store, this`gap, this`arrived
      ensures Valid() && old(arrived) <= arrived
      ensures m.None? ==> Carries(s, n)
      ensures m.Some? ==> Reconciles(m.value, content, s, n)
    {
      if Inspect(content).None? { return None; }
      var existed := Exists(s, n);
      m := Adopt(Inspect(content).value, existed);
    }

    /** Asks whether the store exists; other writers have a turn before the question and after it. */
    method Exists(ghost s: Option<Config>, ghost n: nat) returns (existed: bool)
      requires Valid() && Carries(s, n)
      modifies this`store, this`gap, this`arrived
      ensures Valid() && Carries(s, n) && old(arrived) <= arrived && Asked(existed, s, arrived[n..])
    {
      Others(s, n);
      existed := store.Some?;
      ghost var asked := arrived[n..];
      assert Asked(existed, s, asked);
      Others(s, n);
      assert asked <= arrived[n..];
    }

    /** The update under the store's lock. */
    method Adopt(src: Source, existed: bool) returns (m: Option<Mirror>)
      requires codec.Lawful()
      modifies this`store
      ensures m.None? ==> store == old(store)
      ensures m.Some? ==>
        m.value.existed == existed && Valid() && store == Some(Reload(codec, m.value.commit.committed))
      ensures m.Some? ==> m.value.commit == Mirrored(Current(old(store)), existed, src, path, source)
      ensures m.Some? ==> Adopts(m.value, Current(old(store)), src)
    {
      var commit := ReconcileCommit(Current(store), existed, src, path, source, valid);
      var fails: bool := *;
      if fails || commit.None? { return None; }
      Publish(commit.value.committed);
      m := Some(Mirror(existed, commit.value));
    }

    method Publish(c: Config)
      requires codec.Lawful()
      modifies this`store
      ensures Valid() && store == Some(Reload(codec, c))
    {
      store := Some(Reload(codec, c));
      ReloadLoaded(codec, c);
    }

    method RestoreMirror(m: Mirror, ghost s: Option<Config>, ghost n: nat) returns (ok: bool)
      requires Valid() && Carries(s, n)
      modifies this`store, this`gap, this`arrived
      ensures Valid() && n <= |arrived| && old(arrived) <= arrived
      ensures !ok ==> Carries(s, n)
      ensures ok && !m.existed ==> store == None
      ensures ok && m.existed ==>
        store == Some(Reload(codec, RestoredMirror(Current(EnvAll(codec, s, arrived[n..])), m.commit)))
    {
      Others(s, n);
      var fails: bool := *;
      if fails { return false; }
      if !m.existed {
        store := None;
      } else {
        var r := RestoreUnchangedFields(Current(store), m.commit, true);
        store := Some(Reload(codec, r));
        ReloadLoaded(codec, r);
      }
      ok := true;
    }

    /** Replaces settings.js by a rename.  An error before the rename changes nothing; an error
        after it leaves the new file in place. */
    method AtomicWrite(content: string) returns (ok: bool)
      modifies this`live
      ensures ok ==> live == Some(content)
      ensures live == old(live) || live == Some(content)
    {
      var tmpFails: bool := *;   // boundary check, temporary file, cancellation, symlink check, rename
      if tmpFails { return false; }
      live := Some(content);
      var syncFails: bool := *;  // directory sync, mode
      ok := !syncFails;
    }

    /** Creates a snapshot under a name nobody has; a taken name is never rewritten. */
    method WriteSnapshot(data: string) returns (name: Option<string>)
      modifies this`snapshots
      ensures Kept(old(snapshots), snapshots)
      ensures name.Some? ==> name.value !in old(snapshots) && snapshots == old(snapshots)[name.value := data]
      ensures forall k :: k in snapshots && k !in old(snapshots) ==> snapshots[k] == data
    {
      var attempt := 0;
      while attempt < SNAPSHOT_ATTEMPTS
        invariant snapshots == old(snapshots)
      {
        var drawn := draw(gap, attempt);
        if drawn.None? { return None; }
        if drawn.value in snapshots {
          attempt := attempt + 1;
          continue;
        }
        var writeFails: bool := *; // the file is removed again
        if writeFails { return None; }
        snapshots := snapshots[drawn.value := data];
        var syncFails: bool := *;  // the file is kept, the call fails
        return if syncFails then None else drawn;
      }
      name := None;
    }

    /** Copies the live file, if there is one, into the snapshot directory. */
    method BackupLive() returns (r: Option<Option<string>>)
      modifies this`snapshots
      ensures Kept(old(snapshots), snapshots)
      ensures r.Some? ==> SnapshotOf(r.value, live, old(snapshots), snapshots)
    {
      var readFails: bool := *;
      if readFails { return None; }
      if live.None? { return Some(None); }
      var name := WriteSnapshot(live.value);
      if name.None? { return None; }
      r := Some(name);
    }

    method CheckCandidate(content: string, expected: string) returns (ok: bool)
      ensures ok ==> Inspect(content).Some? && Matches(expected)
      ensures ok && expected != "" ==> expected == Fingerprint(if live.Some? then live.value else default)
    {
      var fails: bool := *; // cancelled, unreadable, or a password that is not a hash
      if fails || !Matches(expected) { return false; }
      ok := Inspect(content).Some?;
    }

    /** The restore of the bytes that were there before a rejected write. */
    method RestoreSource(previous: Option<string>) returns (ok: bool)
      modifies this`live
      ensures ok ==> live == previous
      ensures live == old(live) || live == previous
    {
      if previous.None? {
        var fails: bool := *;
        if fails { return false; }
        live := None;
        return true;
      }
      ok := AtomicWrite(previous.value);
    }

    /** Validate, snapshot and write. */
    method WriteFiles(content: string, expected: string) returns (r: Result<Option<string>, Stage>)
      modifies this`live, this`snapshots
      ensures Kept(old(snapshots), snapshots)
      ensures r.Ok? ==> live == Some(content) && old(Matches(expected))
      ensures r.Ok? ==> SnapshotOf(r.value, old(live), old(snapshots), snapshots)
      ensures r.Err? ==> r.error in {Validate, Backup, Write}
      ensures r.Err? && r.error != Write ==> live == old(live)
      ensures r.Err? ==> live == old(live) || live == Some(content)
    {
      var ok := CheckCandidate(content, expected);
      if !ok { return Err(Validate); }
      var backup := BackupLive();
      if backup.None? { return Err(Backup); }
      ok := AtomicWrite(content);
      r := if ok then Ok(backup.value) else Err(Write);
    }

    /** Reconciles the mirror, or takes the write back. */
    method ReconcileOrRestore(content: string, previous: Option<string>, ghost s: Option<Config>, ghost n: nat)
      returns (m: Option<Mirror>, restored: bool)
      requires Valid() && Carries(s, n)
      modifies this`live, this`store, this`gap, this`arrived
      ensures Valid() && old(arrived) <= arrived
      ensures m.Some? ==> live == old(live) && Reconciles(m.value, content, s, n)
      ensures m.None? ==> Carries(s, n)
      ensures m.None? && restored ==> live == previous
      ensures live == old(live) || live == previous
    {
      m := ReconcileRaw(content, s, n);
      if m.Some? { return m, true; }
      restored := RestoreSource(previous);
    }

    /** The stages of a raw transaction before the runtime. */
    method StageRaw(content: string, expected: string, ghost s: Option<Config>, ghost n: nat)
      returns (r: Result<Applied, Stage>, restored: bool)
      requires Valid() && Carries(s, n)
      modifies this
      ensures Valid() && old(arrived) <= arrived && Kept(old(snapshots), snapshots)
      ensures r.Ok? ==> live == Some(content) && old(Matches(expected))
      ensures r.Ok? ==> SnapshotOf(r.value.backup, old(live), old(snapshots), snapshots)
      ensures r.Ok? ==> Reconciles(r.value.mirror, content, s, n)
      ensures r.Err? ==> Carries(s, n) && r.error !in {Restart, Ready}
      ensures live == old(live) || live == Some(content)
      ensures r.Err? && r.error != Write && restored ==> live == old(live)
    {
      restored := true;
      var previous := live;
      var ok := CheckCandidate(content, expected);
      if !ok { return Err(Validate), true; }
      var written := WriteFiles(content, expected);
      if written.Err? { return Err(written.error), true; }
      var mirror;
      mirror, restored := ReconcileOrRestore(content, previous, s, n);
      r := if mirror.None? then Err(Reconcile) else Ok(Applied(written.value, mirror.value));
    }

    /** The stored state was put back when `k` updates had arrived; only updates came since. */
    ghost predicate PutBack(c: Option<Commit>, m: Option<Mirror>, s: Option<Config>, n: nat, k: nat)
      reads this
    {
      n <= k <= |arrived| && Carries(RestoredState(codec, c, m, EnvAll(codec, s, arrived[n..k])), k)
    }

    /** The state part of a rollback. */
    method RestoreState(c: Option<Commit>, m: Option<Mirror>, ghost s: Option<Config>, ghost n: nat) returns (ok: bool)
      requires Valid() && Carries(s, n) && (c.None? || m.None?)
      modifies this`store, this`gap, this`arrived
      ensures Valid() && n <= |arrived| && old(arrived) <= arrived
      ensures ok ==> store == RestoredState(codec, c, m, EnvAll(codec, s, arrived[n..]))
      ensures !ok ==> Carries(s, n)
    {
      ok := true;
      if c.Some? {
        ok := RestoreStructured(c.value, s, n);
      } else if m.Some? {
        ok := RestoreMirror(m.value, s, n);
      }
    }

    /** Puts the snapshot and the stored state back and checks the recovered runtime. */
    method ExecuteRollback(backup: Option<string>, c: Option<Commit>, m: Option<Mirror>, ghost s: Option<Config>,
        ghost n: nat)
      returns (stopped: Option<Recovery>, ghost k: nat)
      requires Valid() && Carries(s, n) && (c.None? || m.None?)
      requires backup.Some? ==> backup.value in snapshots
      modifies this
      ensures Valid() && old(arrived) <= arrived && snapshots == old(snapshots)
      ensures FileAfter(stopped, old(live), backup)
      ensures StateAfter(stopped, c, m, s, n, k)
    {
      k := n;
      if backup.None? { return Some(NoSnapshot), k; }
      var ok := AtomicWrite(snapshots[backup.value]);
      if !ok { return Some(RestoreFile), k; }
      ok := RestoreState(c, m, s, n);
      if !ok { return Some(RestoreStored), k; }
      k := |arrived|;
      ghost var restored := store;
      assert arrived[n..k] == arrived[n..] && arrived[k..] == [];
      ghost var upTo := arrived[n..k];
      Others(restored, k);
      assert arrived[n..k] == upTo;
      var restartFails: bool := *;
      var readyFails: bool := *;
      stopped := if restartFails then Some(RestartRestored) else if readyFails then Some(ReadyRestored) else None;
    }

    /** The file after a recovery: what it was or the snapshot, and the snapshot unless the recovery
        stopped before it was written. */
    ghost predicate FileAfter(stopped: Option<Recovery>, was: Option<string>, backup: Option<string>)
      reads this
    {
      && (stopped == Some(NoSnapshot) <==> backup.None?)
      && (backup.Some? ==> backup.value in snapshots)
      && (live == was || (backup.Some? && live == Some(snapshots[backup.value])))
      && (backup.Some? && stopped != Some(RestoreFile) ==> live == Some(snapshots[backup.value]))
    }

    /** The store after a recovery: put back, unless it stopped before; then only updates came. */
    ghost predicate StateAfter(stopped: Option<Recovery>, c: Option<Commit>, m: Option<Mirror>, s: Option<Config>,
        n: nat, k: nat)
      reads this
    {
      if stopped.Some? && stopped.value in {NoSnapshot, RestoreFile, RestoreStored} then Carries(s, n)
      else PutBack(c, m, s, n, k)
    }

    /** Restart and readiness, and the recovery when one of them fails. */
    method RunRuntime(backup: Option<string>, c: Option<Commit>, m: Option<Mirror>, ghost s: Option<Config>,
        ghost n: nat)
      returns (failed: Option<Stage>, stopped: Option<Recovery>, ghost k: nat)
      requires Valid() && Carries(s, n) && (c.None? || m.None?)
      requires backup.Some? ==> backup.value in snapshots
      modifies this
      ensures Valid() && old(arrived) <= arrived && snapshots == old(snapshots)
      ensures failed.None? ==> live == old(live) && Carries(s, n)
      ensures failed.Some? ==> failed.value in {Restart, Ready}
      ensures failed.Some? ==> FileAfter(stopped, old(live), backup) && StateAfter(stopped, c, m, s, n, k)
    {
      k, stopped := n, None;
      Others(s, n);
      var restartFails: bool := *;
      var readyFails: bool := *;
      if !restartFails && !readyFails { return None, None, k; }
      failed := Some(if restartFails then Restart else Ready);
      stopped, k := ExecuteRollback(backup, c, m, s, n);
    }

    /** A transaction that published `edit` from the store the updates since `n` had made of `s`,
        after `j` updates. */
    ghost predicate Commits(c: Commit, edit: Edit, s: Option<Config>, n: nat, j: nat)
      reads this
    {
      && n <= j <= |arrived| && c == Published(Current(EnvAll(codec, s, arrived[n..j])), edit, path, source)
      && Takes(c.committed, edit, Current(EnvAll(codec, s, arrived[n..j])), path, source)
    }

    /** The stages of a structured transaction between its commit and the runtime. */
    method StageCommitted(content: string, expected: string, ghost s: Option<Config>, ghost n: nat)
      returns (r: Result<Option<string>, Stage>)
      requires Valid() && Carries(s, n)
      modifies this
      ensures Valid() && Carries(s, n) && old(arrived) <= arrived && Kept(old(snapshots), snapshots)
      ensures r.Ok? ==> live == Some(content) && old(Matches(expected))
      ensures r.Ok? ==> SnapshotOf(r.value, old(live), old(snapshots), snapshots)
      ensures r.Err? ==>
        r.error !in {Restart, Ready} && (live == old(live) || (r.error == Write && live == Some(content)))
    {
      var ok := CheckCandidate(content, expected);
      if !ok { return Err(Validate); }
      r := WriteFiles(content, expected);
    }

    /** What follows a structured commit. */
    method ApplyCommitted(c: Commit, expected: string, ghost s: Option<Config>, ghost n: nat)
      returns (o: Outcome, ghost k: nat)
      requires Valid() && Carries(s, n)
      modifies this
      ensures Valid() && old(arrived) <= arrived && Kept(old(snapshots), snapshots)
      ensures o.failed.None? ==> Carries(s, n)
      ensures o.failed.None? ==> live == Some(Render(c.committed)) && old(Matches(expected))
      ensures o.failed.None? ==> SnapshotOf(o.backup, old(live), old(snapshots), snapshots)
      ensures o.failed.Some? && o.restored ==> PutBack(Some(c), None, s, n, k)
      ensures o.failed.Some? && o.restored && o.failed.value != Write ==> live == old(live)
      ensures live == old(live) || live == Some(Render(c.committed))
      ensures AtRuntime(o) && old(live).None? ==> !o.restored && live == Some(Render(c.committed))
    {
      var content := Render(c.committed);
      var r := StageCommitted(content, expected, s, n);
      if r.Err? {
        o, k := UndoCommit(r.error, c, s, n);
        return;
      }
      var failed, stopped;
      failed, stopped, k := RunRuntime(r.value, Some(c), None, s, n);
      o := Outcome(failed, stopped.None?, r.value);
    }

    /** Takes the structured commit of a transaction that failed before the runtime stages back. */
    method UndoCommit(stage: Stage, c: Commit, ghost s: Option<Config>, ghost n: nat) returns (o: Outcome, ghost k: nat)
      requires Valid() && Carries(s, n)
      modifies this`store, this`gap, this`arrived
      ensures Valid() && old(arrived) <= arrived
      ensures o.failed == Some(stage)
      ensures o.restored ==> PutBack(Some(c), None, s, n, k)
    {
      var restored := RestoreState(Some(c), None, s, n);
      k := |arrived|;
      o := Outcome(Some(stage), restored, None);
      assert arrived[n..k] == arrived[n..] && arrived[k..] == [];
    }

    /** The mirror was re-derived from `content` after `j` updates. */
    ghost predicate Mirrors(m: Mirror, content: string, s: Option<Config>, n: nat, j: nat)
      reads this
    {
      && n <= j <= |arrived| && Inspect(content).Some? && Asked(m.existed, s, arrived[n..j])
      && m.commit == Mirrored(Current(EnvAll(codec, s, arrived[n..j])), m.existed, Inspect(content).value, path, source)
      && Adopts(m, Current(EnvAll(codec, s, arrived[n..j])), Inspect(content).value)
    }

    /** The runtime stages of a raw transaction. */
    method RunRaw(content: string, backup: Option<string>, m: Mirror, ghost s: Option<Config>, ghost n: nat)
      returns (o: Outcome, ghost j: nat, ghost k: nat)
      requires Valid() && Reconciles(m, content, s, n)
      requires backup.Some? ==> backup.value in snapshots
      modifies this
      ensures Valid() && old(arrived) <= arrived && snapshots == old(snapshots) && o.backup == backup
      ensures Mirrors(m, content, s, n, j)
      ensures o.failed.None? ==> live == old(live) && Carries(Some(Reload(codec, m.commit.committed)), j)
      ensures o.failed.Some? ==> o.failed.value in {Restart, Ready}
      ensures o.failed.Some? && backup.None? ==> !o.restored && live == old(live)
      ensures live == old(live) || (backup.Some? && live == Some(snapshots[backup.value]))
      ensures o.failed.Some? && o.restored ==>
        && backup.Some? && live == Some(snapshots[backup.value])
        && PutBack(None, Some(m), Some(Reload(codec, m.commit.committed)), j, k)
    {
      j := |arrived|;
      Prefix(arrived, arrived, n);
      var failed, stopped;
      failed, stopped, k := RunRuntime(backup, None, Some(m), store, j);
      Prefix(old(arrived), arrived, n);
      o := Outcome(failed, stopped.None?, backup);
    }

    /** A raw transaction: the source first, then the mirror. */
    method ApplyRaw(content: string, expected: string, ghost s: Option<Config>, ghost n: nat)
      returns (o: Outcome, ghost m: Option<Mirror>, ghost j: nat, ghost k: nat)
      requires Valid() && Carries(s, n)
      modifies this
      ensures Valid() && old(arrived) <= arrived && Kept(old(snapshots), snapshots)
      ensures o.failed.None? ==> live == Some(content) && old(Matches(expected)) && m.Some?
      ensures o.failed.None? ==> SnapshotOf(o.backup, old(live), old(snapshots), snapshots)
      ensures m.None? ==> Carries(s, n)
      ensures m.Some? ==> Mirrors(m.value, content, s, n, j)
      ensures m.Some? && o.failed.None? ==> Carries(Some(Reload(codec, m.value.commit.committed)), j)
      ensures m.Some? && o.failed.Some? && o.restored ==>
        PutBack(None, m, Some(Reload(codec, m.value.commit.committed)), j, k)
      ensures o.failed.Some? && o.restored && o.failed.value != Write ==> live == old(live)
      ensures live == old(live) || live == Some(content)
      ensures AtRuntime(o) && old(live).None? ==> !o.restored && live == Some(content)
    {
      j, k := n, n;
      var r, restored := StageRaw(content, expected, s, n);
      if r.Err? { return Outcome(Some(r.error), restored, None), None, j, k; }
      m := Some(r.value.mirror);
      o, j, k := RunRaw(content, r.value.backup, r.value.mirror, s, n);
    }

    /** A structured transaction: the store first, then the source. */
    method ApplyStructured(plan: Planner, expected: string, ghost s: Option<Config>, ghost n: nat)
      returns (o: Outcome, ghost edit: Option<Edit>, ghost c: Commit, ghost j: nat, ghost k: nat)
      requires Valid() && Carries(s, n)
      modifies this
      ensures Valid() && old(arrived) <= arrived && Kept(old(snapshots), snapshots)
      ensures edit.None? ==> o.failed.Some? && live == old(live) && Carries(s, n)
      ensures edit.Some? ==> Commits(c, edit.value, s, n, j) && plan(c.previous) == edit
      ensures o.failed.None? ==> live == Some(Render(c.committed)) && old(Matches(expected))
      ensures o.failed.None? ==> SnapshotOf(o.backup, old(live), old(snapshots), snapshots)
      ensures o.failed.None? ==> Carries(Some(Reload(codec, c.committed)), j)
      ensures edit.Some? && o.failed.Some? && o.restored ==>
        PutBack(Some(c), None, Some(Reload(codec, c.committed)), j, k)
      ensures o.failed.Some? && o.restored && o.failed.value != Write ==> live == old(live)
      ensures live == old(live) || live == Some(Render(c.committed))
      ensures AtRuntime(o) && old(live).None? ==> !o.restored && live == Some(Render(c.committed))
    {
      j, k, edit := n, n, None;
      c := Commit(ZERO, ZERO);
      var commit := CommitStructured(plan, s, n);
      if commit.None? { return Outcome(Some(Validate), true, None), None, c, j, k; }
      c, j, edit := commit.value, |arrived|, plan(commit.value.previous);
      ghost var before := arrived;
      Prefix(before, before, n);
      o, k := ApplyCommitted(commit.value, expected, store, j);
      Prefix(before, arrived, n);
    }

    /** A transaction that failed and reported no failing restore.  What is left in the store
        beside the environment updates is decided by what it had committed. */
    ghost predicate Erased(t: Trace, was: Option<Config>, n: nat)
      reads this
    {
      match t
      case Untouched => Carries(was, n)
      case Edited(edit, _, _, _) =>
        store.Some? && (OnlyUpdates(was, n) <==> !Sticks(codec, Current(was), edit))
      case Adopted(src, existed, _, j, k) =>
        && n <= j <= k <= |arrived|
        && if !existed then Carries(None, k)
           else OnlyUpdates(was, n) <==>
             && !Sticks(codec, Current(was), EditOf(Reconciled(Current(was), src)))
             && EnvErased(EnvFold(Current(was).env, arrived[n..j]), src, arrived[j..k], arrived[k..])
    }

    /** What the transaction committed comes from its request and the store as it was under the
        lock: the edit of a structured request, the reconciliation of a raw one. */
    ghost predicate Stems(t: Trace, req: Request, was: Option<Config>, n: nat)
      reads this
    {
      match t
      case Untouched => true
      case Edited(edit, committed, j, _) =>
        && req.Structured? && n <= j <= |arrived|
        && StemsEdit(req.plan, edit, committed, Current(EnvAll(codec, was, arrived[n..j])), path, source)
      case Adopted(src, existed, committed, j, _) =>
        && req.Raw? && n <= j <= |arrived| && Inspect(req.content) == Some(src) && Asked(existed, was, arrived[n..j])
        && committed == Mirrored(Current(EnvAll(codec, was, arrived[n..j])), existed, src, path, source).committed
        && Follows(committed, if existed then Current(EnvAll(codec, was, arrived[n..j])) else src.parsed, src)
        && committed.path == path && committed.source == source
    }

    /** Apart from where the settings are, the store is what the updates alone made of `was`. */
    ghost predicate OnlyUpdates(was: Option<Config>, n: nat)
      reads this
    {
      n <= |arrived| && SameButPlace(Current(store), Current(EnvAll(codec, was, arrived[n..])))
    }

    /** One transaction on the slot of its path.  A success replaces exactly the revision the
        caller had seen and leaves a snapshot of it; a failure that reports no failing restore
        leaves settings.js as it was (but for a write that failed after its rename) and erases
        the transaction from the store.  Whatever fails, settings.js is the old or the whole new
        file. */
    method Apply(req: Request, expected: string) returns (o: Outcome, ghost t: Trace)
      requires Valid()
      modifies this
      ensures Valid() && old(arrived) <= arrived && Kept(old(snapshots), snapshots)
      ensures Stems(t, req, old(store), |old(arrived)|)
      ensures o.failed.None? ==> t != Untouched && old(Matches(expected)) && live == Some(Content(req, t))
      ensures o.failed.None? && expected != "" ==>
        expected == old(Fingerprint(if live.Some? then live.value else default))
      ensures expected != "" && expected != old(Fingerprint(if live.Some? then live.value else default)) ==>
        o.failed == Some(Validate) && live == old(live) && store == old(store) && snapshots == old(snapshots)
      ensures o.failed.None? ==> SnapshotOf(o.backup, old(live), old(snapshots), snapshots)
      ensures o.failed.None? ==> Carries(Some(Reload(codec, t.committed)), t.from)
      ensures o.failed.Some? && o.restored && o.failed != Some(Write) ==> live == old(live)
      ensures live == old(live) || live == Some(Content(req, t))
      ensures o.failed.Some? && o.restored ==> Erased(t, old(store), |old(arrived)|)
      ensures AtRuntime(o) && old(live).None? ==> !o.restored && live == Some(Content(req, t))
    {
      t := Untouched;
      ghost var n := |arrived|;
      assert arrived[n..] == [];
      var refused: bool := *; // cancelled, unreadable, or no adapter for this runtime
      if refused || !Matches(expected) { return Outcome(Some(Validate), true, None), t; }
      match req
      case Raw(content) => {
        o, t := TransactRaw(content, expected);
      }
      case Structured(plan) => {
        o, t := TransactStructured(plan, expected);
      }
    }

    /** What the transaction writes to settings.js. */
    ghost function Content(req: Request, t: Trace): string {
      if req.Raw? then req.content else if t.Untouched? then "" else Render(t.committed)
    }

    lemma {:induction false} StructuredErasedAt(n: nat, j: nat, k: nat, was: Option<Config>, edit: Edit, c: Commit)
      requires Valid() && (was.Some? ==> Loaded(codec, was.value)) && Commits(c, edit, was, n, j)
      requires PutBack(Some(c), None, Some(Reload(codec, c.committed)), j, k)
      ensures OnlyUpdates(was, n) <==> !Sticks(codec, Current(was), edit)
    {
      Slices(arrived, n, j, k);
      SameStart(codec, was, arrived[n..j]);
      SameStart(codec, was, arrived[n..]);
      StructuredErased(codec, Current(was), edit, c, path, source, arrived[n..j], arrived[j..k], arrived[k..],
        Current(store));
    }

    method TransactStructured(plan: Planner, expected: string) returns (o: Outcome, ghost t: Trace)
      requires Valid()
      modifies this
      ensures Valid() && old(arrived) <= arrived && Kept(old(snapshots), snapshots)
      ensures Stems(t, Structured(plan), old(store), |old(arrived)|)
      ensures o.failed.None? ==> t.Edited? && old(Matches(expected)) && live == Some(Render(t.committed))
      ensures o.failed.None? ==> SnapshotOf(o.backup, old(live), old(snapshots), snapshots)
      ensures o.failed.None? ==> Carries(Some(Reload(codec, t.committed)), t.from)
      ensures o.failed.Some? && o.restored && o.failed != Some(Write) ==> live == old(live)
      ensures live == old(live) || (t.Edited? && live == Some(Render(t.committed)))
      ensures o.failed.Some? && o.restored ==> Erased(t, old(store), |old(arrived)|)
      ensures AtRuntime(o) && old(live).None? ==> t.Edited? && !o.restored && live == Some(Render(t.committed))
    {
      ghost var n, s := |arrived|, store;
      assert arrived[n..] == [];
      ghost var edit, c, j, k;
      o, edit, c, j, k := ApplyStructured(plan, expected, s, n);
      t := if edit.None? then Untouched else Edited(edit.value, c.committed, j, k);
      if edit.Some? && o.failed.Some? && o.restored {
        StructuredErasedAt(n, j, k, s, edit.value, c);
        StaysThere(codec, RestoredState(codec, Some(c), None,
          EnvAll(codec, Some(Reload(codec, c.committed)), arrived[j..k])), arrived[k..]);
      }
    }

    lemma {:induction false} MirrorErasedAt(n: nat, j: nat, k: nat, was: Option<Config>, src: Source, m: Mirror)
      requires Valid() && (was.Some? ==> Loaded(codec, was.value)) && m.existed && n <= j <= |arrived|
      requires m.commit == Mirrored(Current(EnvAll(codec, was, arrived[n..j])), true, src, path, source)
      requires PutBack(None, Some(m), Some(Reload(codec, m.commit.committed)), j, k)
      ensures OnlyUpdates(was, n) <==>
        && !Sticks(codec, Current(was), EditOf(Reconciled(Current(was), src)))
        && EnvErased(EnvFold(Current(was).env, arrived[n..j]), src, arrived[j..k], arrived[k..])
    {
      Slices(arrived, n, j, k);
      SameStart(codec, was, arrived[n..j]);
      SameStart(codec, was, arrived[n..]);
      MirrorErased(codec, Current(was), src, m, path, source, arrived[n..j], arrived[j..k], arrived[k..],
        Current(store));
    }

    method TransactRaw(content: string, expected: string) returns (o: Outcome, ghost t: Trace)
      requires Valid()
      modifies this
      ensures Valid() && old(arrived) <= arrived && Kept(old(snapshots), snapshots)
      ensures Stems(t, Raw(content), old(store), |old(arrived)|)
      ensures o.failed.None? ==> t.Adopted? && old(Matches(expected)) && live == Some(content)
      ensures o.failed.None? ==> SnapshotOf(o.backup, old(live), old(snapshots), snapshots)
      ensures o.failed.None? ==> Carries(Some(Reload(codec, t.committed)), t.from)
      ensures o.failed.Some? && o.restored && o.failed != Some(Write) ==> live == old(live)
      ensures live == old(live) || live == Some(content)
      ensures o.failed.Some? && o.restored ==> Erased(t, old(store), |old(arrived)|)
      ensures AtRuntime(o) && old(live).None? ==> !o.restored && live == Some(content)
    {
      ghost var n, s := |arrived|, store;
      assert arrived[n..] == [];
      ghost var m, j, k;
      o, m, j, k := ApplyRaw(content, expected, s, n);
      t := if m.None? then Untouched
           else Adopted(Inspect(content).value, m.value.existed, m.value.commit.committed, j, k);
      if m.Some? && m.value.existed && o.failed.Some? && o.restored {
        MirrorErasedAt(n, j, k, s, t.src, m.value);
      }
    }
  }

  ghost predicate StemsEdit(plan: Planner, edit: Edit, committed: Config, current: Config, path: string,
      source: string) {
    && plan(current) == Some(edit) && committed == Published(current, edit, path, source).committed
    && Takes(committed, edit, current, path, source)
  }

  /** What a transaction committed to the store, and between which updates. */
  datatype Trace =
    | Untouched
    | Edited(edit: Edit, committed: Config, from: nat, back: nat)
    | Adopted(src: Source, existed: bool, committed: Config, from: nat, back: nat)

  /** Where a recovery stopped. */
  datatype Recovery = NoSnapshot | RestoreFile | RestoreStored | RestartRestored | ReadyRestored

  predicate AtRuntime(o: Outcome) { o.failed.Some? && o.failed.value in {Restart, Ready} }

  lemma {:induction false} Prefix(before: seq<EnvUpdate>, after: seq<EnvUpdate>, n: nat)
    requires n <= |before| && before <= after
    ensures after[n..|before|] == before[n..] && before[|before|..] == []
  {}

  lemma {:induction false} Slices(all: seq<EnvUpdate>, n: nat, j: nat, k: nat)
    requires n <= j <= k <= |all|
    ensures all[n..] == all[n..j] + all[j..k] + all[k..]
  {}

  /** The answer to whether the store existed, asked while these updates came in: yes if it did at
      the start, and otherwise only if one of them had created it. */
  ghost predicate Asked(existed: bool, s: Option<Config>, us: seq<EnvUpdate>) {
    (s.Some? ==> existed) && (existed ==> s.Some? || us != [])
  }

  /** A store that did not exist might as well have been the empty one. */
  lemma {:induction false} SameStart(codec: Codec, was: Option<Config>, us: seq<EnvUpdate>)
    requires codec.Lawful()
    ensures Current(EnvAll(codec, was, us)) == Current(EnvAll(codec, Some(Current(was)), us))
    ensures was.None? ==> Loaded(codec, Current(was))
  {
    if was.None? { EnvAllFromNothing(codec, us); ReloadLoaded(codec, ZERO); }
  }

  /** A store that exists is not taken away by updates. */
  lemma {:induction false} StaysThere(codec: Codec, s: Option<Config>, us: seq<EnvUpdate>)
    requires s.Some?
    ensures EnvAll(codec, s, us).Some?
  {}

  lemma {:induction false} StructuredErased(codec: Codec, was: Config, edit: Edit, c: Commit, path: string,
      source: string, us: seq<EnvUpdate>, vs: seq<EnvUpdate>, ws: seq<EnvUpdate>, end: Config)
    requires codec.Lawful() && Loaded(codec, was)
    requires c == Published(Current(EnvAll(codec, Some(was), us)), edit, path, source)
    requires end == Current(EnvAll(codec,
      RestoredState(codec, Some(c), None, EnvAll(codec, Some(Reload(codec, c.committed)), vs)), ws))
    ensures SameButPlace(end, Current(EnvAll(codec, Some(was), us + vs + ws))) <==> !Sticks(codec, was, edit)
  {
    CommitPutBack(codec, was, edit, c, path, source, us, vs, ws);
    RollbackErases(codec, was, edit, path, source, us, vs, ws);
  }

  lemma {:induction false} CommitPutBack(codec: Codec, was: Config, edit: Edit, c: Commit, path: string, source: string,
                                         us: seq<EnvUpdate>, vs: seq<EnvUpdate>, ws: seq<EnvUpdate>)
    requires c == Published(Current(EnvAll(codec, Some(was), us)), edit, path, source)
    ensures Current(EnvAll(codec, RestoredState(codec, Some(c), None,
      EnvAll(codec, Some(Reload(codec, c.committed)), vs)), ws))
      == CommitThenRestore(codec, was, edit, path, source, us, vs, ws)
  {}

  lemma {:induction false} MirrorErased(codec: Codec, was: Config, src: Source, m: Mirror, path: string, source: string,
                     us: seq<EnvUpdate>, vs: seq<EnvUpdate>, ws: seq<EnvUpdate>, end: Config)
    requires codec.Lawful() && Loaded(codec, was) && m.existed
    requires m.commit == Mirrored(Current(EnvAll(codec, Some(was), us)), true, src, path, source)
    requires end == Current(EnvAll(codec,
      RestoredState(codec, None, Some(m), EnvAll(codec, Some(Reload(codec, m.commit.committed)), vs)), ws))
    ensures SameButPlace(end, Current(EnvAll(codec, Some(was), us + vs + ws)))
      <==> !Sticks(codec, was, EditOf(Reconciled(was, src))) && EnvErased(EnvFold(was.env, us), src, vs, ws)
  {
    MirrorPutBack(codec, was, src, m, path, source, us, vs, ws);
    MirrorErases(codec, was, src, path, source, us, vs, ws);
  }

  lemma {:induction false} MirrorPutBack(codec: Codec, was: Config, src: Source, m: Mirror, path: string,
      source: string, us: seq<EnvUpdate>, vs: seq<EnvUpdate>, ws: seq<EnvUpdate>)
    requires m.existed && m.commit == Mirrored(Current(EnvAll(codec, Some(was), us)), true, src, path, source)
    ensures Current(EnvAll(codec, RestoredState(codec, None, Some(m),
      EnvAll(codec, Some(Reload(codec, m.commit.committed)), vs)), ws))
      == MirrorThenRestore(codec, was, src, path, source, us, vs, ws)
  {}

  /** What a restore makes of the store. */
  function RestoredState(codec: Codec, c: Option<Commit>, m: Option<Mirror>, store: Option<Config>): Option<Config> {
    if c.Some? then Some(Reload(codec, RestoredFields(Current(store), c.value)))
    else if m.None? then store
    else if !m.value.existed then None
    else Some(Reload(codec, RestoredMirror(Current(store), m.value.commit)))
  }

  /** Every snapshot that was there is there with its bytes. */
  ghost predicate Kept(before: map<string, string>, after: map<string, string>) {
    forall k :: k in before ==> k in after && after[k] == before[k]
  }

  /** The one snapshot a transaction made is a new one of the file that was live. */
  ghost predicate SnapshotOf(backup: Option<string>, live: Option<string>, before: map<string, string>,
      after: map<string, string>) {
    if live.None? then backup.None? && after == before
    else backup.Some? && backup.value !in before && after == before[backup.value := live.value]
  }
}
