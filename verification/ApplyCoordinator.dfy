/** Single flight per settings.js path, and the recovery points it protects
    (internal/service/apply_coordinator.go, with the files an apply touches: apply.go,
    apply_snapshot.go, apply_atomic.go and apply_rollback.go).

    Any number of threads run apply transactions on any paths.  Their steps interleave freely:
    a run is any sequence of steps, and a step that its thread cannot take changes nothing.
 */
module ApplyCoordinator {
  import opened Wrappers

  // ---------- The slots ----------

  /** The in-flight map, and which flights have had their channel closed. */
  datatype Slots = Slots(flights: map<string, nat>, closed: set<nat>, next: nat)

  /** The slot of a path is granted unless a flight that is not done holds it. */
  function Acquired(s: Slots, path: string): (r: (Slots, Option<nat>)) {
    if path in s.flights && s.flights[path] !in s.closed then (s, None)
    else (s.(flights := s.flights[path := s.next], next := s.next + 1), Some(s.next))
  }

  /** The half of the release that runs under the mutex. */
  function Removed(s: Slots, path: string, flight: nat): Slots {
    if path in s.flights && s.flights[path] == flight then s.(flights := s.flights - {path}) else s
  }

  /** The half that runs after it. */
  function Closed(s: Slots, flight: nat): Slots { s.(closed := s.closed + {flight}) }

  class Coordinator {
    var flights: map<string, nat>
    var closed: set<nat>
    var next: nat

    ghost function View(): Slots
      reads this
    {
      Slots(flights, closed, next)
    }

    constructor ()
      ensures View() == Slots(map[], {}, 0)
    {
      flights, closed, next := map[], {}, 0;
    }

    method Acquire(path: string) returns (flight: Option<nat>)
      modifies this
      ensures (View(), flight) == Acquired(old(View()), path)
    {
      if path in flights {
        if flights[path] !in closed { return None; } // another transaction is in flight
      }
      flight := Some(next);
      flights, next := flights[path := next], next + 1;
    }

    method Release(path: string, flight: nat)
      modifies this
      ensures View() == Closed(Removed(old(View()), path, flight), flight)
    {
      if path in flights && flights[path] == flight { flights := flights - {path}; }
      closed := closed + {flight};
    }
  }

  // ---------- The machine ----------

  datatype Phase =
    | Idle
    | Checking(path: string, flight: nat)                         // slot taken, no file touched
    | Saved(path: string, flight: nat, backup: Option<string>)    // recovery point made, if there was a file
    | Written(path: string, flight: nat, backup: Option<string>)  // the rename was tried
    | Closing(flight: nat)                                        // slot given back, channel still open
  {
    predicate Holds() { Checking? || Saved? || Written? }
    predicate HasBackup() { Saved? || Written? }
  }

  datatype State = State(
    slots: Slots,
    live: map<string, string>,       // the settings.js of each path
    snapshots: map<string, string>,  // the recovery points, by name
    threads: map<nat, Phase>)
  {
    function At(t: nat): Phase { if t in threads then threads[t] else Idle }
    function Goes(t: nat, p: Phase): State { this.(threads := threads[t := p]) }
  }

  /** What a thread does next, and how the file-system calls in it turn out. */
  datatype Step =
    | Begin(t: nat, path: string)
    | Backup(t: nat, name: string, made: bool, ok: bool)          // exclusive create; may fail after it
    | Write(t: nat, content: string, published: bool)             // may fail before or after the rename
    | Restore(t: nat, published: bool)                            // writes the recovery point back
    | Remove(t: nat, removed: bool)                               // takes a first file away again
    | Release(t: nat)
    | Close(t: nat)

  function Look(m: map<string, string>, k: string): Option<string> {
    if k in m then Some(m[k]) else None
  }

  function Next(s: State, step: Step): State {
    var p := s.At(step.t);
    match step
    case Begin(t, path) =>
      if p != Idle || path == "" then s
      else
        var r := Acquired(s.slots, path);
        if r.1.None? then s else s.(slots := r.0).Goes(t, Checking(path, r.1.value))
    case Backup(t, name, made, ok) =>
      if !p.Checking? then s
      else if p.path !in s.live then (if ok then s.Goes(t, Saved(p.path, p.flight, None)) else s)
      else if !made || name in s.snapshots then s
      else
        var kept := s.(snapshots := s.snapshots[name := s.live[p.path]]);
        if ok then kept.Goes(t, Saved(p.path, p.flight, Some(name))) else kept
    case Write(t, content, published) =>
      if !p.Saved? then s
      else (if published then s.(live := s.live[p.path := content]) else s).Goes(t, Written(p.path, p.flight, p.backup))
    case Restore(t, published) =>
      if !p.Written? || p.backup.None? || p.backup.value !in s.snapshots || !published then s
      else s.(live := s.live[p.path := s.snapshots[p.backup.value]])
    case Remove(t, removed) =>
      if !p.Written? || p.backup.Some? || !removed then s else s.(live := s.live - {p.path})
    case Release(t) =>
      if !p.Holds() then s else s.(slots := Removed(s.slots, p.path, p.flight)).Goes(t, Closing(p.flight))
    case Close(t) =>
      if !p.Closing? then s else s.(slots := Closed(s.slots, p.flight)).Goes(t, Idle)
  }

  function Start(live: map<string, string>, snapshots: map<string, string>): State {
    State(Slots(map[], {}, 0), live, snapshots, map[])
  }

  function Run(s: State, steps: seq<Step>): State {
    if steps == [] then s else Next(Run(s, steps[..|steps| - 1]), steps[|steps| - 1])
  }

  /** The step gives the slot of `path` back. */
  predicate Releases(s: State, step: Step, path: string) {
    step.Release? && s.At(step.t).Holds() && s.At(step.t).path == path
  }

  /** What the last holder of the slot left in the file, or what was there to begin with. */
  function LeftBehind(s: State, steps: seq<Step>, path: string): Option<string> {
    if steps == [] then Look(s.live, path)
    else
      var init := steps[..|steps| - 1];
      if Releases(Run(s, init), steps[|steps| - 1], path) then Look(Run(s, steps).live, path)
      else LeftBehind(s, init, path)
  }

  // ---------- What every run keeps ----------

  /** Every flight has one owner; the flights in the map are open and theirs. */
  ghost predicate SlotsSound(s: State) {
    && (forall t :: t in s.threads && s.threads[t].Holds() ==> Owns(s, s.threads[t]))
    && (forall t :: t in s.threads && s.threads[t].Closing? ==> Pending(s.slots, s.threads[t].flight))
    && (forall t, u :: t in s.threads && u in s.threads && t != u ==> Apart(s.threads[t], s.threads[u]))
    && (forall path :: path in s.slots.flights ==> Open(s.slots, s.slots.flights[path]))
    && (forall f :: f in s.slots.closed ==> f < s.slots.next)
    && (forall p, q :: p in s.slots.flights && q in s.slots.flights && p != q ==>
      s.slots.flights[p] != s.slots.flights[q])
  }

  ghost predicate Owns(s: State, p: Phase)
    requires p.Holds()
  {
    p.path in s.slots.flights && s.slots.flights[p.path] == p.flight
  }

  ghost predicate Open(slots: Slots, f: nat) { f < slots.next && f !in slots.closed }

  ghost predicate Pending(slots: Slots, f: nat) { Open(slots, f) && f !in slots.flights.Values }

  ghost predicate Apart(p: Phase, q: Phase) { p != Idle && q != Idle ==> p.flight != q.flight }

  /** What the last holder of each slot left. */
  type Left = string -> Option<string>

  /** The files, against what the previous holder of each slot left. */
  ghost predicate FilesSound(s: State, left: Left) {
    && (forall path :: Untouched(s, path) ==> Look(s.live, path) == left(path))
    && (forall t :: t in s.threads && s.threads[t].HasBackup() ==>
      Recoverable(s, s.threads[t], left(s.threads[t].path)))
  }

  /** Nobody has written the file since its slot was last given back. */
  ghost predicate Untouched(s: State, path: string) {
    forall t :: t in s.threads && s.threads[t].Written? ==> s.threads[t].path != path
  }

  /** The recovery point of a transaction is what the previous holder left. */
  ghost predicate Recoverable(s: State, p: Phase, left: Option<string>)
    requires p.HasBackup()
  {
    if p.backup.None? then left == None else Look(s.snapshots, p.backup.value) == left && left.Some?
  }

  lemma {:induction false} SlotsStay(s: State, step: Step)
    requires SlotsSound(s)
    ensures SlotsSound(Next(s, step))
  {
    match step
    case Begin(t, path) => BeginStays(s, t, path);
    case Release(t) => ReleaseStays(s, t);
    case Close(t) => CloseStays(s, t);
    case _ => SameSlots(s, Next(s, step), step.t);
  }

  /** A step that stays with its flight. */
  lemma {:induction false} SameSlots(s: State, n: State, t: nat)
    requires SlotsSound(s) && n.slots == s.slots
    requires n.threads == s.threads || (n == n.Goes(t, n.At(t)) && n.threads == s.threads[t := n.At(t)]
      && s.At(t).Holds() && n.At(t).Holds() && n.At(t).path == s.At(t).path && n.At(t).flight == s.At(t).flight)
    ensures SlotsSound(n)
  {}

  lemma {:induction false} BeginStays(s: State, t: nat, path: string)
    requires SlotsSound(s)
    ensures SlotsSound(Next(s, Begin(t, path)))
  {}

  lemma {:induction false} ReleaseStays(s: State, t: nat)
    requires SlotsSound(s)
    ensures SlotsSound(Next(s, Release(t)))
  {}

  lemma {:induction false} CloseStays(s: State, t: nat)
    requires SlotsSound(s)
    ensures SlotsSound(Next(s, Close(t)))
  {}

  /** At most one transaction holds the slot of a path. */
  lemma {:induction false} OneHolder(s: State, t: nat, u: nat)
    requires SlotsSound(s) && t != u && s.At(t).Holds() && s.At(u).Holds()
    ensures s.At(t).path != s.At(u).path
  {
    assert Apart(s.threads[t], s.threads[u]);
  }

  /** What each slot's last holder left, after one more step. */
  ghost function LeftNext(s: State, step: Step, left: Left): Left {
    path => if Releases(s, step, path) then Look(Next(s, step).live, path) else left(path)
  }

  lemma {:induction false} FilesStay(s: State, step: Step, left: Left)
    requires SlotsSound(s) && FilesSound(s, left)
    ensures FilesSound(Next(s, step), LeftNext(s, step, left))
  {
    match step
    case Backup(_, _, _, _) => BackupFiles(s, step, left);
    case Release(t) => ReleaseFiles(s, t, left);
    case Write(_, _, _) => OwnFileFiles(s, step, left);
    case Restore(_, _) => OwnFileFiles(s, step, left);
    case Remove(_, _) => OwnFileFiles(s, step, left);
    case _ => QuietFiles(s, step, left);
  }

  lemma {:induction false} QuietFiles(s: State, step: Step, left: Left)
    requires FilesSound(s, left) && (step.Begin? || step.Close?)
    ensures FilesSound(Next(s, step), LeftNext(s, step, left))
  {
    var n := Next(s, step);
    forall path | Untouched(n, path) ensures Untouched(s, path) {
      forall t | t in s.threads && s.threads[t].Written? ensures s.threads[t].path != path {
        assert n.threads[t] == s.threads[t];
      }
    }
  }

  lemma {:induction false} BackupFiles(s: State, step: Step, left: Left)
    requires SlotsSound(s) && FilesSound(s, left) && step.Backup?
    ensures FilesSound(Next(s, step), LeftNext(s, step, left))
  {
    var n, t := Next(s, step), step.t;
    forall path | Untouched(n, path) ensures Untouched(s, path) {
      forall u | u in s.threads && s.threads[u].Written? ensures s.threads[u].path != path {
        assert n.threads[u] == s.threads[u];
      }
    }
    if s.At(t).Checking? {
      forall u | u in s.threads && s.threads[u].Written? ensures s.threads[u].path != s.At(t).path {
        OneHolder(s, t, u);
      }
      assert Untouched(s, s.At(t).path);
    }
  }

  lemma {:induction false} OwnFileFiles(s: State, step: Step, left: Left)
    requires SlotsSound(s) && FilesSound(s, left) && (step.Write? || step.Restore? || step.Remove?)
    ensures FilesSound(Next(s, step), LeftNext(s, step, left))
  {
    var n, t := Next(s, step), step.t;
    forall path | Untouched(n, path) ensures Look(n.live, path) == left(path) {
      if n != s { assert n.threads[t].Written? && n.threads[t].path != path; }
      forall u | u in s.threads && s.threads[u].Written? ensures s.threads[u].path != path {
        assert n.threads[u].Written? && n.threads[u].path == s.threads[u].path;
      }
      assert Untouched(s, path);
    }
  }

  lemma {:induction false} ReleaseFiles(s: State, t: nat, left: Left)
    requires SlotsSound(s) && FilesSound(s, left)
    ensures FilesSound(Next(s, Release(t)), LeftNext(s, Release(t), left))
  {
    var n := Next(s, Release(t));
    if s.At(t).Holds() {
      forall path | Untouched(n, path) && path != s.At(t).path ensures Untouched(s, path) {
        forall u | u in s.threads && s.threads[u].Written? ensures s.threads[u].path != path {
          if u != t { assert n.threads[u] == s.threads[u]; }
        }
      }
      forall u | u in n.threads && n.threads[u].HasBackup() ensures n.threads[u].path != s.At(t).path {
        OneHolder(s, t, u);
      }
    }
  }

  /** Every run of any number of transactions on any paths. */
  lemma {:induction false} EveryRun(live: map<string, string>, snapshots: map<string, string>, steps: seq<Step>)
    ensures SlotsSound(Run(Start(live, snapshots), steps))
    ensures FilesSound(Run(Start(live, snapshots), steps), path => LeftBehind(Start(live, snapshots), steps, path))
  {
    var start := Start(live, snapshots);
    if steps != [] {
      var init, last := steps[..|steps| - 1], steps[|steps| - 1];
      EveryRun(live, snapshots, init);
      var before := Run(start, init);
      var left := path => LeftBehind(start, init, path);
      SlotsStay(before, last);
      FilesStay(before, last, left);
      SameLeft(Run(start, steps), LeftNext(before, last, left), path => LeftBehind(start, steps, path));
    }
  }

  lemma {:induction false} SameLeft(s: State, a: Left, b: Left)
    requires FilesSound(s, a) && forall path :: a(path) == b(path)
    ensures FilesSound(s, b)
  {}

  /** No two transactions hold the slot of one path, the flight in the map is never done (so a
      second caller is always refused while the first runs), and no channel is closed twice. */
  lemma {:induction false} SingleFlight(live: map<string, string>, snapshots: map<string, string>, steps: seq<Step>,
      t: nat, u: nat)
    ensures var s := Run(Start(live, snapshots), steps);
      && (t != u && s.At(t).Holds() && s.At(u).Holds() ==> s.At(t).path != s.At(u).path)
      && (s.At(t).Holds() ==> Acquired(s.slots, s.At(t).path).1 == None)
      && (forall path :: path in s.slots.flights ==> s.slots.flights[path] !in s.slots.closed)
      && (s.At(t).Closing? ==> s.At(t).flight !in s.slots.closed)
  {
    EveryRun(live, snapshots, steps);
    var s := Run(Start(live, snapshots), steps);
    if t != u && s.At(t).Holds() && s.At(u).Holds() { OneHolder(s, t, u); }
  }

  /** A slot is free exactly when nobody holds it: no transaction, however it ended, locks the
      next one out. */
  lemma {:induction false} FreeWhenUnheld(live: map<string, string>, snapshots: map<string, string>, steps: seq<Step>,
      path: string)
    ensures var s := Run(Start(live, snapshots), steps);
      path in s.slots.flights <==> exists t :: t in s.threads && s.threads[t].Holds() && s.threads[t].path == path
  {
    EveryRun(live, snapshots, steps);
    HeldSlots(live, snapshots, steps, path);
  }

  lemma {:induction false} HeldSlots(live: map<string, string>, snapshots: map<string, string>, steps: seq<Step>,
      path: string)
    ensures SlotHeld(Run(Start(live, snapshots), steps), path)
  {
    if steps != [] {
      var init := steps[..|steps| - 1];
      HeldSlots(live, snapshots, init, path);
      EveryRun(live, snapshots, init);
      HeldNext(Run(Start(live, snapshots), init), steps[|steps| - 1], path);
    }
  }

  /** A slot in the map has a holder. */
  ghost predicate SlotHeld(s: State, path: string) {
    path in s.slots.flights ==> exists t :: t in s.threads && s.threads[t].Holds() && s.threads[t].path == path
  }

  lemma {:induction false} HeldNext(before: State, last: Step, path: string)
    requires SlotsSound(before) && SlotHeld(before, path)
    ensures SlotHeld(Next(before, last), path)
  {
    if path in before.slots.flights {
      var t :| t in before.threads && before.threads[t].Holds() && before.threads[t].path == path;
      HolderStays(before, last, path, t);
    } else {
      NewHolder(before, last, path);
    }
  }

  lemma {:induction false} HolderStays(before: State, last: Step, path: string, t: nat)
    requires SlotsSound(before) && t in before.threads && before.threads[t].Holds() && before.threads[t].path == path
    ensures SlotHeld(Next(before, last), path)
  {
    var s := Next(before, last);
    if path in s.slots.flights { assert s.threads[t].Holds() && s.threads[t].path == path; }
  }

  lemma {:induction false} NewHolder(before: State, last: Step, path: string)
    requires path !in before.slots.flights
    ensures SlotHeld(Next(before, last), path)
  {
    var s := Next(before, last);
    if path in s.slots.flights { assert s.threads[last.t].Holds() && s.threads[last.t].path == path; }
  }

  /** The recovery point of a transaction that made one is exactly the file the previous holder
      of the slot left, and later steps of anybody never alter or remove a recovery point. */
  lemma {:induction false} RecoveryPoint(live: map<string, string>, snapshots: map<string, string>, steps: seq<Step>,
      t: nat, more: seq<Step>)
    ensures var s := Run(Start(live, snapshots), steps);
      s.At(t).HasBackup() ==>
        var left := LeftBehind(Start(live, snapshots), steps, s.At(t).path);
        && (s.At(t).backup.None? <==> left.None?)
        && (left.Some? ==> Look(Run(Start(live, snapshots), steps + more).snapshots, s.At(t).backup.value) == left)
  {
    EveryRun(live, snapshots, steps);
    RunAppend(Start(live, snapshots), steps, more);
    var s := Run(Start(live, snapshots), steps);
    SnapshotsKept(s, more);
    if s.At(t).HasBackup() {
      assert Recoverable(s, s.threads[t], LeftBehind(Start(live, snapshots), steps, s.At(t).path));
    }
  }

  lemma {:induction false} SnapshotsKept(s: State, steps: seq<Step>)
    ensures forall k :: k in s.snapshots ==>
      k in Run(s, steps).snapshots && Run(s, steps).snapshots[k] == s.snapshots[k]
  {
    if steps != [] {
      SnapshotsKept(s, steps[..|steps| - 1]);
    }
  }

  lemma {:induction false} RunAppend(s: State, steps: seq<Step>, more: seq<Step>)
    ensures Run(s, steps + more) == Run(Run(s, steps), more)
  {
    if more == [] {
      assert steps + more == steps;
    } else {
      assert (steps + more)[..|steps + more| - 1] == steps + more[..|more| - 1];
      RunAppend(s, steps, more[..|more| - 1]);
    }
  }
}
