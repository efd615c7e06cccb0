/** The audit log and its rotation by hard links (internal/audit/audit.go).

    `Directory` is the audit directory: names, inodes and their contents.  Every call into it
    may fail, and it records the disk after each call, because the process may stop there.
    `Service` runs the code's steps over it.  The disk laws are lemmas about `Disk`.
 */
module AuditLog {
  import opened Wrappers
  import opened Lexical

  const MAX_SIZE := 10 * 1024 * 1024
  const MAX_BACKUPS := 5
  const MAX_ORDINAL := 999999

  // ---------- Backup names ----------

  /** A backup by what its name parses to: the current format carries the rotation time and an
      ordinal, any other name sorts by a time read from the name or the file, before (legacy)
      or after the current format. */
  datatype BackupName =
    | Current(stamp: int, ordinal: nat)
    | Other(stamp: int, legacy: bool, text: string)
  {
    function Generation(): nat {
      if Current? then 1 else if legacy then 0 else 2
    }
  }

  /** The order the pruning sorts by. */
  predicate Less(a: BackupName, b: BackupName) {
    if a.stamp != b.stamp then a.stamp < b.stamp
    else if a.Generation() != b.Generation() then a.Generation() < b.Generation()
    else if a.Current? then b.Current? && a.ordinal < b.ordinal
    else b.Other? && LexLess(a.text, b.text)
  }

  lemma {:induction false} LessTotal(a: BackupName, b: BackupName)
    ensures a == b || Less(a, b) || Less(b, a)
    ensures !(Less(a, b) && (Less(b, a) || a == b))
  {
    if a.Other? && b.Other? { LexTotal(a.text, b.text); }
  }

  /** Older readings first; at one reading files of the legacy format, then those of the current one by
      their ordinal, then any other by name. */
  lemma {:induction false} OlderFirst(a: BackupName, b: BackupName)
    ensures a.stamp < b.stamp ==> Less(a, b)
    ensures a.stamp == b.stamp && a.Other? && a.legacy && !(b.Other? && b.legacy) ==> Less(a, b)
    ensures a.stamp == b.stamp && a.Current? && b.Other? && !b.legacy ==> Less(a, b)
    ensures a.stamp == b.stamp && a.Current? && b.Current? && a.ordinal < b.ordinal ==> Less(a, b)
    ensures a.stamp == b.stamp && a.Other? && b.Other? && a.legacy == b.legacy && LexLess(a.text, b.text) ==> Less(a, b)
  {}

  lemma {:induction false} LessTransitive(a: BackupName, b: BackupName, c: BackupName)
    requires Less(a, b) && Less(b, c)
    ensures Less(a, c)
  {
    if a.Other? && b.Other? && c.Other? && LexLess(a.text, b.text) && LexLess(b.text, c.text) {
      LexTransitive(a.text, b.text, c.text);
    }
  }

  // ---------- The disk ----------

  /** What one write left in a file: a whole event line, or part of one that failed. */
  datatype Chunk = Event(line: string) | Torn(part: string)

  /** Inodes are numbered in the order they were created; the contents of removed files stay in
      `data` so that everything ever written can be spoken about. */
  datatype Disk = Disk(active: Option<nat>, backups: map<BackupName, nat>, data: seq<seq<Chunk>>)

  function Flatten(files: seq<seq<Chunk>>): seq<Chunk> {
    if files == [] then [] else Flatten(files[..|files| - 1]) + files[|files| - 1]
  }

  /** Everything ever written, in order. */
  function Written(d: Disk): seq<Chunk> { Flatten(d.data) }

  predicate Reachable(d: Disk, i: nat) {
    d.active == Some(i) || exists b :: b in d.backups && d.backups[b] == i
  }

  /** The inodes no name leads to any more. */
  ghost function Lost(d: Disk): set<nat> {
    set i | 0 <= i < |d.data| && !Reachable(d, i)
  }

  /** The active file is the newest one, and no two backup names share a file. */
  ghost predicate Sound(d: Disk) {
    && (d.active.Some? ==> d.active.value + 1 == |d.data|)
    && (forall b :: b in d.backups ==> d.backups[b] < |d.data|)
    && (forall b, c :: b in d.backups && c in d.backups && d.backups[b] == d.backups[c] ==> b == c)
  }

  /** A backup name shares the active file. */
  predicate Aliased(d: Disk) {
    d.active.Some? && exists b :: b in d.backups && d.backups[b] == d.active.value
  }

  /** Backups sort in the order they were written, and only a first part of the log is gone. */
  ghost predicate InOrder(d: Disk) {
    && (forall b, c :: b in d.backups && c in d.backups ==> (Less(b, c) <==> d.backups[b] < d.backups[c]))
    && (forall i: nat, j: nat :: i < j < |d.data| && Reachable(d, i) ==> Reachable(d, j))
  }

  /** The events on disk, in the order they were written. */
  function OnDisk(d: Disk, n: nat): seq<Chunk>
    requires n <= |d.data|
  {
    if n == 0 then [] else OnDisk(d, n - 1) + if Reachable(d, n - 1) then d.data[n - 1] else []
  }

  /** On a disk in order, what can still be read is a suffix of everything ever written. */
  lemma {:induction false} OnDiskIsSuffix(d: Disk)
    requires Sound(d) && InOrder(d)
    ensures exists cut :: 0 <= cut <= |Written(d)| && OnDisk(d, |d.data|) == Written(d)[cut..]
  {
    var cut := OnDiskSuffixUpTo(d, |d.data|);
    assert d.data[..|d.data|] == d.data;
    assert OnDisk(d, |d.data|) == Written(d)[cut..];
  }

  lemma {:induction false} OnDiskSuffixUpTo(d: Disk, n: nat) returns (cut: nat)
    requires InOrder(d) && n <= |d.data|
    ensures cut <= |Flatten(d.data[..n])| && OnDisk(d, n) == Flatten(d.data[..n])[cut..]
    ensures (forall i :: 0 <= i < n ==> !Reachable(d, i)) ==> cut == |Flatten(d.data[..n])|
  {
    if n == 0 {
      return 0;
    }
    assert d.data[..n][..n - 1] == d.data[..n - 1];
    cut := OnDiskSuffixUpTo(d, n - 1);
    if Reachable(d, n - 1) {
      assert Flatten(d.data[..n])[cut..] == Flatten(d.data[..n - 1])[cut..] + d.data[n - 1];
    } else {
      forall i | 0 <= i < n - 1 ensures !Reachable(d, i) {}
      cut := |Flatten(d.data[..n])|;
    }
  }

  /** Without a backup name that shares the active file, every readable file has one name. */
  lemma {:induction false} OneNameEach(d: Disk, i: nat)
    requires Sound(d) && !Aliased(d) && Reachable(d, i)
    ensures d.active == Some(i) ==> forall b :: b in d.backups ==> d.backups[b] != i
    ensures d.active != Some(i) ==>
      exists b :: b in d.backups && d.backups[b] == i && forall c :: c in d.backups && d.backups[c] == i ==> c == b
  {}

  // ---------- The effects of the file-system calls ----------

  function Created(d: Disk): Disk {
    if d.active.Some? then d else d.(active := Some(|d.data|), data := d.data + [[]])
  }

  function Appended(d: Disk, i: nat, c: Chunk): Disk
    requires i < |d.data|
  {
    d.(data := d.data[i := d.data[i] + [c]])
  }

  function Linked(d: Disk, b: BackupName): Disk
    requires d.active.Some?
  {
    d.(backups := d.backups[b := d.active.value])
  }

  function Unlinked(d: Disk, b: BackupName): Disk {
    d.(backups := d.backups - {b})
  }

  /** The backups that hold a file of their own. */
  function Proper(d: Disk): set<BackupName> {
    set b | b in d.backups && d.active != Some(d.backups[b])
  }

  /** Either no file was lost and no backup of a file of its own has gone, or enough such backups
      remain. */
  ghost predicate Retains(d0: Disk, d1: Disk) {
    && Lost(d0) <= Lost(d1)
    && ((Lost(d1) == Lost(d0) && Proper(d0) <= Proper(d1)) || |Proper(d1)| >= MAX_BACKUPS)
  }

  lemma {:induction false} RetainsTransitive(d0: Disk, d1: Disk, d2: Disk)
    requires Retains(d0, d1) && Retains(d1, d2)
    ensures Retains(d0, d2)
  {
    if |Proper(d1)| >= MAX_BACKUPS && Proper(d1) <= Proper(d2) { SubsetCard(Proper(d1), Proper(d2)); }
  }

  /** Every file keeps its contents, and only the newest may have grown. */
  ghost predicate Preserves(d0: Disk, d1: Disk) {
    && |d0.data| <= |d1.data|
    && (forall i :: 0 <= i < |d0.data| ==> d0.data[i] <= d1.data[i])
    && (forall i :: 0 <= i < |d0.data| - 1 ==> d0.data[i] == d1.data[i])
  }

  /** The newest file can be read. */
  predicate NewestThere(d: Disk) { d.data != [] ==> Reachable(d, |d.data| - 1) }

  lemma {:induction false} PreservesTransitive(d0: Disk, d1: Disk, d2: Disk)
    requires Preserves(d0, d1) && Preserves(d1, d2)
    ensures Preserves(d0, d2)
  {
    forall i | 0 <= i < |d0.data| ensures d0.data[i] <= d2.data[i] {
      assert d0.data[i] <= d1.data[i] && d1.data[i] <= d2.data[i];
    }
    forall i | 0 <= i < |d0.data| - 1 ensures d0.data[i] == d2.data[i] {
      assert d0.data[i] == d1.data[i] && d1.data[i] == d2.data[i];
    }
  }

  /** What one call may do: every file keeps its contents, the newest one stays readable, and either
      no file and no backup of a file of its own goes, or the call prunes. */
  ghost predicate Legal(d: Disk, d1: Disk) {
    && Preserves(d, d1) && (NewestThere(d) ==> NewestThere(d1))
    && ((Lost(d1) == Lost(d) && Proper(d) <= Proper(d1)) || Prunes(d, d1))
  }

  /** The oldest of more backups than are kept goes, none of them shares the active file, and there
      is one. */
  ghost predicate Prunes(d: Disk, d1: Disk) {
    && |d.backups| > MAX_BACKUPS && d.active.Some? && !Aliased(d)
    && exists b :: Oldest(d, b) && d1 == Unlinked(d, b)
  }

  ghost predicate Oldest(d: Disk, b: BackupName) {
    b in d.backups && forall c :: c in d.backups && c != b ==> Less(b, c)
  }

  /** What a stretch of the service's run may do to the disk it started from: every file keeps its
      contents and nothing written is changed, files are dropped only while enough backups remain and
      never the newest, and on a disk in order, with a clock past every backup, the order is kept. */
  ghost predicate Follows(d0: Disk, d1: Disk, now: int) {
    && Sound(d1)
    && Written(d0) <= Written(d1)
    && Preserves(d0, d1)
    && Retains(d0, d1)
    && (NewestThere(d0) ==> NewestThere(d1))
    && (InOrder(d0) && Before(d0, now) ==> InOrder(d1) && NotAfter(d1, now))
  }

  /** The backup of `d` is one of `d0`, with the same file. */
  predicate IsOld(d0: Disk, d: Disk, b: BackupName) {
    b in d0.backups && b in d.backups && d0.backups[b] == d.backups[b]
  }

  /** A file gets a backup name only when it is full. */
  ghost predicate LinksFull(d: Disk, d1: Disk) {
    forall b :: b in d1.backups && !IsOld(d, d1, b) ==> IsFull(d1, d1.backups[b])
  }

  predicate IsFull(d: Disk, i: nat) { i < |d.data| && Size(d.data[i]) >= MAX_SIZE }

  /** The size of the active file. */
  function ActiveSize(d: Disk): nat {
    if d.active.Some? && d.active.value < |d.data| then Size(d.data[d.active.value]) else 0
  }

  /** A step that loses no file and no backup of its own keeps the retention. */
  lemma {:induction false} RetainsStep(d0: Disk, d: Disk, d1: Disk)
    requires Retains(d0, d) && Lost(d1) == Lost(d) && Proper(d) <= Proper(d1)
    ensures Retains(d0, d1)
  {
    RetainsTransitive(d0, d, d1);
  }

  ghost predicate Before(d: Disk, now: int) { forall b :: b in d.backups ==> b.stamp < now }
  ghost predicate NotAfter(d: Disk, now: int) { forall b :: b in d.backups ==> b.stamp <= now }

  lemma {:induction false} FollowsItself(d: Disk, now: int)
    requires Sound(d)
    ensures Follows(d, d, now)
  {}

  lemma {:induction false} WrittenAppend(d: Disk, i: nat, c: Chunk)
    requires i + 1 == |d.data|
    ensures Written(Appended(d, i, c)) == Written(d) + [c]
  {
    var d1 := Appended(d, i, c);
    assert d1.data[..i] == d.data[..i];
  }

  lemma {:induction false} AppendFollows(d0: Disk, d: Disk, i: nat, c: Chunk, now: int, full: bool)
    requires Follows(d0, d, now) && d.active == Some(i)
    ensures IsStep(Point(d, d), d0, now, full) && IsStep(Point(d, Appended(d, i, c)), d0, now, full)
    ensures Written(Appended(d, i, c)) == Written(d) + [c] && Lost(Appended(d, i, c)) == Lost(d)
  {
    var d1 := Appended(d, i, c);
    WrittenAppend(d, i, c);
    assert forall k: nat :: Reachable(d1, k) <==> Reachable(d, k);
    RetainsStep(d0, d, d1);
    PreservesTransitive(d0, d, d1);
  }

  /** A call that changes nothing. */
  lemma {:induction false} StaysStep(d0: Disk, d: Disk, now: int, full: bool)
    requires Follows(d0, d, now)
    ensures IsStep(Point(d, d), d0, now, full)
  {}

  lemma {:induction false} CreateFollows(d0: Disk, d: Disk, now: int, full: bool)
    requires Follows(d0, d, now)
    ensures IsStep(Point(d, d), d0, now, full) && IsStep(Point(d, Created(d)), d0, now, full)
    ensures Written(Created(d)) == Written(d) && Lost(Created(d)) == Lost(d)
    ensures !Aliased(d) ==> !Aliased(Created(d))
  {
    StaysStep(d0, d, now, full);
    if d.active.None? {
      CreateLegal(d);
      RetainsStep(d0, d, Created(d));
      PreservesTransitive(d0, d, Created(d));
    }
  }

  lemma {:induction false} CreateLegal(d: Disk)
    requires Sound(d) && d.active.None?
    ensures Sound(Created(d)) && Legal(d, Created(d)) && LinksFull(d, Created(d))
    ensures Written(Created(d)) == Written(d) && Lost(Created(d)) == Lost(d) && Proper(Created(d)) == Proper(d)
    ensures !Aliased(Created(d)) && Preserves(d, Created(d))
    ensures InOrder(d) ==> InOrder(Created(d))
  {
    var d1 := Created(d);
    assert d1.data[..|d.data|] == d.data;
    assert forall k: nat :: Reachable(d1, k) <==> Reachable(d, k) || k == |d.data|;
  }

  lemma {:induction false} LinkFollows(d0: Disk, d: Disk, b: BackupName, now: int, full: bool)
    requires Follows(d0, d, now) && d.active.Some? && !Aliased(d) && b !in d.backups
    requires b.Current? && b.stamp == now && d.backups.Keys <= d0.backups.Keys
    requires full ==> ActiveSize(d) >= MAX_SIZE
    ensures IsStep(Point(d, d), d0, now, full) && IsStep(Point(d, Linked(d, b)), d0, now, full)
    ensures Aliased(Linked(d, b)) && Lost(Linked(d, b)) == Lost(d)
  {
    var d1 := Linked(d, b);
    assert d1.backups[b] == d.active.value;
    forall k: nat ensures Reachable(d1, k) <==> Reachable(d, k) {
      if c :| c in d.backups && d.backups[c] == k {
        assert c in d1.backups && d1.backups[c] == k;
      }
    }
    RetainsStep(d0, d, d1);
    if InOrder(d0) && Before(d0, now) {
      forall x, y | x in d1.backups && y in d1.backups
        ensures Less(x, y) <==> d1.backups[x] < d1.backups[y]
      {
        if x == b || y == b { LessTotal(x, y); }
      }
    }
  }

  /** Taking the active name away keeps the file if a backup name shares it. */
  lemma {:induction false} RemoveActiveFollows(d0: Disk, d: Disk, now: int, full: bool)
    requires Follows(d0, d, now) && Aliased(d)
    ensures IsStep(Point(d, d), d0, now, full) && IsStep(Point(d, d.(active := None)), d0, now, full)
    ensures !Aliased(d.(active := None)) && Lost(d.(active := None)) == Lost(d)
  {
    var d1 := d.(active := None);
    assert forall k: nat :: Reachable(d1, k) <==> Reachable(d, k);
    RetainsStep(d0, d, d1);
  }

  /** Taking an alias of the active file away loses nothing. */
  lemma {:induction false} RemoveAliasFollows(d0: Disk, d: Disk, b: BackupName, now: int, full: bool)
    requires Follows(d0, d, now) && b in d.backups && d.active == Some(d.backups[b])
    ensures IsStep(Point(d, d), d0, now, full) && IsStep(Point(d, Unlinked(d, b)), d0, now, full)
    ensures !Aliased(Unlinked(d, b)) && Lost(Unlinked(d, b)) == Lost(d)
  {
    var d1 := Unlinked(d, b);
    forall k: nat ensures Reachable(d1, k) <==> Reachable(d, k) {
      if c :| c in d.backups && d.backups[c] == k && c != b {
        assert c in d1.backups && d1.backups[c] == k;
      }
    }
    RetainsStep(d0, d, d1);
  }

  /** Pruning the first backup in order keeps the log a suffix. */
  lemma {:induction false} PruneFollows(d0: Disk, d: Disk, b: BackupName, now: int, full: bool)
    requires Follows(d0, d, now) && !Aliased(d) && d.active.Some?
    requires Oldest(d, b) && |d.backups| > MAX_BACKUPS
    ensures Follows(d0, Unlinked(d, b), now) && Legal(d, Unlinked(d, b))
    ensures |Unlinked(d, b).backups| == |d.backups| - 1
  {
    var d1 := Unlinked(d, b);
    assert d1.backups.Keys == d.backups.Keys - {b} && Proper(d1) == d1.backups.Keys;
    assert Lost(d) <= Lost(d1);
    if InOrder(d0) && Before(d0, now) { PruneKeepsOrder(d, b); }
  }

  lemma {:induction false} PruneKeepsOrder(d: Disk, b: BackupName)
    requires Sound(d) && InOrder(d) && Oldest(d, b)
    ensures InOrder(Unlinked(d, b))
  {
    var d1 := Unlinked(d, b);
    forall i: nat, j: nat | i < j < |d1.data| && Reachable(d1, i) ensures Reachable(d1, j) {
      assert Reachable(d, i) && Reachable(d, j);
      if d.active != Some(j) {
        var c :| c in d.backups && d.backups[c] == j;
        assert c != b;
        assert c in d1.backups && d1.backups[c] == j;
      }
    }
  }

  // ---------- The directory ----------

  datatype Lookup = Found(inode: nat) | Missing | Failed

  /** A call: the disk before and after it. */
  datatype Point = Point(was: Disk, disk: Disk)

  /** Every new call of a stretch is legal, and its disk follows from the one the stretch started
      from.  When the file is known to be full, only full files get backup names. */
  ghost predicate Steps(before: seq<Point>, after: seq<Point>, d0: Disk, now: int, full: bool) {
    && before <= after
    && forall k {:trigger IsStep(after[k], d0, now, full)} :: |before| <= k < |after| ==>
      IsStep(after[k], d0, now, full)
  }

  ghost predicate IsStep(p: Point, d0: Disk, now: int, full: bool) {
    Follows(d0, p.disk, now) && Legal(p.was, p.disk) && (full ==> LinksFull(p.was, p.disk))
  }

  /** Every call starts from the disk the one before left. */
  ghost predicate Chained(points: seq<Point>) {
    |points| > 1 ==>
      Chained(points[..|points| - 1]) && points[|points| - 1].was == points[|points| - 2].disk
  }

  lemma {:induction false} ChainedPrefix(points: seq<Point>, n: nat)
    requires Chained(points) && n <= |points|
    ensures Chained(points[..n])
  {
    if n < |points| {
      ChainedPrefix(points[..|points| - 1], n);
      assert points[..|points| - 1][..n] == points[..n];
    } else {
      assert points[..n] == points;
    }
  }

  lemma {:induction false} ChainedMore(points: seq<Point>, p: Point)
    requires Chained(points) && points != [] && p.was == points[|points| - 1].disk
    ensures Chained(points + [p])
  {
    assert (points + [p])[..|points|] == points;
  }

  /** The audit directory.  Any call may fail; a failed call has no effect, except that a failed
      write may leave part of its line. */
  class Directory {
    var disk: Disk
    var points: seq<Point> // the calls so far

    ghost predicate Valid()
      reads this
    {
      points != [] && points[|points| - 1].disk == disk && Chained(points)
    }

    constructor (disk: Disk)
      ensures this.disk == disk && points == [Point(disk, disk)] && Valid()
    {
      this.disk, points := disk, [Point(disk, disk)];
    }

    method StatBackup(b: BackupName) returns (r: Lookup)
      ensures r == Missing ==> b !in disk.backups
      ensures r.Found? ==> b in disk.backups && disk.backups[b] == r.inode
    {
      var fails: bool := *;
      if fails { return Failed; }
      r := if b in disk.backups then Found(disk.backups[b]) else Missing;
    }

    method StatActive() returns (r: Lookup)
      ensures r == Missing ==> disk.active.None?
      ensures r.Found? ==> disk.active == Some(r.inode)
    {
      var fails: bool := *;
      if fails { return Failed; }
      r := if disk.active.Some? then Found(disk.active.value) else Missing;
    }

    method ReadDir() returns (r: Option<set<BackupName>>)
      ensures r.Some? ==> r.value == disk.backups.Keys
    {
      var fails: bool := *;
      if fails { return None; }
      r := Some(disk.backups.Keys);
    }

    /** Opens the active file for appending, creating it if there is none. */
    method OpenActive() returns (r: Option<nat>)
      requires Valid()
      modifies this
      ensures Valid() && points == old(points) + [Point(old(disk), disk)]
      ensures disk == if r.Some? then Created(old(disk)) else old(disk)
      ensures r.Some? ==> disk.active == r
    {
      var fails: bool := *;
      if fails {
        r := None;
      } else {
        disk := Created(disk);
        r := disk.active;
      }
      Note();
    }

    /** Writes a line to an open file; `n` bytes are reported written. */
    method Write(i: nat, line: string) returns (n: nat, ok: bool)
      requires Valid() && i < |disk.data|
      modifies this
      ensures Valid() && points == old(points) + [Point(old(disk), disk)]
      ensures ok && n == |line| ==> disk == Appended(old(disk), i, Event(line))
      ensures !(ok && n == |line|) ==>
        disk == old(disk) || exists part: string :: part <= line && disk == Appended(old(disk), i, Torn(part))
    {
      var taken: int := *;
      var fails: bool := *;
      n, ok := 0, !fails;
      if 0 <= taken < |line| {
        n := taken;
        assert line[..taken] <= line;
        disk := Appended(disk, i, Torn(line[..taken]));
      } else if fails {
        // The call reports an error although every byte went out.
        disk := Appended(disk, i, Torn(line));
        n := |line|;
      } else {
        disk := Appended(disk, i, Event(line));
        n := |line|;
      }
      Note();
    }

    method Close() returns (ok: bool) {
      ok := *;
    }

    method Link(b: BackupName) returns (ok: bool)
      requires Valid()
      modifies this
      ensures Valid() && points == old(points) + [Point(old(disk), disk)]
      ensures ok ==> old(disk).active.Some? && b !in old(disk).backups && disk == Linked(old(disk), b)
      ensures !ok ==> disk == old(disk)
    {
      var fails: bool := *;
      ok := !fails && disk.active.Some? && b !in disk.backups;
      if ok { disk := Linked(disk, b); }
      Note();
    }

    method RemoveActive() returns (ok: bool)
      requires Valid()
      modifies this
      ensures Valid() && points == old(points) + [Point(old(disk), disk)]
      ensures disk == if ok then old(disk).(active := None) else old(disk)
    {
      var fails: bool := *;
      ok := !fails && disk.active.Some?;
      if ok { disk := disk.(active := None); }
      Note();
    }

    method RemoveBackup(b: BackupName) returns (ok: bool)
      requires Valid()
      modifies this
      ensures Valid() && points == old(points) + [Point(old(disk), disk)]
      ensures ok ==> b in old(disk).backups && disk == Unlinked(old(disk), b)
      ensures !ok ==> disk == old(disk)
    {
      var fails: bool := *;
      ok := !fails && b in disk.backups;
      if ok { disk := Unlinked(disk, b); }
      Note();
    }

    /** Records a call. */
    method Note()
      requires points != [] && Chained(points)
      modifies this`points
      ensures Valid() && points == old(points) + [Point(old(points)[|old(points)| - 1].disk, disk)]
    {
      var p := Point(points[|points| - 1].disk, disk);
      ChainedMore(points, p);
      points := points + [p];
    }

    /** The process stops: the disk is as some call left it. */
    method CrashAt(k: nat)
      requires Valid() && k < |points|
      modifies this
      ensures Valid() && disk == old(points)[k].disk && points == old(points)[..k + 1]
    {
      ChainedPrefix(points, k + 1);
      disk := points[k].disk;
      points := points[..k + 1];
    }
  }

  // ---------- Sorting the backups ----------

  ghost predicate Ascending(names: seq<BackupName>) {
    forall i, j {:trigger Less(names[i], names[j])} :: 0 <= i < j < |names| ==> Less(names[i], names[j])
  }

  method Sort(names: set<BackupName>) returns (sorted: seq<BackupName>)
    ensures Ascending(sorted)
    ensures forall b :: b in sorted <==> b in names
  {
    sorted := [];
    var todo := names;
    while todo != {}
      invariant todo <= names && Ascending(sorted)
      invariant forall b :: b in sorted <==> b in names && b !in todo
      decreases todo
    {
      var b :| b in todo;
      todo := todo - {b};
      sorted := Insert(sorted, b);
    }
  }

  method Insert(sorted: seq<BackupName>, b: BackupName) returns (r: seq<BackupName>)
    requires Ascending(sorted) && b !in sorted
    ensures Ascending(r) && forall c :: c in r <==> c in sorted || c == b
  {
    var i := 0;
    while i < |sorted| && Less(sorted[i], b)
      invariant i <= |sorted| && forall k :: 0 <= k < i ==> Less(sorted[k], b)
    {
      i := i + 1;
    }
    forall k | i <= k < |sorted| ensures Less(b, sorted[k]) {
      LessTotal(sorted[i], b);
      if i < k { LessTransitive(b, sorted[i], sorted[k]); }
    }
    r := sorted[..i] + [b] + sorted[i..];
    assert forall c :: c in r ==> c in sorted || c == b;
    forall c | c in sorted ensures c in r {
      var k :| 0 <= k < |sorted| && sorted[k] == c;
      assert r[if k < i then k else k + 1] == c;
    }
    assert r[i] == b;
  }

  lemma {:induction false} AtMostLength(s: seq<BackupName>, names: set<BackupName>)
    requires forall b :: b in names ==> b in s
    ensures |names| <= |s|
  {
    if s != [] {
      var last := s[|s| - 1];
      assert forall b :: b in names - {last} ==> b in s[..|s| - 1];
      AtMostLength(s[..|s| - 1], names - {last});
      assert names <= (names - {last}) + {last};
    } else {
      assert names == {};
    }
  }

  // ---------- The service ----------

  datatype Outcome = Outcome(persisted: bool, eventErr: Option<string>, maintenanceErr: Option<string>)

  class Service {
    const dir: Directory
    var file: Option<nat> // the inode open for appending
    var size: nat
    var pending: Option<BackupName>
    ghost var missed: nat // what failed writes have added to the file since it was opened

    /** An open writer appends to the active file and no backup name shares that file; the only
        alias there can be is the one a failed rotation remembered.  The writer counts what was in the
        file when it was opened and every whole line since, but no part of a failed write. */
    ghost predicate Valid()
      reads this, dir
    {
      && dir.Valid() && Sound(dir.disk)
      && (file.Some? ==> dir.disk.active == file && pending.None? && size + missed == ActiveSize(dir.disk))
      && (pending.None? ==> !Aliased(dir.disk))
      && (pending.Some? ==>
          pending.value in dir.disk.backups && dir.disk.active == Some(dir.disk.backups[pending.value]))
    }

    constructor (dir: Directory)
      requires dir.Valid() && Sound(dir.disk) && !Aliased(dir.disk)
      ensures this.dir == dir && file.None? && pending.None? && Valid()
    {
      this.dir := dir;
      file, size, pending := None, 0, None;
    }

    /** Opens the audit log after a start or a crash: aliases a stopped rotation left are
        removed before the first writer is opened. */
    static method New(dir: Directory, ghost now: int) returns (s: Service?)
      requires dir.Valid() && Sound(dir.disk)
      modifies dir
      ensures dir.Valid() && Follows(old(dir.disk), dir.disk, now)
      ensures Steps(old(dir.points), dir.points, old(dir.disk), now, true)
      ensures Written(dir.disk) == Written(old(dir.disk)) && Lost(dir.disk) == Lost(old(dir.disk))
      ensures s != null ==> s.dir == dir && s.Valid() && s.file.Some? && fresh(s)
    {
      ghost var d0 := dir.disk;
      FollowsItself(d0, now);
      var clean := CleanupAliasedBackups(dir, now);
      if !clean { return null; }
      s := new Service(dir);
      var ok := s.OpenActive(d0, now, true);
      if !ok { return null; }
    }

    static method CleanupAliasedBackups(dir: Directory, ghost now: int) returns (ok: bool)
      requires dir.Valid() && Sound(dir.disk)
      modifies dir
      ensures dir.Valid() && Follows(old(dir.disk), dir.disk, now)
      ensures Steps(old(dir.points), dir.points, old(dir.disk), now, true)
      ensures Written(dir.disk) == Written(old(dir.disk)) && Lost(dir.disk) == Lost(old(dir.disk))
      ensures ok ==> !Aliased(dir.disk)
    {
      ghost var d0 := dir.disk;
      FollowsItself(d0, now);
      var active := dir.StatActive();
      if active == Missing { return true; }
      if active == Failed { return false; }
      var entries := dir.ReadDir();
      if entries.None? { return false; }
      var todo := entries.value;
      while todo != {}
        invariant dir.Valid() && Follows(d0, dir.disk, now) && todo <= dir.disk.backups.Keys
        invariant dir.disk.active == Some(active.inode) && dir.disk.data == d0.data && Lost(dir.disk) == Lost(d0)
        invariant Steps(old(dir.points), dir.points, d0, now, true)
        invariant forall b :: b in dir.disk.backups && b !in todo ==> dir.disk.backups[b] != active.inode
        decreases todo
      {
        var b :| b in todo;
        ok := RemoveIfAlias(dir, b, active.inode, d0, now, true);
        if !ok { return; }
        todo := todo - {b};
      }
      ok := true;
    }

    static method RemoveIfAlias(dir: Directory, b: BackupName, inode: nat, ghost d0: Disk, ghost now: int,
      ghost full: bool)
      returns (ok: bool)
      requires dir.Valid() && Follows(d0, dir.disk, now) && b in dir.disk.backups && dir.disk.active == Some(inode)
      modifies dir
      ensures dir.Valid() && Follows(d0, dir.disk, now)
      ensures Steps(old(dir.points), dir.points, d0, now, full)
      ensures dir.disk == old(dir.disk) || dir.disk == Unlinked(old(dir.disk), b)
      ensures Lost(dir.disk) == Lost(old(dir.disk))
      ensures ok ==> b in dir.disk.backups ==> dir.disk.backups[b] != inode
    {
      var info := dir.StatBackup(b);
      if !info.Found? { return false; }
      if info.inode == inode {
        RemoveAliasFollows(d0, dir.disk, b, now, full);
        var removed := dir.RemoveBackup(b);
        if !removed { return false; }
      }
      ok := true;
    }

    /** Opens the active file; it may be created even when the open is then given up. */
    method OpenActive(ghost d0: Disk, ghost now: int, ghost full: bool) returns (ok: bool)
      requires Valid() && file.None? && pending.None? && Follows(d0, dir.disk, now)
      modifies this`file, this`size, this`missed, dir
      ensures Valid() && ok == file.Some? && Follows(d0, dir.disk, now)
      ensures Steps(old(dir.points), dir.points, d0, now, full)
      ensures Written(dir.disk) == Written(old(dir.disk)) && dir.disk.backups == old(dir.disk).backups
      ensures Lost(dir.disk) == Lost(old(dir.disk))
      ensures ok && old(dir.disk).active.None? ==> size == 0
      ensures ok ==> size == ActiveSize(old(dir.disk))
      ensures dir.disk == old(dir.disk) || dir.disk == Created(old(dir.disk))
      ensures ok ==> dir.disk == Created(old(dir.disk))
    {
      CreateFollows(d0, dir.disk, now, full);
      ghost var before := dir.disk;
      var f := dir.OpenActive();
      if f.None? { return false; }
      var statFails: bool := *;
      if statFails { return false; }
      file := f;
      size := Size(dir.disk.data[f.value]);
      missed := 0;
      if before.active.None? { assert dir.disk.data[f.value] == []; }
      ok := true;
    }

    /** Clears a remembered alias and opens the writer again. */
    method EnsureAvailable(ghost d0: Disk, ghost now: int, ghost full: bool) returns (ok: bool)
      requires Valid() && file.None? && Follows(d0, dir.disk, now)
      modifies this, dir
      ensures Valid() && ok == file.Some? && Follows(d0, dir.disk, now)
      ensures Steps(old(dir.points), dir.points, d0, now, full)
      ensures Written(dir.disk) == Written(old(dir.disk)) && Lost(dir.disk) == Lost(old(dir.disk))
      ensures dir.disk.backups.Keys <= old(dir.disk).backups.Keys
      ensures ok ==> dir.disk.backups.Keys == Proper(old(dir.disk)) && size == ActiveSize(old(dir.disk))
    {
      if pending.Some? {
        RemoveAliasFollows(d0, dir.disk, pending.value, now, full);
        var removed := dir.RemoveBackup(pending.value);
        if !removed { return false; }
        pending := None;
      }
      ok := OpenActive(d0, now, full);
    }

    /** The first free name for a rotation at `now`. */
    method SelectBackupName(now: int) returns (r: Option<BackupName>)
      ensures r.Some? ==> r.value.Current? && r.value.stamp == now && r.value !in dir.disk.backups
      ensures r.Some? ==> forall k: nat :: k < r.value.ordinal ==> Current(now, k) in dir.disk.backups
    {
      var ordinal: nat := 0;
      while ordinal <= MAX_ORDINAL
        invariant forall k: nat :: k < ordinal ==> Current(now, k) in dir.disk.backups
      {
        var candidate := Current(now, ordinal);
        var info := dir.StatBackup(candidate);
        if info == Missing { return Some(candidate); }
        if info == Failed { return None; }
        ordinal := ordinal + 1;
      }
      r := None;
    }

    /** Rotates: the active file gets a backup name, loses its own, and a new one is opened.  On
        any failure the writer is reopened, or the alias is remembered. */
    method Rotate(now: int, ghost d0: Disk, ghost full: bool) returns (err: Option<string>)
      requires Valid() && file.Some? && Follows(d0, dir.disk, now)
      requires dir.disk.backups.Keys <= d0.backups.Keys && (full ==> ActiveSize(dir.disk) >= MAX_SIZE)
      modifies this, dir
      ensures Valid() && Follows(d0, dir.disk, now)
      ensures Steps(old(dir.points), dir.points, d0, now, full)
      ensures Written(dir.disk) == Written(old(dir.disk))
      ensures |old(dir.disk).backups| < MAX_BACKUPS ==> Lost(dir.disk) == Lost(old(dir.disk))
      ensures err.None? ==> file.Some? && size == 0 && Rotated(old(dir.disk), dir.disk, now)
    {
      var closed := dir.Close();
      file, size := None, 0;
      if !closed {
        var _ := OpenActive(d0, now, full);
        return Some("close-active");
      }
      var candidate := SelectBackupName(now);
      if candidate.None? {
        var _ := OpenActive(d0, now, full);
        return Some("select-backup");
      }
      err := RotateTo(candidate.value, d0, now, full);
    }

    /** A rotation to a name that is free. */
    method RotateTo(b: BackupName, ghost d0: Disk, ghost now: int, ghost full: bool) returns (err: Option<string>)
      requires Valid() && file.None? && pending.None? && dir.disk.active.Some? && Follows(d0, dir.disk, now)
      requires dir.disk.backups.Keys <= d0.backups.Keys && Selected(dir.disk, b, now)
      requires full ==> ActiveSize(dir.disk) >= MAX_SIZE
      modifies this, dir
      ensures Valid() && Follows(d0, dir.disk, now)
      ensures Steps(old(dir.points), dir.points, d0, now, full)
      ensures Written(dir.disk) == Written(old(dir.disk))
      ensures |old(dir.disk).backups| < MAX_BACKUPS ==> Lost(dir.disk) == Lost(old(dir.disk))
      ensures err.None? ==> file.Some? && size == 0 && Rotated(old(dir.disk), dir.disk, now)
    {
      ghost var d := dir.disk;
      err := SwapActive(b, d0, now, full);
      if err.Some? { return; }
      err := PruneOld(d0, now, full);
      RotationEnds(d, b, dir.disk, now);
    }

    /** The link, remove and open of a rotation under a free name. */
    method SwapActive(candidate: BackupName, ghost d0: Disk, ghost now: int, ghost full: bool)
        returns (err: Option<string>)
      requires Valid() && file.None? && pending.None? && dir.disk.active.Some? && Follows(d0, dir.disk, now)
      requires dir.disk.backups.Keys <= d0.backups.Keys && (full ==> ActiveSize(dir.disk) >= MAX_SIZE)
      requires candidate.Current? && candidate.stamp == now && candidate !in dir.disk.backups
      modifies this, dir
      ensures Valid() && Follows(d0, dir.disk, now)
      ensures Steps(old(dir.points), dir.points, d0, now, full)
      ensures Written(dir.disk) == Written(old(dir.disk)) && Lost(dir.disk) == Lost(old(dir.disk))
      ensures err.None? ==> file.Some? && size == 0 && dir.disk == Moved(old(dir.disk), candidate)
    {
      err := MoveAside(candidate, d0, now, full);
      if err.Some? { return; }
      var replaced := OpenActive(d0, now, full);
      if !replaced {
        var _ := OpenActive(d0, now, full);
        return Some("open-replacement");
      }
    }

    /** The file moves from its active name to the backup name. */
    method MoveAside(candidate: BackupName, ghost d0: Disk, ghost now: int, ghost full: bool)
        returns (err: Option<string>)
      requires Valid() && file.None? && pending.None? && dir.disk.active.Some? && Follows(d0, dir.disk, now)
      requires dir.disk.backups.Keys <= d0.backups.Keys && (full ==> ActiveSize(dir.disk) >= MAX_SIZE)
      requires candidate.Current? && candidate.stamp == now && candidate !in dir.disk.backups
      modifies this, dir
      ensures Valid() && Follows(d0, dir.disk, now)
      ensures Steps(old(dir.points), dir.points, d0, now, full)
      ensures Written(dir.disk) == Written(old(dir.disk)) && Lost(dir.disk) == Lost(old(dir.disk))
      ensures err.None? ==> file.None? && pending.None?
      ensures err.None? ==> dir.disk == Linked(old(dir.disk), candidate).(active := None)
    {
      LinkFollows(d0, dir.disk, candidate, now, full);
      var linked := dir.Link(candidate);
      if !linked {
        var _ := OpenActive(d0, now, full);
        return Some("link-backup");
      }
      pending := Some(candidate);
      err := DropActive(d0, now, full);
    }

    /** Removes the active name of a file that has its backup name already; if that fails the
        backup name is taken back, and if that fails too it stays remembered. */
    method DropActive(ghost d0: Disk, ghost now: int, ghost full: bool) returns (err: Option<string>)
      requires Valid() && file.None? && pending.Some? && Follows(d0, dir.disk, now)
      modifies this, dir
      ensures Valid() && Follows(d0, dir.disk, now)
      ensures Steps(old(dir.points), dir.points, d0, now, full)
      ensures Written(dir.disk) == Written(old(dir.disk)) && Lost(dir.disk) == Lost(old(dir.disk))
      ensures err.None? ==> file.None? && pending.None?
      ensures err.None? ==> dir.disk == old(dir.disk).(active := None)
    {
      RemoveActiveFollows(d0, dir.disk, now, full);
      var removed := dir.RemoveActive();
      if removed {
        pending := None;
        return None;
      }
      TakeBack(d0, now, full);
      err := Some("remove-active");
    }

    method TakeBack(ghost d0: Disk, ghost now: int, ghost full: bool)
      requires Valid() && file.None? && pending.Some? && dir.disk.active.Some? && Follows(d0, dir.disk, now)
      modifies this, dir
      ensures Valid() && Follows(d0, dir.disk, now)
      ensures Steps(old(dir.points), dir.points, d0, now, full)
      ensures Written(dir.disk) == Written(old(dir.disk)) && Lost(dir.disk) == Lost(old(dir.disk))
    {
      RemoveAliasFollows(d0, dir.disk, pending.value, now, full);
      var undone := dir.RemoveBackup(pending.value);
      if undone {
        pending := None;
        var _ := OpenActive(d0, now, full);
      }
    }

    /** Removes the oldest backups beyond the ones kept: after success exactly the newest remain. */
    method PruneOld(ghost d0: Disk, ghost now: int, ghost full: bool) returns (err: Option<string>)
      requires Valid() && file.Some? && Follows(d0, dir.disk, now)
      modifies dir
      ensures Valid() && Follows(d0, dir.disk, now)
      ensures Steps(old(dir.points), dir.points, d0, now, full)
      ensures Pruned(old(dir.disk), dir.disk)
      ensures |old(dir.disk).backups| <= MAX_BACKUPS ==> dir.disk == old(dir.disk)
      ensures err.None? ==> |dir.disk.backups| == Min(MAX_BACKUPS, |old(dir.disk).backups|)
    {
      var entries := dir.ReadDir();
      if entries.None? { return Some("list-backups"); }
      var inspect: bool := *;
      if inspect { return Some("inspect-backup"); } // a stat of one of them failed
      var sorted := Sort(entries.value);
      AtMostLength(sorted, dir.disk.backups.Keys);
      AscendingDistinct(sorted, dir.disk.backups.Keys);
      if |sorted| <= MAX_BACKUPS { return None; }
      var ok := RemoveOldest(sorted, |sorted| - MAX_BACKUPS, d0, now, full);
      err := if ok then None else Some("prune-backup");
    }

    method RemoveOldest(sorted: seq<BackupName>, count: nat, ghost d0: Disk, ghost now: int, ghost full: bool)
        returns (ok: bool)
      requires Valid() && file.Some? && Follows(d0, dir.disk, now)
      requires Lists(sorted, dir.disk) && |sorted| == |dir.disk.backups| && count + MAX_BACKUPS == |sorted|
      modifies dir
      ensures Valid() && Follows(d0, dir.disk, now)
      ensures Steps(old(dir.points), dir.points, d0, now, full)
      ensures Pruned(old(dir.disk), dir.disk)
      ensures ok ==> |dir.disk.backups| == MAX_BACKUPS
    {
      ghost var first := dir.disk;
      var k := RemoveUpTo(sorted, count, d0, now, full);
      FirstGone(first, sorted, k);
      SuffixIsNewest(sorted, k, first.backups.Keys, dir.disk.backups.Keys);
      ok := k == count;
    }

    /** The loop; `k` names have gone. */
    method RemoveUpTo(sorted: seq<BackupName>, count: nat, ghost d0: Disk, ghost now: int, ghost full: bool)
        returns (k: nat)
      requires Valid() && file.Some? && Follows(d0, dir.disk, now)
      requires Lists(sorted, dir.disk) && |sorted| == |dir.disk.backups| && count + MAX_BACKUPS == |sorted|
      modifies dir
      ensures Valid() && Follows(d0, dir.disk, now)
      ensures Steps(old(dir.points), dir.points, d0, now, full)
      ensures k <= count && dir.disk == WithoutFirst(old(dir.disk), sorted, k)
    {
      k := 0;
      ghost var first := dir.disk;
      while k < count
        invariant 0 <= k <= count && dir.disk == WithoutFirst(first, sorted, k)
        invariant Valid() && Follows(d0, dir.disk, now)
        invariant Steps(old(dir.points), dir.points, d0, now, full)
      {
        var removed := RemoveHead(sorted, k, first, d0, now, full);
        if !removed { return; }
        k := k + 1;
      }
    }

    method RemoveHead(sorted: seq<BackupName>, k: nat, ghost first: Disk, ghost d0: Disk, ghost now: int,
        ghost full: bool)
      returns (ok: bool)
      requires Valid() && file.Some? && Follows(d0, dir.disk, now)
      requires Lists(sorted, first) && |sorted| == |first.backups| && k + MAX_BACKUPS < |sorted|
      requires dir.disk == WithoutFirst(first, sorted, k)
      modifies dir
      ensures Valid() && Follows(d0, dir.disk, now)
      ensures Steps(old(dir.points), dir.points, d0, now, full)
      ensures dir.disk == if ok then WithoutFirst(first, sorted, k + 1) else old(dir.disk)
    {
      HeadGoes(d0, first, sorted, k, now, full);
      ok := dir.RemoveBackup(sorted[k]);
    }

    /** What the writer counts, or will when it is opened. */
    ghost function Counted(): nat
      reads this, dir
    {
      if file.Some? then size else ActiveSize(dir.disk)
    }

    /** Logs one event.  It is reported persisted exactly when its whole line was appended, and
        whatever fails, and wherever the process stops, the disk keeps following from the one
        the call started with. */
    method Log(line: string, now: int) returns (o: Outcome, ghost rotated: bool)
      requires Valid()
      modifies this, dir
      ensures Valid() && Follows(old(dir.disk), dir.disk, now)
      ensures Steps(old(dir.points), dir.points, old(dir.disk), now, true)
      ensures o.persisted ==> o.eventErr.None? && Written(dir.disk) == Written(old(dir.disk)) + [Event(line)]
      ensures !o.persisted ==>
        o.eventErr.Some? && o.maintenanceErr.None? && Failure(Written(old(dir.disk)), Written(dir.disk), line)
      ensures o.persisted && o.maintenanceErr.None? ==> file.Some? && size < MAX_SIZE
      ensures rotated && o.maintenanceErr.None? ==> |dir.disk.backups| == Min(MAX_BACKUPS, |Proper(old(dir.disk))| + 1)
      ensures !rotated ==> o.maintenanceErr.None? && dir.disk.backups.Keys <= old(dir.disk).backups.Keys
      ensures !(rotated && |Proper(old(dir.disk))| >= MAX_BACKUPS) ==> Lost(dir.disk) == Lost(old(dir.disk))
      ensures rotated <==> o.persisted && old(Counted()) + |line| >= MAX_SIZE
      ensures !rotated && old(file).Some? ==> file == old(file) && size == old(size) + if o.persisted then |line| else 0
    {
      ghost var d0 := dir.disk;
      rotated := false;
      FollowsItself(d0, now);
      if file.None? {
        var available := EnsureAvailable(d0, now, true);
        if !available { return Outcome(false, Some("unavailable-writer"), None), false; }
      }
      assert dir.disk.backups.Keys == Proper(d0);
      o, rotated := LogOpen(line, now, d0, true);
    }

    /** Logs to the open writer, and rotates when the file is full. */
    method LogOpen(line: string, now: int, ghost d0: Disk, ghost full: bool) returns (o: Outcome, ghost rotated: bool)
      requires Valid() && file.Some? && Follows(d0, dir.disk, now) && dir.disk.backups.Keys <= d0.backups.Keys
      modifies this, dir
      ensures Valid() && Follows(d0, dir.disk, now)
      ensures Steps(old(dir.points), dir.points, d0, now, full)
      ensures o.persisted ==> o.eventErr.None? && Written(dir.disk) == Written(old(dir.disk)) + [Event(line)]
      ensures !o.persisted ==>
        o.eventErr.Some? && o.maintenanceErr.None? && Failure(Written(old(dir.disk)), Written(dir.disk), line)
      ensures o.persisted && o.maintenanceErr.None? ==> file.Some? && size < MAX_SIZE
      ensures rotated && o.maintenanceErr.None? ==> |dir.disk.backups| == Min(MAX_BACKUPS, |old(dir.disk).backups| + 1)
      ensures !rotated ==> o.maintenanceErr.None? && dir.disk.backups == old(dir.disk).backups
      ensures !(rotated && |old(dir.disk).backups| >= MAX_BACKUPS) ==> Lost(dir.disk) == Lost(old(dir.disk))
      ensures rotated <==> o.persisted && old(size) + |line| >= MAX_SIZE
      ensures !rotated ==> file == old(file) && size == old(size) + if o.persisted then |line| else 0
    {
      rotated := false;
      var ok := WriteLine(line, d0, now, full);
      if !ok { return Outcome(false, Some("write"), None), false; }
      if size >= MAX_SIZE {
        var err := Rotate(now, d0, full);
        return Outcome(true, None, err), true;
      }
      o := Outcome(true, None, None);
    }

    method WriteLine(line: string, ghost d0: Disk, ghost now: int, ghost full: bool) returns (ok: bool)
      requires Valid() && file.Some? && Follows(d0, dir.disk, now)
      modifies this`size, this`missed, dir
      ensures Valid() && Follows(d0, dir.disk, now)
      ensures Steps(old(dir.points), dir.points, d0, now, full)
      ensures dir.disk.backups == old(dir.disk).backups && Lost(dir.disk) == Lost(old(dir.disk))
      ensures ok ==> Written(dir.disk) == Written(old(dir.disk)) + [Event(line)] && size == old(size) + |line|
      ensures !ok ==> Failure(Written(old(dir.disk)), Written(dir.disk), line) && size == old(size)
    {
      ghost var d := dir.disk;
      var n, written := dir.Write(file.value, line);
      if !written || n != |line| {
        TornWrite(d0, d, file.value, line, dir.disk, now, full);
        missed := ActiveSize(dir.disk) - size;
        return false;
      }
      AppendsOne(d0, d, file.value, Event(line), now, full);
      size := size + n;
      ok := true;
    }

    method Close() returns (ok: bool)
      requires Valid()
      modifies this
      ensures Valid() && file.None? && pending == old(pending)
    {
      ok := true;
      if file.Some? {
        ok := dir.Close();
        file, size := None, 0;
      }
    }
  }

  /** What appending to the active file does. */
  ghost predicate Appends(d0: Disk, d: Disk, i: nat, c: Chunk, now: int, full: bool)
    requires i < |d.data|
  {
    var d1 := Appended(d, i, c);
    && IsStep(Point(d, d1), d0, now, full) && Written(d1) == Written(d) + [c] && Lost(d1) == Lost(d)
    && ActiveSize(d1) == ActiveSize(d) + Length(c)
  }

  lemma {:induction false} AppendsOne(d0: Disk, d: Disk, i: nat, c: Chunk, now: int, full: bool)
    requires Follows(d0, d, now) && d.active == Some(i)
    ensures i < |d.data| && Appends(d0, d, i, c, now, full)
  {
    AppendFollows(d0, d, i, c, now, full);
    AppendSize(d, i, c);
  }

  /** What a write leaves that failed. */
  lemma {:induction false} TornWrite(d0: Disk, d: Disk, i: nat, line: string, d1: Disk, now: int, full: bool)
    requires Follows(d0, d, now) && d.active == Some(i) && i < |d.data|
    requires d1 == d || exists part: string :: part <= line && d1 == Appended(d, i, Torn(part))
    ensures IsStep(Point(d, d1), d0, now, full) && Failure(Written(d), Written(d1), line) && Lost(d1) == Lost(d)
    ensures ActiveSize(d) <= ActiveSize(d1) && d1.active == d.active && d1.backups == d.backups
  {
    if d1 == d {
      StaysStep(d0, d, now, full);
    } else {
      var part: string :| part <= line && d1 == Appended(d, i, Torn(part));
      AppendsOne(d0, d, i, Torn(part), now, full);
    }
  }

  function Min(a: nat, b: nat): nat { if a < b then a else b }

  /** Only backup names may have gone. */
  ghost predicate SameButBackups(before: Disk, after: Disk) {
    && after == before.(backups := after.backups)
    && forall b :: b in after.backups ==> b in before.backups && after.backups[b] == before.backups[b]
  }

  /** The newest backups are left, at least as many as are kept. */
  ghost predicate Pruned(before: Disk, after: Disk) {
    && SameButBackups(before, after) && Newest(before.backups.Keys, after.backups.Keys)
    && |after.backups| >= Min(MAX_BACKUPS, |before.backups|)
  }

  /** The first free name at a reading. */
  ghost predicate Selected(d: Disk, b: BackupName, now: int) {
    && b.Current? && b.stamp == now && b !in d.backups
    && forall k: nat :: k < b.ordinal ==> Current(now, k) in d.backups
  }

  /** The active file under the backup name, and an empty one in its place. */
  function Moved(d: Disk, b: BackupName): Disk
    requires d.active.Some?
  {
    Created(Linked(d, b).(active := None))
  }

  lemma {:induction false} MovedSize(d: Disk, b: BackupName)
    requires d.active.Some? && b !in d.backups
    ensures |Moved(d, b).backups| == |d.backups| + 1
  {
    assert Moved(d, b).backups.Keys == d.backups.Keys + {b};
  }

  /** A whole rotation: the file moved to the selected name, and the newest backups are left. */
  ghost predicate Rotated(d: Disk, r: Disk, now: int) {
    && d.active.Some? && |r.backups| == Min(MAX_BACKUPS, |d.backups| + 1)
    && exists b :: Selected(d, b, now) && Pruned(Moved(d, b), r)
  }

  lemma {:induction false} RotationEnds(d: Disk, b: BackupName, r: Disk, now: int)
    requires d.active.Some? && Selected(d, b, now) && Pruned(Moved(d, b), r) && Lost(Moved(d, b)) == Lost(d)
    requires |Moved(d, b).backups| <= MAX_BACKUPS ==> r == Moved(d, b)
    ensures |d.backups| < MAX_BACKUPS ==> Lost(r) == Lost(d)
    ensures |r.backups| == Min(MAX_BACKUPS, |Moved(d, b).backups|) ==> Rotated(d, r, now)
  {
    MovedSize(d, b);
  }

  lemma {:induction false} RotatedTo(d: Disk, b: BackupName, r: Disk, now: int)
    requires d.active.Some? && Selected(d, b, now) && Pruned(Moved(d, b), r)
    requires |r.backups| == Min(MAX_BACKUPS, |d.backups| + 1)
    ensures Rotated(d, r, now)
  {}

  /** What is kept of `before` sorts after everything that went. */
  ghost predicate Newest(before: set<BackupName>, kept: set<BackupName>) {
    kept <= before && forall b, c :: b in before && b !in kept && c in kept ==> Less(b, c)
  }

  lemma {:induction false} HeadIsLeast(sorted: seq<BackupName>, k: nat)
    requires Ascending(sorted) && k < |sorted|
    ensures sorted[k] in sorted[k..]
    ensures forall b :: b in sorted[k..] && b != sorted[k] ==> Less(sorted[k], b)
    ensures forall b :: b in sorted[k + 1..] <==> b in sorted[k..] && b != sorted[k]
  {
    assert sorted[k..] == [sorted[k]] + sorted[k + 1..];
    StrictlyAscending(sorted, k);
    forall b | b in sorted[k..] && b != sorted[k] ensures Less(sorted[k], b) {
      var j :| k < j < |sorted| && sorted[j] == b;
    }
  }

  /** The backups on the disk are those from the k-th on. */
  ghost predicate Left(d: Disk, sorted: seq<BackupName>, k: nat)
    requires k <= |sorted|
  {
    forall b :: b in d.backups <==> b in sorted[k..]
  }

  lemma {:induction false} HeadLeft(d: Disk, sorted: seq<BackupName>, k: nat)
    requires Ascending(sorted) && k < |sorted| && Left(d, sorted, k)
    ensures Oldest(d, sorted[k])
    ensures Left(Unlinked(d, sorted[k]), sorted, k + 1)
  {
    HeadIsLeast(sorted, k);
  }

  lemma {:induction false} HeadPrunes(d0: Disk, d: Disk, sorted: seq<BackupName>, k: nat, now: int, full: bool)
    requires Ascending(sorted) && k < |sorted| && Left(d, sorted, k)
    requires Follows(d0, d, now) && !Aliased(d) && d.active.Some? && |d.backups| > MAX_BACKUPS
    ensures IsStep(Point(d, d), d0, now, full) && IsStep(Point(d, Unlinked(d, sorted[k])), d0, now, full)
    ensures Left(Unlinked(d, sorted[k]), sorted, k + 1) && |Unlinked(d, sorted[k]).backups| == |d.backups| - 1
  {
    HeadLeft(d, sorted, k);
    PruneFollows(d0, d, sorted[k], now, full);
  }

  lemma {:induction false} HeadGoes(d0: Disk, first: Disk, sorted: seq<BackupName>, k: nat, now: int, full: bool)
    requires Lists(sorted, first) && |sorted| == |first.backups| && k + MAX_BACKUPS < |sorted|
    requires var d := WithoutFirst(first, sorted, k); Follows(d0, d, now) && !Aliased(d) && d.active.Some?
    ensures var d := WithoutFirst(first, sorted, k); var d1 := WithoutFirst(first, sorted, k + 1);
      && IsStep(Point(d, d), d0, now, full) && IsStep(Point(d, d1), d0, now, full)
      && d1 == Unlinked(d, sorted[k]) && !Aliased(d1) && d1.active == d.active && ActiveSize(d1) == ActiveSize(d)
  {
    FirstGone(first, sorted, k);
    HeadPrunes(d0, WithoutFirst(first, sorted, k), sorted, k, now, full);
  }

  /** The names of the backups in order. */
  ghost predicate Lists(sorted: seq<BackupName>, d: Disk) {
    Ascending(sorted) && forall b :: b in sorted <==> b in d.backups
  }

  /** The disk without the first `k` of these names. */
  function WithoutFirst(d: Disk, sorted: seq<BackupName>, k: nat): Disk
    requires k <= |sorted|
  {
    if k == 0 then d else Unlinked(WithoutFirst(d, sorted, k - 1), sorted[k - 1])
  }

  lemma {:induction false} FirstGone(d: Disk, sorted: seq<BackupName>, k: nat)
    requires Lists(sorted, d) && |sorted| == |d.backups| && k <= |sorted|
    ensures var r := WithoutFirst(d, sorted, k);
      SameButBackups(d, r) && Left(r, sorted, k) && |r.backups| + k == |sorted|
  {
    if k == 0 {
      assert sorted[0..] == sorted;
    } else {
      var r := WithoutFirst(d, sorted, k - 1);
      FirstGone(d, sorted, k - 1);
      HeadLeft(r, sorted, k - 1);
      assert Unlinked(r, sorted[k - 1]).backups.Keys == r.backups.Keys - {sorted[k - 1]};
    }
  }

  lemma {:induction false} SuffixIsNewest(sorted: seq<BackupName>, k: nat, before: set<BackupName>,
      kept: set<BackupName>)
    requires Ascending(sorted) && k <= |sorted|
    requires forall b :: b in sorted <==> b in before
    requires forall b :: b in kept <==> b in sorted[k..]
    ensures Newest(before, kept)
  {
    forall b, c | b in before && b !in kept && c in kept ensures Less(b, c) {
      var i :| 0 <= i < |sorted| && sorted[i] == b;
      var j :| 0 <= j < |sorted[k..]| && sorted[k..][j] == c;
    }
  }

  function Size(chunks: seq<Chunk>): nat {
    if chunks == [] then 0
    else
      var last := chunks[|chunks| - 1];
      Size(chunks[..|chunks| - 1]) + Length(last)
  }

  function Length(c: Chunk): nat { if c.Event? then |c.line| else |c.part| }

  lemma {:induction false} AppendSize(d: Disk, i: nat, c: Chunk)
    requires i < |d.data| && d.active == Some(i)
    ensures ActiveSize(Appended(d, i, c)) == ActiveSize(d) + Length(c)
  {
    assert (d.data[i] + [c])[..|d.data[i]|] == d.data[i];
  }

  /** What a call that did not persist its event may have written. */
  ghost predicate Failure(before: seq<Chunk>, after: seq<Chunk>, line: string) {
    after == before || exists part: string :: part <= line && after == before + [Torn(part)]
  }

  lemma {:induction false} SubsetCard(a: set<BackupName>, b: set<BackupName>)
    requires a <= b
    ensures |a| <= |b|
  {
    if a != {} {
      var x :| x in a;
      SubsetCard(a - {x}, b - {x});
    }
  }

  lemma {:induction false} StrictlyAscending(names: seq<BackupName>, k: nat)
    requires Ascending(names) && k < |names|
    ensures names[k] !in names[k + 1..]
  {
    if names[k] in names[k + 1..] {
      var j :| k < j < |names| && names[j] == names[k];
      LessTotal(names[k], names[j]);
    }
  }

  lemma {:induction false} AscendingDistinct(names: seq<BackupName>, all: set<BackupName>)
    requires Ascending(names) && forall b :: b in names ==> b in all
    ensures |names| <= |all|
  {
    if names != [] {
      StrictlyAscending(names, 0);
      assert names == [names[0]] + names[1..];
      AscendingDistinct(names[1..], all - {names[0]});
    }
  }

  // ---------- Whole lives of the log ----------

  datatype Action = Start | Log(line: string) | Stop

  /** One action of the process at a clock reading; the process may stop after some of the
      action's calls, and nobody hears how the action ended. */
  datatype Op = Op(action: Action, time: int, crash: Option<nat>)

  /** The readings are strictly increasing and later than every backup on the disk. */
  ghost predicate Ticking(d: Disk, ops: seq<Op>) {
    && (ops != [] ==> Before(d, ops[0].time))
    && forall i, j :: 0 <= i < j < |ops| ==> ops[i].time < ops[j].time
  }

  /** The lines are events among the chunks, in this order. */
  ghost predicate Recorded(lines: seq<string>, chunks: seq<Chunk>)
    decreases |chunks|
  {
    if lines == [] then true
    else if chunks == [] then false
    else
      var rest := chunks[..|chunks| - 1];
      || Recorded(lines, rest)
      || (chunks[|chunks| - 1] == Event(lines[|lines| - 1]) && Recorded(lines[..|lines| - 1], rest))
  }

  lemma {:induction false} RecordedGrows(lines: seq<string>, a: seq<Chunk>, b: seq<Chunk>)
    requires Recorded(lines, a) && a <= b
    ensures Recorded(lines, b)
    decreases |b|
  {
    if |a| < |b| {
      RecordedGrows(lines, a, b[..|b| - 1]);
    } else {
      assert a == b;
    }
  }

  lemma {:induction false} RecordedAppend(lines: seq<string>, line: string, a: seq<Chunk>)
    requires Recorded(lines, a)
    ensures Recorded(lines + [line], a + [Event(line)])
  {
    assert (lines + [line])[..|lines|] == lines;
    assert (a + [Event(line)])[..|a|] == a;
  }

  /** What was written since the start. */
  ghost function Since(d0: Disk, d: Disk): seq<Chunk> {
    if |Written(d0)| <= |Written(d)| then Written(d)[|Written(d0)|..] else []
  }

  /** What a disk of a life keeps of the start and of the lines reported persisted by then. */
  ghost predicate Keeps(d0: Disk, d: Disk, lines: seq<string>) {
    && Sound(d) && Written(d0) <= Written(d) && Preserves(d0, d) && Retains(d0, d)
    && (NewestThere(d0) ==> NewestThere(d)) && Recorded(lines, Since(d0, d))
  }

  lemma {:induction false} KeepsFollows(d0: Disk, d: Disk, p: Disk, lines: seq<string>, now: int)
    requires Keeps(d0, d, lines) && Follows(d, p, now)
    ensures Keeps(d0, p, lines)
  {
    RetainsTransitive(d0, d, p);
    PreservesTransitive(d0, d, p);
    assert Since(d0, d) <= Since(d0, p);
    RecordedGrows(lines, Since(d0, d), Since(d0, p));
  }

  lemma {:induction false} KeepsLine(d0: Disk, d: Disk, p: Disk, lines: seq<string>, line: string)
    requires Keeps(d0, d, lines) && Keeps(d0, p, lines) && Written(p) == Written(d) + [Event(line)]
    ensures Keeps(d0, p, lines + [line])
  {
    assert Since(d0, p) == Since(d0, d) + [Event(line)];
    RecordedAppend(lines, line, Since(d0, d));
  }

  /** Every disk of a life, each with the lines reported persisted before it; every call is legal. */
  ghost predicate Lived(d0: Disk, points: seq<Point>, lines: seq<string>, reported: seq<nat>) {
    && |reported| == |points| && AllLegal(points)
    && forall k :: 0 <= k < |points| ==> reported[k] <= |lines| && Keeps(d0, points[k].disk, lines[..reported[k]])
  }

  ghost predicate AllLegal(points: seq<Point>) {
    forall k :: 0 <= k < |points| ==> IsLegal(points[k])
  }

  ghost predicate IsLegal(p: Point) { Legal(p.was, p.disk) && LinksFull(p.was, p.disk) }

  /** Every disk of every life, over any actions, failing calls, stops at any call and restarts: it
      is sound and keeps everything written at the start and, in order, every line that was reported
      persisted before; every file keeps its contents, and the newest stays readable; no file is lost
      before a disk had more than five backups, and afterwards only while at least five backups of other
      files remain, each time the oldest of more; only full files get backup names;
        a running service never has a writer open on a file a
      backup name shares; and with a ticking clock the readable log is always in order. */
  method Lifetime(dir: Directory, ops: seq<Op>)
      returns (s: Service?, ghost lines: seq<string>, ghost reported: seq<nat>)
    requires dir.Valid() && dir.points == [Point(dir.disk, dir.disk)] && Sound(dir.disk)
    modifies dir
    ensures Lived(old(dir.disk), dir.points, lines, reported) && Keeps(old(dir.disk), dir.disk, lines)
    ensures s != null ==> s.dir == dir && s.Valid()
    ensures InOrder(old(dir.disk)) && Ticking(old(dir.disk), ops) ==> AllInOrder(dir.points, None)
    ensures dir.Valid() && dir.points[0].disk == old(dir.disk) && Spared(old(dir.disk), dir.points)
    ensures AllFull(old(dir.disk), dir.points)
  {
    s := null;
    ghost var d0 := dir.disk;
    ghost var ordered := InOrder(d0) && Ticking(d0, ops);
    lines, reported := [], [0];
    LifeBegins(d0);
    for i := 0 to |ops|
      invariant dir.Valid() && dir.points[0].disk == d0
      invariant Lived(d0, dir.points, lines, reported) && Keeps(d0, dir.disk, lines)
      invariant s != null ==> fresh(s) && s.dir == dir && s.Valid()
      invariant ordered ==> AllInOrder(dir.points, if i < |ops| then Some(ops[i].time) else None)
    {
      ghost var next := if i + 1 < |ops| then Some(ops[i + 1].time) else None;
      s, lines, reported := Live(dir, s, ops[i], d0, lines, reported, ordered, next);
    }
    AllSpared(dir.points);
    FullEverywhere(dir.points);
  }

  lemma {:induction false} LifeBegins(d0: Disk)
    requires Sound(d0)
    ensures Lived(d0, [Point(d0, d0)], [], [0]) && Keeps(d0, d0, [])
  {
    var lines: seq<string> := [];
    assert lines[..0] == lines;
  }

  /** One action of a life. */
  method Live(dir: Directory, service: Service?, op: Op, ghost d0: Disk, ghost before: seq<string>,
      ghost counts: seq<nat>, ghost ordered: bool, ghost next: Option<int>)
    returns (s: Service?, ghost lines: seq<string>, ghost reported: seq<nat>)
    requires dir.Valid() && (service != null ==> service.dir == dir && service.Valid())
    requires Lived(d0, dir.points, before, counts) && Keeps(d0, dir.disk, before)
    requires ordered ==> AllInOrder(dir.points, Some(op.time))
    requires next.Some? && ordered ==> op.time < next.value
    modifies dir, service
    ensures dir.Valid() && (s != null ==> (s == service || fresh(s)) && s.dir == dir && s.Valid())
    ensures dir.points[0] == old(dir.points)[0]
    ensures Lived(d0, dir.points, lines, reported) && Keeps(d0, dir.disk, lines)
    ensures ordered ==> AllInOrder(dir.points, next)
  {
    var start := |dir.points|;
    ghost var points, d := dir.points, dir.disk;
    ghost var line;
    assert points != [] && d == points[|points| - 1].disk && Sound(d);
    s, line := Act(dir, service, op);
    reported := Extended(d0, points, dir.points, d, before, counts, op.time, ordered, next);
    s, lines, reported := End(dir, s, start, op.crash, d0, d, before, line, reported, ordered, next);
  }

  /** The history after an action. */
  lemma {:induction false} Extended(d0: Disk, points: seq<Point>, after: seq<Point>, d: Disk, lines: seq<string>,
      counts: seq<nat>, now: int, ordered: bool, next: Option<int>)
    returns (reported: seq<nat>)
    requires points != [] && d == points[|points| - 1].disk && Keeps(d0, d, lines)
    requires Steps(points, after, d, now, true) && Lived(d0, points, lines, counts)
    requires ordered ==> AllInOrder(points, Some(now))
    requires next.Some? && ordered ==> now < next.value
    ensures Lived(d0, after, lines, reported) && AllKeep(d0, after, |points| - 1, lines)
    ensures ordered ==> AllInOrder(after, next)
  {
    PointsFollow(points, after, d, now, ordered, next);
    PointsKeep(d0, points, after, d, lines, counts, now);
    reported := counts + Repeated(|lines|, |after| - |points|);
  }

  /** From a place on, every disk keeps the same lines. */
  ghost predicate AllKeep(d0: Disk, points: seq<Point>, start: nat, lines: seq<string>) {
    forall k :: start <= k < |points| ==> Keeps(d0, points[k].disk, lines)
  }

  /** How an action ends: with its report, or after one of its calls without. */
  method End(dir: Directory, service: Service?, start: nat, crash: Option<nat>, ghost d0: Disk, ghost d: Disk,
      ghost before: seq<string>, ghost line: Option<string>, ghost counts: seq<nat>, ghost ordered: bool,
      ghost next: Option<int>)
    returns (s: Service?, ghost lines: seq<string>, ghost reported: seq<nat>)
    requires service != null ==> service.dir == dir && service.Valid()
    requires dir.Valid() && 1 <= start <= |dir.points| && Lived(d0, dir.points, before, counts) && Keeps(d0, d, before)
    requires AllKeep(d0, dir.points, start - 1, before)
    requires line.Some? ==> Written(dir.disk) == Written(d) + [Event(line.value)]
    requires ordered ==> AllInOrder(dir.points, next)
    modifies dir
    ensures dir.Valid() && (s != null ==> s == service && s.dir == dir && s.Valid())
    ensures dir.points[0] == old(dir.points)[0]
    ensures Lived(d0, dir.points, lines, reported) && Keeps(d0, dir.disk, lines)
    ensures ordered ==> AllInOrder(dir.points, next)
  {
    s, lines, reported := service, before, counts;
    if crash.Some? && start - 1 + crash.value < |dir.points| {
      var at := start - 1 + crash.value;
      PrefixLived(d0, dir.points, before, counts, at + 1, next);
      dir.CrashAt(at);
      s, reported := null, counts[..at + 1];
    } else if line.Some? {
      LivedMore(d0, d, dir.disk, dir.points, before, line.value, counts);
      lines := before + [line.value];
    }
  }

  /** What a shorter history has of a longer one. */
  lemma {:induction false} PrefixLived(d0: Disk, points: seq<Point>, lines: seq<string>, reported: seq<nat>, n: nat,
      next: Option<int>)
    requires Lived(d0, points, lines, reported) && n <= |points|
    ensures Lived(d0, points[..n], lines, reported[..n])
    ensures AllInOrder(points, next) ==> AllInOrder(points[..n], next)
  {}

  method Act(dir: Directory, service: Service?, op: Op) returns (s: Service?, ghost line: Option<string>)
    requires dir.Valid() && Sound(dir.disk) && (service != null ==> service.dir == dir && service.Valid())
    modifies dir, service
    ensures dir.Valid() && Steps(old(dir.points), dir.points, old(dir.disk), op.time, true)
    ensures s != null ==> (s == service || fresh(s)) && s.dir == dir && s.Valid()
    ensures line.Some? ==> Written(dir.disk) == Written(old(dir.disk)) + [Event(line.value)]
  {
    s, line := service, None;
    match op.action {
      case Start =>
        s := Service.New(dir, op.time);
      case Log(text) =>
        if s != null {
          var o, _ := s.Log(text, op.time);
          line := if o.persisted then Some(text) else None;
        }
      case Stop =>
        if s != null { var _ := s.Close(); }
    }
  }

  ghost predicate AllInOrder(points: seq<Point>, next: Option<int>) {
    forall k :: 0 <= k < |points| ==>
      InOrder(points[k].disk) && (next.Some? ==> Before(points[k].disk, next.value))
  }

  lemma {:induction false} PointsFollow(before: seq<Point>, after: seq<Point>, d: Disk, now: int, ordered: bool,
      next: Option<int>)
    requires before != [] && d == before[|before| - 1].disk && Steps(before, after, d, now, true)
    requires ordered ==> AllInOrder(before, Some(now))
    requires next.Some? && ordered ==> now < next.value
    ensures ordered ==> AllInOrder(after, next)
  {
    forall k | 0 <= k < |after| && ordered
      ensures InOrder(after[k].disk) && (next.Some? ==> Before(after[k].disk, next.value))
    {
      if k < |before| { assert before[k] == after[k]; } else { assert IsStep(after[k], d, now, true); }
    }
  }

  function Repeated(x: nat, n: nat): seq<nat> { seq(n, _ => x) }

  lemma {:induction false} PointsKeep(d0: Disk, before: seq<Point>, after: seq<Point>, d: Disk, lines: seq<string>,
      counts: seq<nat>, now: int)
    requires before != [] && d == before[|before| - 1].disk && Keeps(d0, d, lines)
    requires Steps(before, after, d, now, true) && Lived(d0, before, lines, counts)
    ensures Lived(d0, after, lines, counts + Repeated(|lines|, |after| - |before|))
    ensures AllKeep(d0, after, |before| - 1, lines)
  {
    StepsLegal(before, after, d, now);
    StepsKeep(d0, before, after, d, lines, now);
    var reported := counts + Repeated(|lines|, |after| - |before|);
    forall k | 0 <= k < |after|
      ensures reported[k] <= |lines| && Keeps(d0, after[k].disk, lines[..reported[k]])
    {
      if k < |before| { assert after[k] == before[k]; } else { assert lines[..reported[k]] == lines; }
    }
  }

  lemma {:induction false} StepsKeep(d0: Disk, before: seq<Point>, after: seq<Point>, d: Disk, lines: seq<string>,
      now: int)
    requires before != [] && d == before[|before| - 1].disk && Keeps(d0, d, lines) && Steps(before, after, d, now, true)
    ensures AllKeep(d0, after, |before| - 1, lines)
  {
    forall k | |before| <= k < |after| ensures Keeps(d0, after[k].disk, lines) {
      assert IsStep(after[k], d, now, true);
      KeepsFollows(d0, d, after[k].disk, lines, now);
    }
  }

  lemma {:induction false} StepsLegal(before: seq<Point>, after: seq<Point>, d: Disk, now: int)
    requires Steps(before, after, d, now, true) && AllLegal(before)
    ensures AllLegal(after)
  {
    forall k | 0 <= k < |after| ensures IsLegal(after[k]) {
      if k < |before| { assert before[k] == after[k]; } else { assert IsStep(after[k], d, now, true); }
    }
  }

  lemma {:induction false} LivedMore(d0: Disk, d: Disk, p: Disk, points: seq<Point>, lines: seq<string>, line: string,
      reported: seq<nat>)
    requires Lived(d0, points, lines, reported) && Keeps(d0, d, lines) && Keeps(d0, p, lines)
    requires Written(p) == Written(d) + [Event(line)]
    ensures Lived(d0, points, lines + [line], reported) && Keeps(d0, p, lines + [line])
  {
    KeepsLine(d0, d, p, lines, line);
    forall k | 0 <= k < |points| ensures (lines + [line])[..reported[k]] == lines[..reported[k]] {}
  }

  // ---------- What can be read ----------

  /** No disk before the k-th had more backups than are kept: no rotation had found as many. */
  ghost predicate FewUntil(points: seq<Point>, k: nat) {
    forall j :: 0 <= j < k < |points| ==> |points[j].disk.backups| <= MAX_BACKUPS
  }

  /** Until then no file is lost. */
  ghost predicate Spared(d0: Disk, points: seq<Point>) {
    forall k {:trigger FewUntil(points, k)} ::
      0 <= k < |points| && FewUntil(points, k) ==> Lost(points[k].disk) == Lost(d0)
  }

  lemma {:induction false} ChainedAt(points: seq<Point>, k: nat)
    requires Chained(points) && 0 < k < |points|
    ensures points[k].was == points[k - 1].disk
  {
    if k < |points| - 1 { ChainedAt(points[..|points| - 1], k); }
  }

  lemma {:induction false} LostOnlyByPruning(points: seq<Point>, k: nat)
    requires Chained(points) && AllLegal(points) && k < |points| && FewUntil(points, k)
    ensures Lost(points[k].disk) == Lost(points[0].disk)
  {
    if k > 0 {
      LostOnlyByPruning(points, k - 1);
      ChainedAt(points, k);
      assert IsLegal(points[k]);
      assert !Prunes(points[k].was, points[k].disk);
    }
  }

  lemma {:induction false} AllSpared(points: seq<Point>)
    requires Chained(points) && AllLegal(points) && points != []
    ensures Spared(points[0].disk, points)
  {
    forall k | 0 <= k < |points| && FewUntil(points, k) ensures Lost(points[k].disk) == Lost(points[0].disk) {
      LostOnlyByPruning(points, k);
    }
  }

  // ---------- Only full files are rotated ----------

  /** Every backup is one of `d0` or holds a full file. */
  ghost predicate BackupsFull(d0: Disk, d: Disk) {
    forall b :: b in d.backups && !IsOld(d0, d, b) ==> IsFull(d, d.backups[b])
  }

  ghost predicate AllFull(d0: Disk, points: seq<Point>) {
    forall k :: 0 <= k < |points| ==> BackupsFull(d0, points[k].disk)
  }

  lemma {:induction false} SizeGrows(a: seq<Chunk>, b: seq<Chunk>)
    requires a <= b
    ensures Size(a) <= Size(b)
    decreases |b|
  {
    if |a| < |b| {
      SizeGrows(a, b[..|b| - 1]);
    } else {
      assert a == b;
    }
  }

  lemma {:induction false} FullStays(d: Disk, d1: Disk, i: nat)
    requires Preserves(d, d1) && IsFull(d, i)
    ensures IsFull(d1, i)
  {
    SizeGrows(d.data[i], d1.data[i]);
  }

  lemma {:induction false} FullNext(d0: Disk, d: Disk, d1: Disk)
    requires BackupsFull(d0, d) && Preserves(d, d1) && LinksFull(d, d1)
    ensures BackupsFull(d0, d1)
  {
    forall b | b in d1.backups && !IsOld(d0, d1, b) ensures IsFull(d1, d1.backups[b]) {
      if IsOld(d, d1, b) { FullStays(d, d1, d1.backups[b]); }
    }
  }

  lemma {:induction false} FullAt(points: seq<Point>, k: nat)
    requires Chained(points) && AllLegal(points) && k < |points|
    ensures BackupsFull(points[0].disk, points[k].disk)
  {
    if k > 0 {
      FullAt(points, k - 1);
      ChainedAt(points, k);
      assert IsLegal(points[k]);
      FullNext(points[0].disk, points[k - 1].disk, points[k].disk);
    }
  }

  lemma {:induction false} FullEverywhere(points: seq<Point>)
    requires Chained(points) && AllLegal(points) && points != []
    ensures AllFull(points[0].disk, points)
  {
    forall k | 0 <= k < |points| ensures BackupsFull(points[0].disk, points[k].disk) { FullAt(points, k); }
  }

  /** The backups that came since `d0`. */
  ghost function NewBackups(d0: Disk, d: Disk): set<BackupName> { set b | b in d.backups && !IsOld(d0, d, b) }

  /** No file is lost before the backups of the start and those made since, each a full file, were more
      than are kept: six files of the full size when the run started without backups. */
  lemma {:induction false} LossNeedsFullFiles(points: seq<Point>, k: nat)
    requires Chained(points) && AllLegal(points) && k < |points|
    requires Lost(points[k].disk) != Lost(points[0].disk)
    ensures exists j :: 0 <= j < k && EnoughFull(points[0].disk, points[j].disk)
  {
    if FewUntil(points, k) {
      LostOnlyByPruning(points, k);
    } else {
      var j :| 0 <= j < k && |points[j].disk.backups| > MAX_BACKUPS;
      FullAt(points, j);
      OldAndNew(points[0].disk, points[j].disk);
      assert EnoughFull(points[0].disk, points[j].disk);
    }
  }

  ghost predicate EnoughFull(d0: Disk, d: Disk) {
    && |d0.backups| + |NewBackups(d0, d)| > MAX_BACKUPS
    && forall b :: b in NewBackups(d0, d) ==> IsFull(d, d.backups[b])
  }

  lemma {:induction false} OldAndNew(d0: Disk, d: Disk)
    ensures |d.backups| <= |d0.backups| + |NewBackups(d0, d)|
  {
    var kept := set b | b in d.backups && IsOld(d0, d, b);
    SubsetCard(kept, d0.backups.Keys);
    assert d.backups.Keys == kept + NewBackups(d0, d);
  }

  /** A file that a legal call loses is the oldest of more backups than are kept. */
  lemma {:induction false} LossIsPruning(d: Disk, d1: Disk, i: nat)
    requires Legal(d, d1) && i < |d.data| && Reachable(d, i) && !Reachable(d1, i)
    ensures |d.backups| > MAX_BACKUPS && d.active != Some(i) && exists b :: Oldest(d, b) && d.backups[b] == i
  {
    assert i in Lost(d1) && i !in Lost(d);
    var b :| Oldest(d, b) && d1 == Unlinked(d, b);
    forall c | c in d.backups && c != b ensures Reachable(d1, d.backups[c]) { assert d1.backups[c] == d.backups[c]; }
    var c :| c in d.backups && d.backups[c] == i;
  }

  function Below(n: nat): set<nat> { if n == 0 then {} else Below(n - 1) + {n - 1} }

  lemma {:induction false} BelowIs(n: nat)
    ensures |Below(n)| == n && forall i: nat :: i in Below(n) <==> i < n
  {
    if n > 0 { BelowIs(n - 1); }
  }

  /** The files behind these names. */
  ghost function FilesOf(d: Disk, names: set<BackupName>): set<nat>
    requires names <= d.backups.Keys
  {
    set b | b in names :: d.backups[b]
  }

  lemma {:induction false} FilesCard(d: Disk, names: set<BackupName>)
    requires Sound(d) && names <= d.backups.Keys
    ensures |FilesOf(d, names)| == |names|
  {
    if names != {} {
      var b :| b in names;
      FilesCard(d, names - {b});
      assert d.backups[b] !in FilesOf(d, names - {b});
      assert FilesOf(d, names) == FilesOf(d, names - {b}) + {d.backups[b]};
    }
  }

  /** Every file is lost, active or behind a backup name of its own. */
  lemma {:induction false} FilesCounted(d: Disk)
    requires Sound(d)
    ensures |Lost(d)| + |Proper(d)| + (if d.active.Some? then 1 else 0) == |d.data|
  {
    var named := FilesOf(d, Proper(d));
    var active := if d.active.Some? then {d.active.value} else {};
    FilesCard(d, Proper(d));
    BelowIs(|d.data|);
    forall i: nat ensures i in Below(|d.data|) <==> i in Lost(d) || i in named || i in active {
      OneOfThree(d, i);
    }
    forall i | i in named ensures i !in active && i !in Lost(d) { OneOfThree(d, i); }
    Parts(Below(|d.data|), Lost(d), named, active);
  }

  lemma {:induction false} OneOfThree(d: Disk, i: nat)
    requires Sound(d)
    ensures i < |d.data| <==> i in Lost(d) || i in FilesOf(d, Proper(d)) || d.active == Some(i)
    ensures i in FilesOf(d, Proper(d)) ==> d.active != Some(i) && i !in Lost(d)
  {
    if Reachable(d, i) && d.active != Some(i) {
      var b :| b in d.backups && d.backups[b] == i;
      assert b in Proper(d);
    }
  }

  lemma {:induction false} Parts(all: set<nat>, a: set<nat>, b: set<nat>, c: set<nat>)
    requires (forall i :: i in all <==> i in a || i in b || i in c) && a !! b && a !! c && b !! c
    ensures |all| == |a| + |b| + |c|
  {
    assert all == a + b + c;
  }

  /** On a disk in order the lost files are the first ones. */
  lemma {:induction false} FirstReadable(d: Disk, n: nat) returns (cut: nat)
    requires InOrder(d) && n <= |d.data| && forall i: nat :: n <= i < |d.data| ==> Reachable(d, i)
    ensures cut <= n && forall i: nat :: i < |d.data| ==> (Reachable(d, i) <==> cut <= i)
  {
    if n == 0 || !Reachable(d, n - 1) {
      return n;
    }
    cut := FirstReadable(d, n - 1);
  }

  lemma {:induction false} OnDiskFrom(d: Disk, cut: nat, n: nat)
    requires cut <= n <= |d.data| && forall i: nat :: i < |d.data| ==> (Reachable(d, i) <==> cut <= i)
    ensures OnDisk(d, n) == Flatten(d.data[cut..n])
  {
    if cut < n {
      OnDiskFrom(d, cut, n - 1);
      assert d.data[cut..n][..n - 1 - cut] == d.data[cut..n - 1];
    } else {
      NothingBelow(d, cut, n);
    }
  }

  lemma {:induction false} NothingBelow(d: Disk, cut: nat, n: nat)
    requires n <= cut && n <= |d.data| && forall i: nat :: i < |d.data| ==> (Reachable(d, i) <==> cut <= i)
    ensures OnDisk(d, n) == []
  {
    if n > 0 { NothingBelow(d, cut, n - 1); }
  }

  /** On a disk in order what can be read is the whole of the newest files: as many as there are
      backups of files of their own, and the active one. */
  lemma {:induction false} NewestFilesReadable(d: Disk)
    requires Sound(d) && InOrder(d)
    ensures |Lost(d)| + |Proper(d)| + (if d.active.Some? then 1 else 0) == |d.data|
    ensures OnDisk(d, |d.data|) == Flatten(d.data[|Lost(d)|..])
  {
    var n := |d.data|;
    FilesCounted(d);
    var cut := FirstReadable(d, n);
    BelowIs(cut);
    assert Lost(d) == Below(cut);
    OnDiskFrom(d, cut, n);
    assert d.data[cut..n] == d.data[cut..];
  }

  /** Before any file is lost, every line reported persisted can be read, in order. */
  lemma {:induction false} PersistedReadable(d0: Disk, d: Disk, lines: seq<string>)
    requires Keeps(d0, d, lines) && Lost(d) == {}
    ensures OnDisk(d, |d.data|) == Written(d) && Recorded(lines, OnDisk(d, |d.data|)[|Written(d0)|..])
  {
    NothingLost(d, |d.data|);
    assert d.data[..|d.data|] == d.data;
  }

  /** As long as no file is lost, everything written can be read. */
  lemma {:induction false} NothingLost(d: Disk, n: nat)
    requires Lost(d) == {} && n <= |d.data|
    ensures OnDisk(d, n) == Flatten(d.data[..n])
  {
    if n > 0 {
      assert d.data[..n][..n - 1] == d.data[..n - 1];
      NothingLost(d, n - 1);
      assert n - 1 !in Lost(d);
    }
  }

  // ---------- When a rotation keeps the order ----------

  /** Giving the active file a name keeps the order exactly when the name sorts last. */
  lemma {:induction false} LinkKeepsOrderIff(d: Disk, b: BackupName)
    requires Sound(d) && InOrder(d) && !Aliased(d) && d.active.Some? && b !in d.backups
    ensures InOrder(Linked(d, b)) <==> forall c :: c in d.backups ==> Less(c, b)
  {
    var l := Linked(d, b);
    if forall c :: c in d.backups ==> Less(c, b) {
      forall x, y | x in l.backups && y in l.backups ensures Less(x, y) <==> l.backups[x] < l.backups[y] {
        LessTotal(x, y);
      }
      SameReachable(d, b);
    } else {
      var c :| c in d.backups && !Less(c, b);
      assert c in l.backups && l.backups[c] < l.backups[b];
    }
  }

  lemma {:induction false} SameReachable(d: Disk, b: BackupName)
    requires d.active.Some? && b !in d.backups
    ensures forall k: nat :: Reachable(Linked(d, b), k) <==> Reachable(d, k)
  {
    forall k: nat ensures Reachable(Linked(d, b), k) <==> Reachable(d, k) {
      if c :| c in d.backups && d.backups[c] == k {
        assert c in Linked(d, b).backups && Linked(d, b).backups[c] == k;
      }
    }
  }

  /** For the name a rotation selects this is a matter of the clock: no backup carries a later
      reading, and those of this reading are older files in the old format or have a lower ordinal. */
  lemma {:induction false} RotationKeepsOrderIff(d: Disk, b: BackupName, now: int)
    requires Sound(d) && InOrder(d) && !Aliased(d) && d.active.Some? && Selected(d, b, now)
    ensures InOrder(Moved(d, b)) <==> forall c :: c in d.backups ==>
      c.stamp < now || (c.stamp == now && (c.Generation() == 0 || (c.Current? && c.ordinal < b.ordinal)))
  {
    LinkKeepsOrderIff(d, b);
    MovedOrder(d, b);
    forall c | c in d.backups
      ensures Less(c, b) <==>
        c.stamp < now || (c.stamp == now && (c.Generation() == 0 || (c.Current? && c.ordinal < b.ordinal)))
    {}
  }

  lemma {:induction false} MovedOrder(d: Disk, b: BackupName)
    requires Sound(d) && d.active.Some? && b !in d.backups
    ensures InOrder(Moved(d, b)) <==> InOrder(Linked(d, b))
  {
    var l, m := Linked(d, b), Moved(d, b);
    assert m.backups == l.backups && l.backups[b] == d.active.value;
    forall k: nat ensures Reachable(m, k) <==> Reachable(l, k) || k == |d.data| {
      if k == d.active.value { assert b in m.backups && m.backups[b] == k; }
    }
  }

  /** A file that is due for rotation. */
  function Full(): seq<Chunk> { [Event(seq(MAX_SIZE, _ => 'x'))] }

  lemma {:induction false} FullSize()
    ensures Size(Full()) == MAX_SIZE
  {
    assert Full()[..0] == [];
  }

  /** The files from `lo` up to `hi` under the names of one reading. */
  function Between(now: int, lo: nat, hi: nat): map<BackupName, nat> {
    if hi <= lo then map[] else Between(now, lo, hi - 1)[Current(now, hi - 1) := hi - 1]
  }

  lemma {:induction false} BetweenIs(now: int, lo: nat, hi: nat)
    requires lo <= hi
    ensures |Between(now, lo, hi)| == hi - lo
    ensures forall b :: b in Between(now, lo, hi) <==> b.Current? && b.stamp == now && lo <= b.ordinal < hi
    ensures forall b :: b in Between(now, lo, hi) ==> Between(now, lo, hi)[b] == b.ordinal
  {
    if lo < hi { BetweenIs(now, lo, hi - 1); }
  }

  /** The disk after `k` rotations of full files at one reading, at most six: all files are full, the
      sixth rotation has pruned the first. */
  function RotationsAt(now: int, k: nat): Disk {
    Disk(Some(k), Between(now, if k > MAX_BACKUPS then 1 else 0, k), seq(k + 1, _ => Full()))
  }

  /** A rotation, after which the new file is filled. */
  ghost predicate RotatesTo(d: Disk, e: Disk, now: int) {
    exists r: Disk :: Rotated(d, r, now) && r.active.Some? && r.active.value < |r.data| && FilledUp(r) == e
  }

  function FilledUp(r: Disk): Disk
    requires r.active.Some? && r.active.value < |r.data|
  {
    Appended(r, r.active.value, Full()[0])
  }

  lemma {:induction false} RotationAt(now: int, k: nat)
    requires k <= MAX_BACKUPS
    ensures RotatesTo(RotationsAt(now, k), RotationsAt(now, k + 1), now)
  {
    var d, e, b := RotationsAt(now, k), RotationsAt(now, k + 1), Current(now, k);
    var r := Disk(Some(k + 1), e.backups, d.data + [[]]);
    BetweenIs(now, 0, k);
    BetweenIs(now, if k + 1 > MAX_BACKUPS then 1 else 0, k + 1);
    SelectedAt(now, k);
    PrunedAt(now, k, d.data + [[]]);
    RotatedTo(d, b, r, now);
    FilledData(k + 1);
  }

  lemma {:induction false} SelectedAt(now: int, k: nat)
    requires k <= MAX_BACKUPS
    ensures var d, b := RotationsAt(now, k), Current(now, k);
      Selected(d, b, now) && Moved(d, b) == Disk(Some(k + 1), Between(now, 0, k + 1), d.data + [[]])
  {
    BetweenIs(now, 0, k);
  }

  lemma {:induction false} PrunedAt(now: int, k: nat, data: seq<seq<Chunk>>)
    requires k <= MAX_BACKUPS
    ensures var lo := if k + 1 > MAX_BACKUPS then 1 else 0;
      Pruned(Disk(Some(k + 1), Between(now, 0, k + 1), data), Disk(Some(k + 1), Between(now, lo, k + 1), data))
  {
    BetweenIs(now, 0, k + 1);
    BetweenIs(now, if k + 1 > MAX_BACKUPS then 1 else 0, k + 1);
  }

  lemma {:induction false} FilledData(k: nat)
    ensures (seq(k, _ => Full()) + [[]])[k := [] + [Full()[0]]] == seq(k + 1, _ => Full())
  {
    assert [] + [Full()[0]] == Full();
  }

  /** A clock that stands still breaks the order: six rotations of full files at one reading prune the
      first file and free its ordinal, the next rotation takes it, and the newest file sorts first. */
  lemma {:induction false} StandingClockBreaksOrder(now: int)
    ensures RotationsAt(now, 0) == Disk(Some(0), map[], [Full()])
    ensures forall k: nat :: k < 6 ==> RotatesTo(RotationsAt(now, k), RotationsAt(now, k + 1), now)
    ensures var d := RotationsAt(now, 6);
      && Sound(d) && InOrder(d) && !Aliased(d)
      && (forall i :: 0 <= i < |d.data| ==> Size(d.data[i]) >= MAX_SIZE)
      && Selected(d, Current(now, 0), now)
      && !InOrder(Moved(d, Current(now, 0)))
      && forall c :: c in d.backups ==> Less(Current(now, 0), c)
  {
    forall k: nat | k < 6 ensures RotatesTo(RotationsAt(now, k), RotationsAt(now, k + 1), now) { RotationAt(now, k); }
    SixthBreaksOrder(now);
  }

  lemma {:induction false} SixthBreaksOrder(now: int)
    ensures var d := RotationsAt(now, 6);
      && Sound(d) && InOrder(d) && !Aliased(d)
      && (forall i :: 0 <= i < |d.data| ==> Size(d.data[i]) >= MAX_SIZE)
      && Selected(d, Current(now, 0), now)
      && !InOrder(Moved(d, Current(now, 0)))
      && forall c :: c in d.backups ==> Less(Current(now, 0), c)
  {
    var d := RotationsAt(now, 6);
    BetweenIs(now, 1, 6);
    FullSize();
    forall i: nat, j: nat | i < j < |d.data| && Reachable(d, i) ensures Reachable(d, j) {
      if j < 6 { assert Current(now, j) in d.backups && d.backups[Current(now, j)] == j; }
    }
    assert Current(now, 1) in d.backups;
    RotationKeepsOrderIff(d, Current(now, 0), now);
  }
}
