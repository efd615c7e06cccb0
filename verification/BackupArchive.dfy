/** Backup archives: creating, verifying and restoring them (createBackup, patchManifestChecksums,
    verifyArchiveManifest, stageRestore, swapStagingIntoDataDir and Restore of
    internal/service/backup.go).

    An archive is its sequence of entries.  The checksum and the encoding of the manifest are
    given with their laws; any file-system call may fail. */
module BackupArchive {
  import opened Wrappers

  type Bytes = seq<bv8>

  const METADATA := "backup-metadata.json"
  const VERSION := 1
  const ALGORITHM := "sha256"

  /** What the manifest records of one file. */
  datatype FileEntry = FileEntry(path: string, size: nat, checksum: string)

  datatype Manifest = Manifest(version: int, algorithm: string, files: seq<FileEntry>)

  /** One entry of the archive; the declared size need not be the real one. */
  datatype ZipEntry = ZipEntry(name: string, data: Bytes, declared: nat, directory: bool, special: bool)
  {
    predicate IsPayload() { !directory && name != METADATA }
  }

  /** The checksum, the manifest's encoding, where a name leads inside the data directory, and the
      size cap. */
  datatype World = World(
    sha: Bytes -> string,
    encode: Manifest -> Bytes,
    decode: Bytes -> Option<Manifest>,
    resolve: string -> Option<string>,
    cap: nat)
  {
    ghost predicate Lawful() {
      && (forall a, b :: sha(a) == sha(b) ==> a == b)
      && (forall m :: decode(encode(m)) == Some(m))
    }
  }

  // ---------- When an archive is consistent with a manifest ----------

  /** The manifest of an archive is its first metadata entry. */
  function ManifestIn(w: World, a: seq<ZipEntry>): Option<Manifest> {
    if a == [] then None
    else if a[0].name == METADATA then w.decode(a[0].data)
    else ManifestIn(w, a[1..])
  }

  /** What the manifest says of a path; the last of two entries counts. */
  function RecordOf(files: seq<FileEntry>, path: string): (r: Option<FileEntry>)
    ensures r.Some? ==> r.value in files && r.value.path == path
  {
    if files == [] then None
    else if files[|files| - 1].path == path then Some(files[|files| - 1])
    else RecordOf(files[..|files| - 1], path)
  }

  /** An entry is the one the manifest records. */
  predicate Matches(w: World, files: seq<FileEntry>, e: ZipEntry) {
    var r := RecordOf(files, e.name);
    r.Some? && (e.declared == 0 || r.value.size == 0 || e.declared == r.value.size) && w.sha(e.data) == r.value.checksum
  }

  predicate Present(a: seq<ZipEntry>, path: string) {
    exists e :: e in a && e.IsPayload() && e.name == path
  }

  /** Every payload entry is recorded as it is, and every record has its entry. */
  ghost predicate Consistent(w: World, m: Manifest, a: seq<ZipEntry>) {
    && m.version == VERSION && m.algorithm == ALGORITHM
    && (forall e :: e in a && e.IsPayload() ==> Matches(w, m.files, e))
    && (forall f :: f in m.files ==> Present(a, f.path))
  }

  /** The manifest decides the payload: two archives it is consistent with have the same files
      with the same contents. */
  lemma {:induction false} ManifestDecides(w: World, m: Manifest, a: seq<ZipEntry>, b: seq<ZipEntry>)
    requires w.Lawful() && Consistent(w, m, a) && Consistent(w, m, b)
    ensures forall path :: Present(a, path) <==> Present(b, path)
    ensures forall e, f :: e in a && f in b && e.IsPayload() && f.IsPayload() && e.name == f.name ==> e.data == f.data
  {
    forall path ensures Present(a, path) <==> Present(b, path) {
      PresentWhenRecorded(w, m, a, path);
      PresentWhenRecorded(w, m, b, path);
    }
  }

  lemma {:induction false} PresentWhenRecorded(w: World, m: Manifest, a: seq<ZipEntry>, path: string)
    requires Consistent(w, m, a)
    ensures Present(a, path) <==> RecordOf(m.files, path).Some?
  {
    if Present(a, path) {
      var e :| e in a && e.IsPayload() && e.name == path;
      assert Matches(w, m.files, e);
    }
  }

  /** An archive with an extra, a missing or an altered payload entry is not consistent with the
      manifest of the intact one. */
  lemma {:induction false} TamperedIsInconsistent(w: World, m: Manifest, intact: seq<ZipEntry>, a: seq<ZipEntry>,
      path: string)
    requires w.Lawful() && Consistent(w, m, intact)
    requires Present(a, path) != Present(intact, path)
      || exists e, f :: e in intact && f in a && e.IsPayload() && f.IsPayload() && e.name == f.name && e.data != f.data
    ensures !Consistent(w, m, a)
  {
    if Consistent(w, m, a) { ManifestDecides(w, m, intact, a); }
  }

  // ---------- Verifying ----------

  method VerifyArchive(w: World, a: seq<ZipEntry>) returns (r: Result<Manifest, string>)
    ensures r.Ok? <==> ManifestIn(w, a).Some? && Consistent(w, ManifestIn(w, a).value, a)
    ensures r.Ok? ==> r.value == ManifestIn(w, a).value
  {
    var m := ReadManifest(w, a);
    if m.None? { return Err("manifest"); }
    if m.value.version != VERSION { return Err("version"); }
    if m.value.algorithm != ALGORITHM { return Err("algorithm"); }
    var expected := Expected(m.value.files);
    var seen, ok := CheckPayload(w, m.value.files, expected, a);
    if !ok { return Err("payload"); }
    for i := 0 to |m.value.files|
      invariant forall k :: 0 <= k < i ==> Present(a, m.value.files[k].path)
    {
      if m.value.files[i].path !in seen { return Err("missing"); }
    }
    r := Ok(m.value);
  }

  method ReadManifest(w: World, a: seq<ZipEntry>) returns (m: Option<Manifest>)
    ensures m == ManifestIn(w, a)
  {
    for i := 0 to |a|
      invariant ManifestIn(w, a) == ManifestIn(w, a[i..])
    {
      assert a[i..][0] == a[i] && a[i..][1..] == a[i + 1..];
      if a[i].name == METADATA { return w.decode(a[i].data); }
    }
    m := None;
  }

  method Expected(files: seq<FileEntry>) returns (m: map<string, FileEntry>)
    ensures forall path :: (if path in m then Some(m[path]) else None) == RecordOf(files, path)
  {
    m := map[];
    for i := 0 to |files|
      invariant forall path :: (if path in m then Some(m[path]) else None) == RecordOf(files[..i], path)
    {
      assert files[..i + 1][..i] == files[..i];
      m := m[files[i].path := files[i]];
    }
    assert files[..|files|] == files;
  }

  method CheckPayload(w: World, files: seq<FileEntry>, expected: map<string, FileEntry>, a: seq<ZipEntry>)
      returns (seen: set<string>, ok: bool)
    requires forall path :: (if path in expected then Some(expected[path]) else None) == RecordOf(files, path)
    ensures ok <==> forall e :: e in a && e.IsPayload() ==> Matches(w, files, e)
    ensures ok ==> forall path :: path in seen <==> Present(a, path)
  {
    seen := {};
    for i := 0 to |a|
      invariant forall k :: 0 <= k < i && a[k].IsPayload() ==> Matches(w, files, a[k])
      invariant forall path :: path in seen <==> Present(a[..i], path)
    {
      var e := a[i];
      assert a[..i + 1] == a[..i] + [e];
      PresentSnoc(a[..i], e);
      if !e.IsPayload() { continue; }
      assert (if e.name in expected then Some(expected[e.name]) else None) == RecordOf(files, e.name);
      if e.name !in expected { return seen, false; }
      var want := expected[e.name];
      if e.declared != 0 && want.size != 0 && e.declared != want.size { return seen, false; }
      if w.sha(e.data) != want.checksum { return seen, false; }
      seen := seen + {e.name};
    }
    assert a[..|a|] == a;
    ok := true;
  }

  lemma {:induction false} PresentSnoc(a: seq<ZipEntry>, e: ZipEntry)
    ensures forall path :: Present(a + [e], path) <==> Present(a, path) || (e.IsPayload() && e.name == path)
  {
    forall path ensures Present(a + [e], path) <==> Present(a, path) || (e.IsPayload() && e.name == path) {
      if Present(a, path) {
        var x :| x in a && x.IsPayload() && x.name == path;
        assert x in a + [e];
      }
      if e.IsPayload() && e.name == path { assert e in a + [e]; }
    }
  }

  // ---------- Creating ----------

  /** A captured file as it is recorded and as it is stored. */
  function Record(w: World, name: string, data: Bytes): FileEntry { FileEntry(name, |data|, w.sha(data)) }

  function Stored(name: string, data: Bytes): ZipEntry { ZipEntry(name, data, |data|, false, false) }

  /** The files that exist, in the order they are listed. */
  function Records(w: World, data: map<string, Bytes>, names: seq<string>): seq<FileEntry> {
    if names == [] then []
    else
      var n := names[|names| - 1];
      Records(w, data, names[..|names| - 1]) + if n in data then [Record(w, n, data[n])] else []
  }

  function Payload(data: map<string, Bytes>, names: seq<string>): seq<ZipEntry> {
    if names == [] then []
    else
      var n := names[|names| - 1];
      Payload(data, names[..|names| - 1]) + if n in data then [Stored(n, data[n])] else []
  }

  function ManifestOf(w: World, data: map<string, Bytes>, names: seq<string>): Manifest {
    Manifest(VERSION, ALGORITHM, Records(w, data, names))
  }

  /** The archive of the listed files. */
  function ArchiveOf(w: World, data: map<string, Bytes>, names: seq<string>): seq<ZipEntry> {
    [Stored(METADATA, w.encode(ManifestOf(w, data, names)))] + Payload(data, names)
  }

  /** Writes the manifest again, over every metadata entry. */
  function WithManifest(a: seq<ZipEntry>, text: Bytes): seq<ZipEntry> {
    if a == [] then []
    else [if a[0].name == METADATA then Stored(METADATA, text) else a[0]] + WithManifest(a[1..], text)
  }

  lemma {:induction false} WithManifestPayload(data: map<string, Bytes>, names: seq<string>, text: Bytes)
    requires METADATA !in names
    ensures WithManifest(Payload(data, names), text) == Payload(data, names)
  {
    NoMetadata(data, names);
    WithManifestSame(Payload(data, names), text);
  }

  lemma {:induction false} NoMetadata(data: map<string, Bytes>, names: seq<string>)
    ensures forall e :: e in Payload(data, names) ==>
      e.name in names && e.name in data && e == Stored(e.name, data[e.name])
  {
    if names != [] { NoMetadata(data, names[..|names| - 1]); }
  }

  lemma {:induction false} WithManifestSame(a: seq<ZipEntry>, text: Bytes)
    requires forall e :: e in a ==> e.name != METADATA
    ensures WithManifest(a, text) == a
  {
    if a != [] { WithManifestSame(a[1..], text); }
  }

  lemma {:induction false} PayloadHas(data: map<string, Bytes>, names: seq<string>, n: string)
    requires n in names && n in data
    ensures Stored(n, data[n]) in Payload(data, names)
  {
    if n != names[|names| - 1] { PayloadHas(data, names[..|names| - 1], n); }
  }

  lemma {:induction false} RecordsHas(w: World, data: map<string, Bytes>, names: seq<string>, n: string)
    ensures RecordOf(Records(w, data, names), n) ==
      if n in names && n in data then Some(Record(w, n, data[n])) else None
  {
    if names != [] {
      var init, last := names[..|names| - 1], names[|names| - 1];
      RecordsHas(w, data, init, n);
      var files := Records(w, data, init);
      if last in data {
        assert (files + [Record(w, last, data[last])])[..|files|] == files;
      } else {
        assert Records(w, data, names) == files;
      }
    }
  }

  lemma {:induction false} RecordsFrom(w: World, data: map<string, Bytes>, names: seq<string>)
    ensures forall f :: f in Records(w, data, names) ==> f.path in names && f.path in data
  {
    if names != [] { RecordsFrom(w, data, names[..|names| - 1]); }
  }

  /** A created archive passes verification. */
  lemma {:induction false} CreatedIsConsistent(w: World, data: map<string, Bytes>, names: seq<string>)
    requires w.Lawful() && METADATA !in names
    ensures ManifestIn(w, ArchiveOf(w, data, names)) == Some(ManifestOf(w, data, names))
    ensures Consistent(w, ManifestOf(w, data, names), ArchiveOf(w, data, names))
  {
    var a, m := ArchiveOf(w, data, names), ManifestOf(w, data, names);
    NoMetadata(data, names);
    RecordsFrom(w, data, names);
    forall e | e in a && e.IsPayload() ensures Matches(w, m.files, e) {
      RecordsHas(w, data, names, e.name);
    }
    forall f | f in m.files ensures Present(a, f.path) {
      PayloadHas(data, names, f.path);
      assert Stored(f.path, data[f.path]) in a;
    }
  }

  // ---------- Restoring ----------

  /** What is staged: each payload entry at the place its name leads to. */
  function Staged(w: World, a: seq<ZipEntry>): map<string, Bytes> {
    if a == [] then map[]
    else
      var e, before := a[|a| - 1], Staged(w, a[..|a| - 1]);
      if e.IsPayload() && w.resolve(e.name).Some? then before[w.resolve(e.name).value := e.data] else before
  }

  /** An entry that is extracted: a regular file inside the directory, not over the cap. */
  predicate Extractable(w: World, e: ZipEntry) {
    !e.special && e.declared <= w.cap && |e.data| <= w.cap && w.resolve(e.name).Some?
  }

  /** The places the manifest's files go to, one after the other. */
  function Places(w: World, files: seq<FileEntry>): set<string> {
    set f | f in files && w.resolve(f.path).Some? :: w.resolve(f.path).value
  }

  predicate OnePlaceEach(w: World, files: seq<FileEntry>) {
    && (forall f :: f in files ==> f.path != "" && '\0' !in f.path && w.resolve(f.path).Some?)
    && (forall i, j :: 0 <= i < j < |files| ==> w.resolve(files[i].path) != w.resolve(files[j].path))
  }

  class DataDir {
    var data: map<string, Bytes>
    const w: World

    /** Captures the listed files that exist. */
    method CreateBackup(names: seq<string>) returns (a: Option<seq<ZipEntry>>)
      requires METADATA !in names
      ensures a.Some? ==> a.value == ArchiveOf(w, data, names)
    {
      var draft := [Stored(METADATA, w.encode(Manifest(VERSION, ALGORITHM, [])))];
      var files: seq<FileEntry> := [];
      ghost var head := draft;
      for i := 0 to |names|
        invariant draft == head + Payload(data, names[..i]) && files == Records(w, data, names[..i])
      {
        assert names[..i + 1][..i] == names[..i];
        var fails: bool := *;
        if fails { return None; }
        if names[i] !in data { continue; }
        draft := draft + [Stored(names[i], data[names[i]])];
        files := files + [Record(w, names[i], data[names[i]])];
      }
      assert names[..|names|] == names;
      var text := w.encode(Manifest(VERSION, ALGORITHM, files));
      var published: bool := *;
      if !published { return None; } // sync, rewrite or rename failed; the temporary file is removed
      WithManifestPayload(data, names, text);
      assert draft[1..] == Payload(data, names);
      a := Some(WithManifest(draft, text));
    }

    /** Extracts the payload of a verified archive next to the data. */
    method StageRestore(a: seq<ZipEntry>) returns (staged: Option<map<string, Bytes>>, ghost faulted: bool)
      ensures staged.Some? ==> staged.value == Staged(w, a)
      ensures staged.Some? ==> forall e :: e in a && e.IsPayload() ==> Extractable(w, e)
      ensures staged.Some? ==> forall e :: e in a && !e.directory && e.name != METADATA ==>
        !e.special && e.declared <= w.cap && |e.data| <= w.cap && w.resolve(e.name).Some?
      ensures staged.None? && !faulted ==> exists e :: e in a && e.IsPayload() && !Extractable(w, e)
    {
      var out: map<string, Bytes> := map[];
      faulted := false;
      for i := 0 to |a|
        invariant out == Staged(w, a[..i]) && forall k :: 0 <= k < i && a[k].IsPayload() ==> Extractable(w, a[k])
      {
        var e := a[i];
        assert e in a && a[..i + 1][..i] == a[..i];
        if !e.IsPayload() { continue; }
        var fails: bool := *;
        if fails { return None, true; }
        if !Extractable(w, e) { return None, false; }
        out := out[w.resolve(e.name).value := e.data];
      }
      assert a[..|a|] == a;
      staged := Some(out);
    }

    /** Moves the staged files into the data directory, one rename each. */
    method SwapIn(staged: map<string, Bytes>, files: seq<FileEntry>) returns (ok: bool, ghost faulted: bool)
      requires forall f :: f in files ==> w.resolve(f.path).Some? && w.resolve(f.path).value in staged
      modifies this
      ensures ok ==> data == Overlay(old(data), staged, Places(w, files))
      ensures EachEither(data, old(data), staged)
      ensures !faulted && OnePlaceEach(w, files) ==> ok
    {
      var left := staged;
      faulted := false;
      for i := 0 to |files|
        invariant data == Overlay(old(data), staged, Places(w, files[..i]))
        invariant forall p :: p in left ==> p in staged && left[p] == staged[p]
        invariant forall p :: p in staged && p !in Places(w, files[..i]) ==> p in left
      {
        var f := files[i];
        assert f in files && files[..i + 1] == files[..i] + [f];
        var place := w.resolve(f.path).value;
        PlacesSnoc(w, files[..i], f);
        OverlayAdd(old(data), staged, Places(w, files[..i]), place);
        if f.path == "" || '\0' in f.path { return false, false; }
        if place !in left {
          TakenTwice(w, files, i);
          return false, false;
        }
        var fails: bool := *;
        if fails { return false, true; }
        data := data[place := left[place]];
        left := left - {place};
      }
      assert files[..|files|] == files;
      ok := true;
    }

    /** Verifies, stages and only then replaces files.  An archive that is rejected, or that has an entry
        that cannot be extracted, changes nothing; whatever fails later, every file is either as it was
        or as the archive has it. */
    method Restore(a: seq<ZipEntry>) returns (ok: bool, ghost faulted: bool)
      modifies this
      ensures !(ManifestIn(w, a).Some? && Consistent(w, ManifestIn(w, a).value, a)) ==> !ok && data == old(data)
      ensures (exists e :: e in a && e.IsPayload() && !Extractable(w, e)) ==> !ok && data == old(data)
      ensures ok ==> data == old(data) + Staged(w, a)
      ensures EachEither(data, old(data), Staged(w, a))
      ensures !faulted && Restorable(w, a) ==> ok
    {
      faulted := false;
      var m := VerifyArchive(w, a);
      if m.Err? { return false, false; }
      var staged;
      staged, faulted := StageRestore(a);
      if staged.None? { return false, faulted; }
      StagedWhole(w, a, m.value);
      ok, faulted := SwapIn(staged.value, m.value.files);
      OverlayAll(old(data), staged.value);
    }
  }

  /** The data with the staged files at these places. */
  function Overlay(data: map<string, Bytes>, staged: map<string, Bytes>, places: set<string>): map<string, Bytes> {
    data + map p | p in staged && p in places :: staged[p]
  }

  lemma {:induction false} OverlayAdd(data: map<string, Bytes>, staged: map<string, Bytes>, places: set<string>,
      p: string)
    requires p in staged
    ensures Overlay(data, staged, places + {p}) == Overlay(data, staged, places)[p := staged[p]]
    ensures EachEither(Overlay(data, staged, places), data, staged)
  {}

  lemma {:induction false} OverlayAll(data: map<string, Bytes>, staged: map<string, Bytes>)
    ensures Overlay(data, staged, staged.Keys) == data + staged
  {}

  /** No file is lost, and each is as it was or as it was staged. */
  ghost predicate EachEither(after: map<string, Bytes>, before: map<string, Bytes>, staged: map<string, Bytes>) {
    && before.Keys <= after.Keys
    && forall p :: p in after ==> (p in before && after[p] == before[p]) || (p in staged && after[p] == staged[p])
  }

  /** An archive that only a failing call can keep from being restored. */
  ghost predicate Restorable(w: World, a: seq<ZipEntry>) {
    && ManifestIn(w, a).Some? && Consistent(w, ManifestIn(w, a).value, a) &&
      OnePlaceEach(w, ManifestIn(w, a).value.files)
    && forall e :: e in a && e.IsPayload() ==> Extractable(w, e)
  }

  lemma {:induction false} PlacesSnoc(w: World, files: seq<FileEntry>, f: FileEntry)
    requires w.resolve(f.path).Some?
    ensures Places(w, files + [f]) == Places(w, files) + {w.resolve(f.path).value}
  {
    var all := files + [f];
    assert f in all;
    forall p | p in Places(w, files) ensures p in Places(w, all) {
      var g :| g in files && w.resolve(g.path) == Some(p);
      assert g in all;
    }
  }

  /** A file whose place was taken before shares it with an earlier one. */
  lemma {:induction false} TakenTwice(w: World, files: seq<FileEntry>, i: nat)
    requires i < |files| && w.resolve(files[i].path).Some? && w.resolve(files[i].path).value in Places(w, files[..i])
    ensures !OnePlaceEach(w, files)
  {
    var g :| g in files[..i] && w.resolve(g.path) == w.resolve(files[i].path);
    var k :| 0 <= k < i && files[..i][k] == g;
    assert files[k] == g;
  }

  /** What is staged of a verified archive is what the manifest lists. */
  lemma {:induction false} StagedWhole(w: World, a: seq<ZipEntry>, m: Manifest)
    requires Consistent(w, m, a) && forall e :: e in a && e.IsPayload() ==> Extractable(w, e)
    ensures Staged(w, a).Keys == Places(w, m.files)
    ensures forall f :: f in m.files ==> w.resolve(f.path).Some? && w.resolve(f.path).value in Staged(w, a)
  {
    StagedKeys(w, a);
    forall f | f in m.files ensures w.resolve(f.path).Some? && w.resolve(f.path).value in Staged(w, a) {
      var e :| e in a && e.IsPayload() && e.name == f.path;
    }
    forall p | p in Staged(w, a) ensures p in Places(w, m.files) {
      var e :| e in a && e.IsPayload() && w.resolve(e.name) == Some(p);
      assert Matches(w, m.files, e);
      assert RecordOf(m.files, e.name).value in m.files;
    }
  }

  lemma {:induction false} StagedKeys(w: World, a: seq<ZipEntry>)
    ensures forall p :: p in Staged(w, a) <==> exists e :: e in a && e.IsPayload() && w.resolve(e.name) == Some(p)
  {
    if a != [] {
      var init, last := a[..|a| - 1], a[|a| - 1];
      StagedKeys(w, init);
      assert a == init + [last];
    }
  }

  /** Restoring a fresh backup writes back exactly the captured bytes. */
  lemma {:induction false} RestoredIsCaptured(w: World, data: map<string, Bytes>, names: seq<string>)
    requires METADATA !in names && forall n :: n in names ==> w.resolve(n) == Some(n)
    ensures Staged(w, ArchiveOf(w, data, names)) == map n | n in names && n in data :: data[n]
  {
    var a := ArchiveOf(w, data, names);
    StagedPayload(w, data, names);
    StagedAfterMetadata(w, a[0], Payload(data, names));
  }

  lemma {:induction false} StagedAfterMetadata(w: World, e: ZipEntry, a: seq<ZipEntry>)
    requires !e.IsPayload()
    ensures Staged(w, [e] + a) == Staged(w, a)
  {
    if a == [] {
      assert Staged(w, [e] + a) == Staged(w, [e]) == Staged(w, [e][..0]);
    } else {
      assert ([e] + a)[..|a|] == [e] + a[..|a| - 1];
      StagedAfterMetadata(w, e, a[..|a| - 1]);
    }
  }

  lemma {:induction false} StagedPayload(w: World, data: map<string, Bytes>, names: seq<string>)
    requires METADATA !in names && forall n :: n in names ==> w.resolve(n) == Some(n)
    ensures Staged(w, Payload(data, names)) == map n | n in names && n in data :: data[n]
  {
    if names != [] {
      var init, n := names[..|names| - 1], names[|names| - 1];
      StagedPayload(w, data, init);
      var before := Payload(data, init);
      assert names == init + [n];
      if n in data {
        assert (before + [Stored(n, data[n])])[..|before|] == before;
      } else {
        assert Payload(data, names) == before;
      }
    }
  }

  /** And nothing but a failing call can stop it, when the files fit under the cap. */
  lemma {:induction false} CreatedIsRestorable(w: World, data: map<string, Bytes>, names: seq<string>)
    requires METADATA !in names && (forall i, j :: 0 <= i < j < |names| ==> names[i] != names[j])
    requires forall n :: n in names ==>
      n != "" && '\0' !in n && w.resolve(n) == Some(n) && (n in data ==> |data[n]| <= w.cap)
    requires w.Lawful()
    ensures Restorable(w, ArchiveOf(w, data, names))
  {
    CreatedIsConsistent(w, data, names);
    NoMetadata(data, names);
    RecordsFrom(w, data, names);
    RecordsDistinct(w, data, names);
    var files := Records(w, data, names);
    forall i, j | 0 <= i < j < |files| ensures w.resolve(files[i].path) != w.resolve(files[j].path) {
      assert files[i] in files && files[j] in files && files[i].path != files[j].path;
    }
  }

  predicate DistinctPaths(files: seq<FileEntry>) {
    forall i, j :: 0 <= i < j < |files| ==> files[i].path != files[j].path
  }

  lemma {:induction false} RecordsDistinct(w: World, data: map<string, Bytes>, names: seq<string>)
    requires forall i, j :: 0 <= i < j < |names| ==> names[i] != names[j]
    ensures DistinctPaths(Records(w, data, names))
  {
    if names != [] {
      var init, n := names[..|names| - 1], names[|names| - 1];
      RecordsDistinct(w, data, init);
      RecordsFrom(w, data, init);
      assert names == init + [n];
      var before, all := Records(w, data, init), Records(w, data, names);
      forall i, j | 0 <= i < j < |all| ensures all[i].path != all[j].path {
        if j >= |before| {
          assert all[i] in before && all[j].path == n;
          var k :| 0 <= k < |init| && init[k] == all[i].path;
          assert names[k] == init[k];
        } else {
          assert all[i] == before[i] && all[j] == before[j];
        }
      }
    }
  }
}
