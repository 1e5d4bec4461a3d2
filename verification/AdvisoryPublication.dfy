/** internal/advisory/sync.go: publishing downloaded snapshots into a cache directory that many processes share. */
module AdvisoryPublication {
  import opened Strings
  import opened Results

  /* Processes lock, link without replacing, verify, read and rewrite the manifest, roll back and unlock;
     any of them may fail or crash between any two steps. The manifest is written all or nothing, and the operating
     system releases the lock of a crashed process. */

  // ----- entries and the manifest -----

  datatype Schema = OsvJson | OsvZip

  /** `CacheSnapshot`, without the descriptive fields. */
  datatype Entry = Entry(id: string, digest: string, path: string, sizeBytes: nat)

  datatype Manifest = Manifest(latest: string, snapshots: seq<Entry>)

  /** The hexadecimal SHA-256 of a content; only its length is assumed, not that it is collision-free. */
  type Hex = string -> string

  ghost predicate HexDigits(hex: Hex) {
    forall content :: |hex(content)| == 64
  }

  const SHA256_PREFIX := "sha256:"

  /** `snapshotIDFromDigest`. */
  function SnapshotID(digest: string): string {
    var id := if SHA256_PREFIX <= digest then digest[|SHA256_PREFIX|..] else digest;
    if |id| > 24 then id[..24] else id
  }

  function Extension(schema: Schema): string {
    if schema.OsvZip? then ".zip" else ".json"
  }

  function EntryFor(hex: Hex, content: string, schema: Schema): Entry {
    var digest := SHA256_PREFIX + hex(content);
    var id := SnapshotID(digest);
    Entry(id, digest, "snapshots/" + id + Extension(schema), |content|)
  }

  /** The manifest entries by ID: the new one, then the existing others, a later duplicate winning. */
  function ByID(entry: Entry, existing: seq<Entry>): map<string, Entry> {
    if existing == [] then map[entry.id := entry]
    else
      var last := existing[|existing| - 1];
      var earlier := ByID(entry, existing[..|existing| - 1]);
      if last.id == "" || last.id == entry.id then earlier else earlier[last.id := last]
  }

  function Listing(byID: map<string, Entry>, ids: seq<string>): (r: seq<Entry>)
    requires forall id :: id in ids ==> id in byID
    ensures |r| == |ids| && forall i :: 0 <= i < |ids| ==> r[i] == byID[ids[i]]
  {
    if ids == [] then [] else [byID[ids[0]]] + Listing(byID, ids[1..])
  }

  /** What a manifest must be after `entry` is added to `prior`, said without the algorithm: sorted by ID, the
      new entry listed and latest, every other listed ID kept, nothing invented. */
  ghost predicate IsUpdate(prior: Option<Manifest>, entry: Entry, m: Manifest) {
    var existing := if prior.Some? then prior.value.snapshots else [];
    && m.latest == entry.id
    && entry in m.snapshots
    && (forall i, j :: 0 <= i < j < |m.snapshots| ==> Less(m.snapshots[i].id, m.snapshots[j].id))
    && (forall e :: e in existing && e.id != "" ==> exists kept :: kept in m.snapshots && kept.id == e.id)
    && (forall e :: e in m.snapshots ==> e == entry || (e in existing && e.id != "" && e.id != entry.id))
  }

  lemma {:induction false} ByIDFacts(entry: Entry, existing: seq<Entry>)
    ensures var byID := ByID(entry, existing);
      && entry.id in byID && byID[entry.id] == entry
      && (forall e :: e in existing && e.id != "" ==> e.id in byID)
      && (forall id :: id in byID ==> byID[id].id == id)
      && (forall id :: id in byID && id != entry.id ==> id != "" && byID[id] in existing)
  {
    if existing != [] {
      var last, earlier := existing[|existing| - 1], existing[..|existing| - 1];
      ByIDFacts(entry, earlier);
      assert existing == earlier + [last];
    }
  }

  lemma ListedByID(byID: map<string, Entry>, ids: seq<string>, id: string)
    requires forall x :: x in ids <==> x in byID
    requires id in byID
    ensures byID[id] in Listing(byID, ids)
  {
    var i :| 0 <= i < |ids| && ids[i] == id;
    assert Listing(byID, ids)[i] == byID[id];
  }

  lemma ListingIsUpdate(prior: Option<Manifest>, entry: Entry, byID: map<string, Entry>, ids: seq<string>)
    requires byID == ByID(entry, if prior.Some? then prior.value.snapshots else [])
    requires Ascending(ids) && forall id :: id in ids <==> id in byID
    ensures IsUpdate(prior, entry, Manifest(entry.id, Listing(byID, ids)))
  {
    var existing := if prior.Some? then prior.value.snapshots else [];
    var listed := Listing(byID, ids);
    ByIDFacts(entry, existing);
    forall id | id in byID ensures byID[id] in listed {
      ListedByID(byID, ids, id);
    }
    forall e | e in existing && e.id != "" ensures exists kept :: kept in listed && kept.id == e.id {
      assert byID[e.id] in listed;
    }
    forall i, j | 0 <= i < j < |listed| ensures Less(listed[i].id, listed[j].id) {
      assert byID[ids[i]].id == ids[i] && byID[ids[j]].id == ids[j];
    }
    forall e | e in listed ensures e == entry || (e in existing && e.id != "" && e.id != entry.id) {
      var i :| 0 <= i < |listed| && listed[i] == e;
      assert ids[i] in byID && byID[ids[i]] == e;
    }
  }

  /** `updateManifest`, between reading the old manifest and writing the new one. */
  method UpdateManifest(prior: Option<Manifest>, entry: Entry) returns (m: Manifest)
    ensures IsUpdate(prior, entry, m)
  {
    var existing := if prior.Some? then prior.value.snapshots else [];
    var byID := map[entry.id := entry];
    for i := 0 to |existing|
      invariant byID == ByID(entry, existing[..i])
    {
      assert existing[..i + 1][..i] == existing[..i];
      if existing[i].id == "" || existing[i].id == entry.id { continue; }
      byID := byID[existing[i].id := existing[i]];
    }
    assert existing[..|existing|] == existing;
    ByIDFacts(entry, existing);
    var rest, ids: seq<string> := byID.Keys, [];
    while rest != {}
      invariant Distinct(ids) && forall id :: id in byID <==> id in rest || id in ids
      invariant forall id :: id in ids ==> id !in rest
      decreases rest
    {
      var id :| id in rest;
      rest, ids := rest - {id}, ids + [id];
    }
    SortDistinct(ids);
    var sorted := Sort(ids);
    m := Manifest(entry.id, Listing(byID, sorted));
    ListingIsUpdate(prior, entry, byID, sorted);
  }

  // ----- the shared cache and the processes -----

  datatype File = File(inode: nat, content: string)

  datatype Job = Job(content: string, schema: Schema, inode: nat)

  /** Where a publishing process stands. Every phase but the first is inside the lock. */
  datatype Phase =
    | Fetched
    | Locked
    | PathChecked
    | Linked
    | NameTaken
    | Opened(existing: File)
    | Placed(owned: bool)
    | Pinned(owned: bool)
    | ManifestRead(owned: bool, prior: Option<Manifest>)
    | RollingBack
    | Removing
    | Published
    | GivingUp(removed: bool)

  /** `files` and `manifest` remember the cache as it was when the lock was taken. */
  datatype Proc = Proc(job: Job, phase: Phase, files: map<string, File>, manifest: Option<Manifest>)

  datatype Cache = Cache(
    files: map<string, File>,
    manifest: Option<Manifest>,
    lock: Option<nat>,
    procs: map<nat, Proc>,
    published: set<string>,
    nextInode: nat)

  datatype Event =
    | Download(pid: nat, content: string, schema: Schema)
    | TryLock(pid: nat)
    | CheckPath(pid: nat)
    | Link(pid: nat)
    | ConfirmLink(pid: nat)
    | OpenExisting(pid: nat)
    | CompareExisting(pid: nat)
    | Pin(pid: nat)
    | ReadManifest(pid: nat)
    | WriteManifest(pid: nat, updated: Manifest)
    | TestOwnFile(pid: nat)
    | Remove(pid: nat)
    | RollBackFails(pid: nat)
    | StepFails(pid: nat)
    | Unlock(pid: nat)
    | Crash(pid: nat)

  ghost predicate Enabled(hex: Hex, c: Cache, e: Event) {
    if e.Download? then e.pid !in c.procs
    else
      && e.pid in c.procs
      && var p := c.procs[e.pid];
      match e
      case TryLock(_) => p.phase.Fetched? && c.lock.None?
      case CheckPath(_) => p.phase.Locked?
      case Link(_) => p.phase.PathChecked?
      case ConfirmLink(_) => p.phase.Linked?
      case OpenExisting(_) => p.phase.NameTaken?
      case CompareExisting(_) => p.phase.Opened?
      case Pin(_) => p.phase.Placed?
      case ReadManifest(_) => p.phase.Pinned?
      case WriteManifest(_, updated) =>
        p.phase.ManifestRead? && IsUpdate(p.phase.prior, EntryFor(hex, p.job.content, p.job.schema), updated)
      case TestOwnFile(_) => p.phase.RollingBack?
      case Remove(_) => p.phase.Removing?
      case RollBackFails(_) => p.phase.RollingBack? || p.phase.Removing?
      case StepFails(_) => !p.phase.RollingBack? && !p.phase.Removing? && !p.phase.Published? && !p.phase.GivingUp?
      case Unlock(_) => p.phase.Published? || p.phase.GivingUp?
      case Crash(_) => true
      case Download(_, _, _) => true
  }

  function At(c: Cache, pid: nat, phase: Phase): Cache
    requires pid in c.procs
  {
    c.(procs := c.procs[pid := c.procs[pid].(phase := phase)])
  }

  function Leave(c: Cache, pid: nat): Cache {
    c.(procs := c.procs - {pid}, lock := if c.lock == Some(pid) then None else c.lock)
  }

  function PathOf(hex: Hex, job: Job): string {
    EntryFor(hex, job.content, job.schema).path
  }

  /** `advisoryPlaceSnapshotNoReplace`: the link takes the name if it is free, and replaces nothing. */
  function LinkStep(hex: Hex, c: Cache, pid: nat): Cache
    requires pid in c.procs
  {
    var job := c.procs[pid].job;
    var path := PathOf(hex, job);
    if path in c.files then At(c, pid, NameTaken)
    else At(c.(files := c.files[path := File(job.inode, job.content)]), pid, Linked)
  }

  predicate IsOwn(hex: Hex, c: Cache, job: Job) {
    var path := PathOf(hex, job);
    path in c.files && c.files[path].inode == job.inode
  }

  /** After linking, the name must still lead to the own file. */
  function ConfirmStep(hex: Hex, c: Cache, pid: nat): Cache
    requires pid in c.procs
  {
    At(c, pid, if IsOwn(hex, c, c.procs[pid].job) then Placed(true) else RollingBack)
  }

  /** `advisoryVerifyExistingSnapshot`: the file under the taken name is opened, and only later compared. */
  function OpenStep(hex: Hex, c: Cache, pid: nat): Cache
    requires pid in c.procs
  {
    var path := PathOf(hex, c.procs[pid].job);
    At(c, pid, if path in c.files then Opened(c.files[path]) else GivingUp(true))
  }

  /** The opened file serves only with the size and the digest of the download. */
  function CompareStep(hex: Hex, c: Cache, pid: nat): Cache
    requires pid in c.procs && c.procs[pid].phase.Opened?
  {
    var job := c.procs[pid].job;
    var entry, content := EntryFor(hex, job.content, job.schema), c.procs[pid].phase.existing.content;
    var same := |content| == entry.sizeBytes && SHA256_PREFIX + hex(content) == entry.digest;
    At(c, pid, if same then Placed(false) else GivingUp(true))
  }

  /** `rollbackOwnedSnapshot` first asks whether the name still leads to the own file. */
  function TestStep(hex: Hex, c: Cache, pid: nat): Cache
    requires pid in c.procs
  {
    var job := c.procs[pid].job;
    At(c, pid, if IsOwn(hex, c, job) then Removing else GivingUp(PathOf(hex, job) !in c.files))
  }

  /** The removal itself goes by name and takes whatever lies there by then. */
  function RemoveStep(hex: Hex, c: Cache, pid: nat): Cache
    requires pid in c.procs
  {
    At(c.(files := c.files - {PathOf(hex, c.procs[pid].job)}), pid, GivingUp(true))
  }

  /** The placed file is this process's own, to be taken back if the publication fails. */
  predicate Owns(phase: Phase) {
    (phase.Placed? || phase.Pinned?) && phase.owned
  }

  /** `updateManifest`: the manifest is replaced as a whole. */
  function WriteStep(c: Cache, pid: nat, updated: Manifest): Cache
    requires pid in c.procs
  {
    At(c.(manifest := Some(updated), published := c.published + {updated.latest}), pid, Published)
  }

  /** Any step may fail: before placement nothing was touched; an owned file is rolled back. */
  function FailStep(c: Cache, pid: nat): Cache
    requires pid in c.procs
  {
    match c.procs[pid].phase
    case Fetched => Leave(c, pid)
    case Linked => At(c, pid, RollingBack)
    case Placed(true) => At(c, pid, RollingBack)
    case Pinned(true) => At(c, pid, RollingBack)
    case ManifestRead(true, _) => At(c, pid, RollingBack)
    case _ => At(c, pid, GivingUp(true))
  }

  function Step(hex: Hex, c: Cache, e: Event): Cache
    requires e.Download? || e.pid in c.procs
    requires e.CompareExisting? ==> c.procs[e.pid].phase.Opened?
  {
    match e
    case Download(pid, content, schema) =>
      c.(procs := c.procs[pid := Proc(Job(content, schema, c.nextInode), Fetched, map[], None)],
         nextInode := c.nextInode + 1)
    case TryLock(pid) =>
      c.(lock := Some(pid), procs := c.procs[pid := Proc(c.procs[pid].job, Locked, c.files, c.manifest)])
    case CheckPath(pid) => At(c, pid, PathChecked)
    case Link(pid) => LinkStep(hex, c, pid)
    case ConfirmLink(pid) => ConfirmStep(hex, c, pid)
    case OpenExisting(pid) => OpenStep(hex, c, pid)
    case CompareExisting(pid) => CompareStep(hex, c, pid)
    case Pin(pid) => At(c, pid, Pinned(Owns(c.procs[pid].phase)))
    case ReadManifest(pid) => At(c, pid, ManifestRead(Owns(c.procs[pid].phase), c.manifest))
    case WriteManifest(pid, updated) => WriteStep(c, pid, updated)
    case TestOwnFile(pid) => TestStep(hex, c, pid)
    case Remove(pid) => RemoveStep(hex, c, pid)
    case RollBackFails(pid) => At(c, pid, GivingUp(false))
    case StepFails(pid) => FailStep(c, pid)
    case Unlock(pid) => Leave(c, pid)
    case Crash(pid) => Leave(c, pid)
  }

  // ----- what every run keeps -----

  /** Each entry names an existing file with the entry's digest and size. */
  ghost predicate EntryHolds(hex: Hex, files: map<string, File>, e: Entry) {
    && e.path in files
    && SHA256_PREFIX + hex(files[e.path].content) == e.digest
    && |files[e.path].content| == e.sizeBytes
  }

  ghost predicate Consistent(hex: Hex, c: Cache) {
    c.manifest.Some? ==>
      && (forall e :: e in c.manifest.value.snapshots ==> EntryHolds(hex, c.files, e))
      && (exists e :: e in c.manifest.value.snapshots && e.id == c.manifest.value.latest)
  }

  ghost predicate Lists(c: Cache, id: string) {
    c.manifest.Some? && exists e :: e in c.manifest.value.snapshots && e.id == id
  }

  ghost predicate Named(c: Cache, path: string) {
    c.manifest.Some? && exists e :: e in c.manifest.value.snapshots && e.path == path
  }

  /** The snapshot lies under its name, as the one file added or as found. */
  ghost predicate InPlace(hex: Hex, c: Cache, p: Proc, owned: bool) {
    var entry := EntryFor(hex, p.job.content, p.job.schema);
    EntryHolds(hex, c.files, entry) &&
    if owned then entry.path !in p.files && c.files == p.files[entry.path := File(p.job.inode, p.job.content)]
    else c.files == p.files
  }

  /** The files a process inside the lock has added, relative to those it found there. */
  ghost predicate Working(hex: Hex, c: Cache, p: Proc) {
    var entry := EntryFor(hex, p.job.content, p.job.schema);
    var added := p.files[entry.path := File(p.job.inode, p.job.content)];
    match p.phase
    case Fetched => true
    case Locked => c.files == p.files && c.manifest == p.manifest
    case PathChecked => c.files == p.files && c.manifest == p.manifest
    case Linked => c.manifest == p.manifest && entry.path !in p.files && c.files == added
    case NameTaken => c.files == p.files && c.manifest == p.manifest && entry.path in p.files
    case Opened(existing) =>
      c.files == p.files && c.manifest == p.manifest && entry.path in c.files && c.files[entry.path] == existing
    case Placed(owned) => c.manifest == p.manifest && InPlace(hex, c, p, owned)
    case Pinned(owned) => c.manifest == p.manifest && InPlace(hex, c, p, owned)
    case ManifestRead(owned, prior) => c.manifest == p.manifest == prior && InPlace(hex, c, p, owned)
    case RollingBack => c.manifest == p.manifest && entry.path !in p.files && c.files == added
    case Removing => c.manifest == p.manifest && entry.path !in p.files && c.files == added
    case Published => Lists(c, entry.id)
    case GivingUp(removed) =>
      c.manifest == p.manifest && if removed then c.files == p.files else entry.path !in p.files && c.files == added
  }

  /** What was in the cache when the lock was taken was consistent too. */
  ghost predicate PastHolds(hex: Hex, p: Proc) {
    p.manifest.Some? ==> forall e :: e in p.manifest.value.snapshots ==> EntryHolds(hex, p.files, e)
  }

  ghost predicate Inv(hex: Hex, c: Cache) {
    && Consistent(hex, c)
    && (forall id :: id in c.published ==> id != "" && Lists(c, id))
    && (c.lock.Some? ==> c.lock.value in c.procs && !c.procs[c.lock.value].phase.Fetched?)
    && (forall pid :: pid in c.procs && !c.procs[pid].phase.Fetched? ==> c.lock == Some(pid))
    && (forall pid :: pid in c.procs ==> Working(hex, c, c.procs[pid]))
    && (forall pid :: pid in c.procs && !c.procs[pid].phase.Fetched? ==> PastHolds(hex, c.procs[pid]))
  }

  ghost predicate Init(hex: Hex, c: Cache) {
    Consistent(hex, c) && c.lock.None? && c.procs == map[] && c.published == {}
  }

  lemma EntryIDIsLong(hex: Hex, content: string, schema: Schema)
    requires HexDigits(hex)
    ensures |EntryFor(hex, content, schema).id| == 24
  {
    var digest := SHA256_PREFIX + hex(content);
    assert digest[..|SHA256_PREFIX|] == SHA256_PREFIX;
    assert digest[|SHA256_PREFIX|..] == hex(content);
  }

  /** Inside the lock there is one process; moving it along cannot disturb the others. */
  lemma MoveKeepsInv(hex: Hex, c: Cache, pid: nat, phase: Phase)
    requires Inv(hex, c) && c.lock == Some(pid) && !phase.Fetched?
    requires Working(hex, c, c.procs[pid].(phase := phase))
    ensures Inv(hex, At(c, pid, phase))
  {
    var next := At(c, pid, phase);
    forall q | q in next.procs ensures Working(hex, next, next.procs[q]) {
      if q != pid { assert c.procs[q].phase.Fetched?; }
    }
  }

  lemma LinkKeepsInv(hex: Hex, c: Cache, pid: nat)
    requires Inv(hex, c) && pid in c.procs && c.procs[pid].phase.PathChecked?
    ensures Inv(hex, LinkStep(hex, c, pid))
  {
    var p := c.procs[pid];
    var path := PathOf(hex, p.job);
    if path in c.files {
      MoveKeepsInv(hex, c, pid, NameTaken);
    } else {
      var next := At(c.(files := c.files[path := File(p.job.inode, p.job.content)]), pid, Linked);
      assert Consistent(hex, next);
      forall q | q in next.procs ensures Working(hex, next, next.procs[q]) {
        if q != pid { assert c.procs[q].phase.Fetched?; }
      }
    }
  }

  lemma ConfirmKeepsInv(hex: Hex, c: Cache, pid: nat)
    requires Inv(hex, c) && pid in c.procs && c.procs[pid].phase.Linked?
    ensures Inv(hex, ConfirmStep(hex, c, pid)) && ConfirmStep(hex, c, pid).procs[pid].phase == Placed(true)
  {
    MoveKeepsInv(hex, c, pid, Placed(true));
  }

  lemma OpenKeepsInv(hex: Hex, c: Cache, pid: nat)
    requires Inv(hex, c) && pid in c.procs && c.procs[pid].phase.NameTaken?
    ensures Inv(hex, OpenStep(hex, c, pid))
  {
    var path := PathOf(hex, c.procs[pid].job);
    MoveKeepsInv(hex, c, pid, if path in c.files then Opened(c.files[path]) else GivingUp(true));
  }

  /** The file that was opened is still the file under the name when the comparison is done. */
  lemma CompareKeepsInv(hex: Hex, c: Cache, pid: nat)
    requires Inv(hex, c) && pid in c.procs && c.procs[pid].phase.Opened?
    ensures Inv(hex, CompareStep(hex, c, pid))
  {
    MoveKeepsInv(hex, c, pid, CompareStep(hex, c, pid).procs[pid].phase);
  }

  lemma UpdateHolds(hex: Hex, c: Cache, next: Cache, p: Proc, updated: Manifest)
    requires Consistent(hex, c) && p.phase.ManifestRead? && Working(hex, c, p)
    requires IsUpdate(p.phase.prior, EntryFor(hex, p.job.content, p.job.schema), updated)
    requires next.manifest == Some(updated) && next.files == c.files
    ensures Consistent(hex, next) && Lists(next, EntryFor(hex, p.job.content, p.job.schema).id)
    ensures Working(hex, next, p.(phase := Published))
  {
    hide EntryHolds, EntryFor;
    var entry := EntryFor(hex, p.job.content, p.job.schema);
    assert entry in updated.snapshots && entry.id == updated.latest;
  }

  lemma PastStays(hex: Hex, p: Proc, phase: Phase)
    requires PastHolds(hex, p)
    ensures PastHolds(hex, p.(phase := phase))
  {
  }

  lemma FetchedWorks(hex: Hex, c: Cache, p: Proc)
    requires p.phase.Fetched?
    ensures Working(hex, c, p)
  {
  }

  lemma UpdateKeepsListed(c: Cache, entry: Entry, updated: Manifest, id: string)
    requires Lists(c, id) && id != "" && IsUpdate(c.manifest, entry, updated)
    ensures Lists(c.(manifest := Some(updated)), id)
  {
    var e :| e in c.manifest.value.snapshots && e.id == id;
  }

  /** A manifest write loses no published ID. */
  lemma PublishedStayListed(c: Cache, next: Cache, entry: Entry, updated: Manifest)
    requires IsUpdate(c.manifest, entry, updated) && entry.id != "" && next.manifest == Some(updated)
    requires forall id | id in c.published :: id != "" && Lists(c, id)
    requires next.published <= c.published + {entry.id} && Lists(next, entry.id)
    ensures forall id | id in next.published :: id != "" && Lists(next, id)
  {
    hide IsUpdate;
    forall id | id in next.published ensures id != "" && Lists(next, id) {
      if id != entry.id { UpdateKeepsListed(c, entry, updated, id); }
    }
  }

  lemma LatestOfUpdate(prior: Option<Manifest>, entry: Entry, m: Manifest)
    requires IsUpdate(prior, entry, m)
    ensures m.latest == entry.id
  {
  }

  /** Inside the lock the manifest that was read is still the manifest. */
  lemma PriorIsCurrent(hex: Hex, c: Cache, p: Proc)
    requires p.phase.ManifestRead? && Working(hex, c, p)
    ensures p.phase.prior == c.manifest
  {
  }

  lemma WriteKeepsInv(hex: Hex, c: Cache, pid: nat, updated: Manifest)
    requires HexDigits(hex) && Inv(hex, c) && pid in c.procs && c.procs[pid].phase.ManifestRead?
    requires var p := c.procs[pid]; IsUpdate(p.phase.prior, EntryFor(hex, p.job.content, p.job.schema), updated)
    ensures Inv(hex, WriteStep(c, pid, updated))
  {
    var p := c.procs[pid];
    var entry := EntryFor(hex, p.job.content, p.job.schema);
    var next := WriteStep(c, pid, updated);
    hide IsUpdate, EntryFor, Consistent, Lists, Working, PastHolds;
    PriorIsCurrent(hex, c, p);
    EntryIDIsLong(hex, p.job.content, p.job.schema);
    LatestOfUpdate(c.manifest, entry, updated);
    UpdateHolds(hex, c, next, p, updated);
    assert PastHolds(hex, next.procs[pid]) by { PastStays(hex, p, Published); }
    PublishedStayListed(c, next, entry, updated);
    forall q | q in next.procs ensures Working(hex, next, next.procs[q]) {
      if q != pid { FetchedWorks(hex, next, c.procs[q]); }
    }
  }

  lemma TestKeepsInv(hex: Hex, c: Cache, pid: nat)
    requires Inv(hex, c) && pid in c.procs && c.procs[pid].phase.RollingBack?
    ensures Inv(hex, TestStep(hex, c, pid)) && TestStep(hex, c, pid).procs[pid].phase == Removing
  {
    MoveKeepsInv(hex, c, pid, Removing);
  }

  /** Between the test and the removal nobody else touched the name: the files are back as they were found. */
  lemma RemoveKeepsInv(hex: Hex, c: Cache, pid: nat)
    requires Inv(hex, c) && pid in c.procs && c.procs[pid].phase.Removing?
    ensures Inv(hex, RemoveStep(hex, c, pid))
    ensures RemoveStep(hex, c, pid).files == c.procs[pid].files
  {
    var p := c.procs[pid];
    var next := RemoveStep(hex, c, pid);
    assert c.files - {PathOf(hex, p.job)} == p.files;
    forall q | q in next.procs ensures Working(hex, next, next.procs[q]) {
      if q != pid { assert c.procs[q].phase.Fetched?; }
    }
  }

  lemma LeaveKeepsInv(hex: Hex, c: Cache, pid: nat)
    requires Inv(hex, c) && pid in c.procs
    ensures Inv(hex, Leave(c, pid))
  {
    var next := Leave(c, pid);
    forall q | q in next.procs ensures Working(hex, next, next.procs[q]) {
      assert Working(hex, c, c.procs[q]);
    }
  }

  lemma FailKeepsInv(hex: Hex, c: Cache, pid: nat)
    requires Inv(hex, c) && Enabled(hex, c, StepFails(pid))
    ensures Inv(hex, FailStep(c, pid))
  {
    match c.procs[pid].phase {
      case Fetched => LeaveKeepsInv(hex, c, pid);
      case Linked => MoveKeepsInv(hex, c, pid, RollingBack);
      case Placed(owned) => MoveKeepsInv(hex, c, pid, if owned then RollingBack else GivingUp(true));
      case Pinned(owned) => MoveKeepsInv(hex, c, pid, if owned then RollingBack else GivingUp(true));
      case ManifestRead(owned, _) => MoveKeepsInv(hex, c, pid, if owned then RollingBack else GivingUp(true));
      case _ => MoveKeepsInv(hex, c, pid, GivingUp(true));
    }
  }

  lemma TryLockKeepsInv(hex: Hex, c: Cache, pid: nat)
    requires Inv(hex, c) && Enabled(hex, c, TryLock(pid))
    ensures Inv(hex, Step(hex, c, TryLock(pid)))
  {
    var next := Step(hex, c, TryLock(pid));
    forall q | q in next.procs ensures Working(hex, next, next.procs[q]) {
      if q != pid { assert c.procs[q].phase.Fetched?; }
    }
  }

  lemma DownloadKeepsInv(hex: Hex, c: Cache, pid: nat, content: string, schema: Schema)
    requires Inv(hex, c) && pid !in c.procs
    ensures Inv(hex, Step(hex, c, Download(pid, content, schema)))
  {
    var next := Step(hex, c, Download(pid, content, schema));
    forall q | q in next.procs ensures Working(hex, next, next.procs[q]) {
      if q != pid { assert Working(hex, c, c.procs[q]); }
    }
  }

  lemma StepKeepsInv(hex: Hex, c: Cache, e: Event)
    requires HexDigits(hex) && Inv(hex, c) && Enabled(hex, c, e)
    ensures Inv(hex, Step(hex, c, e))
  {
    match e {
      case Download(pid, content, schema) => DownloadKeepsInv(hex, c, pid, content, schema);
      case TryLock(pid) => TryLockKeepsInv(hex, c, pid);
      case CheckPath(pid) => MoveKeepsInv(hex, c, pid, PathChecked);
      case Link(pid) => LinkKeepsInv(hex, c, pid);
      case ConfirmLink(pid) => ConfirmKeepsInv(hex, c, pid);
      case OpenExisting(pid) => OpenKeepsInv(hex, c, pid);
      case CompareExisting(pid) => CompareKeepsInv(hex, c, pid);
      case Pin(pid) => MoveKeepsInv(hex, c, pid, Pinned(c.procs[pid].phase.owned));
      case ReadManifest(pid) => MoveKeepsInv(hex, c, pid, ManifestRead(c.procs[pid].phase.owned, c.manifest));
      case WriteManifest(pid, updated) => WriteKeepsInv(hex, c, pid, updated);
      case TestOwnFile(pid) => TestKeepsInv(hex, c, pid);
      case Remove(pid) => RemoveKeepsInv(hex, c, pid);
      case RollBackFails(pid) => MoveKeepsInv(hex, c, pid, GivingUp(false));
      case StepFails(pid) => FailKeepsInv(hex, c, pid);
      case Unlock(pid) => LeaveKeepsInv(hex, c, pid);
      case Crash(pid) => LeaveKeepsInv(hex, c, pid);
    }
  }

  // ----- whole runs -----

  /** A run of the shared cache: states one event apart. */
  ghost predicate IsRun(hex: Hex, states: seq<Cache>, events: seq<Event>) {
    && |states| == |events| + 1
    && Init(hex, states[0])
    && forall i :: 0 <= i < |events| ==>
      Enabled(hex, states[i], events[i]) && states[i + 1] == Step(hex, states[i], events[i])
  }

  lemma {:induction false} RunKeepsInv(hex: Hex, states: seq<Cache>, events: seq<Event>, n: nat)
    requires HexDigits(hex) && IsRun(hex, states, events) && n < |states|
    ensures Inv(hex, states[n])
  {
    if n > 0 {
      RunKeepsInv(hex, states, events, n - 1);
      StepKeepsInv(hex, states[n - 1], events[n - 1]);
    }
  }

  /** In every interleaving, with failures and crashes anywhere, the manifest that a reader finds names only
      files that are there with the recorded digest and size, and lists its latest snapshot. */
  lemma ManifestAlwaysHolds(hex: Hex, states: seq<Cache>, events: seq<Event>, n: nat)
    requires HexDigits(hex) && IsRun(hex, states, events) && n < |states|
    ensures Consistent(hex, states[n])
  {
    RunKeepsInv(hex, states, events, n);
  }

  lemma {:induction false} PublishedGrows(hex: Hex, states: seq<Cache>, events: seq<Event>, i: nat, j: nat)
    requires IsRun(hex, states, events) && i <= j < |states|
    ensures states[i].published <= states[j].published
    decreases j
  {
    if i < j {
      PublishedGrows(hex, states, events, i, j - 1);
      assert states[j] == Step(hex, states[j - 1], events[j - 1]);
    }
  }

  /** An ID whose manifest write succeeded at step i is listed in every later state, even if later
      publications share its 24 digits. */
  lemma NoIDIsLost(hex: Hex, states: seq<Cache>, events: seq<Event>, i: nat, j: nat)
    requires HexDigits(hex) && IsRun(hex, states, events) && i < |events| && events[i].WriteManifest? &&
      i < j < |states|
    ensures Lists(states[j], events[i].updated.latest)
  {
    assert states[i + 1] == Step(hex, states[i], events[i]);
    PublishedGrows(hex, states, events, i + 1, j);
    RunKeepsInv(hex, states, events, j);
  }

  /** The removal of a rollback takes no file that the manifest names: it leaves exactly the files found at lock
      time. */
  lemma RollbackSparesTheManifest(hex: Hex, states: seq<Cache>, events: seq<Event>, n: nat, path: string)
    requires HexDigits(hex) && IsRun(hex, states, events) && n < |events| && events[n].Remove?
    requires Named(states[n], path)
    ensures path in states[n].files && path in states[n + 1].files
    ensures states[n + 1].files[path] == states[n].files[path]
    ensures Named(states[n + 1], path)
  {
    RunKeepsInv(hex, states, events, n);
    RunKeepsInv(hex, states, events, n + 1);
  }

  lemma StepKeepsFile(hex: Hex, s: Cache, event: Event, path: string)
    requires Enabled(hex, s, event) && path in s.files && path in Step(hex, s, event).files
    ensures Step(hex, s, event).files[path] == s.files[path]
  {
  }

  /** A named file is never replaced: as long as it stays, a path keeps its file. */
  lemma {:induction false} FilesAreNeverReplaced(hex: Hex, states: seq<Cache>, events: seq<Event>, i: nat, j: nat,
      path: string)
    requires IsRun(hex, states, events) && i <= j < |states|
    requires forall k :: i <= k <= j ==> path in states[k].files
    ensures states[j].files[path] == states[i].files[path]
    decreases j
  {
    hide Step;
    if i < j {
      FilesAreNeverReplaced(hex, states, events, i, j - 1, path);
      assert states[j] == Step(hex, states[j - 1], events[j - 1]);
      StepKeepsFile(hex, states[j - 1], events[j - 1], path);
    }
  }

  /** A publication that gives up leaves no trace: files and manifest are exactly what they were when it took the lock,
      or, when removing its own file failed, that one file is added. */
  lemma GivingUpLeavesNoTrace(hex: Hex, states: seq<Cache>, events: seq<Event>, n: nat, pid: nat)
    requires HexDigits(hex) && IsRun(hex, states, events) && n < |states|
    requires pid in states[n].procs && states[n].procs[pid].phase.GivingUp?
    ensures states[n].manifest == states[n].procs[pid].manifest
    ensures var p := states[n].procs[pid];
      var path := PathOf(hex, p.job);
      if p.phase.removed then states[n].files == p.files
      else path !in p.files && states[n].files == p.files[path := File(p.job.inode, p.job.content)]
  {
    RunKeepsInv(hex, states, events, n);
  }

  /** At most one process is between taking and releasing the lock. */
  lemma MutualExclusion(hex: Hex, states: seq<Cache>, events: seq<Event>, n: nat, p: nat, q: nat)
    requires HexDigits(hex) && IsRun(hex, states, events) && n < |states|
    requires p in states[n].procs && q in states[n].procs
    requires !states[n].procs[p].phase.Fetched? && !states[n].procs[q].phase.Fetched?
    ensures p == q
  {
    RunKeepsInv(hex, states, events, n);
  }

  lemma StaleUpdate(prior: Option<Manifest>, first: Entry, second: Entry, updated: Manifest)
    requires IsUpdate(prior, second, updated) && first.id != second.id
    requires prior.Some? ==> forall e <- prior.value.snapshots :: e.id != first.id
    ensures forall e <- updated.snapshots :: e.id != first.id
  {
  }

  /** Why the lock is there: if two processes came to read the manifest at once, every step they take is a step of the
      protocol, and yet the ID that the first has published is gone when the second has written. */
  lemma TwoInsideLoseAnID(hex: Hex, c: Cache, p: nat, q: nat, first: Manifest, second: Manifest)
    requires p != q && p in c.procs && q in c.procs && c.procs[p].phase.Pinned? && c.procs[q].phase.Pinned?
    requires var entry := EntryFor(hex, c.procs[p].job.content, c.procs[p].job.schema);
      entry.id != EntryFor(hex, c.procs[q].job.content, c.procs[q].job.schema).id && !Lists(c, entry.id) &&
      IsUpdate(c.manifest, entry, first)
    requires IsUpdate(c.manifest, EntryFor(hex, c.procs[q].job.content, c.procs[q].job.schema), second)
    ensures var c1 := Step(hex, c, ReadManifest(p));
      var c2 := Step(hex, c1, ReadManifest(q));
      var c3 := Step(hex, c2, WriteManifest(p, first));
      var c4 := Step(hex, c3, WriteManifest(q, second));
      Enabled(hex, c, ReadManifest(p)) && Enabled(hex, c1, ReadManifest(q)) &&
      Enabled(hex, c2, WriteManifest(p, first)) && Enabled(hex, c3, WriteManifest(q, second)) &&
      first.latest in c4.published && !Lists(c4, first.latest)
  {
    hide IsUpdate, EntryFor;
    var entry := EntryFor(hex, c.procs[p].job.content, c.procs[p].job.schema);
    LatestOfUpdate(c.manifest, entry, first);
    StaleUpdate(c.manifest, entry, EntryFor(hex, c.procs[q].job.content, c.procs[q].job.schema), second);
  }

  // ----- a publication that nobody disturbs -----

  /** The entry of a download: its whole digest, and a name from the first 24 digits of it. */
  lemma EntryShape(hex: Hex, content: string, schema: Schema)
    requires HexDigits(hex)
    ensures var entry := EntryFor(hex, content, schema);
      entry.digest == "sha256:" + hex(content) && entry.id == hex(content)[..24] && entry.sizeBytes == |content| &&
      entry.path == "snapshots/" + hex(content)[..24] + (if schema.OsvZip? then ".zip" else ".json")
  {
    var digest := SHA256_PREFIX + hex(content);
    assert digest[..|SHA256_PREFIX|] == SHA256_PREFIX;
    assert digest[|SHA256_PREFIX|..] == hex(content);
  }

  ghost predicate CanRun(hex: Hex, c: Cache, events: seq<Event>)
    decreases |events|
  {
    events == [] || (Enabled(hex, c, events[0]) && CanRun(hex, Step(hex, c, events[0]), events[1..]))
  }

  ghost function After(hex: Hex, c: Cache, events: seq<Event>): Cache
    requires CanRun(hex, c, events)
    decreases |events|
  {
    if events == [] then c else After(hex, Step(hex, c, events[0]), events[1..])
  }

  lemma RunsOn(hex: Hex, c: Cache, e: Event, events: seq<Event>)
    requires Enabled(hex, c, e) && CanRun(hex, Step(hex, c, e), events)
    ensures CanRun(hex, c, [e] + events) && After(hex, c, [e] + events) == After(hex, Step(hex, c, e), events)
  {
    hide Enabled, Step;
    assert ([e] + events)[1..] == events;
  }

  /** From a placed file on, the manifest is read and written. */
  lemma PlacedPublishes(hex: Hex, c: Cache, pid: nat, updated: Manifest)
    requires pid in c.procs && c.procs[pid].phase.Placed?
    requires IsUpdate(c.manifest, EntryFor(hex, c.procs[pid].job.content, c.procs[pid].job.schema), updated)
    ensures var events := [Pin(pid), ReadManifest(pid), WriteManifest(pid, updated)];
      CanRun(hex, c, events) &&
      var d := After(hex, c, events);
      d.files == c.files && d.manifest == Some(updated) && pid in d.procs && d.procs[pid].phase.Published?
  {
    hide IsUpdate;
    var c1 := Step(hex, c, Pin(pid));
    var c2 := Step(hex, c1, ReadManifest(pid));
    RunsOn(hex, c2, WriteManifest(pid, updated), []);
    RunsOn(hex, c1, ReadManifest(pid), [WriteManifest(pid, updated)]);
    RunsOn(hex, c, Pin(pid), [ReadManifest(pid), WriteManifest(pid, updated)]);
    assert [WriteManifest(pid, updated)] + [] == [WriteManifest(pid, updated)];
    assert [ReadManifest(pid)] + [WriteManifest(pid, updated)] == [ReadManifest(pid), WriteManifest(pid, updated)];
    assert [Pin(pid)] + [ReadManifest(pid), WriteManifest(pid, updated)] ==
      [Pin(pid), ReadManifest(pid), WriteManifest(pid, updated)];
  }

  /** A process that takes the free lock and is not disturbed comes to the link. */
  lemma ComesToTheLink(hex: Hex, c: Cache, pid: nat)
    requires pid in c.procs && c.procs[pid].phase.Fetched? && c.lock.None?
    ensures Enabled(hex, c, TryLock(pid))
    ensures var c1 := Step(hex, c, TryLock(pid));
      Enabled(hex, c1, CheckPath(pid)) &&
      var c2 := Step(hex, c1, CheckPath(pid));
      Enabled(hex, c2, Link(pid)) && c2.files == c.files && c2.manifest == c.manifest && pid in c2.procs &&
      c2.procs[pid].job == c.procs[pid].job
  {
  }

  lemma FreeNamePublishes(hex: Hex, c: Cache, pid: nat, updated: Manifest)
    requires pid in c.procs && c.procs[pid].phase.PathChecked? && PathOf(hex, c.procs[pid].job) !in c.files
    requires IsUpdate(c.manifest, EntryFor(hex, c.procs[pid].job.content, c.procs[pid].job.schema), updated)
    ensures var job, linked := c.procs[pid].job, Step(hex, c, Link(pid));
      var events := [ConfirmLink(pid)] + [Pin(pid), ReadManifest(pid), WriteManifest(pid, updated)];
      CanRun(hex, linked, events) &&
      var d := After(hex, linked, events);
      d.files == c.files[PathOf(hex, job) := File(job.inode, job.content)] && d.manifest == Some(updated) &&
      pid in d.procs && d.procs[pid].phase.Published?
  {
    hide IsUpdate, CanRun, After, EntryFor;
    var linked := Step(hex, c, Link(pid));
    var placed := Step(hex, linked, ConfirmLink(pid));
    PlacedPublishes(hex, placed, pid, updated);
    RunsOn(hex, linked, ConfirmLink(pid), [Pin(pid), ReadManifest(pid), WriteManifest(pid, updated)]);
  }

  lemma LinkedFirst(hex: Hex, c: Cache, pid: nat, events: seq<Event>)
    requires pid in c.procs && c.procs[pid].phase.Fetched? && c.lock.None?
    requires var c2 := Step(hex, Step(hex, c, TryLock(pid)), CheckPath(pid));
      CanRun(hex, Step(hex, c2, Link(pid)), events)
    ensures var c2 := Step(hex, Step(hex, c, TryLock(pid)), CheckPath(pid));
      CanRun(hex, c, [TryLock(pid), CheckPath(pid), Link(pid)] + events) &&
      After(hex, c, [TryLock(pid), CheckPath(pid), Link(pid)] + events) == After(hex, Step(hex, c2, Link(pid)), events)
  {
    hide CanRun, After;
    ComesToTheLink(hex, c, pid);
    var c1 := Step(hex, c, TryLock(pid));
    var c2 := Step(hex, c1, CheckPath(pid));
    RunsOn(hex, c2, Link(pid), events);
    RunsOn(hex, c1, CheckPath(pid), [Link(pid)] + events);
    RunsOn(hex, c, TryLock(pid), [CheckPath(pid)] + ([Link(pid)] + events));
    assert [TryLock(pid)] + ([CheckPath(pid)] + ([Link(pid)] + events)) ==
      [TryLock(pid), CheckPath(pid), Link(pid)] + events;
  }

  ghost predicate SameFile(hex: Hex, job: Job, file: File) {
    |file.content| == |job.content| && hex(file.content) == hex(job.content)
  }

  lemma SameDigest(a: string, b: string)
    ensures SHA256_PREFIX + a == SHA256_PREFIX + b <==> a == b
  {
    assert (SHA256_PREFIX + a)[|SHA256_PREFIX|..] == a && (SHA256_PREFIX + b)[|SHA256_PREFIX|..] == b;
  }

  lemma NothingRuns(hex: Hex, c: Cache)
    ensures CanRun(hex, c, []) && After(hex, c, []) == c
  {
  }

  lemma TakenNameDecides(hex: Hex, c: Cache, pid: nat, updated: Manifest)
    requires pid in c.procs && c.procs[pid].phase.PathChecked? && PathOf(hex, c.procs[pid].job) in c.files
    requires IsUpdate(c.manifest, EntryFor(hex, c.procs[pid].job.content, c.procs[pid].job.schema), updated)
    ensures var job, linked := c.procs[pid].job, Step(hex, c, Link(pid));
      var comparing := [OpenExisting(pid), CompareExisting(pid)];
      if SameFile(hex, job, c.files[PathOf(hex, job)]) then
        var events := comparing + [Pin(pid), ReadManifest(pid), WriteManifest(pid, updated)];
        CanRun(hex, linked, events) &&
        var d := After(hex, linked, events);
        d.files == c.files && d.manifest == Some(updated) && pid in d.procs && d.procs[pid].phase.Published?
      else
        CanRun(hex, linked, comparing) &&
        var d := After(hex, linked, comparing);
        d.files == c.files && d.manifest == c.manifest && pid in d.procs && d.procs[pid].phase.GivingUp?
  {
    hide IsUpdate, CanRun, After;
    var job, linked := c.procs[pid].job, Step(hex, c, Link(pid));
    var found := Step(hex, linked, OpenExisting(pid));
    var compared := Step(hex, found, CompareExisting(pid));
    var file := c.files[PathOf(hex, job)];
    SameDigest(hex(file.content), hex(job.content));
    var publishing := [Pin(pid), ReadManifest(pid), WriteManifest(pid, updated)];
    if SameFile(hex, job, file) {
      PlacedPublishes(hex, compared, pid, updated);
      RunsOn(hex, found, CompareExisting(pid), publishing);
      RunsOn(hex, linked, OpenExisting(pid), [CompareExisting(pid)] + publishing);
      assert [OpenExisting(pid)] + ([CompareExisting(pid)] + publishing) ==
        [OpenExisting(pid), CompareExisting(pid)] + publishing;
    } else {
      NothingRuns(hex, compared);
      RunsOn(hex, found, CompareExisting(pid), []);
      RunsOn(hex, linked, OpenExisting(pid), [CompareExisting(pid)] + []);
      assert [OpenExisting(pid)] + ([CompareExisting(pid)] + []) == [OpenExisting(pid), CompareExisting(pid)];
    }
  }

  /** What the process finds under its name decides: nothing, and its file is placed there and published; a file of the
      size and digest of the download, and that one is published; any other, and it gives up and changes nothing. */
  lemma PublishesExactlyWhen(hex: Hex, c: Cache, pid: nat, updated: Manifest)
    requires pid in c.procs && c.procs[pid].phase.Fetched? && c.lock.None?
    requires IsUpdate(c.manifest, EntryFor(hex, c.procs[pid].job.content, c.procs[pid].job.schema), updated)
    ensures var job := c.procs[pid].job;
      var path := PathOf(hex, job);
      var linking := [TryLock(pid), CheckPath(pid), Link(pid)];
      var publishing := [Pin(pid), ReadManifest(pid), WriteManifest(pid, updated)];
      if path !in c.files then
        var events := linking + ([ConfirmLink(pid)] + publishing);
        CanRun(hex, c, events) &&
        var d := After(hex, c, events);
        d.files == c.files[path := File(job.inode, job.content)] && d.manifest == Some(updated) &&
        pid in d.procs && d.procs[pid].phase.Published?
      else if |c.files[path].content| == |job.content| && hex(c.files[path].content) == hex(job.content) then
        var events := linking + ([OpenExisting(pid), CompareExisting(pid)] + publishing);
        CanRun(hex, c, events) &&
        var d := After(hex, c, events);
        d.files == c.files && d.manifest == Some(updated) && pid in d.procs && d.procs[pid].phase.Published?
      else
        var events := linking + [OpenExisting(pid), CompareExisting(pid)];
        CanRun(hex, c, events) &&
        var d := After(hex, c, events);
        d.files == c.files && d.manifest == c.manifest && pid in d.procs && d.procs[pid].phase.GivingUp?
  {
    hide IsUpdate, CanRun, After, EntryFor;
    var job := c.procs[pid].job;
    ComesToTheLink(hex, c, pid);
    var c1 := Step(hex, c, TryLock(pid));
    var c2 := Step(hex, c1, CheckPath(pid));
    if PathOf(hex, job) !in c.files {
      FreeNamePublishes(hex, c2, pid, updated);
      LinkedFirst(hex, c, pid, [ConfirmLink(pid)] + [Pin(pid), ReadManifest(pid), WriteManifest(pid, updated)]);
    } else {
      TakenNameDecides(hex, c2, pid, updated);
      var comparing := [OpenExisting(pid), CompareExisting(pid)];
      if SameFile(hex, job, c.files[PathOf(hex, job)]) {
        LinkedFirst(hex, c, pid, comparing + [Pin(pid), ReadManifest(pid), WriteManifest(pid, updated)]);
      } else {
        LinkedFirst(hex, c, pid, comparing);
      }
    }
  }
}
