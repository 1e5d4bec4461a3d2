/** internal/analysis/cache_storage.go: looking up and storing reports in a directory that many processes share.
    A report goes into an object named by its digest; a pointer per key names the object. Every write is atomic,
    and a process may stop between any two steps. */
module AnalysisCache {
  import opened Results
  import opened CachePayload

  datatype Entry = Entry(keyLabel: string, key: string, input: string)

  datatype Pointer = Pointer(input: string, target: string)

  /** What reading a file yields; `Garbage` does not parse. */
  datatype Read<+T> = Missing | Unreadable | Garbage | Found(value: T)

  datatype Reason =
    | DefaultLocalUntrusted
    | PointerCorrupt
    | InputChanged
    | ObjectMissing
    | ObjectReadError
    | ObjectCorrupt

  datatype Counters = Counters(hits: nat, misses: nat, writes: nat, invalidations: seq<(string, Reason)>)

  datatype Settings = Settings(enabled: bool, cacheable: bool, readOnly: bool, rejectReadHits: bool)

  datatype Answer = Skipped | Error | Miss | Hit(report: Report)

  datatype Progress = Stopped(answer: Answer) | Following(target: string)

  const NO_COUNTS := Counters(0, 0, 0, [])

  predicate InUse(settings: Settings) {
    settings.enabled && settings.cacheable
  }

  function CountMiss(c: Counters): Counters {
    c.(misses := c.misses + 1)
  }

  function CountInvalid(c: Counters, entry: Entry, reason: Reason): Counters {
    c.(misses := c.misses + 1, invalidations := c.invalidations + [(entry.keyLabel, reason)])
  }

  /** A lookup up to the pointer; `present` is the answer of the existence test for untrusted caches. */
  function FollowPointer(settings: Settings, entry: Entry, present: Read<()>, pointer: Read<Pointer>,
      c: Counters): (Counters, Progress) {
    if !InUse(settings) then (c, Stopped(Skipped))
    else if settings.rejectReadHits then
      match present
      case Unreadable => (c, Stopped(Error))
      case Missing => (CountMiss(c), Stopped(Miss))
      case _ => (CountInvalid(c, entry, DefaultLocalUntrusted), Stopped(Miss))
    else
      match pointer
      case Missing => (CountMiss(c), Stopped(Miss))
      case Unreadable => (c, Stopped(Error))
      case Garbage => (CountInvalid(c, entry, PointerCorrupt), Stopped(Miss))
      case Found(p) =>
        if p.input != entry.input then (CountInvalid(c, entry, InputChanged), Stopped(Miss))
        else (c, Following(p.target))
  }

  /** The rest of the lookup. */
  function OpenObject(entry: Entry, target: Read<Payload>, c: Counters): (Counters, Answer) {
    match target
    case Missing => (CountInvalid(c, entry, ObjectMissing), Miss)
    case Unreadable => (CountInvalid(c, entry, ObjectReadError), Miss)
    case Garbage => (CountInvalid(c, entry, ObjectCorrupt), Miss)
    case Found(payload) =>
      match Restored(payload)
      case Some(report) => (c.(hits := c.hits + 1), Hit(report))
      case None => (CountInvalid(c, entry, ObjectCorrupt), Miss)
  }

  /** The hash of the serialized payload. */
  type Digest = Payload -> string

  ghost predicate Injective(digest: Digest) {
    forall p, q :: digest(p) == digest(q) ==> p == q
  }

  function Serialized(r: Report): Payload {
    Transported(PayloadOf(r))
  }

  /** The answer of a lookup over what the files read as. */
  function LookedUp(settings: Settings, entry: Entry, present: Read<()>, pointer: Read<Pointer>,
      objects: string -> Read<Payload>, c: Counters): (Counters, Answer) {
    var (counted, progress) := FollowPointer(settings, entry, present, pointer, c);
    match progress
    case Stopped(early) => (counted, early)
    case Following(target) => OpenObject(entry, objects(target), counted)
  }

  class Cache {
    const settings: Settings
    var hits: nat
    var misses: nat
    var writes: nat
    var invalidations: seq<(string, Reason)>

    constructor (settings: Settings)
      ensures this.settings == settings && Metadata() == NO_COUNTS
    {
      this.settings := settings;
      hits, misses, writes, invalidations := 0, 0, 0, [];
    }

    function Metadata(): Counters
      reads this
    {
      Counters(hits, misses, writes, invalidations)
    }

    method Invalidate(entry: Entry, reason: Reason)
      modifies this
      ensures Metadata() == CountInvalid(old(Metadata()), entry, reason)
    {
      misses := misses + 1;
      invalidations := invalidations + [(entry.keyLabel, reason)];
    }

    /** `rejectDefaultCacheRead`. */
    method RejectDefaultRead(entry: Entry, present: Read<()>) returns (rejected: bool, failed: bool)
      modifies this
      ensures rejected == (settings.rejectReadHits && !present.Unreadable?)
      ensures failed == (settings.rejectReadHits && present.Unreadable?)
      ensures Metadata() ==
        if !rejected then old(Metadata())
        else if present.Missing? then CountMiss(old(Metadata()))
        else CountInvalid(old(Metadata()), entry, DefaultLocalUntrusted)
    {
      if !settings.rejectReadHits { return false, false; }
      if present.Unreadable? { return false, true; }
      misses := misses + 1;
      if !present.Missing? { invalidations := invalidations + [(entry.keyLabel, DefaultLocalUntrusted)]; }
      rejected, failed := true, false;
    }

    /** `lookup`; the object is read after the pointer. */
    method Lookup(entry: Entry, present: Read<()>, pointer: Read<Pointer>, objects: string -> Read<Payload>)
        returns (answer: Answer)
      modifies this
      ensures (Metadata(), answer) == LookedUp(settings, entry, present, pointer, objects, old(Metadata()))
    {
      hide Restored;
      if !settings.enabled || !settings.cacheable { return Skipped; }
      var rejected, failed := RejectDefaultRead(entry, present);
      if failed { return Error; }
      if rejected { return Miss; }
      match pointer
      case Missing =>
        misses := misses + 1;
        return Miss;
      case Unreadable => return Error;
      case Garbage =>
        Invalidate(entry, PointerCorrupt);
        return Miss;
      case Found(p) =>
        if p.input != entry.input {
          Invalidate(entry, InputChanged);
          return Miss;
        }
        match objects(p.target)
        case Missing =>
          Invalidate(entry, ObjectMissing);
          return Miss;
        case Unreadable =>
          Invalidate(entry, ObjectReadError);
          return Miss;
        case Garbage =>
          Invalidate(entry, ObjectCorrupt);
          return Miss;
        case Found(payload) =>
          var report := Restored(payload);
          if report.None? {
            Invalidate(entry, ObjectCorrupt);
            return Miss;
          }
          hits := hits + 1;
          return Hit(report.value);
    }
  }

  // ----- when a lookup hits -----

  /** A report is served exactly when the cache is in use and trusted, the pointer was stored for this input, and the
      object it names gives that report back. It counts as one hit, and nothing else does. */
  lemma HitsExactlyWhen(settings: Settings, entry: Entry, present: Read<()>, pointer: Read<Pointer>,
      objects: string -> Read<Payload>, c: Counters, report: Report)
    ensures LookedUp(settings, entry, present, pointer, objects, c).1 == Hit(report) <==>
      settings.enabled && settings.cacheable && !settings.rejectReadHits && pointer.Found? &&
      pointer.value.input == entry.input && objects(pointer.value.target).Found? &&
      Restored(objects(pointer.value.target).value) == Some(report)
    ensures var (counted, answer) := LookedUp(settings, entry, present, pointer, objects, c);
      counted.hits == c.hits + (if answer.Hit? then 1 else 0) && counted.writes == c.writes &&
      (answer.Hit? ==> counted.misses == c.misses && counted.invalidations == c.invalidations)
  {
    hide Restored;
  }

  /** A miss counts once, and is put down to its reason, unless there was no pointer at all. */
  lemma MissIsExplained(settings: Settings, entry: Entry, present: Read<()>, pointer: Read<Pointer>,
      objects: string -> Read<Payload>, c: Counters)
    requires LookedUp(settings, entry, present, pointer, objects, c).1 == Miss
    ensures var after := LookedUp(settings, entry, present, pointer, objects, c).0;
      after.misses == c.misses + 1 && after.hits == c.hits &&
      (after.invalidations == c.invalidations <==>
        if settings.rejectReadHits then present.Missing? else pointer.Missing?) &&
      (after.invalidations != c.invalidations ==>
        |after.invalidations| == |c.invalidations| + 1 && after.invalidations[..|c.invalidations|] == c.invalidations &&
        after.invalidations[|c.invalidations|].0 == entry.keyLabel &&
        var reason := after.invalidations[|c.invalidations|].1;
        (reason.DefaultLocalUntrusted? <==> settings.rejectReadHits) &&
        (!settings.rejectReadHits ==>
          (reason.PointerCorrupt? <==> pointer.Garbage?) &&
          (reason.InputChanged? <==> pointer.Found? && pointer.value.input != entry.input) &&
          (pointer.Found? && pointer.value.input == entry.input ==>
            (reason.ObjectMissing? <==> objects(pointer.value.target).Missing?) &&
            (reason.ObjectReadError? <==> objects(pointer.value.target).Unreadable?))))
  {
    hide Restored;
  }

  // ----- many processes -----

  datatype Activity =
    | Idle
    | Storing(entry: Entry, report: Report, written: bool)
    | Opening(entry: Entry, target: string)

  /** `answered` counts the lookups that were in use and returned without an error. */
  datatype Process = Process(settings: Settings, activity: Activity, counters: Counters, answered: nat)

  /** A completed store. */
  datatype Record = Record(key: string, input: string, report: Report)

  datatype State = State(
    objects: map<string, Payload>,
    pointers: map<string, Pointer>,
    processes: map<nat, Process>,
    stored: set<Record>,
    served: seq<(Entry, Report)>)

  datatype Event =
    | BeginStore(process: nat, entry: Entry, report: Report)
    | WriteObject(process: nat)
    | WritePointer(process: nat)
    | GiveUp(process: nat)
    | BeginLookup(process: nat, entry: Entry, fails: bool)
    | EndLookup(process: nat, fails: bool)

  predicate Enabled(s: State, e: Event) {
    e.process in s.processes &&
    var p := s.processes[e.process];
    match e
    case BeginStore(_, _, _) => p.activity.Idle? && InUse(p.settings) && !p.settings.readOnly
    case WriteObject(_) => p.activity.Storing? && !p.activity.written
    case WritePointer(_) => p.activity.Storing? && p.activity.written
    case GiveUp(_) => !p.activity.Idle?
    case BeginLookup(_, _, _) => p.activity.Idle?
    case EndLookup(_, _) => p.activity.Opening?
  }

  function ReadFile<T>(files: map<string, T>, name: string, fails: bool): Read<T> {
    if fails then Unreadable else if name in files then Found(files[name]) else Missing
  }

  function Exists<T>(files: map<string, T>, name: string, fails: bool): Read<()> {
    if fails then Unreadable else if name in files then Found(()) else Missing
  }

  function Put(s: State, process: nat, p: Process): State {
    s.(processes := s.processes[process := p])
  }

  /** The process after an answer, and the report it served. */
  function Answered(p: Process, counted: Counters, answer: Answer): Process {
    p.(activity := Idle, counters := counted,
       answered := p.answered + if answer.Skipped? || answer.Error? then 0 else 1)
  }

  function Next(s: State, e: Event, digest: Digest): State
    requires Enabled(s, e)
  {
    var p := s.processes[e.process];
    match e
    case BeginStore(i, entry, report) => Put(s, i, p.(activity := Storing(entry, report, false)))
    case WriteObject(i) =>
      var payload := Serialized(p.activity.report);
      var name := digest(payload);
      var written := if name in s.objects then s.objects else s.objects[name := payload];
      Put(s.(objects := written), i, p.(activity := p.activity.(written := true)))
    case WritePointer(i) =>
      var a := p.activity;
      var pointer := Pointer(a.entry.input, digest(Serialized(a.report)));
      Put(s.(pointers := s.pointers[a.entry.key := pointer],
            stored := s.stored + {Record(a.entry.key, a.entry.input, a.report)}),
        i, p.(activity := Idle, counters := p.counters.(writes := p.counters.writes + 1)))
    case GiveUp(i) => Put(s, i, p.(activity := Idle))
    case BeginLookup(i, entry, fails) =>
      var (counted, progress) :=
        FollowPointer(p.settings, entry, Exists(s.pointers, entry.key, fails), ReadFile(s.pointers, entry.key, fails),
          p.counters);
      Put(s, i,
        match progress
        case Stopped(answer) => Answered(p, counted, answer)
        case Following(target) => p.(activity := Opening(entry, target), counters := counted))
    case EndLookup(i, fails) =>
      var entry := p.activity.entry;
      var (counted, answer) := OpenObject(entry, ReadFile(s.objects, p.activity.target, fails), p.counters);
      var next := Put(s, i, Answered(p, counted, answer));
      if answer.Hit? then next.(served := s.served + [(entry, answer.report)]) else next
  }

  predicate Initial(s: State) {
    s.objects == map[] && s.pointers == map[] && s.stored == {} && s.served == [] &&
    forall i <- s.processes ::
      s.processes[i].activity.Idle? && s.processes[i].counters == NO_COUNTS && s.processes[i].answered == 0
  }

  /** The events of a store that nothing interrupts. */
  function StoreEvents(i: nat, entry: Entry, report: Report): seq<Event> {
    [BeginStore(i, entry, report), WriteObject(i), WritePointer(i)]
  }

  /** A store can always be completed: the object lies under its digest, the pointer leads to it, and one write is
      counted; no other file or process changes. */
  lemma StoreCompletes(s: State, i: nat, entry: Entry, report: Report, digest: Digest)
    requires i in s.processes && s.processes[i].activity.Idle?
    requires InUse(s.processes[i].settings) && !s.processes[i].settings.readOnly
    ensures var events := StoreEvents(i, entry, report);
      Enabled(s, events[0]) &&
      var begun := Next(s, events[0], digest);
      Enabled(begun, events[1]) &&
      var written := Next(begun, events[1], digest);
      Enabled(written, events[2]) &&
      var t := Next(written, events[2], digest);
      var name, p := digest(Serialized(report)), s.processes[i];
      t == s.(
        objects := if name in s.objects then s.objects else s.objects[name := Serialized(report)],
        pointers := s.pointers[entry.key := Pointer(entry.input, name)],
        stored := s.stored + {Record(entry.key, entry.input, report)},
        processes := s.processes[i := p.(counters := p.counters.(writes := p.counters.writes + 1))])
  {
    hide Serialized;
    var events := StoreEvents(i, entry, report);
    var t := Next(Next(Next(s, events[0], digest), events[1], digest), events[2], digest);
    var p := s.processes[i];
    assert t.processes == s.processes[i := p.(counters := p.counters.(writes := p.counters.writes + 1))];
  }

  /** A process that does not trust the cache is served nothing: it counts a miss, put down to this when there is a
      pointer, unless it cannot see whether there is one. */
  lemma UntrustedServesNothing(s: State, i: nat, entry: Entry, fails: bool, digest: Digest)
    requires i in s.processes && s.processes[i].activity.Idle?
    requires InUse(s.processes[i].settings) && s.processes[i].settings.rejectReadHits
    ensures var p, t := s.processes[i], Next(s, BeginLookup(i, entry, fails), digest);
      t == s.(processes := s.processes[i := t.processes[i]]) &&
      t.processes[i] == if fails then p else p.(
        answered := p.answered + 1,
        counters := p.counters.(
          misses := p.counters.misses + 1,
          invalidations := p.counters.invalidations +
            if entry.key in s.pointers then [(entry.keyLabel, DefaultLocalUntrusted)] else []))
  {
  }

  /** Some completed store under the entry's key and input has this payload. */
  ghost predicate StoredAs(stored: set<Record>, key: string, input: string, payload: Payload) {
    exists r <- stored :: r.key == key && r.input == input && Serialized(r.report) == payload
  }

  /** Every object lies under its own digest. */
  predicate ObjectsNamed(s: State, digest: Digest) {
    forall d <- s.objects :: digest(s.objects[d]) == d
  }

  ghost predicate PointersLead(s: State) {
    forall k <- s.pointers ::
      s.pointers[k].target in s.objects && StoredAs(s.stored, k, s.pointers[k].input, s.objects[s.pointers[k].target])
  }

  ghost predicate ProcessOk(s: State, p: Process, digest: Digest) {
    p.counters.hits + p.counters.misses == p.answered &&
    match p.activity
    case Idle => true
    case Storing(_, report, written) => written ==> digest(Serialized(report)) in s.objects
    case Opening(entry, target) =>
      InUse(p.settings) && target in s.objects && StoredAs(s.stored, entry.key, entry.input, s.objects[target])
  }

  /** A report that was served had been stored under the same key and input. */
  ghost predicate ServedWasStored(s: State) {
    forall h <- s.served :: exists r <- s.stored :: r.key == h.0.key && r.input == h.0.input && Normal(r.report) == h.1
  }

  ghost predicate Inv(s: State, digest: Digest) {
    ObjectsNamed(s, digest) && PointersLead(s) && (forall i <- s.processes :: ProcessOk(s, s.processes[i], digest)) &&
      ServedWasStored(s)
  }

  lemma InitialInv(s: State, digest: Digest)
    requires Initial(s)
    ensures Inv(s, digest)
  {
  }

  /** The directory and the log only grow; named objects stay what they are. */
  ghost predicate Grows(s: State, t: State) {
    (forall d <- s.objects :: d in t.objects && t.objects[d] == s.objects[d]) && s.stored <= t.stored
  }

  lemma GrowthKeeps(s: State, t: State, p: Process, digest: Digest)
    requires Grows(s, t) && ProcessOk(s, p, digest)
    ensures ProcessOk(t, p, digest)
  {
    hide Serialized;
  }

  lemma OthersKeep(s: State, t: State, i: nat, digest: Digest)
    requires Inv(s, digest) && Grows(s, t) && i in s.processes && i in t.processes &&
      t.processes == s.processes[i := t.processes[i]]
    requires ProcessOk(t, t.processes[i], digest)
    ensures forall j <- t.processes :: ProcessOk(t, t.processes[j], digest)
  {
    hide ProcessOk, Grows, ServedWasStored, PointersLead, ObjectsNamed;
    forall j | j in t.processes ensures ProcessOk(t, t.processes[j], digest) {
      if j != i { GrowthKeeps(s, t, s.processes[j], digest); }
    }
  }

  lemma WriteObjectKeeps(s: State, i: nat, digest: Digest)
    requires Injective(digest) && Inv(s, digest) && Enabled(s, WriteObject(i))
    ensures Inv(Next(s, WriteObject(i), digest), digest)
  {
    hide Serialized;
    var t := Next(s, WriteObject(i), digest);
    OthersKeep(s, t, i, digest);
  }

  lemma WritePointerKeeps(s: State, i: nat, digest: Digest)
    requires Injective(digest) && Inv(s, digest) && Enabled(s, WritePointer(i))
    ensures Inv(Next(s, WritePointer(i), digest), digest)
  {
    hide Serialized;
    var t := Next(s, WritePointer(i), digest);
    var a := s.processes[i].activity;
    var name := digest(Serialized(a.report));
    assert s.objects[name] == Serialized(a.report);
    var record := Record(a.entry.key, a.entry.input, a.report);
    assert record in t.stored;
    assert StoredAs(t.stored, a.entry.key, a.entry.input, t.objects[name]);
    OthersKeep(s, t, i, digest);
  }

  /** Opening an object counts one hit or one miss, and a stored payload gives its report. */
  lemma OpenCounts(p: Process, entry: Entry, target: Read<Payload>)
    requires p.counters.hits + p.counters.misses == p.answered
    ensures var (counted, answer) := OpenObject(entry, target, p.counters);
      var q := Answered(p, counted, answer);
      q.counters.hits + q.counters.misses == q.answered && q.activity.Idle?
    ensures var answer := OpenObject(entry, target, p.counters).1;
      answer.Hit? ==> target.Found? && Restored(target.value) == Some(answer.report)
  {
    hide Restored;
  }

  lemma ServedMore(s: State, t: State, entry: Entry, report: Report)
    requires ServedWasStored(s) && t.stored == s.stored && t.served == s.served + [(entry, report)]
    requires exists r <- s.stored :: r.key == entry.key && r.input == entry.input && Normal(r.report) == report
    ensures ServedWasStored(t)
  {
    hide Normal;
  }

  lemma StoredRestores(report: Report)
    ensures Restored(Serialized(report)) == Some(Normal(report))
  {
    RoundTrip(report);
  }

  lemma ServedSame(s: State, t: State)
    requires ServedWasStored(s) && t.stored == s.stored && t.served == s.served
    ensures ServedWasStored(t)
  {
  }

  lemma EndLookupKeeps(s: State, i: nat, fails: bool, digest: Digest)
    requires Inv(s, digest) && Enabled(s, EndLookup(i, fails))
    ensures Inv(Next(s, EndLookup(i, fails), digest), digest)
  {
    hide Restored, Normal, OpenObject, Answered, Serialized, ServedWasStored;
    var e := EndLookup(i, fails);
    var t := Next(s, e, digest);
    var p := s.processes[i];
    var entry, target := p.activity.entry, ReadFile(s.objects, p.activity.target, fails);
    OpenCounts(p, entry, target);
    OthersKeep(s, t, i, digest);
    var answer := OpenObject(entry, target, p.counters).1;
    if answer.Hit? {
      var r :| r in s.stored && r.key == entry.key && r.input == entry.input &&
        Serialized(r.report) == s.objects[p.activity.target];
      StoredRestores(r.report);
      ServedMore(s, t, entry, answer.report);
    } else {
      ServedSame(s, t);
    }
  }

  lemma BeginLookupKeeps(s: State, i: nat, entry: Entry, fails: bool, digest: Digest)
    requires Inv(s, digest) && Enabled(s, BeginLookup(i, entry, fails))
    ensures Inv(Next(s, BeginLookup(i, entry, fails), digest), digest)
  {
    hide Serialized;
    OthersKeep(s, Next(s, BeginLookup(i, entry, fails), digest), i, digest);
  }

  lemma StepKeepsInv(s: State, e: Event, digest: Digest)
    requires Injective(digest) && Inv(s, digest) && Enabled(s, e)
    ensures Inv(Next(s, e, digest), digest)
  {
    match e
    case BeginStore(i, _, _) => OthersKeep(s, Next(s, e, digest), i, digest);
    case WriteObject(i) => WriteObjectKeeps(s, i, digest);
    case WritePointer(i) => WritePointerKeeps(s, i, digest);
    case GiveUp(i) => OthersKeep(s, Next(s, e, digest), i, digest);
    case BeginLookup(i, entry, fails) => BeginLookupKeeps(s, i, entry, fails, digest);
    case EndLookup(i, fails) => EndLookupKeeps(s, i, fails, digest);
  }

  predicate IsRun(s: State, events: seq<Event>, digest: Digest)
    decreases |events|
  {
    events == [] || (Enabled(s, events[0]) && IsRun(Next(s, events[0], digest), events[1..], digest))
  }

  function After(s: State, events: seq<Event>, digest: Digest): State
    requires IsRun(s, events, digest)
    decreases |events|
  {
    if events == [] then s else After(Next(s, events[0], digest), events[1..], digest)
  }

  lemma {:induction false} RunKeepsInv(s: State, events: seq<Event>, digest: Digest)
    requires Injective(digest) && Inv(s, digest) && IsRun(s, events, digest)
    ensures Inv(After(s, events, digest), digest)
    decreases |events|
  {
    if events != [] {
      StepKeepsInv(s, events[0], digest);
      RunKeepsInv(Next(s, events[0], digest), events[1..], digest);
    }
  }

  /** In every interleaving: a pointer names an existing object of that digest, a served report was stored under the
      same key and input (as `Normal` leaves it), and hits and misses add up to the answered lookups. */
  lemma EveryRunIsConsistent(s: State, events: seq<Event>, digest: Digest)
    requires Injective(digest) && Initial(s) && IsRun(s, events, digest)
    ensures var t := After(s, events, digest);
      (forall k <- t.pointers ::
        t.pointers[k].target in t.objects && digest(t.objects[t.pointers[k].target]) == t.pointers[k].target) &&
      (forall h <- t.served :: exists r <- t.stored ::
        r.key == h.0.key && r.input == h.0.input && Normal(r.report) == h.1) &&
      (forall i <- t.processes ::
        t.processes[i].counters.hits + t.processes[i].counters.misses == t.processes[i].answered)
  {
    hide Next, Normal;
    InitialInv(s, digest);
    RunKeepsInv(s, events, digest);
  }

  /** Somebody completes a store under the key. */
  predicate WritesKey(s: State, e: Event, key: string) {
    e.WritePointer? && e.process in s.processes &&
    var a := s.processes[e.process].activity;
    a.Storing? && a.entry.key == key
  }

  predicate Spares(s: State, events: seq<Event>, key: string, digest: Digest)
    requires IsRun(s, events, digest)
    decreases |events|
  {
    events == [] || (!WritesKey(s, events[0], key) && Spares(Next(s, events[0], digest), events[1..], key, digest))
  }

  lemma {:induction false} PointerStays(s: State, events: seq<Event>, key: string, digest: Digest)
    requires IsRun(s, events, digest) && Spares(s, events, key, digest) && key in s.pointers
    ensures var t := After(s, events, digest); key in t.pointers && t.pointers[key] == s.pointers[key]
    decreases |events|
  {
    if events != [] { PointerStays(Next(s, events[0], digest), events[1..], key, digest); }
  }

  lemma {:induction false} ObjectStays(s: State, events: seq<Event>, name: string, digest: Digest)
    requires IsRun(s, events, digest) && name in s.objects
    ensures var t := After(s, events, digest); name in t.objects && t.objects[name] == s.objects[name]
    decreases |events|
  {
    if events != [] { ObjectStays(Next(s, events[0], digest), events[1..], name, digest); }
  }

  lemma {:induction false} ProcessStays(s: State, events: seq<Event>, i: nat, digest: Digest)
    requires IsRun(s, events, digest) && i in s.processes && forall e <- events :: e.process != i
    ensures var t := After(s, events, digest); i in t.processes && t.processes[i] == s.processes[i]
    decreases |events|
  {
    if events != [] {
      assert events[0] in events;
      ProcessStays(Next(s, events[0], digest), events[1..], i, digest);
    }
  }

  /** A completed store: the key leads to the stored payload. */
  lemma PointerWritten(s: State, i: nat, digest: Digest)
    requires Injective(digest) && Inv(s, digest) && Enabled(s, WritePointer(i))
    ensures var a, t := s.processes[i].activity, Next(s, WritePointer(i), digest);
      var name := digest(Serialized(a.report));
      a.entry.key in t.pointers && t.pointers[a.entry.key] == Pointer(a.entry.input, name) &&
      name in t.objects && t.objects[name] == Serialized(a.report)
  {
    hide Serialized;
    assert ProcessOk(s, s.processes[i], digest);
  }

  lemma LookupBegun(s: State, j: nat, entry: Entry, digest: Digest)
    requires j in s.processes && s.processes[j].activity.Idle? && InUse(s.processes[j].settings)
    requires !s.processes[j].settings.rejectReadHits
    requires entry.key in s.pointers && s.pointers[entry.key].input == entry.input
    ensures var t := Next(s, BeginLookup(j, entry, false), digest);
      j in t.processes && t.processes[j].activity == Opening(entry, s.pointers[entry.key].target) &&
        t.objects == s.objects
  {
  }

  lemma LookupEnded(s: State, j: nat, report: Report, digest: Digest)
    requires j in s.processes && s.processes[j].activity.Opening?
    requires var target := s.processes[j].activity.target;
      target in s.objects && Restored(s.objects[target]) == Some(report)
    ensures Next(s, EndLookup(j, false), digest).served == s.served + [(s.processes[j].activity.entry, report)]
  {
    hide Restored;
  }

  /** After a completed store, however the run goes on: as long as nobody completes another store under the key, any
      process that then looks the entry up is served that report, whatever happens while it does. */
  lemma StoredIsFound(s: State, i: nat, before: seq<Event>, j: nat, entry: Entry, between: seq<Event>, digest: Digest)
    requires Injective(digest) && Inv(s, digest) && Enabled(s, WritePointer(i))
    requires var a := s.processes[i].activity; entry.key == a.entry.key && entry.input == a.entry.input
    requires var s1 := Next(s, WritePointer(i), digest);
      IsRun(s1, before, digest) && Spares(s1, before, entry.key, digest)
    requires var s2 := After(Next(s, WritePointer(i), digest), before, digest);
      Enabled(s2, BeginLookup(j, entry, false)) && InUse(s2.processes[j].settings) &&
        !s2.processes[j].settings.rejectReadHits &&
      IsRun(Next(s2, BeginLookup(j, entry, false), digest), between, digest)
    requires forall e <- between :: e.process != j
    ensures var s2 := After(Next(s, WritePointer(i), digest), before, digest);
      var s4 := After(Next(s2, BeginLookup(j, entry, false), digest), between, digest);
      Enabled(s4, EndLookup(j, false)) &&
      Next(s4, EndLookup(j, false), digest).served == s4.served + [(entry, Normal(s.processes[i].activity.report))]
  {
    hide IsRun, After, Serialized, Restored, Normal, Inv, Next, Spares;
    var report := s.processes[i].activity.report;
    var name := digest(Serialized(report));
    var s1 := Next(s, WritePointer(i), digest);
    var s2 := After(s1, before, digest);
    var s3 := Next(s2, BeginLookup(j, entry, false), digest);
    var s4 := After(s3, between, digest);
    PointerWritten(s, i, digest);
    PointerStays(s1, before, entry.key, digest);
    ObjectStays(s1, before, name, digest);
    LookupBegun(s2, j, entry, digest);
    ProcessStays(s3, between, j, digest);
    ObjectStays(s3, between, name, digest);
    StoredRestores(report);
    LookupEnded(s4, j, Normal(report), digest);
  }
}
