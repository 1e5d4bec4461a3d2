/** internal/analysis/cache_storage.go: the payload of a cached report and what restoring it gives back. */
module CachePayload {
  import opened Results
  import opened Seqs

  /** `text` is everything of a dependency that JSON keeps; the two other fields are not serialized. */
  datatype Dependency = Dependency(text: string, usageIncomplete: bool, suppressed: seq<string>)

  datatype Report = Report(text: string, dependencies: seq<Dependency>)

  datatype Payload = Payload(report: Report, incomplete: seq<int>, suppressed: map<int, seq<string>>)

  function OnWire(d: Dependency): Dependency {
    Dependency(d.text, false, [])
  }

  function AllOnWire(ds: seq<Dependency>): (r: seq<Dependency>)
    ensures |r| == |ds| && forall i :: 0 <= i < |ds| ==> r[i] == OnWire(ds[i])
  {
    seq(|ds|, i requires 0 <= i < |ds| => OnWire(ds[i]))
  }

  /** A report after `json.Marshal` and `json.Unmarshal`. */
  function Transported(p: Payload): Payload {
    p.(report := p.report.(dependencies := AllOnWire(p.report.dependencies)))
  }

  /** What a stored report comes back as: suppressed imports survive on incomplete dependencies only. */
  function Kept(d: Dependency): Dependency {
    if d.usageIncomplete then d else d.(suppressed := [])
  }

  function AllKept(ds: seq<Dependency>): (r: seq<Dependency>)
    ensures |r| == |ds| && forall i :: 0 <= i < |ds| ==> r[i] == Kept(ds[i])
  {
    seq(|ds|, i requires 0 <= i < |ds| => Kept(ds[i]))
  }

  function Normal(r: Report): Report {
    r.(dependencies := AllKept(r.dependencies))
  }

  predicate Recorded(d: Dependency) {
    d.usageIncomplete && d.suppressed != []
  }

  function Incomplete(ds: seq<Dependency>): (r: seq<int>)
    ensures forall i :: i in r <==> 0 <= i < |ds| && ds[i].usageIncomplete
  {
    if ds == [] then []
    else
      var n := |ds| - 1;
      Incomplete(ds[..n]) + if ds[n].usageIncomplete then [n] else []
  }

  function Suppressed(ds: seq<Dependency>): (r: map<int, seq<string>>)
    ensures forall i :: i in r <==> 0 <= i < |ds| && Recorded(ds[i])
    ensures forall i <- r :: r[i] == ds[i].suppressed
  {
    map i: int | 0 <= i < |ds| && Recorded(ds[i]) :: ds[i].suppressed
  }

  function PayloadOf(r: Report): Payload {
    Payload(r, Incomplete(r.dependencies), Suppressed(r.dependencies))
  }

  lemma NothingSuppressed()
    ensures Suppressed([]) == map[]
  {
  }

  lemma SuppressedStep(ds: seq<Dependency>, i: nat)
    requires i < |ds|
    ensures Suppressed(ds[..i + 1]) ==
      if Recorded(ds[i]) then Suppressed(ds[..i])[i := ds[i].suppressed] else Suppressed(ds[..i])
  {
    var before, after := Suppressed(ds[..i]), Suppressed(ds[..i + 1]);
    assert forall k :: k in after <==> k in before || (k == i && Recorded(ds[i]));
  }

  /** `newCachedPayload`. */
  method NewPayload(r: Report) returns (payload: Payload)
    ensures payload == PayloadOf(r)
  {
    hide Suppressed;
    var incomplete: seq<int> := [];
    NothingSuppressed();
    var suppressed: map<int, seq<string>> := map[];
    var ds := r.dependencies;
    for i := 0 to |ds|
      invariant incomplete == Incomplete(ds[..i])
      invariant suppressed == Suppressed(ds[..i])
    {
      TakeLast(ds, i);
      SuppressedStep(ds, i);
      if ds[i].usageIncomplete { incomplete := incomplete + [i]; }
      if ds[i].usageIncomplete && |ds[i].suppressed| > 0 { suppressed := suppressed[i := ds[i].suppressed]; }
    }
    TakeAll(ds);
    payload := Payload(r, incomplete, suppressed);
  }

  // ----- restoring -----

  predicate InRange(i: int, p: Payload) {
    0 <= i < |p.report.dependencies|
  }

  /** Indexes fit the report, and imports are recorded for incomplete dependencies only. */
  predicate Consistent(p: Payload) {
    (forall i <- p.incomplete :: InRange(i, p)) &&
    forall i <- p.suppressed :: InRange(i, p) && (i in p.incomplete || p.report.dependencies[i].usageIncomplete)
  }

  function RestoredAt(p: Payload, i: int): Dependency
    requires InRange(i, p)
  {
    var d := p.report.dependencies[i];
    Dependency(d.text, d.usageIncomplete || i in p.incomplete,
      if i in p.suppressed then p.suppressed[i] else d.suppressed)
  }

  function Restored(p: Payload): (r: Option<Report>)
    ensures r.Some? <==> Consistent(p)
    ensures r.Some? ==> |r.value.dependencies| == |p.report.dependencies| && r.value.text == p.report.text
    ensures r.Some? ==> forall i :: 0 <= i < |p.report.dependencies| ==> r.value.dependencies[i] == RestoredAt(p, i)
  {
    if Consistent(p) then
      Some(p.report.(dependencies :=
        seq(|p.report.dependencies|, i requires 0 <= i < |p.report.dependencies| => RestoredAt(p, i))))
    else None
  }

  class CachedPayload {
    const loaded: Payload
    var dependencies: array<Dependency>

    constructor (payload: Payload)
      ensures loaded == payload && fresh(dependencies) && dependencies[..] == payload.report.dependencies
    {
      loaded := payload;
      var ds := payload.report.dependencies;
      dependencies := new Dependency[|ds|](i requires 0 <= i < |ds| => ds[i]);
    }

    /** `restoreUsageIncomplete`. */
    method RestoreUsageIncomplete() returns (ok: bool)
      requires dependencies[..] == loaded.report.dependencies
      modifies dependencies
      ensures ok <==> forall i <- loaded.incomplete :: InRange(i, loaded)
      ensures ok ==> forall k :: 0 <= k < dependencies.Length ==>
        dependencies[k] ==
          old(dependencies[k]).(usageIncomplete := old(dependencies[k]).usageIncomplete || k in loaded.incomplete)
    {
      for n := 0 to |loaded.incomplete|
        invariant forall m :: 0 <= m < n ==> InRange(loaded.incomplete[m], loaded)
        invariant forall k :: 0 <= k < dependencies.Length ==>
          dependencies[k] ==
            var d := old(dependencies[k]);
            d.(usageIncomplete := d.usageIncomplete || k in loaded.incomplete[..n])
      {
        TakeLast(loaded.incomplete, n);
        var index := loaded.incomplete[n];
        assert index in loaded.incomplete;
        if index < 0 || index >= dependencies.Length { return false; }
        dependencies[index] := dependencies[index].(usageIncomplete := true);
      }
      TakeAll(loaded.incomplete);
      ok := true;
    }

    /** `restoreSuppressedUnusedImports`; `order` is the order in which the map is walked. */
    method RestoreSuppressed(order: seq<int>) returns (ok: bool)
      requires dependencies.Length == |loaded.report.dependencies|
      requires forall i :: i in order <==> i in loaded.suppressed
      modifies dependencies
      ensures ok <==> forall i <- loaded.suppressed :: InRange(i, loaded) && old(dependencies[i]).usageIncomplete
      ensures ok ==> forall k :: 0 <= k < dependencies.Length ==>
        dependencies[k] ==
          if k in loaded.suppressed then old(dependencies[k]).(suppressed := loaded.suppressed[k])
          else old(dependencies[k])
    {
      for n := 0 to |order|
        invariant forall i <- order[..n] :: InRange(i, loaded) && old(dependencies[i]).usageIncomplete
        invariant forall k :: 0 <= k < dependencies.Length ==>
          dependencies[k] ==
          if k in order[..n] then old(dependencies[k]).(suppressed := loaded.suppressed[k]) else old(dependencies[k])
      {
        TakeLast(order, n);
        var index := order[n];
        assert index in order;
        if index < 0 || index >= dependencies.Length { return false; }
        if !dependencies[index].usageIncomplete { return false; }
        dependencies[index] := dependencies[index].(suppressed := loaded.suppressed[index]);
      }
      TakeAll(order);
      ok := true;
    }

    /** Both steps of restoring a loaded payload: the order does not matter. */
    method Restore(order: seq<int>) returns (r: Option<Report>)
      requires dependencies[..] == loaded.report.dependencies
      requires forall i :: i in order <==> i in loaded.suppressed
      modifies dependencies
      ensures r == Restored(loaded)
    {
      ghost var was := dependencies[..];
      assert forall i :: 0 <= i < |was| ==> dependencies[i] == was[i];
      var ok := RestoreUsageIncomplete();
      if !ok { return None; }
      ok := RestoreSuppressed(order);
      if !ok { return None; }
      r := Some(loaded.report.(dependencies := dependencies[..]));
      assert Consistent(loaded);
      assert r.value.dependencies == Restored(loaded).value.dependencies;
    }
  }

  /** Storing and restoring gives the report back, but for suppressed imports of dependencies that are complete. */
  lemma RoundTrip(r: Report)
    ensures Restored(Transported(PayloadOf(r))) == Some(Normal(r))
  {
    var p := Transported(PayloadOf(r));
    assert Consistent(p);
    var back := Restored(p).value;
    forall i | 0 <= i < |r.dependencies| ensures back.dependencies[i] == Normal(r).dependencies[i] {
      assert back.dependencies[i] == RestoredAt(p, i);
    }
    assert back.dependencies == Normal(r).dependencies;
  }

  /** The report comes back unchanged exactly when no complete dependency has suppressed imports. */
  lemma UnchangedExactlyWhen(r: Report)
    ensures Restored(Transported(PayloadOf(r))) == Some(r)
      <==> forall i :: 0 <= i < |r.dependencies| && !r.dependencies[i].usageIncomplete ==>
        r.dependencies[i].suppressed == []
  {
    RoundTrip(r);
    if forall i :: 0 <= i < |r.dependencies| && !r.dependencies[i].usageIncomplete ==>
      r.dependencies[i].suppressed == [] {
      assert Normal(r).dependencies == r.dependencies;
    }
    if Normal(r) == r {
      assert forall i :: 0 <= i < |r.dependencies| ==> Normal(r).dependencies[i] == r.dependencies[i];
    }
  }

  // ----- the reports that are built -----

  /** Where a dependency of a report comes from: an adapter that assesses its coverage (`hidden` are the unused imports
      it found), an adapter that does not, or two reports merged (`hidden` is what merging their imports leaves). */
  datatype Origin =
    | Assessed(text: string, coverageIncomplete: bool, hidden: seq<string>)
    | Unassessed(text: string)
    | Merged(text: string, left: Origin, right: Origin, hidden: seq<string>)

  function Built(origin: Origin): Dependency {
    match origin
    case Assessed(text, incomplete, hidden) => Dependency(text, incomplete, if incomplete then hidden else [])
    case Unassessed(text) => Dependency(text, false, [])
    case Merged(text, left, right, hidden) =>
      var incomplete := Built(left).usageIncomplete || Built(right).usageIncomplete;
      Dependency(text, incomplete, if incomplete then hidden else [])
  }

  /** Every report whose dependencies were built that way comes back unchanged. */
  lemma BuiltComesBack(r: Report, origins: seq<Origin>)
    requires |origins| == |r.dependencies|
    requires forall i :: 0 <= i < |origins| ==> r.dependencies[i] == Built(origins[i])
    ensures Restored(Transported(PayloadOf(r))) == Some(r)
  {
    UnchangedExactlyWhen(r);
  }
}
