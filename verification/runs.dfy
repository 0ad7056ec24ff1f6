/** Sequences of editor events driving the window: user commands, backend
    reports, editor ticks and manifest arrivals. The properties here are
    the ones that relate several steps: the gate admits one operation at a
    time, a handler fires once, and the flag always comes down. */
module Runs {
  import opened Wrappers
  import opened Catalog
  import opened Window

  /** One thing that can happen to the window. */
  datatype Event =
    | ListRequested(now: int)
    | InstallRequested(pkg: Package, now: int)
    | UpdateRequested(pkg: Package, now: int)
    | BackendReported(status: RequestStatus)
    | EditorTick(now: int)
    | ManifestArrived(result: FetchResult, now: int)
    | RefreshRequested

  /** A user or fetch-triggered request to start a gated operation. */
  predicate IsStart(e: Event)
  {
    e.ListRequested? || e.InstallRequested? || e.UpdateRequested?
  }

  /** An event that only the subscribed handler can observe. */
  predicate IsPoll(e: Event)
  {
    e.BackendReported? || e.EditorTick?
  }

  function Step(s: State, e: Event): State
  {
    match e
    case ListRequested(now) => StartList(s, now)
    case InstallRequested(pkg, now) => StartInstall(s, pkg, now)
    case UpdateRequested(pkg, now) => StartUpdate(s, pkg, now)
    case BackendReported(status) => Report(s, status)
    case EditorTick(now) => Tick(s, now)
    case ManifestArrived(result, now) => FetchCompleted(s, result, now)
    case RefreshRequested => Refresh(s)
  }

  /** The window after a sequence of events. Along any run the flag stays
      in step with the subscription, and calls once issued stay issued. */
  function Run(s: State, es: seq<Event>): (r: State)
    ensures Valid(s) ==> Valid(r)
    ensures |s.calls| <= |r.calls| && r.calls[..|s.calls|] == s.calls
    decreases |es|
  {
    if |es| == 0 then s
    else Run(Step(s, es[0]), es[1..])
  }

  /** Start requests arriving while an operation is in flight are all
      rejected: no call is issued and nothing in the window changes. */
  lemma {:induction false} BusyStartsRejected(s: State, es: seq<Event>)
    requires s.inProgress
    requires forall i :: 0 <= i < |es| ==> IsStart(es[i])
    ensures Run(s, es) == s
    decreases |es|
  {
    if |es| > 0 {
      assert IsStart(es[0]);
      BusyStartsRejected(s, es[1..]);
    }
  }

  /** A burst of start requests on an idle window issues exactly one
      backend call, for the first of them, and leaves the catalog alone. */
  lemma SingleFlight(s: State, es: seq<Event>)
    requires !s.inProgress && |es| > 0
    requires forall i :: 0 <= i < |es| ==> IsStart(es[i])
    ensures Run(s, es) == Step(s, es[0])
    ensures |Run(s, es).calls| == |s.calls| + 1
    ensures Run(s, es).packages == s.packages
    ensures Run(s, es).inProgress
  {
    assert IsStart(es[0]);
    BusyStartsRejected(Step(s, es[0]), es[1..]);
  }

  /** Once no handler is subscribed, any number of ticks and late backend
      reports change nothing: a handler never fires a second time. */
  lemma {:induction false} NoSecondFiring(s: State, es: seq<Event>)
    requires s.handler.None?
    requires forall i :: 0 <= i < |es| ==> IsPoll(es[i])
    ensures Run(s, es) == s
    decreases |es|
  {
    if |es| > 0 {
      assert IsPoll(es[0]);
      NoSecondFiring(s, es[1..]);
    }
  }

  /** The tick at which the handler fires is the last one it acts on:
      whatever ticks and backend reports follow, the window stays as that
      tick left it. */
  lemma {:induction false} FiresOnce(s: State, now: int, es: seq<Event>)
    requires Fires(s, now)
    requires forall i :: 0 <= i < |es| ==> IsPoll(es[i])
    ensures Run(Tick(s, now), es) == Tick(s, now)
  {
    NoSecondFiring(Tick(s, now), es);
  }

  /** Polling never wedges the window: if ticks and reports keep coming
      and one tick falls more than `Timeout` seconds after the request
      started, the handler has fired and the flag is down by the end. */
  lemma {:induction false} ClearedByDeadline(s: State, es: seq<Event>, i: nat)
    requires Valid(s) && s.handler.Some?
    requires forall j :: 0 <= j < |es| ==> IsPoll(es[j])
    requires i < |es| && es[i].EditorTick? && es[i].now - s.handler.value.start > Timeout
    ensures Run(s, es).handler.None? && !Run(s, es).inProgress
    decreases |es|
  {
    assert IsPoll(es[0]);
    var next := Step(s, es[0]);
    if next.handler.None? {
      assert forall j :: 0 <= j < |es[1..]| ==> IsPoll(es[1..][j]);
      NoSecondFiring(next, es[1..]);
    } else {
      assert next.handler.value.start == s.handler.value.start;
      assert i > 0;
      assert es[1..][i - 1] == es[i];
      ClearedByDeadline(next, es[1..], i - 1);
    }
  }

  /** An event that cannot make a pending list request succeed. */
  predicate NoListSuccess(e: Event)
  {
    IsPoll(e) && !(e.BackendReported? && e.status.Succeeded?)
  }

  /** A list request that has failed, or that the backend never answers
      before it times out, leaves every catalog entry and status as it was,
      through any run of ticks and reports that are not a success. */
  lemma {:induction false} UnsuccessfulListKeepsCatalog(s: State, es: seq<Event>)
    requires s.handler.Some? && s.handler.value.kind.ListInstalled?
    requires !s.handler.value.status.Succeeded?
    requires forall i :: 0 <= i < |es| ==> NoListSuccess(es[i])
    ensures Run(s, es).packages == s.packages
    decreases |es|
  {
    if |es| > 0 {
      assert NoListSuccess(es[0]);
      var next := Step(s, es[0]);
      assert next.packages == s.packages;
      assert forall i :: 0 <= i < |es[1..]| ==> NoListSuccess(es[1..][i]);
      if next.handler.None? {
        NoSecondFiring(next, es[1..]);
      } else {
        UnsuccessfulListKeepsCatalog(next, es[1..]);
      }
    }
  }

  /** An install or update ends in exactly one fresh manifest download on
      every terminal path, success, failure or timeout: once a tick falls
      past the deadline, the run has cleared the flag, left the catalog
      alone and issued that one download. */
  lemma {:induction false} AddAlwaysRefetches(s: State, es: seq<Event>, i: nat)
    requires Valid(s) && s.handler.Some? && !s.handler.value.kind.ListInstalled?
    requires forall j :: 0 <= j < |es| ==> IsPoll(es[j])
    requires i < |es| && es[i].EditorTick? && es[i].now - s.handler.value.start > Timeout
    ensures Run(s, es).calls == s.calls + [FetchCall(ManifestUrl)]
    ensures Run(s, es).packages == s.packages
    ensures !Run(s, es).inProgress
    decreases |es|
  {
    assert IsPoll(es[0]);
    var next := Step(s, es[0]);
    assert forall j :: 0 <= j < |es[1..]| ==> IsPoll(es[1..][j]);
    if next.handler.None? {
      NoSecondFiring(next, es[1..]);
    } else {
      assert i > 0;
      assert es[1..][i - 1] == es[i];
      AddAlwaysRefetches(next, es[1..], i - 1);
    }
  }

  /** Failed downloads and unparsable manifests, however many arrive,
      leave the window exactly as it was. */
  lemma {:induction false} FailedFetchKeepsState(s: State, es: seq<Event>)
    requires forall i :: 0 <= i < |es| ==> es[i].ManifestArrived? && !es[i].result.Fetched?
    ensures Run(s, es) == s
    decreases |es|
  {
    if |es| > 0 {
      assert es[0].ManifestArrived? && !es[0].result.Fetched?;
      FailedFetchKeepsState(s, es[1..]);
    }
  }

  /** Manifest [A 1.0, B 2.0] with only A 1.0 installed shows A up to date
      and B not installed; installing B and re-listing with both installed
      shows both up to date. */
  lemma InstallScenario()
    ensures
      var manifest := [Package("A", "1.0", "urlA", Unknown), Package("B", "2.0", "urlB", Unknown)];
      var first := Run(Open(), [
        ManifestArrived(Fetched(manifest), 0),
        BackendReported(Succeeded([InstalledPackage("A", "1.0")])),
        EditorTick(1)]);
      && first.packages == [Package("A", "1.0", "urlA", UpToDate), Package("B", "2.0", "urlB", NotInstalled)]
      && !first.inProgress
      && var second := Run(first, [
        InstallRequested(first.packages[1], 2),
        BackendReported(Succeeded([])),
        EditorTick(3),
        ManifestArrived(Fetched(manifest), 4),
        BackendReported(Succeeded([InstalledPackage("A", "1.0"), InstalledPackage("B", "2.0")])),
        EditorTick(5)]);
      && second.packages == [Package("A", "1.0", "urlA", UpToDate), Package("B", "2.0", "urlB", UpToDate)]
      && !second.inProgress
      && second.calls == [FetchCall(ManifestUrl), ListCall, AddCall("git+urlB"), FetchCall(ManifestUrl), ListCall]
  {
    var manifest := [Package("A", "1.0", "urlA", Unknown), Package("B", "2.0", "urlB", Unknown)];
    var onlyA := [InstalledPackage("A", "1.0")];
    var both := [InstalledPackage("A", "1.0"), InstalledPackage("B", "2.0")];
    assert onlyA[0].name in InstalledNames(onlyA);
    assert both[0].name in InstalledNames(both);
    assert both[1].name in InstalledNames(both);

    var afterFirst := [Package("A", "1.0", "urlA", UpToDate), Package("B", "2.0", "urlB", NotInstalled)];
    var s0 := Open();
    var s1 := Step(s0, ManifestArrived(Fetched(manifest), 0));
    assert s1 == State(manifest, true, ListingMessage, Some(Request(ListInstalled, 0, InProgress)),
                       [FetchCall(ManifestUrl), ListCall]);
    var s2 := Step(s1, BackendReported(Succeeded(onlyA)));
    var s3 := Step(s2, EditorTick(1));
    assert s3 == State(afterFirst, false, ListingMessage, None, [FetchCall(ManifestUrl), ListCall]) by {
      assert s3.packages == Reconcile(manifest, onlyA);
    }
    assert Run(s2, [EditorTick(1)]) == s3;
    assert Run(s1, [BackendReported(Succeeded(onlyA)), EditorTick(1)]) == s3;
    assert Run(s0, [ManifestArrived(Fetched(manifest), 0), BackendReported(Succeeded(onlyA)), EditorTick(1)]) == s3;

    var installing := "Installing B...";
    var s4 := Step(s3, InstallRequested(s3.packages[1], 2));
    assert "git+" + s3.packages[1].url == "git+urlB";
    assert s4 == State(afterFirst, true, installing, Some(Request(Install(afterFirst[1]), 2, InProgress)),
                       [FetchCall(ManifestUrl), ListCall, AddCall("git+urlB")]);
    var s5 := Step(s4, BackendReported(Succeeded([])));
    var s6 := Step(s5, EditorTick(3));
    assert s6 == State(afterFirst, false, installing, None,
                       [FetchCall(ManifestUrl), ListCall, AddCall("git+urlB"), FetchCall(ManifestUrl)]);
    var s7 := Step(s6, ManifestArrived(Fetched(manifest), 4));
    assert s7 == State(manifest, true, ListingMessage, Some(Request(ListInstalled, 4, InProgress)),
                       [FetchCall(ManifestUrl), ListCall, AddCall("git+urlB"), FetchCall(ManifestUrl), ListCall]);
    var s8 := Step(s7, BackendReported(Succeeded(both)));
    var s9 := Step(s8, EditorTick(5));
    assert s9.packages == [Package("A", "1.0", "urlA", UpToDate), Package("B", "2.0", "urlB", UpToDate)] by {
      assert s9.packages == Reconcile(manifest, both);
    }
    assert Run(s8, [EditorTick(5)]) == s9;
    assert Run(s7, [BackendReported(Succeeded(both)), EditorTick(5)]) == s9;
    assert Run(s6, [ManifestArrived(Fetched(manifest), 4), BackendReported(Succeeded(both)), EditorTick(5)]) == s9;
    assert Run(s5, [EditorTick(3), ManifestArrived(Fetched(manifest), 4), BackendReported(Succeeded(both)),
                    EditorTick(5)]) == s9;
    assert Run(s4, [BackendReported(Succeeded([])), EditorTick(3), ManifestArrived(Fetched(manifest), 4),
                    BackendReported(Succeeded(both)), EditorTick(5)]) == s9;
    assert Run(s3, [InstallRequested(s3.packages[1], 2), BackendReported(Succeeded([])), EditorTick(3),
                    ManifestArrived(Fetched(manifest), 4), BackendReported(Succeeded(both)), EditorTick(5)]) == s9;
  }
}
