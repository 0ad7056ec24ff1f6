/** The SPM window's operation coordination: the single-flight gate around
    list/install/update requests, the per-request tick handler that polls
    the backend with a 60-second timeout, and the manifest fetch completion
    (Editor/PackageManagerWindow.cs). Every continuation runs on the editor
    tick, so the window is a deterministic state machine; the backend, the
    clock and the manifest download are inputs. */
module Window {
  import opened Wrappers
  import opened Catalog

  /** Seconds a request may stay unresolved before its handler gives up. */
  const Timeout: int := 60

  /** The fixed manifest endpoint. */
  const ManifestUrl: string := "https://shusmo.io/SPM/packages.json"

  /** Progress message of a status refresh. */
  const ListingMessage: string := "Updating package statuses..."

  /** What a pending backend request was issued for. */
  datatype RequestKind = ListInstalled | Install(pkg: Package) | Update(pkg: Package)

  /** Status of a backend request as the environment reports it. The
      installed list is read only for a list request. */
  datatype RequestStatus = InProgress | Succeeded(installed: seq<InstalledPackage>) | Failed(error: string)

  /** A request whose tick handler is subscribed. */
  datatype Request = Request(kind: RequestKind, start: int, status: RequestStatus)

  /** An outgoing call: to the package backend or to the manifest server. */
  datatype Call = ListCall | AddCall(source: string) | FetchCall(url: string)

  /** The window's state. `handler` is the subscription to the editor
      update tick; `calls` records every request issued, in order. */
  datatype State = State(
    packages: seq<Package>,
    inProgress: bool,
    message: string,
    handler: Option<Request>,
    calls: seq<Call>)

  /** Outcome of the manifest download and parse. */
  datatype FetchResult = Fetched(packages: seq<Package>) | NetworkError(error: string) | ParseError(error: string)

  /** The flag is raised exactly while a handler is subscribed. */
  predicate Valid(s: State)
  {
    s.inProgress <==> s.handler.Some?
  }

  /** The backend locator an install or update asks for. */
  function SourceFor(pkg: Package): (r: string)
    ensures |r| == |pkg.url| + 4 && r[..4] == "git+" && r[4..] == pkg.url
  {
    "git+" + pkg.url
  }

  /** Starting the manifest download (coroutine start, not gated). */
  function Refresh(s: State): (r: State)
    ensures r.packages == s.packages && r.inProgress == s.inProgress
    ensures r.message == s.message && r.handler == s.handler
    ensures |r.calls| == |s.calls| + 1 && r.calls[..|s.calls|] == s.calls
    ensures r.calls[|s.calls|] == FetchCall(ManifestUrl)
  {
    s.(calls := s.calls + [FetchCall(ManifestUrl)])
  }

  /** A freshly opened window: nothing known, nothing in flight, one
      manifest download under way. */
  function Open(): (r: State)
    ensures Valid(r) && !r.inProgress && r.packages == []
    ensures r.calls == [FetchCall(ManifestUrl)]
  {
    Refresh(State([], false, "", None, []))
  }

  /** The gate shared by the three start operations: rejected (nothing
      changes) while an operation is in flight; otherwise raise the flag,
      set the message, issue the call and subscribe a handler timed from
      `now`. */
  function Begin(s: State, kind: RequestKind, message: string, call: Call, now: int): (r: State)
    ensures s.inProgress ==> r == s
    ensures !s.inProgress ==>
      && r.inProgress && r.message == message
      && r.handler == Some(Request(kind, now, InProgress))
      && r.packages == s.packages
      && r.calls == s.calls + [call]
  {
    if s.inProgress then s
    else s.(inProgress := true, message := message,
            handler := Some(Request(kind, now, InProgress)),
            calls := s.calls + [call])
  }

  /** `UpdatePackageStatuses`: ask the backend for the installed list. */
  function StartList(s: State, now: int): (r: State)
    ensures s.inProgress ==> r == s
    ensures !s.inProgress ==>
      && r.inProgress && r.message == ListingMessage
      && r.handler == Some(Request(ListInstalled, now, InProgress))
      && r.packages == s.packages
      && r.calls == s.calls + [ListCall]
  {
    Begin(s, ListInstalled, ListingMessage, ListCall, now)
  }

  /** `InstallPackage`: ask the backend to add `git+<url>`. */
  function StartInstall(s: State, pkg: Package, now: int): (r: State)
    ensures s.inProgress ==> r == s
    ensures !s.inProgress ==>
      && r.inProgress && r.message == "Installing " + pkg.name + "..."
      && r.handler == Some(Request(Install(pkg), now, InProgress))
      && r.packages == s.packages
      && r.calls == s.calls + [AddCall("git+" + pkg.url)]
  {
    Begin(s, Install(pkg), "Installing " + pkg.name + "...", AddCall(SourceFor(pkg)), now)
  }

  /** `UpdatePackage`: the same backend call as an install, with its own
      message. */
  function StartUpdate(s: State, pkg: Package, now: int): (r: State)
    ensures s.inProgress ==> r == s
    ensures !s.inProgress ==>
      && r.inProgress && r.message == "Updating " + pkg.name + "..."
      && r.handler == Some(Request(Update(pkg), now, InProgress))
      && r.packages == s.packages
      && r.calls == s.calls + [AddCall("git+" + pkg.url)]
  {
    Begin(s, Update(pkg), "Updating " + pkg.name + "...", AddCall(SourceFor(pkg)), now)
  }

  /** The backend resolves the subscribed request. A resolved request does
      not change again, and without a subscription nobody observes it. */
  function Report(s: State, status: RequestStatus): (r: State)
    ensures r.packages == s.packages && r.inProgress == s.inProgress
    ensures r.message == s.message && r.calls == s.calls
    ensures r.handler.Some? <==> s.handler.Some?
    ensures s.handler.Some? ==>
      && r.handler.value.kind == s.handler.value.kind
      && r.handler.value.start == s.handler.value.start
      && (s.handler.value.status.InProgress? ==> r.handler.value.status == status)
      && (!s.handler.value.status.InProgress? ==> r.handler == s.handler)
  {
    match s.handler
    case Some(req) =>
      if req.status.InProgress? then s.(handler := Some(req.(status := status))) else s
    case None => s
  }

  /** The handler's firing condition: the request has completed, or more
      than `Timeout` seconds have passed since it started. */
  predicate Fires(s: State, now: int)
  {
    s.handler.Some? &&
    (!s.handler.value.status.InProgress? || now - s.handler.value.start > Timeout)
  }

  /** The handler's terminal path for `req`: a successful list reconciles
      the catalog; a failed or timed-out list leaves it; an install or
      update, whatever its outcome, starts a new manifest download. Every
      path unsubscribes and clears the flag. */
  function Finish(s: State, req: Request): (r: State)
    ensures r.handler.None? && !r.inProgress && r.message == s.message
    ensures req.kind.ListInstalled? ==>
      && r.calls == s.calls
      && r.packages == (if req.status.Succeeded? then Reconcile(s.packages, req.status.installed)
                        else s.packages)
    ensures !req.kind.ListInstalled? ==>
      r.packages == s.packages && r.calls == s.calls + [FetchCall(ManifestUrl)]
  {
    var done := s.(handler := None, inProgress := false);
    match req.kind
    case ListInstalled =>
      if req.status.Succeeded? then done.(packages := Reconcile(s.packages, req.status.installed))
      else done
    case Install(_) => Refresh(done)
    case Update(_) => Refresh(done)
  }

  /** One editor update tick at time `now`. */
  function Tick(s: State, now: int): (r: State)
    ensures !Fires(s, now) ==> r == s
    ensures Fires(s, now) ==> r.handler.None? && !r.inProgress && r.message == s.message
    ensures Fires(s, now) && s.handler.value.kind.ListInstalled? ==>
      && r.calls == s.calls
      && r.packages == (if s.handler.value.status.Succeeded?
                        then Reconcile(s.packages, s.handler.value.status.installed)
                        else s.packages)
    ensures Fires(s, now) && !s.handler.value.kind.ListInstalled? ==>
      r.packages == s.packages && r.calls == s.calls + [FetchCall(ManifestUrl)]
  {
    if Fires(s, now) then Finish(s, s.handler.value) else s
  }

  /** The manifest download finished. A network or parse error changes
      nothing. A parsed manifest replaces the catalog wholesale, even while
      an operation is in flight, and then asks for a status refresh, which
      the gate rejects if one is. */
  function FetchCompleted(s: State, result: FetchResult, now: int): (r: State)
    ensures !result.Fetched? ==> r == s
    ensures result.Fetched? ==> r.packages == result.packages
    ensures result.Fetched? && s.inProgress ==> r == s.(packages := result.packages)
    ensures result.Fetched? && !s.inProgress ==>
      && r.inProgress
      && r.handler == Some(Request(ListInstalled, now, InProgress))
      && r.calls == s.calls + [ListCall]
  {
    match result
    case Fetched(pkgs) => StartList(s.(packages := pkgs), now)
    case NetworkError(_) => s
    case ParseError(_) => s
  }
}
