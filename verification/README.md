# SPM package manager window: status reconciliation and single-flight polling

This project models the decision logic of the Shusmo package manager
window (`Editor/PackageManagerWindow.cs`) in Dafny and proves properties of
that model.

The window fetches a JSON manifest of packages, each with a name, a
version and a git URL. It asks the Unity package backend which packages
are installed and marks each catalog entry `NotInstalled`, `Outdated` or
`UpToDate`. It can also install or update a package through the same
backend.

The source's logic has two parts, and the model has one for each:

- **Status reconciliation** (`catalog.dfy`, module `Catalog`).
  - The completion handler of `UpdatePackageStatuses` is written as the
    source's two loops, as a pure function `Reconcile` over `seq<Package>`:
    - a pass over the installed list, where `List.Find` updates only the
      first catalog entry with the installed name;
    - a pass over the catalog, marking every name that is not installed as
      `NotInstalled`.
  - The outcome is also stated per entry by an independent definition,
    `ExpectedStatus`. That definition finds the last installed entry of a
    name by scanning backwards, and checks whether the entry is the first
    catalog position with its name.
  - `Reconcile`'s contract proves the two definitions agree.
- **Single-flight gate and tick poller** (`window.dfy`, module `Window`;
  `runs.dfy`, module `Runs`).
  - The window's state is a record holding:
    - the catalog;
    - `isOperationInProgress`;
    - `operationMessage`;
    - the subscribed tick handler, as an `Option<Request>`; a request
      holds its kind, its start time and the status the backend reports;
    - a log of every call issued to the backend or the manifest server.
  - The operations are the three gated starts (list, install, update), the
    backend's report, one editor tick, and the arrival of the manifest.
  - `Runs` folds sequences of these events. Over those sequences it proves:
    - the gate admits one operation at a time;
    - a handler fires once;
    - the flag always comes down.

Inputs from outside the window become parameters:

- the current time, as an integer number of seconds;
- the backend's request status;
- the outcome of the manifest download and parse.

## Behaviour worth noting

- **Duplicate catalog names.** A later catalog entry that repeats an
  installed name is never reached by `List.Find` (line 137), so it keeps
  its status, `Unknown` included. `DuplicateNameStaysUnknown` shows this;
  `DistinctNamesLeaveNoUnknown` proves no entry stays `Unknown` when names
  are distinct.
- **Fetched statuses.** The statuses of a fetched catalog come from the
  JSON deserializer (line 96), not from the constructor default (line 254),
  so the model takes them as given.
- **The fetch is not gated.** A parsed manifest replaces the catalog even
  while an operation is in flight, and the follow-up status refresh is then
  rejected (`FetchCompleted`). The new catalog is reconciled only if the
  pending handler is a list request that succeeds. An install or update in
  flight ends with another download instead. A list that fails or times out
  leaves the fetched statuses as they are.
- **Timeout.** The comparison is strict (`now - start > 60`). At exactly 60
  seconds the handler does not fire yet.

## Model

| member | source | states |
|---|---|---|
| `Catalog.Find` | Editor/PackageManagerWindow.cs:137 | `List.Find` by name returns the first catalog position with that name, or nothing exactly when no entry has it |
| `Catalog.MarkInstalled` | Editor/PackageManagerWindow.cs:135-141 | one installed entry changes only the status of the first catalog entry with its name, to `UpToDate` or `Outdated` by exact version equality; names, versions and urls are untouched |
| `Catalog.MarkMissing` | Editor/PackageManagerWindow.cs:144-150 | the loop over the catalog keeps every entry's name, version and url; an entry whose name is in the installed-name set keeps its status, any other becomes `NotInstalled` |
| `Catalog.ApplyInstalled` | Editor/PackageManagerWindow.cs:133-142 | the loop over the installed list keeps the catalog's length and every entry's name, version and url |
| `Catalog.LastEntry` | Editor/PackageManagerWindow.cs:131-135 | finds the last installed entry of a name; there is none exactly when the name is not in the installed-name set |
| `Catalog.ApplyInstalledStatus` | Editor/PackageManagerWindow.cs:133-142 | after the installed-list loop, the first entry of each installed name carries the status of the LAST installed entry with that name; every other entry keeps its status |
| `Catalog.Reconcile` | Editor/PackageManagerWindow.cs:129-150 | a successful list keeps length, order, names, versions and urls, and gives each entry its `ExpectedStatus`: `NotInstalled` if its name is not installed; otherwise, for the first entry of the name, the exact-version comparison with the last installed entry; for later duplicates, their old status |
| `Catalog.NotInstalledIffAbsent` | Editor/PackageManagerWindow.cs:144-149 | a first-of-name entry ends `NotInstalled` if and only if its name is absent from the installed list |
| `Catalog.AbsentIsNotInstalled` | Editor/PackageManagerWindow.cs:144-149 | every entry whose name is absent from the installed list ends `NotInstalled` |
| `Catalog.FirstMatchByExactVersion` | Editor/PackageManagerWindow.cs:137-140 | for the first entry of an installed name: `UpToDate` if and only if the last installed version string equals the catalog version, `Outdated` if and only if it differs; there is no semantic-version ordering |
| `Catalog.LaterDuplicateKeepsStatus` | Editor/PackageManagerWindow.cs:137 | a later catalog entry repeating an installed name keeps its previous status |
| `Catalog.DistinctNamesLeaveNoUnknown` | Editor/PackageManagerWindow.cs:131-150 | with pairwise distinct catalog names, every entry is `NotInstalled`, `Outdated` or `UpToDate` after a successful list |
| `Catalog.DuplicateNameStaysUnknown` | Editor/PackageManagerWindow.cs:133-150 | two `Unknown` entries named "A" with "A" 1.0 installed: the second stays `Unknown` |
| `Catalog.ReconcileIdempotent` | Editor/PackageManagerWindow.cs:129-150 | reconciling twice against the same installed list gives the same catalog as reconciling once |
| `Catalog.ReconcileIgnoresPriorStatus` | Editor/PackageManagerWindow.cs:96-100 | with distinct names, a re-fetched manifest reconciled against an unchanged installed list gets the same statuses, whatever statuses the entries carried before |
| `Catalog.StatusDerivationExamples` | Editor/PackageManagerWindow.cs:140-148 | "A" 1.0 becomes `UpToDate` when 1.0 is installed, `Outdated` when 0.9 is installed, `NotInstalled` when nothing is installed |
| `Catalog.ControlFor` | Editor/PackageManagerWindow.cs:48-65 | a row offers Install exactly for `NotInstalled`, Update exactly for `Outdated`, and shows the "Up to date" label exactly for `UpToDate` and `Unknown` |
| `Catalog.ReconciledRowControls` | Editor/PackageManagerWindow.cs:48-65 | after a successful list with distinct names, a row offers Install exactly when its name is not installed, and Update exactly when the installed version string differs |
| `Window.Refresh` | Editor/PackageManagerWindow.cs:73-77 | starting a manifest download is not gated: it issues one fetch of the manifest url and leaves the catalog, flag, message and subscription as they were |
| `Window.SourceFor` | Editor/PackageManagerWindow.cs:179 | the backend locator is the package url behind the prefix `git+`, and the url can be read back from it |
| `Window.Open` | Editor/PackageManagerWindow.cs:12-25 | a new window has an empty catalog, no operation in flight and one manifest download started |
| `Window.Begin` | Editor/PackageManagerWindow.cs:112-119 | the shared gate: while an operation is in flight nothing changes; otherwise the flag is raised, the message set, exactly one call issued and one handler subscribed from `now`, and the catalog left alone |
| `Window.StartList` | Editor/PackageManagerWindow.cs:110-123 | a status refresh is rejected while busy; otherwise it issues one list call, raises the flag with "Updating package statuses..." and subscribes a list handler |
| `Window.StartInstall` | Editor/PackageManagerWindow.cs:168-181 | an install is rejected while busy; otherwise it issues one add call for `"git+" + url`, with the message "Installing <name>..." |
| `Window.StartUpdate` | Editor/PackageManagerWindow.cs:207-220 | an update is rejected while busy; otherwise it issues the same add call as an install, with the message "Updating <name>..." |
| `Window.Finish` | Editor/PackageManagerWindow.cs:129-162 | every terminal path of a handler unsubscribes and clears the flag, keeping the message; a successful list reconciles the catalog, a failed or timed-out list leaves it; an install or update (lines 196-200, 235-239) leaves it and issues exactly one new manifest download |
| `Window.Report` | Editor/PackageManagerWindow.cs:127-129 | the backend resolves an unresolved request once; a resolved request never changes again; nothing else in the window changes |
| `Window.Tick` | Editor/PackageManagerWindow.cs:125-163 | a tick changes nothing unless the request has completed or more than 60 seconds have passed; when it fires, it unsubscribes and clears the flag; a successful list reconciles the catalog; a failed or timed-out list leaves it; an add leaves it and starts a new manifest download |
| `Window.FetchCompleted` | Editor/PackageManagerWindow.cs:87-105 | a failed download or parse leaves the window unchanged; a parsed manifest replaces the catalog and starts a status refresh, which is rejected if an operation is already in flight |
| `Runs.Run` | Editor/PackageManagerWindow.cs:157-165 | along any event sequence, the flag stays raised exactly while a handler is subscribed, and issued calls are never withdrawn |
| `Runs.BusyStartsRejected` | Editor/PackageManagerWindow.cs:209-213 | any number of list, install or update requests issued while an operation is in flight change nothing and issue no call |
| `Runs.SingleFlight` | Editor/PackageManagerWindow.cs:170-176 | a burst of start requests on an idle window issues exactly one backend call, the first request's, and leaves the catalog alone |
| `Runs.NoSecondFiring` | Editor/PackageManagerWindow.cs:157 | once the handler has unsubscribed, later ticks and late backend reports change nothing |
| `Runs.FiresOnce` | Editor/PackageManagerWindow.cs:222-241 | the tick that fires the handler is the last one that acts: whatever ticks and backend reports follow that tick, the window stays exactly as it left it |
| `Runs.ClearedByDeadline` | Editor/PackageManagerWindow.cs:122-127 | if a tick comes more than 60 seconds after the request started, the handler has fired and the flag is down by the end of the run, whatever the backend reports |
| `Runs.UnsuccessfulListKeepsCatalog` | Editor/PackageManagerWindow.cs:129-155 | a list that has failed, or is never answered before it times out, leaves every catalog entry and status unchanged through any run of ticks and reports that are not a success |
| `Runs.AddAlwaysRefetches` | Editor/PackageManagerWindow.cs:183-202 | an install or update polled until a tick past the deadline ends, by success, failure or timeout, with the flag down, the catalog unchanged and exactly one new manifest download issued |
| `Runs.FailedFetchKeepsState` | Editor/PackageManagerWindow.cs:87-90 | any number of failed downloads or unparsable manifests leave the whole window, catalog and statuses included, exactly as it was |
| `Runs.InstallScenario` | Editor/PackageManagerWindow.cs:79-200 | manifest [A 1.0, B 2.0] with only A 1.0 installed shows A up to date and B not installed; installing B, then re-fetching with both installed, shows both up to date, with the calls fetch, list, add `git+urlB`, fetch, list |

## Left out

- Rendering (`OnGUI`, `ShowWindow`, `Repaint`, the `EditorGUILayout` calls) is left out. Only the mapping from status to row control (`ControlFor`) is kept. `Unknown` falls into the "Up to date" label branch.
- The HTTP download (`UnityWebRequest`), the coroutine runner and `JsonUtility.FromJson` are left out because they are I/O and a foreign library. Their combined outcome is the input `FetchResult`: `Fetched(packages)`, `NetworkError` or `ParseError`.
- A manifest whose `packages` field deserializes to null is not modelled.
- The backend (`Client.List`, `Client.Add`) is reduced to a request whose status the environment sets through `Report`. After a timeout the backend operation is abandoned, not stopped; nothing observes it, so the model does not represent it.
- `Time.realtimeSinceStartup` is a float clock; time is an integer here, and the strict `>` comparison is kept.
- `Debug.Log`, `LogWarning` and `LogError` messages are left out, as logging only. Failure and timeout therefore differ only in their log lines, and the model treats them alike.
- The captured `Package` object is copied by value into the request. Only its name and url are read, and nothing changes those, so nothing depends on aliasing.
