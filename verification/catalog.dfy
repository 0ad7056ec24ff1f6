/** The package catalog shown by the SPM window and the reconciliation of
    its statuses against the editor's installed-package list
    (Editor/PackageManagerWindow.cs, `UpdatePackageStatuses` completion
    handler, `Package`, `PackageStatus`). */
module Catalog {
  import opened Wrappers

  /** Install state of one catalog entry. */
  datatype PackageStatus = NotInstalled | Outdated | UpToDate | Unknown

  /** One catalog entry as fetched from the manifest. */
  datatype Package = Package(name: string, version: string, url: string, status: PackageStatus)

  /** One entry of the backend's installed list; only name and version are read. */
  datatype InstalledPackage = InstalledPackage(name: string, version: string)

  /** Two entries are the same manifest entry, whatever their statuses. */
  predicate SameEntry(a: Package, b: Package)
  {
    a.name == b.name && a.version == b.version && a.url == b.url
  }

  /** `k` is the first catalog position carrying its name: the entry a
      by-name `List.Find` lands on. */
  predicate IsFirstOfName(pkgs: seq<Package>, k: nat)
    requires k < |pkgs|
  {
    forall i :: 0 <= i < k ==> pkgs[i].name != pkgs[k].name
  }

  /** No two catalog entries share a name. */
  predicate DistinctNames(pkgs: seq<Package>)
  {
    forall i, j :: 0 <= i < j < |pkgs| ==> pkgs[i].name != pkgs[j].name
  }

  /** The status an installed version gives a catalog version: exact string
      equality, no semantic-version ordering. */
  function VersionStatus(installedVersion: string, catalogVersion: string): PackageStatus
  {
    if installedVersion == catalogVersion then UpToDate else Outdated
  }

  /** Names appearing in the installed list (the `HashSet` of the handler). */
  function InstalledNames(installed: seq<InstalledPackage>): set<string>
  {
    set i | 0 <= i < |installed| :: installed[i].name
  }

  // ---------------------------------------------------------------------
  // The handler as written: a by-name search, a pass over the installed
  // list, then a pass over the catalog.
  // ---------------------------------------------------------------------

  /** Search for `name` among positions `from..` of the catalog. */
  function FindFrom(pkgs: seq<Package>, name: string, from: nat): (r: Option<nat>)
    requires from <= |pkgs|
    ensures r.Some? ==> from <= r.value < |pkgs| && pkgs[r.value].name == name
    ensures r.Some? ==> forall i :: from <= i < r.value ==> pkgs[i].name != name
    ensures r.None? ==> forall i :: from <= i < |pkgs| ==> pkgs[i].name != name
    decreases |pkgs| - from
  {
    if from == |pkgs| then None
    else if pkgs[from].name == name then Some(from)
    else FindFrom(pkgs, name, from + 1)
  }

  /** `List.Find(p => p.name == name)`: the first entry with that name. */
  function Find(pkgs: seq<Package>, name: string): (r: Option<nat>)
    ensures r.Some? ==> r.value < |pkgs| && pkgs[r.value].name == name && IsFirstOfName(pkgs, r.value)
    ensures r.None? <==> forall i :: 0 <= i < |pkgs| ==> pkgs[i].name != name
  {
    FindFrom(pkgs, name, 0)
  }

  /** One iteration of the loop over the installed list: the first catalog
      entry with the installed name gets its status from the version
      comparison; every other entry is left alone. */
  function MarkInstalled(pkgs: seq<Package>, entry: InstalledPackage): (r: seq<Package>)
    ensures |r| == |pkgs|
    ensures forall k :: 0 <= k < |pkgs| ==> SameEntry(r[k], pkgs[k])
    ensures forall k :: 0 <= k < |pkgs| ==>
      r[k].status == (if pkgs[k].name == entry.name && IsFirstOfName(pkgs, k)
                      then VersionStatus(entry.version, pkgs[k].version)
                      else pkgs[k].status)
  {
    match Find(pkgs, entry.name)
    case None => pkgs
    case Some(i) => pkgs[i := pkgs[i].(status := VersionStatus(entry.version, pkgs[i].version))]
  }

  /** The loop over the installed list, in list order. */
  function ApplyInstalled(pkgs: seq<Package>, installed: seq<InstalledPackage>): (r: seq<Package>)
    ensures |r| == |pkgs|
    ensures forall k :: 0 <= k < |pkgs| ==> SameEntry(r[k], pkgs[k])
    decreases |installed|
  {
    if |installed| == 0 then pkgs
    else ApplyInstalled(MarkInstalled(pkgs, installed[0]), installed[1..])
  }

  /** The loop over the catalog: entries whose name is not installed
      become `NotInstalled`. */
  function MarkMissing(pkgs: seq<Package>, names: set<string>): (r: seq<Package>)
    ensures |r| == |pkgs|
    ensures forall k :: 0 <= k < |pkgs| ==> SameEntry(r[k], pkgs[k])
    ensures forall k :: 0 <= k < |pkgs| ==>
      r[k].status == (if pkgs[k].name in names then pkgs[k].status else NotInstalled)
  {
    seq(|pkgs|, k requires 0 <= k < |pkgs| =>
      if pkgs[k].name in names then pkgs[k] else pkgs[k].(status := NotInstalled))
  }

  // ---------------------------------------------------------------------
  // The same outcome stated per entry.
  // ---------------------------------------------------------------------

  /** Search for the last installed entry named `name` among positions
      below `upTo`, scanning backwards. */
  function LastBefore(installed: seq<InstalledPackage>, name: string, upTo: nat): (r: Option<nat>)
    requires upTo <= |installed|
    ensures r.Some? ==> r.value < upTo && installed[r.value].name == name
    ensures r.Some? ==> forall j :: r.value < j < upTo ==> installed[j].name != name
    ensures r.None? ==> forall j :: 0 <= j < upTo ==> installed[j].name != name
  {
    if upTo == 0 then None
    else if installed[upTo - 1].name == name then Some(upTo - 1)
    else LastBefore(installed, name, upTo - 1)
  }

  /** The position of the last installed entry named `name`, if any: the
      one whose version the handler's last write for that name uses. */
  function LastEntry(installed: seq<InstalledPackage>, name: string): (r: Option<nat>)
    ensures r.Some? ==> r.value < |installed| && installed[r.value].name == name
    ensures r.Some? ==> forall j :: r.value < j < |installed| ==> installed[j].name != name
    ensures r.None? <==> name !in InstalledNames(installed)
  {
    var r := LastBefore(installed, name, |installed|);
    assert r.Some? ==> installed[r.value].name in InstalledNames(installed);
    r
  }

  /** The status the handler leaves on catalog entry `k`: `NotInstalled`
      when its name is not installed; otherwise, for the first entry of
      that name, the comparison with the last installed version of that
      name; for later entries of the same name, the status they had. */
  function ExpectedStatus(pkgs: seq<Package>, installed: seq<InstalledPackage>, k: nat): PackageStatus
    requires k < |pkgs|
  {
    match LastEntry(installed, pkgs[k].name)
    case None => NotInstalled
    case Some(j) =>
      if IsFirstOfName(pkgs, k) then VersionStatus(installed[j].version, pkgs[k].version)
      else pkgs[k].status
  }

  /** Where the last entry of a name sits once the list's head is split off. */
  lemma LastEntryCons(installed: seq<InstalledPackage>, name: string)
    requires |installed| > 0
    ensures LastEntry(installed, name) ==
      match LastEntry(installed[1..], name)
      case Some(j) => Some(j + 1)
      case None => if installed[0].name == name then Some(0) else None
  {
  }

  /** The installed-list loop gives the first entry of each installed name
      the status of the LAST installed entry with that name, and touches
      nothing else. */
  lemma {:induction false} ApplyInstalledStatus(pkgs: seq<Package>, installed: seq<InstalledPackage>, k: nat)
    requires k < |pkgs|
    ensures ApplyInstalled(pkgs, installed)[k].status ==
      match LastEntry(installed, pkgs[k].name)
      case Some(j) =>
        if IsFirstOfName(pkgs, k) then VersionStatus(installed[j].version, pkgs[k].version)
        else pkgs[k].status
      case None => pkgs[k].status
    decreases |installed|
  {
    if |installed| > 0 {
      var marked := MarkInstalled(pkgs, installed[0]);
      var rest := installed[1..];
      ApplyInstalledStatus(marked, rest, k);
      LastEntryCons(installed, pkgs[k].name);
      assert IsFirstOfName(marked, k) == IsFirstOfName(pkgs, k);
      match LastEntry(rest, pkgs[k].name)
      case Some(j) =>
        assert installed[j + 1] == rest[j];
      case None =>
    }
  }

  /** `ApplyInstalledStatus` for every catalog position at once. */
  lemma ApplyInstalledAll(pkgs: seq<Package>, installed: seq<InstalledPackage>)
    ensures forall k :: 0 <= k < |pkgs| && pkgs[k].name in InstalledNames(installed) ==>
      ApplyInstalled(pkgs, installed)[k].status == ExpectedStatus(pkgs, installed, k)
  {
    forall k | 0 <= k < |pkgs| && pkgs[k].name in InstalledNames(installed)
      ensures ApplyInstalled(pkgs, installed)[k].status == ExpectedStatus(pkgs, installed, k)
    {
      ApplyInstalledStatus(pkgs, installed, k);
    }
  }

  /** Status reconciliation after a successful list request: the catalog
      after the handler's two loops. */
  function Reconcile(pkgs: seq<Package>, installed: seq<InstalledPackage>): (r: seq<Package>)
    ensures |r| == |pkgs|
    ensures forall k :: 0 <= k < |pkgs| ==> SameEntry(r[k], pkgs[k])
    ensures forall k :: 0 <= k < |pkgs| ==> r[k].status == ExpectedStatus(pkgs, installed, k)
  {
    var applied := ApplyInstalled(pkgs, installed);
    ApplyInstalledAll(pkgs, installed);
    MarkMissing(applied, InstalledNames(installed))
  }

  // ---------------------------------------------------------------------
  // Properties of reconciliation.
  // ---------------------------------------------------------------------

  /** A first-of-name entry ends `NotInstalled` exactly when no installed
      entry carries its name. */
  lemma NotInstalledIffAbsent(pkgs: seq<Package>, installed: seq<InstalledPackage>, k: nat)
    requires k < |pkgs| && IsFirstOfName(pkgs, k)
    ensures Reconcile(pkgs, installed)[k].status == NotInstalled
            <==> pkgs[k].name !in InstalledNames(installed)
  {
  }

  /** Every entry whose name is absent from the installed list ends
      `NotInstalled`, whatever its position or prior status. */
  lemma AbsentIsNotInstalled(pkgs: seq<Package>, installed: seq<InstalledPackage>)
    ensures forall k :: 0 <= k < |pkgs| && pkgs[k].name !in InstalledNames(installed) ==>
      Reconcile(pkgs, installed)[k].status == NotInstalled
  {
  }

  /** For the first catalog entry of an installed name, `UpToDate` means the
      last installed entry of that name has exactly the catalog's version
      string, and `Outdated` means it has any other string. */
  lemma FirstMatchByExactVersion(pkgs: seq<Package>, installed: seq<InstalledPackage>, k: nat, j: nat)
    requires k < |pkgs| && IsFirstOfName(pkgs, k)
    requires j < |installed| && installed[j].name == pkgs[k].name
    requires forall j' :: j < j' < |installed| ==> installed[j'].name != pkgs[k].name
    ensures Reconcile(pkgs, installed)[k].status == UpToDate <==> installed[j].version == pkgs[k].version
    ensures Reconcile(pkgs, installed)[k].status == Outdated <==> installed[j].version != pkgs[k].version
  {
  }

  /** A later catalog entry repeating an installed name keeps whatever
      status it had: `List.Find` only ever reaches the first one. */
  lemma LaterDuplicateKeepsStatus(pkgs: seq<Package>, installed: seq<InstalledPackage>, k: nat)
    requires k < |pkgs| && !IsFirstOfName(pkgs, k)
    requires pkgs[k].name in InstalledNames(installed)
    ensures Reconcile(pkgs, installed)[k].status == pkgs[k].status
  {
  }

  /** With pairwise distinct catalog names a successful list leaves no
      entry `Unknown`. */
  lemma DistinctNamesLeaveNoUnknown(pkgs: seq<Package>, installed: seq<InstalledPackage>)
    requires DistinctNames(pkgs)
    ensures forall k :: 0 <= k < |pkgs| ==>
      Reconcile(pkgs, installed)[k].status in {NotInstalled, Outdated, UpToDate}
  {
  }

  /** A duplicated catalog name does leave the later entry `Unknown`: two
      entries "A" 1.0 fetched as `Unknown`, installed list ["A" 1.0]. */
  lemma DuplicateNameStaysUnknown()
    ensures var pkgs := [Package("A", "1.0", "u", Unknown), Package("A", "1.0", "u", Unknown)];
            Reconcile(pkgs, [InstalledPackage("A", "1.0")])[1].status == Unknown
  {
  }

  /** Reconciling an already reconciled catalog against the same installed
      list changes nothing. */
  lemma ReconcileIdempotent(pkgs: seq<Package>, installed: seq<InstalledPackage>)
    ensures Reconcile(Reconcile(pkgs, installed), installed) == Reconcile(pkgs, installed)
  {
  }

  /** With distinct names, the outcome does not depend on the statuses the
      entries had before: re-fetching the same manifest and reconciling
      against the same installed list gives the same catalog. */
  lemma ReconcileIgnoresPriorStatus(a: seq<Package>, b: seq<Package>, installed: seq<InstalledPackage>)
    requires |a| == |b| && DistinctNames(a)
    requires forall k :: 0 <= k < |a| ==> SameEntry(a[k], b[k])
    ensures Reconcile(a, installed) == Reconcile(b, installed)
  {
  }

  /** The three single-package cases: same version, older installed
      version, not installed at all. */
  lemma StatusDerivationExamples()
    ensures Reconcile([Package("A", "1.0", "u", Unknown)], [InstalledPackage("A", "1.0")])[0].status == UpToDate
    ensures Reconcile([Package("A", "1.0", "u", Unknown)], [InstalledPackage("A", "0.9")])[0].status == Outdated
    ensures Reconcile([Package("A", "1.0", "u", Unknown)], [])[0].status == NotInstalled
  {
  }

  // ---------------------------------------------------------------------
  // What each row of the window offers.
  // ---------------------------------------------------------------------

  /** The control drawn next to a package row. */
  datatype RowControl = InstallButton | UpdateButton | UpToDateLabel

  /** `NotInstalled` offers Install, `Outdated` offers Update, and every
      other status, `Unknown` included, shows the "Up to date" label. */
  function ControlFor(status: PackageStatus): (r: RowControl)
    ensures r == InstallButton <==> status == NotInstalled
    ensures r == UpdateButton <==> status == Outdated
    ensures r == UpToDateLabel <==> status == UpToDate || status == Unknown
  {
    match status
    case NotInstalled => InstallButton
    case Outdated => UpdateButton
    case _ => UpToDateLabel
  }

  /** After a successful list over a catalog with distinct names, a row
      offers Install exactly when its name is not installed, Update exactly
      when the installed version string differs, and the label otherwise. */
  lemma ReconciledRowControls(pkgs: seq<Package>, installed: seq<InstalledPackage>, k: nat)
    requires DistinctNames(pkgs) && k < |pkgs|
    ensures var c := ControlFor(Reconcile(pkgs, installed)[k].status);
      && (c == InstallButton <==> pkgs[k].name !in InstalledNames(installed))
      && (c == UpdateButton <==> (pkgs[k].name in InstalledNames(installed)
            && installed[LastEntry(installed, pkgs[k].name).value].version != pkgs[k].version))
  {
  }
}
