/** The self-upgrade flow: choosing the latest version named in the upgrade
    list, deciding whether to upgrade, and the checks made before a package
    is installed. Everything the host does (probing for the install tool,
    HTTP, the file system, hashing) is given as a `Host` value. */
module Upgrader {
  import opened Wrappers
  import opened Text
  import opened Version
  import opened UpgradeConfig
  import UpgradeList

  // ---------------------------------------------------------------------
  // Package names

  /** The version a package file name carries: the text after its last
      ".v"; none when the name has no ".v" or nothing follows it. */
  function Candidate(filename: string): (r: Option<string>)
    ensures r.Some? ==> r.value != [] && OccursAt(filename, ".v", |filename| - |r.value| - 2)
    ensures r.Some? ==> forall k :: |filename| - |r.value| - 2 < k ==> !OccursAt(filename, ".v", k)
    ensures r.None? ==> (forall k :: !OccursAt(filename, ".v", k)) || OccursAt(filename, ".v", |filename| - 2)
  {
    var i := LastIndex(filename, ".v");
    if i == -1 then None
    else
      var version := filename[i + 2..];
      if version == "" then None else Some(version)
  }

  /** The file name of the package of `version`: "{os}-{arch}-{app}.v{version}". */
  function PackageName(os: string, arch: string, appName: string, version: string): string {
    os + "-" + arch + "-" + appName + ".v" + version
  }

  /** A package name carries its version back, unless the version itself
      contains ".v". */
  lemma PackageCandidate(os: string, arch: string, appName: string, version: string)
    requires version != [] && forall k :: !OccursAt(version, ".v", k)
    ensures Candidate(PackageName(os, arch, appName, version)) == Some(version)
  {
    var p := os + "-" + arch + "-" + appName;
    var name := PackageName(os, arch, appName, version);
    assert name == p + ".v" + version;
    assert OccursAt(name, ".v", |p|) by {
      assert name[|p|..|p| + 2] == ".v";
    }
    forall k | |p| < k
      ensures !OccursAt(name, ".v", k)
    {
      if k == |p| + 1 {
        assert name[k] == 'v';
      } else if k + 2 <= |name| {
        assert name[k..k + 2] == version[k - |p| - 2..k - |p|];
        assert !OccursAt(version, ".v", k - |p| - 2);
      }
    }
    var i := LastIndex(name, ".v");
    assert i == |p|;
    assert name[i + 2..] == version;
  }

  /** `ListURL`: where the upgrade list is fetched from. */
  function ListURL(serverURL: string): string {
    serverURL + "/list.txt"
  }

  /** Where a package is downloaded from. */
  function PackageURL(serverURL: string, name: string): string {
    serverURL + "/" + name
  }

  // ---------------------------------------------------------------------
  // Choosing the latest version

  /** `a` is newer than `b`: both parse and `a` ranks above `b`. */
  predicate Newer(a: string, b: string) {
    CompareVersions(a, b) == Ok(1)
  }

  lemma NewerIrreflexive(a: string)
    ensures !Newer(a, a)
  {
    if ParseVersion(a).Ok? {
      CompareZero(ParseVersion(a).value, ParseVersion(a).value);
    }
  }

  lemma NewerTransitive(a: string, b: string, c: string)
    requires Newer(a, b) && Newer(b, c)
    ensures Newer(a, c)
  {
    CompareTransitive(ParseVersion(a).value, ParseVersion(b).value, ParseVersion(c).value);
  }

  /** No file name among `names` carries a version. */
  ghost predicate NoCandidate(names: set<string>) {
    forall f :: f in names ==> Candidate(f).None?
  }

  /** `v` is carried by one of `names`, and none of them carries a version
      that `newer` ranks above it. */
  ghost predicate LatestBy(names: set<string>, v: string, newer: (string, string) -> bool) {
    (exists f :: f in names && Candidate(f) == Some(v))
    && forall f :: f in names && Candidate(f).Some? ==> !newer(Candidate(f).value, v)
  }

  /** `v` is carried by one of `names` and none of them carries a newer one. */
  ghost predicate Latest(names: set<string>, v: string) {
    LatestBy(names, v, Newer)
  }

  /** `compareVersions` succeeding with a positive result is being newer. */
  lemma NewerWhenPositive(a: string, b: string)
    ensures Newer(a, b) <==> CompareVersions(a, b).Ok? && CompareVersions(a, b).value > 0
  {
    PositiveIsOne(CompareVersions(a, b));
  }

  lemma PositiveIsOne<E>(r: Result<int, E>)
    requires r.Ok? ==> -1 <= r.value <= 1
    ensures r == Ok(1) <==> r.Ok? && r.value > 0
  {
  }

  /** Whatever is newer than `v` is newer than what `v` is newer than. */
  lemma NewerThrough(v: string, older: string)
    requires Newer(v, older)
    ensures forall a :: Newer(a, v) ==> Newer(a, older)
  {
    forall a | Newer(a, v)
      ensures Newer(a, older)
    {
      NewerTransitive(a, v, older);
    }
  }

  /** The loop of `CheckUpgrade` that picks the latest version among the
      file names of the list, visiting them in an arbitrary order: the first
      candidate is taken, and a later one replaces it only when it is newer.
      Whatever the order, no candidate is newer than the one chosen. */
  method SelectLatest(upgradeMap: map<string, string>) returns (latest: string)
    ensures latest == "" <==> NoCandidate(upgradeMap.Keys)
    ensures latest != "" ==> Latest(upgradeMap.Keys, latest)
  {
    var remaining := upgradeMap.Keys;
    ghost var seen: set<string> := {};
    latest := "";
    while remaining != {}
      invariant seen + remaining == upgradeMap.Keys
      invariant latest == "" <==> NoCandidate(seen)
      invariant latest != "" ==> Latest(seen, latest)
      decreases |remaining|
    {
      var filename :| filename in remaining;
      remaining := remaining - {filename};
      var version := Candidate(filename);
      if version.Some? {
        if latest == "" {
          latest := version.value;
          NewerIrreflexive(latest);
          LatestFirst(seen, filename, latest, Newer);
        } else {
          var cmp := CompareVersions(version.value, latest);
          NewerWhenPositive(version.value, latest);
          if cmp.Ok? && cmp.value > 0 {
            NewerIrreflexive(version.value);
            NewerThrough(version.value, latest);
            LatestReplaced(seen, filename, latest, version.value, Newer);
            latest := version.value;
          } else {
            LatestKept(seen, filename, latest, Newer);
          }
        }
      } else if latest != "" {
        LatestKept(seen, filename, latest, Newer);
      }
      seen := seen + {filename};
    }
  }

  /** The first candidate is the latest of what has been seen. */
  lemma LatestFirst(seen: set<string>, f: string, v: string, newer: (string, string) -> bool)
    requires NoCandidate(seen) && Candidate(f) == Some(v) && !newer(v, v)
    ensures LatestBy(seen + {f}, v, newer)
  {
    assert f in seen + {f};
  }

  /** A newer candidate becomes the latest. */
  lemma LatestReplaced(seen: set<string>, f: string, latest: string, v: string, newer: (string, string) -> bool)
    requires LatestBy(seen, latest, newer) && Candidate(f) == Some(v)
    requires newer(v, latest) && !newer(v, v)
    requires forall a :: newer(a, v) ==> newer(a, latest)
    ensures LatestBy(seen + {f}, v, newer)
  {
    assert f in seen + {f};
  }

  /** A candidate that is not newer leaves the latest as it is. */
  lemma LatestKept(seen: set<string>, f: string, latest: string, newer: (string, string) -> bool)
    requires LatestBy(seen, latest, newer)
    requires Candidate(f).Some? ==> !newer(Candidate(f).value, latest)
    ensures LatestBy(seen + {f}, latest, newer)
  {
    var g :| g in seen && Candidate(g) == Some(latest);
    assert g in seen + {f};
  }

  /** When every candidate parses, the chosen version ranks at or above
      every candidate. */
  lemma LatestIsMaximum(names: set<string>, v: string)
    requires Latest(names, v)
    requires forall f :: f in names && Candidate(f).Some? ==> ParseVersion(Candidate(f).value).Ok?
    ensures ParseVersion(v).Ok?
    ensures forall f :: f in names && Candidate(f).Some? ==>
      Compare(ParseVersion(Candidate(f).value).value, ParseVersion(v).value) <= 0
  {
    var g :| g in names && Candidate(g) == Some(v);
    forall f | f in names && Candidate(f).Some?
      ensures Compare(ParseVersion(Candidate(f).value).value, ParseVersion(v).value) <= 0
    {
      NotNewer(Candidate(f).value, v);
    }
  }

  lemma NotNewer(a: string, b: string)
    requires ParseVersion(a).Ok? && ParseVersion(b).Ok? && !Newer(a, b)
    ensures Compare(ParseVersion(a).value, ParseVersion(b).value) <= 0
  {
    NewerWhenPositive(a, b);
  }

  // ---------------------------------------------------------------------
  // The host

  /** What the host does when asked: whether the install tool exists, the
      content fetched from a URL, the path of the running executable, the
      outcome of downloading a package from a URL, the SHA-256 of the
      downloaded file, and the outcome of installing it. */
  datatype Host = Host(
    installTool: Result<bool, string>,
    fetch: string -> Result<string, string>,
    executablePath: Result<string, string>,
    download: string -> Option<string>,
    sha256: Result<string, string>,
    install: Option<string>)

  datatype CheckError =
    | InstallToolCheckFailed(reason: string)
    | InstallToolNotFound
    | FetchFailed(reason: string)
    | ParseListFailed(listError: UpgradeList.ListError)
    | NoValidVersion
    | CompareFailed(versionError: VersionError)

  datatype UpgradeError =
    | CheckFailed(checkError: CheckError)
    | ExecutablePathFailed(reason: string)
    | DownloadFailed(url: string, reason: string)
    | PackageNotListed(name: string)
    | HashFailed(reason: string)
    | HashMismatch(expected: string, actual: string)
    | InstallFailed(reason: string)

  /** How an upgrade that did not fail ended. Go returns nil for all three. */
  datatype UpgradeOutcome = UpToDate | Cancelled(version: string) | Installed(version: string, path: string)

  /** The part of a check that does not depend on the visiting order: the
      install tool, the fetched list and its parse. */
  function FetchedList(host: Host, serverURL: string): (r: Result<map<string, string>, CheckError>)
    ensures r.Ok? ==> host.installTool == Ok(true) && host.fetch(ListURL(serverURL)).Ok?
    ensures r.Ok? ==> UpgradeList.Collect(Split(host.fetch(ListURL(serverURL)).value, '\n')) == Ok(r.value)
    ensures host.installTool == Ok(false) ==> r == Err(InstallToolNotFound)
  {
    match host.installTool
    case Err(e) => Err(InstallToolCheckFailed(e))
    case Ok(found) =>
      if !found then Err(InstallToolNotFound)
      else match host.fetch(ListURL(serverURL))
        case Err(e) => Err(FetchFailed(e))
        case Ok(content) =>
          match UpgradeList.Collect(Split(content, '\n'))
          case Err(e) => Err(ParseListFailed(e))
          case Ok(m) => Ok(m)
  }

  /** `latest` is what the selection loop may choose from `names`: nothing
      when no name carries a version, otherwise a latest one. */
  ghost predicate Chosen(names: set<string>, latest: string) {
    (latest == "" <==> NoCandidate(names)) && (latest != "" ==> Latest(names, latest))
  }

  /** The verdict of a check on the list `m` for the running version
      `current` once `latest` has been chosen: no version, the comparison
      failing, nothing newer, or the newer version with the whole list. */
  function Verdict(current: string, m: map<string, string>, latest: string): (r: Result<Option<VersionInfo>, CheckError>)
    ensures r == Err(NoValidVersion) <==> latest == ""
    ensures r.Err? && r.error.CompareFailed? <==> latest != "" && NeedsUpgrade(current, latest).Err?
    ensures r == Ok(None) <==> latest != "" && NeedsUpgrade(current, latest) == Ok(false)
    ensures r.Ok? && r.value.Some? <==> latest != "" && NeedsUpgrade(current, latest) == Ok(true)
    ensures r.Ok? && r.value.Some? ==> r.value.value.version == latest && r.value.value.upgradeMap == m
  {
    if latest == "" then Err(NoValidVersion)
    else match NeedsUpgrade(current, latest)
      case Err(e) => Err(CompareFailed(e))
      case Ok(needUpgrade) => if needUpgrade then Ok(Some(VersionInfo(latest, "", "", m))) else Ok(None)
  }

  /** `r` is what `CheckUpgrade` reports with `host` for the running
      version `current` and the server `serverURL` when it chooses
      `latest`: the failure of the install tool, fetch or parse, or the
      verdict on the list. */
  ghost predicate CheckResult(host: Host, serverURL: string, current: string, latest: string,
                              r: Result<Option<VersionInfo>, CheckError>) {
    var list := FetchedList(host, serverURL);
    && (list.Err? ==> r == Err(list.error))
    && (list.Ok? ==> Chosen(list.value.Keys, latest) && r == Verdict(current, list.value, latest))
  }

  /** `r` is the outcome `StartUpgrade` reaches with `host` after its check
      reported `check`, for the application `appName` built for
      `os`/`arch`, upgrading from `serverURL` and confirming with
      `callback`. */
  ghost predicate Upgraded(host: Host, os: string, arch: string, appName: string, serverURL: string,
                           callback: Callback, check: Result<Option<VersionInfo>, CheckError>,
                           r: Result<UpgradeOutcome, UpgradeError>) {
    && (check.Err? ==> r == Err(CheckFailed(check.error)))
    && (check == Ok(None) ==> r == Ok(UpToDate))
    && (r.Ok? && !r.value.UpToDate? ==> check.Ok? && check.value.Some?)
    && (r.Err? && !r.error.CheckFailed? ==> check.Ok? && check.value.Some?)
    && (check.Ok? && check.value.Some? ==>
          var info := check.value.value;
          var name := PackageName(os, arch, appName, info.version);
          var url := PackageURL(serverURL, name);
          // Each step the upgrade reaches; the first that fails is reported.
          var confirmed := callback(info.version);
          var located := confirmed && host.executablePath.Ok?;
          var downloaded := located && host.download(url).None?;
          var listed := downloaded && name in info.upgradeMap;
          var hashed := listed && host.sha256.Ok?;
          var matched := hashed && host.sha256.value == info.upgradeMap[name];
          && (!confirmed <==> r == Ok(Cancelled(info.version)))
          && (confirmed && !located ==> r == Err(ExecutablePathFailed(host.executablePath.error)))
          && (located && !downloaded ==> r == Err(DownloadFailed(url, host.download(url).value)))
          && (downloaded && !listed ==> r == Err(PackageNotListed(name)))
          && (listed && !hashed ==> r == Err(HashFailed(host.sha256.error)))
          && (hashed && !matched ==> r == Err(HashMismatch(info.upgradeMap[name], host.sha256.value)))
          && (matched && host.install.Some? ==> r == Err(InstallFailed(host.install.value)))
          && (matched && host.install.None? <==> r.Ok? && r.value.Installed?)
          && (r.Ok? && r.value.Installed? ==> r.value == Installed(info.version, host.executablePath.value)))
  }

  /** What an installation guarantees: the version installed is a latest
      one of the fetched list, newer than the running version, confirmed,
      and its package is listed with the hash the downloaded file has. */
  lemma InstalledIsListedAndNewer(host: Host, os: string, arch: string, appName: string, serverURL: string,
                                  current: string, callback: Callback, latest: string,
                                  check: Result<Option<VersionInfo>, CheckError>,
                                  r: Result<UpgradeOutcome, UpgradeError>)
    requires CheckResult(host, serverURL, current, latest, check)
    requires Upgraded(host, os, arch, appName, serverURL, callback, check, r)
    requires r.Ok? && r.value.Installed?
    ensures FetchedList(host, serverURL).Ok?
    ensures var m := FetchedList(host, serverURL).value;
            var name := PackageName(os, arch, appName, r.value.version);
            && r.value.version == latest && Latest(m.Keys, latest)
            && NeedsUpgrade(current, latest) == Ok(true) && callback(latest)
            && name in m && host.sha256 == Ok(m[name])
  {
    var m := FetchedList(host, serverURL).value;
    assert check == Verdict(current, m, latest);
  }

  // ---------------------------------------------------------------------
  // The upgrader

  class Upgrader {
    const config: Config

    /** The callback and logger are set, as a validated configuration has them. */
    ghost predicate Valid()
      reads this, config
    {
      config.callback.Some? && config.logger.Some?
    }

    constructor (config: Config)
      requires config.callback.Some? && config.logger.Some?
      ensures this.config == config && Valid()
    {
      this.config := config;
    }

    /** `NewUpgrader`: validates the configuration built from the options
        and fails with the validation error. */
    static method NewUpgrader(config: Config) returns (r: Result<Upgrader, ConfigError>)
      modifies config
      ensures r.Err? <==> old(config.Error()).Some?
      ensures r.Err? ==> r.error == old(config.Error()).value && unchanged(config)
      ensures r.Ok? ==> fresh(r.value) && r.value.config == config && r.value.Valid()
      ensures r.Ok? ==> config.callback == (if old(config.callback).None? then Some(AllowAll) else old(config.callback))
      ensures r.Ok? ==> config.logger == (if old(config.logger).None? then Some(NoOpLogger) else old(config.logger))
      ensures config.Identity() == old(config.Identity())
      ensures config.upgradeOption == old(config.upgradeOption)
      ensures config.dailyUpgradeTime == old(config.dailyUpgradeTime) && config.targetVersion == old(config.targetVersion)
    {
      var err := config.Validate();
      if err.Some? {
        return Err(err.value);
      }
      var u := new Upgrader(config);
      return Ok(u);
    }

    /** `CheckUpgrade`: fails when the install tool is missing or the list
        cannot be fetched or parsed; otherwise chooses the latest listed
        version and reports it with the list when it is newer than the
        running one, nothing when it is not, and an error when there is
        none. The version chosen is returned as `latest`. */
    method CheckUpgrade(host: Host) returns (r: Result<Option<VersionInfo>, CheckError>, ghost latest: string)
      ensures FetchedList(host, config.upgradeServerURL).Err? ==>
        r == Err(FetchedList(host, config.upgradeServerURL).error)
      ensures FetchedList(host, config.upgradeServerURL).Ok? ==>
        Chosen(FetchedList(host, config.upgradeServerURL).value.Keys, latest)
        && r == Verdict(config.currentVersion, FetchedList(host, config.upgradeServerURL).value, latest)
    {
      latest := "";
      if host.installTool.Err? {
        return Err(InstallToolCheckFailed(host.installTool.error)), latest;
      }
      if !host.installTool.value {
        return Err(InstallToolNotFound), latest;
      }
      var versionContent := host.fetch(ListURL(config.upgradeServerURL));
      if versionContent.Err? {
        return Err(FetchFailed(versionContent.error)), latest;
      }
      var upgradeMap := UpgradeList.ParseUpgradeList(versionContent.value);
      if upgradeMap.Err? {
        return Err(ParseListFailed(upgradeMap.error)), latest;
      }
      var latestVersion := SelectLatest(upgradeMap.value);
      latest := latestVersion;
      if latestVersion == "" {
        return Err(NoValidVersion), latest;
      }
      var needUpgrade := NeedsUpgrade(config.currentVersion, latestVersion);
      if needUpgrade.Err? {
        return Err(CompareFailed(needUpgrade.error)), latest;
      }
      if !needUpgrade.value {
        return Ok(None), latest;
      }
      return Ok(Some(VersionInfo(latestVersion, "", "", upgradeMap.value))), latest;
    }

    /** `StartUpgrade`: a package is installed only for the latest listed
        version when it is newer than the running one, confirmed by the
        callback, downloaded, named in the list and matching its listed
        hash. The check's report is returned as `check`. */
    method StartUpgrade(host: Host) returns (r: Result<UpgradeOutcome, UpgradeError>,
                                             ghost latest: string, ghost check: Result<Option<VersionInfo>, CheckError>)
      requires Valid()
      ensures CheckResult(host, config.upgradeServerURL, config.currentVersion, latest, check)
      ensures Upgraded(host, config.os, config.arch, config.appName, config.upgradeServerURL,
                       config.callback.value, check, r)
    {
      var versionInfo;
      versionInfo, latest := CheckUpgrade(host);
      check := versionInfo;
      r := UpgradeAfterCheck(versionInfo, host);
    }

    /** The steps of `StartUpgrade` that follow the check. */
    method UpgradeAfterCheck(checked: Result<Option<VersionInfo>, CheckError>, host: Host) returns (r: Result<UpgradeOutcome, UpgradeError>)
      requires Valid()
      ensures Upgraded(host, config.os, config.arch, config.appName, config.upgradeServerURL,
                       config.callback.value, checked, r)
    {
      if checked.Err? {
        return Err(CheckFailed(checked.error));
      }
      if checked.value.None? {
        return Ok(UpToDate);
      }
      var versionInfo := checked.value.value;
      if !config.callback.value(versionInfo.version) {
        return Ok(Cancelled(versionInfo.version));
      }
      if host.executablePath.Err? {
        return Err(ExecutablePathFailed(host.executablePath.error));
      }
      var upgradePackageName := PackageName(config.os, config.arch, config.appName, versionInfo.version);
      var upgradePackageURL := PackageURL(config.upgradeServerURL, upgradePackageName);
      var downloadError := host.download(upgradePackageURL);
      if downloadError.Some? {
        return Err(DownloadFailed(upgradePackageURL, downloadError.value));
      }
      if upgradePackageName !in versionInfo.upgradeMap {
        return Err(PackageNotListed(upgradePackageName));
      }
      var expectedHash := versionInfo.upgradeMap[upgradePackageName];
      if host.sha256.Err? {
        return Err(HashFailed(host.sha256.error));
      }
      var actualHash := host.sha256.value;
      if actualHash != expectedHash {
        return Err(HashMismatch(expectedHash, actualHash));
      }
      if host.install.Some? {
        return Err(InstallFailed(host.install.value));
      }
      return Ok(Installed(versionInfo.version, host.executablePath.value));
    }

    /** `SetUpgradeOption`: stores any strategy value and nothing else. */
    method SetUpgradeOption(option: UpgradeOption)
      modifies config
      ensures config.upgradeOption == option
      ensures config.dailyUpgradeTime == old(config.dailyUpgradeTime) && config.targetVersion == old(config.targetVersion)
      ensures config.Identity() == old(config.Identity())
      ensures config.callback == old(config.callback) && config.logger == old(config.logger)
    {
      config.upgradeOption := option;
    }

    /** `SetDailyUpgradeTime`: an hour outside 0-23 or a minute outside
        0-59 is refused and changes nothing; otherwise that time is stored
        and nothing else. */
    method SetDailyUpgradeTime(hour: int, minute: int) returns (ok: bool)
      modifies config
      ensures ok <==> 0 <= hour <= 23 && 0 <= minute <= 59
      ensures !ok ==> unchanged(config)
      ensures ok ==> config.dailyUpgradeTime == At(hour, minute)
      ensures config.upgradeOption == old(config.upgradeOption) && config.targetVersion == old(config.targetVersion)
      ensures config.Identity() == old(config.Identity())
      ensures config.callback == old(config.callback) && config.logger == old(config.logger)
    {
      if hour < 0 || hour > 23 || minute < 0 || minute > 59 {
        return false;
      }
      config.dailyUpgradeTime := At(hour, minute);
      return true;
    }

    /** `UpgradeToVersion`: records the target and the "specified"
        strategy, then runs `StartUpgrade`, whose outcome does not depend
        on the target. */
    method UpgradeToVersion(version: string, host: Host) returns (r: Result<UpgradeOutcome, UpgradeError>,
                                                                  ghost latest: string, ghost check: Result<Option<VersionInfo>, CheckError>)
      requires Valid()
      modifies config
      ensures config.targetVersion == version && config.upgradeOption == UpgradeOptionSpecified
      ensures config.dailyUpgradeTime == old(config.dailyUpgradeTime)
      ensures config.Identity() == old(config.Identity())
      ensures config.callback == old(config.callback) && config.logger == old(config.logger)
      ensures CheckResult(host, config.upgradeServerURL, config.currentVersion, latest, check)
      ensures Upgraded(host, config.os, config.arch, config.appName, config.upgradeServerURL,
                       config.callback.value, check, r)
    {
      config.targetVersion := version;
      config.upgradeOption := UpgradeOptionSpecified;
      assert config.Identity() == old(config.Identity());
      assert config.callback == old(config.callback) && config.logger == old(config.logger);
      r, latest, check := StartUpgrade(host);
    }
  }
}
