/** The self-upgrade configuration: the strategy values, the version
    information a check produces, and the configuration record that
    `Validate` checks and completes with defaults. */
module UpgradeConfig {
  import opened Wrappers

  /** The upgrade strategy; Go declares it as an int with three named
      values, and a setter accepts any int. */
  type UpgradeOption = int
  const UpgradeOptionImmediate: UpgradeOption := 0
  const UpgradeOptionDaily: UpgradeOption := 1
  const UpgradeOptionSpecified: UpgradeOption := 2

  /** The time of day of a daily upgrade: unset (Go's zero time) or an
      hour and a minute. */
  datatype DailyTime = Unset | At(hour: int, minute: int)

  /** What a check found: the version and the package hashes by file name. */
  datatype VersionInfo = VersionInfo(version: string, releaseDate: string, releaseNotes: string,
                                     upgradeMap: map<string, string>)

  /** The upgrade confirmation callback. */
  type Callback = string -> bool

  /** The callback `Validate` installs: every upgrade is allowed. */
  const AllowAll: Callback := _ => true

  /** A logging function, which the model keeps only as a token: the
      silent default, or one supplied by the application. */
  datatype Logger = NoOpLogger | AppLogger(name: string)

  /** The first check `Validate` fails, in its order. */
  datatype ConfigError =
    | AppNameRequired
    | CurrentVersionRequired
    | OSRequired
    | ArchRequired
    | ServerURLRequired
    | CredentialsRequired

  /** The verdict of `Validate` on the required fields: the first empty one
      in the order app name, current version, OS, architecture, server URL,
      then the credentials together. */
  function ValidationError(appName: string, currentVersion: string, os: string, arch: string,
                           serverURL: string, username: string, password: string): (e: Option<ConfigError>)
    ensures e.None? <==> appName != "" && currentVersion != "" && os != "" && arch != ""
                         && serverURL != "" && username != "" && password != ""
    ensures e == Some(AppNameRequired) <==> appName == ""
    ensures e == Some(CurrentVersionRequired) <==> appName != "" && currentVersion == ""
    ensures e == Some(OSRequired) <==> appName != "" && currentVersion != "" && os == ""
    ensures e == Some(ArchRequired) <==> appName != "" && currentVersion != "" && os != "" && arch == ""
    ensures e == Some(ServerURLRequired) <==>
      appName != "" && currentVersion != "" && os != "" && arch != "" && serverURL == ""
    ensures e == Some(CredentialsRequired) <==>
      appName != "" && currentVersion != "" && os != "" && arch != "" && serverURL != ""
      && (username == "" || password == "")
  {
    if appName == "" then Some(AppNameRequired)
    else if currentVersion == "" then Some(CurrentVersionRequired)
    else if os == "" then Some(OSRequired)
    else if arch == "" then Some(ArchRequired)
    else if serverURL == "" then Some(ServerURLRequired)
    else if username == "" || password == "" then Some(CredentialsRequired)
    else None
  }

  class Config {
    var appName: string
    var currentVersion: string
    var os: string
    var arch: string
    var upgradeServerURL: string
    var username: string
    var password: string
    var upgradeOption: UpgradeOption
    var dailyUpgradeTime: DailyTime
    var targetVersion: string
    var callback: Option<Callback>
    var logger: Option<Logger>

    /** The zero configuration every option starts from. */
    constructor ()
      ensures appName == "" && currentVersion == "" && os == "" && arch == ""
      ensures upgradeServerURL == "" && username == "" && password == ""
      ensures upgradeOption == UpgradeOptionImmediate && dailyUpgradeTime == Unset && targetVersion == ""
      ensures callback == None && logger == None
    {
      appName, currentVersion, os, arch := "", "", "", "";
      upgradeServerURL, username, password := "", "", "";
      upgradeOption, dailyUpgradeTime, targetVersion := UpgradeOptionImmediate, Unset, "";
      callback, logger := None, None;
    }

    /** The fields that name the application and where it upgrades from. */
    ghost function Identity(): (string, string, string, string, string, string, string)
      reads this
    {
      (appName, currentVersion, os, arch, upgradeServerURL, username, password)
    }

    /** The verdict of `Validate` on this configuration. */
    function Error(): Option<ConfigError>
      reads this
    {
      ValidationError(appName, currentVersion, os, arch, upgradeServerURL, username, password)
    }

    /** `Validate`: fails on the first missing field, changing nothing;
        otherwise fills in a missing callback (allow everything) and a
        missing logger (the silent one) and keeps everything else. */
    method Validate() returns (err: Option<ConfigError>)
      modifies this
      ensures err == old(Error())
      ensures err.Some? ==> unchanged(this)
      ensures err.None? ==> callback == (if old(callback).None? then Some(AllowAll) else old(callback))
      ensures err.None? ==> logger == (if old(logger).None? then Some(NoOpLogger) else old(logger))
      ensures appName == old(appName) && currentVersion == old(currentVersion) && os == old(os)
      ensures arch == old(arch) && upgradeServerURL == old(upgradeServerURL)
      ensures username == old(username) && password == old(password)
      ensures upgradeOption == old(upgradeOption) && dailyUpgradeTime == old(dailyUpgradeTime)
      ensures targetVersion == old(targetVersion)
      ensures err.None? ==> callback.Some? && logger.Some?
    {
      if appName == "" {
        return Some(AppNameRequired);
      }
      if currentVersion == "" {
        return Some(CurrentVersionRequired);
      }
      if os == "" {
        return Some(OSRequired);
      }
      if arch == "" {
        return Some(ArchRequired);
      }
      if upgradeServerURL == "" {
        return Some(ServerURLRequired);
      }
      if username == "" || password == "" {
        return Some(CredentialsRequired);
      }
      if callback.None? {
        callback := Some(AllowAll);
      }
      if logger.None? {
        logger := Some(NoOpLogger);
      }
      return None;
    }
  }
}
