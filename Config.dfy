/**
 * The read-only application configuration and its lookups: the package folder of a platform,
 * the platform of a rom folder, the single rom of a folder, the alternate platform of a port,
 * and the ScreenScraper credentials. PHP arrays that are only looked up become maps; a `null`
 * entry is `None`.
 */
module ConfigModel {
  import opened Wrappers
  import opened Text

  const FolderPackage := "Folder"
  const PortsPackage := "External - Ports"

  datatype Config = Config(
    romFolder: string,
    romsetName: string,
    screenScraperUser: string,
    screenScraperPassword: string,
    folders: map<string, Option<string>>,
    package: map<string, string>,
    folderRoms: map<string, Option<string>>,
    portmasterAlternates: map<string, map<string, Option<string>>>)
  {
    /** `getScreenScraperCredentials`: `sprintf('%s:%s', user, pass)`. */
    function ScreenScraperCredentials(): string {
      screenScraperUser + ":" + screenScraperPassword
    }

    /**
     * `getPackageFolderForPlatform`: "folder" and "ports" in any letter case name the two
     * folders the package always has; any other platform must be a key of the package mapping.
     */
    function PackageFolderForPlatform(platform: string): (r: Result<string>)
      ensures Lower(platform) == "folder" ==> r == Success(FolderPackage)
      ensures Lower(platform) == "ports" ==> r == Success(PortsPackage)
      ensures Lower(platform) != "folder" && Lower(platform) != "ports" ==>
        (r.Success? <==> platform in package)
        && (r.Success? ==> r.value == package[platform])
        && (r.Failure? ==> r.error == Exception(InvalidArgumentException,
             "Platform \"" + platform + "\" does not exist in the package mapping."))
    {
      if Lower(platform) == "folder" then Success(FolderPackage)
      else if Lower(platform) == "ports" then Success(PortsPackage)
      else if platform !in package then
        Failure(Exception(InvalidArgumentException, "Platform \"" + platform + "\" does not exist in the package mapping."))
      else Success(package[platform])
    }

    /** `getPlatformForFolder`: the mapped platform, `null` for an absent folder. */
    function PlatformForFolder(folder: string): (r: Option<string>)
      ensures r.Some? <==> folder in folders && folders[folder].Some?
      ensures r.Some? ==> r == folders[folder]
    {
      if folder !in folders then None else folders[folder]
    }

    /** `getSingleRomForFolder`: `isset` fails for an absent key and for a `null` entry alike. */
    function SingleRomForFolder(folder: string): (r: Option<string>)
      ensures r.Some? <==> folder in folderRoms && folderRoms[folder].Some?
      ensures r.Some? ==> r == folderRoms[folder]
    {
      if folder in folderRoms && folderRoms[folder].Some? then folderRoms[folder] else None
    }

    /** `getPortmasterAlternatePlatform`: `$alternates[$name]['platform'] ?? null`. */
    function PortmasterAlternatePlatform(name: string): (r: Option<string>)
      ensures r.Some? <==> name in portmasterAlternates && "platform" in portmasterAlternates[name]
                           && portmasterAlternates[name]["platform"].Some?
      ensures r.Some? ==> r == portmasterAlternates[name]["platform"]
    {
      if name in portmasterAlternates && "platform" in portmasterAlternates[name] then
        portmasterAlternates[name]["platform"]
      else None
    }
  }

  /**
   * The two reserved names are matched before the mapping: a platform that differs from
   * "folder" or "ports" only in letter case gets the reserved folder even when the mapping has
   * an entry for it.
   */
  lemma ReservedNamesShadowMapping(c: Config, platform: string)
    requires platform in c.package
    requires Lower(platform) == "folder"
    ensures c.PackageFolderForPlatform(platform) == Success(FolderPackage)
    ensures c.package[platform] != FolderPackage ==> c.PackageFolderForPlatform(platform) != Success(c.package[platform])
  {
  }

  /** The reserved names are recognised in every letter case alike. */
  lemma ReservedNamesIgnoreCase(c: Config, a: string, b: string)
    requires Lower(a) == Lower(b)
    requires Lower(a) == "folder" || Lower(a) == "ports"
    ensures c.PackageFolderForPlatform(a) == c.PackageFolderForPlatform(b)
  {
  }

  /** The position of the first `:` in `s`, or `|s|`. */
  function ColonAt(s: string): (i: nat)
    ensures i <= |s|
    ensures forall j :: 0 <= j < i ==> s[j] != ':'
    ensures i < |s| ==> s[i] == ':'
  {
    if s == [] then 0 else if s[0] == ':' then 0 else ColonAt(s[1..]) + 1
  }

  /**
   * The credentials string splits back into user and password at its first colon when the user
   * name has none.
   */
  lemma CredentialsSplit(c: Config)
    requires ':' !in c.screenScraperUser
    ensures var s := c.ScreenScraperCredentials();
      var i := ColonAt(s);
      i < |s| && s[..i] == c.screenScraperUser && s[i + 1..] == c.screenScraperPassword
  {
    var s := c.ScreenScraperCredentials();
    var u := c.screenScraperUser;
    assert s[|u|] == ':';
    var i := ColonAt(s);
    assert forall j :: 0 <= j < |u| ==> s[j] == u[j];
    assert i == |u|;
    assert s[..i] == u;
  }
}
