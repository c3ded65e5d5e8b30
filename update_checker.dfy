/**
 * The release-inspection logic of the update checker
 * (src/utils/update_checker.py): the version read off a release's tag and
 * the download URL picked from its assets for the running platform. The HTTP
 * request is not modelled; its outcome is a parsed `Release`, or `None` when
 * the request or the decoding failed.
 */
module Updates {
  import opened Wrappers
  import opened Text
  import opened Seqs

  /** `sys.platform`, as far as the checker distinguishes it. */
  datatype Platform = Win32 | Darwin | OtherPlatform

  /** A release asset: its `name` ("" when absent) and its `browser_download_url`, if any. */
  datatype Asset = Asset(name: string, url: Option<string>)

  /** The fields of a release the checker reads; an absent `tag_name` or `body` is "". */
  datatype Release = Release(tagName: string, assets: seq<Asset>, body: string)

  /** What `get_latest_version` returns on success. */
  datatype Latest = Latest(version: string, downloadUrl: Option<string>, notes: string)

  /** What `is_update_available` returns: availability, then version, URL and notes when known. */
  datatype UpdateStatus = UpdateStatus(
    available: bool,
    version: Option<string>,
    downloadUrl: Option<string>,
    notes: Option<string>)

  /** The version of a tag: one leading 'v' removed, any other tag as it is. */
  function StripV(tag: string): (version: string)
    ensures StartsWith(tag, "v") ==> "v" + version == tag
    ensures !StartsWith(tag, "v") ==> version == tag
  {
    if |tag| > 0 && tag[0] == 'v' then tag[1..] else tag
  }

  /** Only one 'v' is removed: "vv2" becomes "v2". */
  lemma StripVOnce(version: string)
    ensures StripV("v" + version) == version
  {
    assert StartsWith("v" + version, "v");
  }

  /** An asset of the preferred kind: an installer on Windows, a disk image on macOS. */
  predicate Preferred(platform: Platform, asset: Asset) {
    var name := Lower(asset.name);
    match platform
    case Win32 => Contains(name, "setup.exe") || Contains(name, "installer.exe")
    case Darwin => Contains(name, ".dmg")
    case OtherPlatform => false
  }

  /** An asset of the second choice: the portable build on Windows, an archive on macOS. */
  predicate SecondChoice(platform: Platform, asset: Asset) {
    var name := Lower(asset.name);
    match platform
    case Win32 => Contains(name, "portable.exe")
    case Darwin => Contains(name, ".zip")
    case OtherPlatform => false
  }

  /** A second-choice asset that is not also preferred and carries a usable URL. */
  predicate UsableSecondChoice(platform: Platform, asset: Asset) {
    !Preferred(platform, asset) && SecondChoice(platform, asset) && Truthy(asset.url)
  }

  /** Index of the first preferred asset. */
  function FirstPreferred(platform: Platform, assets: seq<Asset>): (r: Option<nat>)
    ensures r.Some? ==> r.value < |assets| && Preferred(platform, assets[r.value])
    ensures r.Some? ==> forall k :: 0 <= k < r.value ==> !Preferred(platform, assets[k])
    ensures r.None? <==> forall k :: 0 <= k < |assets| ==> !Preferred(platform, assets[k])
  {
    FirstIndex(assets, (a: Asset) => Preferred(platform, a))
  }

  /** Index of the first usable second-choice asset. */
  function FirstSecondChoice(platform: Platform, assets: seq<Asset>): (r: Option<nat>)
    ensures r.Some? ==> r.value < |assets| && UsableSecondChoice(platform, assets[r.value])
    ensures r.Some? ==> forall k :: 0 <= k < r.value ==> !UsableSecondChoice(platform, assets[k])
    ensures r.None? <==> forall k :: 0 <= k < |assets| ==> !UsableSecondChoice(platform, assets[k])
  {
    FirstIndex(assets, (a: Asset) => UsableSecondChoice(platform, a))
  }

  /**
   * The platform-specific choice: the URL of the first preferred asset, whatever
   * it is; without one, the URL of the first usable second choice; else none.
   */
  function Chosen(platform: Platform, assets: seq<Asset>): Option<string> {
    match FirstPreferred(platform, assets)
    case Some(p) => assets[p].url
    case None =>
      match FirstSecondChoice(platform, assets)
      case Some(q) => assets[q].url
      case None => None
  }

  /** The download URL: the platform's choice if it is usable, otherwise the first asset's URL, if there is an asset. */
  function DownloadUrl(platform: Platform, assets: seq<Asset>): Option<string> {
    var chosen := Chosen(platform, assets);
    if !Truthy(chosen) && |assets| > 0 then assets[0].url else chosen
  }

  /**
   * The URL comes from the assets: it is none without assets, and otherwise
   * the URL of some asset.
   */
  lemma DownloadUrlFromAssets(platform: Platform, assets: seq<Asset>)
    ensures assets == [] ==> DownloadUrl(platform, assets).None?
    ensures assets != [] ==> exists k :: 0 <= k < |assets| && DownloadUrl(platform, assets) == assets[k].url
  {
    if assets != [] {
      var r := DownloadUrl(platform, assets);
      match FirstPreferred(platform, assets)
      case Some(p) =>
        if Truthy(r) && Truthy(Chosen(platform, assets)) {
          assert r == assets[p].url;
        } else {
          assert r == assets[0].url;
        }
      case None =>
        match FirstSecondChoice(platform, assets)
        case Some(q) =>
          assert r == assets[q].url;
        case None =>
          assert r == assets[0].url;
    }
  }

  /** A preferred asset with a usable URL wins over every second choice, before it or after it. */
  lemma PreferredWins(platform: Platform, assets: seq<Asset>, p: nat)
    requires p < |assets| && Preferred(platform, assets[p]) && Truthy(assets[p].url)
    requires forall k :: 0 <= k < p ==> !Preferred(platform, assets[k])
    ensures DownloadUrl(platform, assets) == assets[p].url
  {
    assert FirstPreferred(platform, assets) == Some(p);
  }

  /** Without any preferred asset, the first second choice with a usable URL is taken. */
  lemma SecondChoiceWhenNoPreferred(platform: Platform, assets: seq<Asset>, q: nat)
    requires forall k :: 0 <= k < |assets| ==> !Preferred(platform, assets[k])
    requires q < |assets| && SecondChoice(platform, assets[q]) && Truthy(assets[q].url)
    requires forall k :: 0 <= k < q ==> !(SecondChoice(platform, assets[k]) && Truthy(assets[k].url))
    ensures DownloadUrl(platform, assets) == assets[q].url
  {
    assert FirstPreferred(platform, assets).None?;
    assert FirstSecondChoice(platform, assets) == Some(q);
  }

  /** On a platform without preferences the first asset's URL is used. */
  lemma OtherPlatformTakesFirst(assets: seq<Asset>)
    ensures DownloadUrl(OtherPlatform, assets) == if assets == [] then None else assets[0].url
  {
    assert FirstPreferred(OtherPlatform, assets).None?;
    assert FirstSecondChoice(OtherPlatform, assets).None?;
  }

  /**
   * A first preferred asset without a usable URL ends the search all the
   * same: a usable second choice, before it or after it, is passed over and
   * the first asset's URL is taken, whatever kind of asset that is.
   */
  lemma PreferredWithoutUrlFallsBack(platform: Platform, assets: seq<Asset>, p: nat)
    requires p < |assets| && Preferred(platform, assets[p]) && !Truthy(assets[p].url)
    requires forall k :: 0 <= k < p ==> !Preferred(platform, assets[k])
    ensures DownloadUrl(platform, assets) == assets[0].url
  {
    assert FirstPreferred(platform, assets) == Some(p);
  }

  /**
   * The asset scan of `get_latest_version`: on Windows and macOS, the first
   * preferred asset ends the scan with its URL, and a second-choice asset is
   * taken while nothing usable has been taken; then, with nothing usable,
   * the first asset's URL.
   */
  method SelectDownloadUrl(platform: Platform, assets: seq<Asset>) returns (downloadUrl: Option<string>)
    ensures downloadUrl == DownloadUrl(platform, assets)
  {
    downloadUrl := None;
    if platform == Win32 || platform == Darwin {
      ghost var pick: nat := 0;
      var i := 0;
      while i < |assets|
        invariant 0 <= i <= |assets|
        invariant i == 0 ==> downloadUrl.None?
        invariant forall k :: 0 <= k < i ==> !Preferred(platform, assets[k])
        invariant !Truthy(downloadUrl) ==> forall k :: 0 <= k < i ==> !UsableSecondChoice(platform, assets[k])
        invariant Truthy(downloadUrl) ==> pick < i && FirstSecondChoice(platform, assets) == Some(pick) && downloadUrl == assets[pick].url
      {
        var asset := assets[i];
        if Preferred(platform, asset) {
          downloadUrl := asset.url;
          assert FirstPreferred(platform, assets) == Some(i);
          break;
        } else if SecondChoice(platform, asset) && !Truthy(downloadUrl) {
          downloadUrl := asset.url;
          if Truthy(downloadUrl) {
            assert FirstSecondChoice(platform, assets) == Some(i);
            pick := i;
          }
        }
        i := i + 1;
      }
    } else {
      OtherPlatformTakesFirst(assets);
    }
    if !Truthy(downloadUrl) && |assets| > 0 {
      downloadUrl := assets[0].url;
    }
  }

  /**
   * `get_latest_version`: `None` when the release could not be fetched;
   * otherwise the tag without its leading 'v', the selected download URL and
   * the release notes.
   */
  method GetLatestVersion(platform: Platform, release: Option<Release>) returns (latest: Option<Latest>)
    ensures release.None? ==> latest.None?
    ensures release.Some? ==> latest == Some(Latest(StripV(release.value.tagName),
      DownloadUrl(platform, release.value.assets), release.value.body))
  {
    if release.None? {
      return None;
    }
    var data := release.value;
    var latestVersion := data.tagName;
    if StartsWith(latestVersion, "v") {
      latestVersion := latestVersion[1..];
    }
    var downloadUrl := SelectDownloadUrl(platform, data.assets);
    return Some(Latest(latestVersion, downloadUrl, data.body));
  }

  /**
   * `is_update_available`. `isNewer` stands for parsing a version and comparing
   * it with the running version: `None` when the version does not parse.
   */
  method IsUpdateAvailable(platform: Platform, release: Option<Release>, isNewer: string -> Option<bool>)
    returns (status: UpdateStatus)
    ensures release.None? ==> status == UpdateStatus(false, None, None, None)
    ensures release.Some? ==>
      var version := StripV(release.value.tagName);
      status == match isNewer(version)
        case None => UpdateStatus(false, None, None, None)
        case Some(newer) => UpdateStatus(newer, Some(version), DownloadUrl(platform, release.value.assets), Some(release.value.body))
    ensures status.available ==> status.version.Some?
  {
    var result := GetLatestVersion(platform, release);
    if result.None? {
      return UpdateStatus(false, None, None, None);
    }
    var latest := result.value;
    var comparison := isNewer(latest.version);
    if comparison.None? {
      return UpdateStatus(false, None, None, None);
    }
    return UpdateStatus(comparison.value, Some(latest.version), latest.downloadUrl, Some(latest.notes));
  }
}
