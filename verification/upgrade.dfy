/**
 * The self-upgrade decision logic: argument validation and defaults, the
 * manifest address, the "already up to date" and "build is newer" gates,
 * the release asset's file name and its lookup, the binary's name inside
 * the archive, and the dry-run stop. The release service, the download,
 * the archive reader and the replacement of the executable are oracles.
 */
module Upgrade {
  import opened Results
  import opened Text
  import opened MqTrait

  /** `is_ascii_alphanumeric` or one of `-` `.` `+` `_`. */
  predicate AllowedChar(c: char) {
    || ('0' <= c <= '9')
    || ('a' <= c <= 'z')
    || ('A' <= c <= 'Z')
    || c == '-' || c == '.' || c == '+' || c == '_'
  }

  /** `check_valid_chars`: the characters of semantic versions and architecture triples. */
  function CheckValidChars(s: string): (r: bool)
    ensures r <==> forall i :: 0 <= i < |s| ==> AllowedChar(s[i])
    decreases |s|
  {
    if s == [] then true
    else
      var rest := CheckValidChars(s[1..]);
      assert forall i :: 1 <= i < |s| ==> s[i] == s[1..][i - 1];
      AllowedChar(s[0]) && rest
  }

  /** A string is valid exactly when both its halves are. */
  lemma CheckValidCharsConcat(a: string, b: string)
    ensures CheckValidChars(a + b) <==> CheckValidChars(a) && CheckValidChars(b)
  {
    if CheckValidChars(a) && CheckValidChars(b) {
      forall i | 0 <= i < |a + b| ensures AllowedChar((a + b)[i]) {
        if i >= |a| {
          assert (a + b)[i] == b[i - |a|];
        }
      }
    }
    if CheckValidChars(a + b) {
      forall i | 0 <= i < |a| ensures AllowedChar(a[i]) {
        assert (a + b)[i] == a[i];
      }
      forall i | 0 <= i < |b| ensures AllowedChar(b[i]) {
        assert (a + b)[|a| + i] == b[i];
      }
    }
  }

  /**
   * A valid version holds no `/`, `?`, `#`, `%` or space, so it cannot add
   * path segments, a query, a fragment or an escape to the manifest address.
   * It can still be the dot segment `.` or `..`.
   */
  lemma ValidVersionIsOneSegment(v: string)
    requires CheckValidChars(v)
    ensures '/' !in v && '?' !in v && '#' !in v && '%' !in v && ' ' !in v
  {
    forall i | 0 <= i < |v| ensures v[i] != '/' && v[i] != '?' && v[i] != '#' && v[i] != '%' && v[i] != ' ' {
      assert AllowedChar(v[i]);
    }
  }

  /** `trim_start_matches(c)`: every leading `c` removed. */
  function TrimStartMatches(s: string, c: char): (r: string)
    ensures |r| <= |s| && s[|s| - |r|..] == r
    ensures forall i :: 0 <= i < |s| - |r| ==> s[i] == c
    ensures r == [] || r[0] != c
    decreases |s|
  {
    if s != [] && s[0] == c then TrimStartMatches(s[1..], c) else s
  }

  /** The first piece of a split at `c`: everything before the first `c`, or all of it. */
  function BeforeFirst(s: string, c: char): (r: string)
    ensures r <= s && c !in r
    ensures |r| < |s| ==> s[|r|] == c
    ensures c !in s ==> r == s
  {
    match IndexOf(s, c)
    case None => s
    case Some(p) => s[..p]
  }

  /** The release asset's file name: the tag without its leading `v`s, between `mqcat-` and the arch and `.zip`. */
  function AssetName(tag: string, arch: string): string {
    "mqcat-" + TrimStartMatches(tag, 'v') + "-" + arch + ".zip"
  }

  datatype Asset = Asset(name: string, downloadUrl: string)

  datatype Release = Release(tagName: string, updatedAt: string, assets: seq<Asset>)

  /** `i` is the first asset called `name`. */
  predicate FirstNamed(assets: seq<Asset>, name: string, i: nat) {
    && i < |assets|
    && assets[i].name == name
    && forall j :: 0 <= j < i ==> assets[j].name != name
  }

  lemma FirstNamedUnique(assets: seq<Asset>, name: string, i: nat, j: nat)
    requires FirstNamed(assets, name, i) && FirstNamed(assets, name, j)
    ensures i == j
  {
  }

  /** The asset loop: the first asset whose name matches exactly. */
  function FindAsset(assets: seq<Asset>, name: string): (r: Option<nat>)
    ensures r.None? <==> forall j :: 0 <= j < |assets| ==> assets[j].name != name
    ensures r.Some? ==> FirstNamed(assets, name, r.value)
    decreases |assets|
  {
    if assets == [] then None
    else if assets[0].name == name then Some(0)
    else
      match FindAsset(assets[1..], name)
      case None => None
      case Some(i) => Some(i + 1)
  }

  /** The binary's name inside the downloaded archive. */
  function ZipEntry(arch: string): string {
    if EndsWith(arch, "-windows") then "mqcat.exe" else "mqcat"
  }

  /** The build metadata the running binary carries. */
  datatype Build = Build(version: string, buildDate: string, targetTriple: string)

  /**
   * The outside world of an upgrade: the release manifest for an address,
   * the bytes at a download address, a named file of an archive, and the
   * replacement of the running executable.
   */
  datatype Net = Net(
    fetchRelease: string -> Result<Release>,
    download: string -> Result<seq<byte>>,
    unzip: (seq<byte>, string) -> Result<seq<byte>>,
    install: seq<byte> -> Result<()>)

  datatype Action = FetchManifest(url: string) | Download(url: string) | Unpack(entry: string) | Install(binary: seq<byte>)

  /** The actions taken, in order, and how the upgrade ended. */
  datatype Outcome = Outcome(actions: seq<Action>, result: Result<()>)

  const ManifestBase := "https://api.github.com/repos/IntrepidAI/mqcat/releases/"

  /** The release is not worth installing: the same tag, or a release older than this build. */
  predicate Skips(rel: Release, build: Build, force: bool) {
    !force && (rel.tagName == build.version || StrLess(BeforeFirst(rel.updatedAt, 'T'), build.buildDate))
  }

  /**
   * From the download on: fetch the archive, take the binary out of it,
   * and install it unless this is a dry run.
   */
  function FromDownload(url: string, arch: string, dryRun: bool, net: Net): (o: Outcome)
    ensures 1 <= |o.actions| <= if dryRun then 2 else 3
    ensures o.actions[0] == Download(url)
    ensures net.download(url).Err? ==> o == Outcome([Download(url)], Err(net.download(url).error))
    ensures |o.actions| >= 2 ==> o.actions[1] == Unpack(ZipEntry(arch))
    ensures |o.actions| == 3 ==> o.actions[2].Install? && o.result == net.install(o.actions[2].binary)
    ensures forall k :: 0 <= k < |o.actions| && o.actions[k].Install? ==> !dryRun && k == 2
    // Once the archive is downloaded, the entry is extracted; its failure ends
    // the run, a dry run stops after it, and otherwise the extracted binary
    // is the one installed.
    ensures net.download(url).Ok? ==>
      var unpacked := net.unzip(net.download(url).value, ZipEntry(arch));
      && (unpacked.Err? ==> o == Outcome([Download(url), Unpack(ZipEntry(arch))], Err(unpacked.error)))
      && (unpacked.Ok? && dryRun ==> o == Outcome([Download(url), Unpack(ZipEntry(arch))], Ok(())))
      && (unpacked.Ok? && !dryRun ==>
            o == Outcome([Download(url), Unpack(ZipEntry(arch)), Install(unpacked.value)], net.install(unpacked.value)))
  {
    match net.download(url)
    case Err(e) => Outcome([Download(url)], Err(e))
    case Ok(bytes) =>
      var entry := ZipEntry(arch);
      var unpacked := [Download(url), Unpack(entry)];
      match net.unzip(bytes, entry)
      case Err(e) => Outcome(unpacked, Err(e))
      case Ok(binary) =>
        if dryRun then Outcome(unpacked, Ok(()))
        else Outcome(unpacked + [Install(binary)], net.install(binary))
  }

  /**
   * The part of `upgrade` after the gates: the asset lookup, then the
   * download of the first asset with the expected name.
   */
  function InstallRelease(rel: Release, arch: string, dryRun: bool, net: Net): (o: Outcome)
    ensures o.actions == [] <==> FindAsset(rel.assets, AssetName(rel.tagName, arch)).None?
    ensures o.actions == [] ==> o.result == Err("file not found: " + AssetName(rel.tagName, arch))
    ensures o.actions != [] ==>
      var i := FindAsset(rel.assets, AssetName(rel.tagName, arch)).value;
      FirstNamed(rel.assets, AssetName(rel.tagName, arch), i)
      && o == FromDownload(rel.assets[i].downloadUrl, arch, dryRun, net)
    ensures dryRun ==> forall k :: 0 <= k < |o.actions| ==> !o.actions[k].Install?
  {
    var name := AssetName(rel.tagName, arch);
    match FindAsset(rel.assets, name)
    case None => Outcome([], Err("file not found: " + name))
    case Some(i) => FromDownload(rel.assets[i].downloadUrl, arch, dryRun, net)
  }

  /** `upgrade`: `version` and `arch` are the optional arguments. */
  function RunUpgrade(version: Option<string>, force: bool, dryRun: bool, arch: Option<string>,
                      build: Build, net: Net): (o: Outcome)
    ensures !CheckValidChars(version.GetOr("latest")) ==>
      o == Outcome([], Err("invalid version: " + version.GetOr("latest")))
    ensures CheckValidChars(version.GetOr("latest")) && !CheckValidChars(arch.GetOr(build.targetTriple)) ==>
      o == Outcome([], Err("invalid arch: " + arch.GetOr(build.targetTriple)))
    ensures o.actions != [] <==> CheckValidChars(version.GetOr("latest")) && CheckValidChars(arch.GetOr(build.targetTriple))
    ensures o.actions != [] ==> o.actions[0] == FetchManifest(ManifestBase + version.GetOr("latest"))
    ensures o.actions != [] ==>
      var rel := net.fetchRelease(ManifestBase + version.GetOr("latest"));
      && (rel.Err? ==> o == Outcome(o.actions[..1], Err(rel.error)))
      && (rel.Ok? && Skips(rel.value, build, force) ==> o == Outcome(o.actions[..1], Ok(())))
      && (rel.Ok? && !Skips(rel.value, build, force) ==>
            var rest := InstallRelease(rel.value, arch.GetOr(build.targetTriple), dryRun, net);
            o == Outcome(o.actions[..1] + rest.actions, rest.result))
  {
    var v := version.GetOr("latest");
    var a := arch.GetOr(build.targetTriple);
    if !CheckValidChars(v) then Outcome([], Err("invalid version: " + v))
    else if !CheckValidChars(a) then Outcome([], Err("invalid arch: " + a))
    else
      var url := ManifestBase + v;
      var fetched := [FetchManifest(url)];
      match net.fetchRelease(url)
      case Err(e) => Outcome(fetched, Err(e))
      case Ok(rel) =>
        if rel.tagName == build.version && !force then Outcome(fetched, Ok(()))
        else if StrLess(BeforeFirst(rel.updatedAt, 'T'), build.buildDate) && !force then Outcome(fetched, Ok(()))
        else
          var rest := InstallRelease(rel, a, dryRun, net);
          assert (fetched + rest.actions)[..1] == fetched;
          Outcome(fetched + rest.actions, rest.result)
  }

  /** Nothing is downloaded when the release is the running version, unless forced. */
  lemma UpToDateStops(version: Option<string>, dryRun: bool, arch: Option<string>, build: Build, net: Net)
    requires CheckValidChars(version.GetOr("latest")) && CheckValidChars(arch.GetOr(build.targetTriple))
    requires var rel := net.fetchRelease(ManifestBase + version.GetOr("latest"));
      rel.Ok? && rel.value.tagName == build.version
    ensures RunUpgrade(version, false, dryRun, arch, build, net)
      == Outcome([FetchManifest(ManifestBase + version.GetOr("latest"))], Ok(()))
  {
  }

  /** A release dated before this build is not installed, unless forced. */
  lemma NewerBuildStops(version: Option<string>, dryRun: bool, arch: Option<string>, build: Build, net: Net)
    requires CheckValidChars(version.GetOr("latest")) && CheckValidChars(arch.GetOr(build.targetTriple))
    requires var rel := net.fetchRelease(ManifestBase + version.GetOr("latest"));
      rel.Ok? && StrLess(BeforeFirst(rel.value.updatedAt, 'T'), build.buildDate)
    ensures RunUpgrade(version, false, dryRun, arch, build, net).actions
      == [FetchManifest(ManifestBase + version.GetOr("latest"))]
    ensures RunUpgrade(version, false, dryRun, arch, build, net).result.Ok?
  {
  }

  /**
   * `--force` passes both gates: with a matching asset the download is
   * always attempted, and it is the first matching asset's address.
   */
  lemma ForceDownloads(version: Option<string>, dryRun: bool, arch: Option<string>, build: Build, net: Net, i: nat)
    requires CheckValidChars(version.GetOr("latest")) && CheckValidChars(arch.GetOr(build.targetTriple))
    requires var rel := net.fetchRelease(ManifestBase + version.GetOr("latest"));
      rel.Ok? && FirstNamed(rel.value.assets, AssetName(rel.value.tagName, arch.GetOr(build.targetTriple)), i)
    ensures var o := RunUpgrade(version, true, dryRun, arch, build, net);
      var rel := net.fetchRelease(ManifestBase + version.GetOr("latest")).value;
      |o.actions| >= 2 && o.actions[1] == Download(rel.assets[i].downloadUrl)
  {
    var o := RunUpgrade(version, true, dryRun, arch, build, net);
    var rel := net.fetchRelease(ManifestBase + version.GetOr("latest")).value;
    var name := AssetName(rel.tagName, arch.GetOr(build.targetTriple));
    var rest := InstallRelease(rel, arch.GetOr(build.targetTriple), dryRun, net);
    assert rest.actions != [];
    FirstNamedUnique(rel.assets, name, FindAsset(rel.assets, name).value, i);
    assert rest.actions[0] == Download(rel.assets[i].downloadUrl);
    assert o.actions == o.actions[..1] + rest.actions;
    assert o.actions[1] == rest.actions[0];
  }

  /** A dry run never replaces the executable. */
  lemma DryRunNeverInstalls(version: Option<string>, force: bool, arch: Option<string>, build: Build, net: Net)
    ensures forall k :: 0 <= k < |RunUpgrade(version, force, true, arch, build, net).actions| ==>
      !RunUpgrade(version, force, true, arch, build, net).actions[k].Install?
  {
    var o := RunUpgrade(version, force, true, arch, build, net);
    var rel := net.fetchRelease(ManifestBase + version.GetOr("latest"));
    if o.actions != [] && rel.Ok? && !Skips(rel.value, build, force) {
      var rest := InstallRelease(rel.value, arch.GetOr(build.targetTriple), true, net);
      assert o.actions == o.actions[..1] + rest.actions;
      forall k | 1 <= k < |o.actions| ensures !o.actions[k].Install? {
        assert o.actions[k] == rest.actions[k - 1];
      }
    }
  }

  /** The Windows binary is taken exactly for Windows targets. */
  lemma ZipEntryChoice(arch: string)
    ensures ZipEntry(arch) == "mqcat.exe" <==> EndsWith(arch, "-windows")
    ensures !EndsWith(arch, "-windows") ==> ZipEntry(arch) == "mqcat"
  {
    assert "mqcat" != "mqcat.exe" by {
      assert |"mqcat"| != |"mqcat.exe"|;
    }
  }

  lemma {:induction false} TrimLeadingVs(t: string, k: nat)
    requires t == [] || t[0] != 'v'
    ensures TrimStartMatches(seq(k, _ => 'v') + t, 'v') == t
    decreases k
  {
    var s := seq(k, _ => 'v') + t;
    if k == 0 {
      assert s == t;
    } else {
      assert s[0] == 'v';
      assert s[1..] == seq(k - 1, _ => 'v') + t;
      TrimLeadingVs(t, k - 1);
    }
  }

  /** Leading `v`s of the tag are dropped, and only those. */
  lemma AssetNameOfTag(t: string, k: nat, arch: string)
    requires t == [] || t[0] != 'v'
    ensures AssetName(seq(k, _ => 'v') + t, arch) == "mqcat-" + t + "-" + arch + ".zip"
  {
    TrimLeadingVs(t, k);
  }
}
