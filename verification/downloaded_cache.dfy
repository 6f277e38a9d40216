/** The cache of downloaded package archives: one file per package identity,
    at a path computed from the identity alone. */
module DownloadedCache {
  import opened Wrappers
  import opened Paths
  import opened FileSystem
  import opened Package
  import opened LockFile
  import Npf

  /** A handle on the cache. It exists only together with the lock-file
      ownership it was built from. */
  datatype DownloadedPackages = DownloadedPackages(cacheRoot: Path, ownership: LockFileOwnership)

  /** The archive file name of a package: `{name}-{version}.nest`. */
  function ArchiveName(id: PackageID): string {
    id.name + "-" + id.version + ".nest"
  }

  /** Every field of the identity is one path component. */
  predicate IsPathSafe(id: PackageID) {
    IsComponent(id.repository) && IsComponent(id.category) && IsComponent(id.name) && IsComponent(id.version)
  }

  lemma ArchiveNameIsComponent(id: PackageID)
    requires IsPathSafe(id)
    ensures IsComponent(ArchiveName(id))
  {
    var s := ArchiveName(id);
    assert s[|s| - 5..] == ".nest";
    forall k | 0 <= k < |s| ensures s[k] != '/' {
      if k < |id.name| {
        assert s[k] == id.name[k];
      } else if |id.name| < k < |id.name| + 1 + |id.version| {
        assert s[k] == id.version[k - |id.name| - 1];
      }
    }
  }

  /** `package_path`: `cache_root/repository/category/name/name-version.nest`. */
  function PackagePath(c: DownloadedPackages, id: PackageID): (p: Path)
    ensures IsPathSafe(id) ==>
              p == c.cacheRoot + [id.repository, id.category, id.name, id.name + "-" + id.version + ".nest"]
  {
    if IsPathSafe(id) then ArchiveNameIsComponent(id); PackagePathOf(c, id) else PackagePathOf(c, id)
  }

  /** The joins as the source performs them, on arbitrary strings. */
  function PackagePathOf(c: DownloadedPackages, id: PackageID): Path {
    Join(Join(Join(Join(c.cacheRoot, id.repository), id.category), id.name), ArchiveName(id))
  }

  /** The version is recovered from the archive name once the name is known. */
  lemma VersionFromArchiveName(a: PackageID, b: PackageID)
    requires a.name == b.name && ArchiveName(a) == ArchiveName(b)
    ensures a.version == b.version
  {
    var s := ArchiveName(a);
    var n := |a.name| + 1;
    assert s[n..|s| - 5] == a.version;
    assert ArchiveName(b)[n..|s| - 5] == b.version;
  }

  /** Distinct path-safe identities live at distinct paths. */
  lemma {:induction false} PackagePathInjective(c: DownloadedPackages, a: PackageID, b: PackageID)
    requires IsPathSafe(a) && IsPathSafe(b)
    ensures PackagePath(c, a) == PackagePath(c, b) <==> a == b
  {
    if PackagePath(c, a) == PackagePath(c, b) {
      var pa := PackagePath(c, a);
      var pb := PackagePath(c, b);
      var n := |c.cacheRoot|;
      assert pa[n] == a.repository && pb[n] == b.repository;
      assert pa[n + 1] == a.category && pb[n + 1] == b.category;
      assert pa[n + 2] == a.name && pb[n + 2] == b.name;
      assert pa[n + 3] == ArchiveName(a) && pb[n + 3] == ArchiveName(b);
      VersionFromArchiveName(a, b);
    }
  }

  /** Joining `x/y` appends the two components `x` and `y`. */
  lemma JoinTwoComponents(base: Path, x: string, y: string)
    requires IsComponent(x) && IsComponent(y)
    ensures Join(base, x + "/" + y) == base + [x, y]
  {
    var s := x + "/" + y;
    assert s[|x|] == '/';
    assert s[0] == x[0];
    ComponentThenRest(x, y);
    SingleComponent(y);
  }

  /** Without the path-safety condition the layout is ambiguous: a separator
      inside a field moves text from one level to the next, so the identities
      `x/y, z` and `x, y/z` share one archive path. */
  lemma {:induction false} SeparatorInFieldCollides(c: DownloadedPackages, x: string, y: string, z: string, name: string, version: string)
    requires IsComponent(x) && IsComponent(y) && IsComponent(z)
    ensures var a := PackageID(x + "/" + y, z, name, version);
            var b := PackageID(x, y + "/" + z, name, version);
            a != b && PackagePath(c, a) == PackagePath(c, b)
  {
    var a := PackageID(x + "/" + y, z, name, version);
    var b := PackageID(x, y + "/" + z, name, version);
    assert |a.repository| > |b.repository|;
    assert a.repository[|x|] == '/';
    assert b.category[|y|] == '/';
    assert !IsPathSafe(a) && !IsPathSafe(b);
    JoinTwoComponents(c.cacheRoot, x, y);
    JoinTwoComponents(c.cacheRoot + [x], y, z);
    var below := c.cacheRoot + [x, y, z];
    assert Join(Join(c.cacheRoot, a.repository), a.category) == below;
    assert Join(c.cacheRoot, b.repository) == c.cacheRoot + [x];
    assert Join(Join(c.cacheRoot, b.repository), b.category) == below;
  }

  /** `has_package`: whether the archive file can be seen at its cache path. */
  function HasPackage(c: DownloadedPackages, w: World, id: PackageID): (r: bool)
    ensures r ==> PackagePath(c, id) in w.fs
    ensures r <==> Access(w, PackagePath(c, id)).Ok?
  {
    Exists(w, PackagePath(c, id))
  }

  /** `explore_package`: opens an explorer, with scratch space under
      `/var/run/nest/`, on the archive at the package's cache path. */
  function ExplorePackage(c: DownloadedPackages, w: World, id: PackageID, rng: seq<char>, o: Npf.Oracles): (r: Npf.Opened)
    requires Npf.IsScratchSuffix(rng)
    ensures r == Npf.From(w, PackagePath(c, id), rng, o)
    ensures r.result.Ok? ==> HasPackage(c, w, id)
    ensures r.result.Ok? ==> r.result.value.path == Npf.ScratchBase + [Npf.ScratchPrefix + rng]
  {
    Npf.From(w, PackagePath(c, id), rng, o)
  }

  /** Exploring a package that is not in the cache fails before any manifest
      is read: the archive cannot be opened, which is an unpack error. Creating
      the scratch directory adds only directories, so it cannot make the
      archive appear. */
  lemma {:induction false} ExploreMissingPackage(c: DownloadedPackages, w: World, id: PackageID, rng: seq<char>, o: Npf.Oracles)
    requires Npf.IsScratchSuffix(rng)
    requires !HasPackage(c, w, id)
    ensures ExplorePackage(c, w, id, rng, o).result == Err(Npf.UnpackError)
  {
    var p := PackagePath(c, id);
    var dir := Npf.GenTmpFilename(Npf.ScratchBase, rng);
    if !BlocksCreation(w, dir) {
      var created := CreateDirAll(w, dir).value;
      assert !Exists(created, p) || created.fs[p] == Dir;
    }
  }

  /** `remove_package`: unlinks the archive at the package's cache path. */
  function RemovePackage(c: DownloadedPackages, w: World, id: PackageID): (r: Result<World, IoError>)
    ensures r.Ok? ==> HasPackage(c, w, id) && !HasPackage(c, r.value, id)
    ensures r.Ok? ==> r.value == World(w.fs - {PackagePath(c, id)}, w.faulty)
    ensures PackagePath(c, id) !in w.fs && PackagePath(c, id) !in w.faulty ==> r == Err(NotFound)
    ensures !HasPackage(c, w, id) ==> r.Err?
  {
    RemoveFile(w, PackagePath(c, id))
  }

  /** Removing one package leaves the cache entries of every other
      path-safe package as they were. */
  lemma {:induction false} RemoveKeepsOtherPackages(c: DownloadedPackages, w: World, id: PackageID, other: PackageID)
    requires IsPathSafe(id) && IsPathSafe(other) && id != other
    requires RemovePackage(c, w, id).Ok?
    ensures var after := RemovePackage(c, w, id).value;
            && HasPackage(c, after, other) == HasPackage(c, w, other)
            && (PackagePath(c, other) in w.fs ==> after.fs[PackagePath(c, other)] == w.fs[PackagePath(c, other)])
  {
    PackagePathInjective(c, id, other);
  }
}
