/** The archive explorer: unpacks a package archive (NPF) into a fresh scratch
    directory, loads its manifest, hands out its well-known members and removes
    the scratch tree when it is dropped. */
module Npf {
  import opened Wrappers
  import opened Paths
  import opened FileSystem
  import opened Package

  const ManifestMember: string := "manifest.toml"
  const DataMember: string := "data.tar.gz"
  const InstructionsMember: string := "instructions.sh"

  /** Scratch directories are named `nest_` followed by ten random alphanumerics. */
  const ScratchPrefix: string := "nest_"
  const ScratchSuffixLength: nat := 10

  /** The directory `from` extracts into, `/var/run/nest/`, as components. */
  const ScratchBase: Path := ["var", "run", "nest"]

  /** A path as carried by an error: absolute, or relative to the scratch directory. */
  datatype PathBuf = Absolute(path: Path) | Relative(name: string)

  datatype ExplorationError =
    | UnpackError
    | MissingManifest
    | InvalidManifest
    | FileNotFound(file: PathBuf)
    | FileIOError(file: PathBuf)

  /** A handle on a file inside the scratch directory, opened for reading. */
  datatype NPFFile = NPFFile(path: Path)

  /** A loaded `instructions.sh`, built from the bytes extracted for this package. */
  datatype InstructionsExecutor = InstructionsExecutor(script: Bytes)

  /** A live explorer owns its scratch directory and the parsed manifest. */
  datatype NPFExplorer = NPFExplorer(manifest: Manifest, path: Path)

  /** The foreign libraries the explorer calls, as oracles:
      `unpack` is tar's unpacking (the entries, relative to the target
      directory, or a failure); `readToString` is the UTF-8 check of
      `read_to_string`; `parseManifest` is `toml::from_str`; `loadScript` is
      whether `InstructionsExecutor::from_script_file` accepts a script. */
  datatype Oracles = Oracles(
    unpack: Bytes -> Option<map<Path, Node>>,
    readToString: Bytes -> Option<string>,
    parseManifest: string -> Option<Manifest>,
    loadScript: Bytes -> bool)

  /** What opening an archive returns, and the world it leaves behind. */
  datatype Opened = Opened(result: Result<NPFExplorer, ExplorationError>, world: World)

  predicate IsAlphanumeric(c: char) {
    ('a' <= c <= 'z') || ('A' <= c <= 'Z') || ('0' <= c <= '9')
  }

  /** What the random generator supplies: exactly ten alphanumeric characters. */
  predicate IsScratchSuffix(rng: seq<char>) {
    |rng| == ScratchSuffixLength && forall k :: 0 <= k < |rng| ==> IsAlphanumeric(rng[k])
  }

  lemma ScratchNameIsComponent(rng: seq<char>)
    requires IsScratchSuffix(rng)
    ensures IsComponent(ScratchPrefix + rng)
  {
    var name := ScratchPrefix + rng;
    forall k | 0 <= k < |name| ensures name[k] != '/' {
      if k >= |ScratchPrefix| {
        assert name[k] == rng[k - |ScratchPrefix|];
      }
    }
  }

  /** The scratch directory for a given draw of the random generator: one new
      component below `baseDir`, `nest_` and ten alphanumerics. */
  function GenTmpFilename(baseDir: Path, rng: seq<char>): (p: Path)
    requires IsScratchSuffix(rng)
    ensures |p| == |baseDir| + 1 && p[..|baseDir|] == baseDir
    ensures |p[|baseDir|]| == |ScratchPrefix| + ScratchSuffixLength
    ensures p[|baseDir|][..|ScratchPrefix|] == ScratchPrefix
    ensures forall k :: |ScratchPrefix| <= k < |p[|baseDir|]| ==> IsAlphanumeric(p[|baseDir|][k])
    ensures p == baseDir + [ScratchPrefix + rng]
  {
    ScratchNameIsComponent(rng);
    Join(baseDir, ScratchPrefix + rng)
  }

  /** The three well-known members are single path components. */
  lemma MembersAreComponents()
    ensures IsComponent(ManifestMember) && IsComponent(DataMember) && IsComponent(InstructionsMember)
  {
  }

  /** `read_to_string` on an opened node: a directory cannot be read. */
  function ReadToString(node: Node, o: Oracles): Option<string> {
    match node
    case File(content) => o.readToString(content)
    case Dir => None
  }

  /** Loads `manifest.toml` from the root of the extraction directory `dir`. */
  function LoadManifest(w: World, dir: Path, o: Oracles): (r: Result<Manifest, ExplorationError>)
    ensures r == Err(MissingManifest) <==> Access(w, dir + [ManifestMember]) == Err(NotFound)
    ensures r.Err? ==> r.error in {MissingManifest, InvalidManifest, FileIOError(Absolute(dir))}
    ensures r.Err? && r.error.FileIOError? ==>
              Access(w, dir + [ManifestMember]) == Err(Other)
              || (dir + [ManifestMember] in w.fs && ReadToString(w.fs[dir + [ManifestMember]], o).None?)
    ensures r == Err(InvalidManifest) <==>
              && dir + [ManifestMember] in w.fs && dir + [ManifestMember] !in w.faulty
              && ReadToString(w.fs[dir + [ManifestMember]], o).Some?
              && o.parseManifest(ReadToString(w.fs[dir + [ManifestMember]], o).value).None?
    ensures r.Ok? ==>
              && Exists(w, dir + [ManifestMember])
              && ReadToString(w.fs[dir + [ManifestMember]], o).Some?
              && o.parseManifest(ReadToString(w.fs[dir + [ManifestMember]], o).value) == Some(r.value)
  {
    MembersAreComponents();
    var p := Join(dir, ManifestMember);
    match Access(w, p)
    case Err(NotFound) => Err(MissingManifest)
    case Err(Other) => Err(FileIOError(Absolute(dir)))
    case Ok(node) =>
      match ReadToString(node, o)
      case None => Err(FileIOError(Absolute(dir)))
      case Some(text) =>
        match o.parseManifest(text)
        case None => Err(InvalidManifest)
        case Some(m) => Ok(m)
  }

  /** Opens the archive at `npfPath` and unpacks it into `dir`. Unpacking
      fails when the archive is unreadable or malformed, or when one of its
      entries would be written to an inaccessible path. */
  function Unpack(w: World, npfPath: Path, dir: Path, o: Oracles): (r: Result<World, ExplorationError>)
    ensures r.Err? ==> r.error == UnpackError
    ensures r.Ok? <==>
              && Exists(w, npfPath) && w.fs[npfPath].File?
              && o.unpack(w.fs[npfPath].content).Some?
              && !GraftBlocked(w, dir, o.unpack(w.fs[npfPath].content).value)
    ensures r.Ok? ==> r.value == World(Graft(w.fs, dir, o.unpack(w.fs[npfPath].content).value), w.faulty)
  {
    match Access(w, npfPath)
    case Err(_) => Err(UnpackError)
    case Ok(Dir) => Err(UnpackError)
    case Ok(File(bytes)) =>
      match o.unpack(bytes)
      case None => Err(UnpackError)
      case Some(entries) =>
        if GraftBlocked(w, dir, entries) then Err(UnpackError)
        else Ok(World(Graft(w.fs, dir, entries), w.faulty))
  }

  /** The scratch directory was created and the archive unpacked into it. */
  predicate ArchiveUnpacked(w: World, npfPath: Path, dir: Path, o: Oracles) {
    CreateDirAll(w, dir).Ok? && Unpack(CreateDirAll(w, dir).value, npfPath, dir, o).Ok?
  }

  /** The world once the scratch directory is created and the archive unpacked. */
  function UnpackedWorld(w: World, npfPath: Path, dir: Path, o: Oracles): World
    requires ArchiveUnpacked(w, npfPath, dir, o)
  {
    Unpack(CreateDirAll(w, dir).value, npfPath, dir, o).value
  }

  /** A live explorer: its scratch directory exists as a directory. */
  predicate IsLive(w: World, e: NPFExplorer) {
    e.path in w.fs && w.fs[e.path] == Dir
  }

  /** `NPFExplorer::open_at`: create the scratch directory, unpack, load the
      manifest. The scratch directory is left behind on every error after it
      was created. */
  function OpenAt(w: World, npfPath: Path, extractDir: Path, rng: seq<char>, o: Oracles): (r: Opened)
    requires IsScratchSuffix(rng)
    ensures var dir := GenTmpFilename(extractDir, rng);
            BlocksCreation(w, dir) ==> r == Opened(Err(UnpackError), w)
    ensures var dir := GenTmpFilename(extractDir, rng);
            r.result == Err(UnpackError) <==> !ArchiveUnpacked(w, npfPath, dir, o)
    ensures var dir := GenTmpFilename(extractDir, rng);
            ArchiveUnpacked(w, npfPath, dir, o) ==>
              && r.world == UnpackedWorld(w, npfPath, dir, o)
              && (r.result.Err? ==> LoadManifest(r.world, dir, o) == Err(r.result.error))
    ensures var dir := GenTmpFilename(extractDir, rng);
            r.result.Ok? ==>
              && r.result.value.path == dir
              && LoadManifest(r.world, dir, o) == Ok(r.result.value.manifest)
              && IsLive(r.world, r.result.value)
    ensures var dir := GenTmpFilename(extractDir, rng);
            !BlocksCreation(w, dir) ==> dir in r.world.fs
    ensures r.world.faulty == w.faulty
  {
    var dir := GenTmpFilename(extractDir, rng);
    match CreateDirAll(w, dir)
    case Err(_) => Opened(Err(UnpackError), w)
    case Ok(created) =>
      match Unpack(created, npfPath, dir, o)
      case Err(e) => Opened(Err(e), created)
      case Ok(unpacked) =>
        assert dir in Prefixes(dir);
        match LoadManifest(unpacked, dir, o)
        case Err(e) => Opened(Err(e), unpacked)
        case Ok(m) => Opened(Ok(NPFExplorer(m, dir)), unpacked)
  }

  /** `NPFExplorer::from`: opens the archive with scratch space under `/var/run/nest/`. */
  function From(w: World, npfPath: Path, rng: seq<char>, o: Oracles): (r: Opened)
    requires IsScratchSuffix(rng)
    ensures r == OpenAt(w, npfPath, ScratchBase, rng, o)
    ensures r.result.Ok? ==> r.result.value.path == ScratchBase + [ScratchPrefix + rng]
  {
    OpenAt(w, npfPath, ScratchBase, rng, o)
  }

  /** `open_file`: a handle on `member`, looked up inside the scratch directory. */
  function OpenFile(w: World, e: NPFExplorer, member: string): (r: Result<NPFFile, ExplorationError>)
    ensures r.Ok? <==> Exists(w, Join(e.path, member))
    ensures r.Ok? ==> r.value.path == Join(e.path, member) && r.value.path in w.fs
    ensures r.Ok? && IsComponent(member) ==> IsUnder(e.path, r.value.path)
    ensures r == Err(FileNotFound(Relative(member))) <==> Access(w, Join(e.path, member)) == Err(NotFound)
    ensures r.Err? ==> r.error in {FileNotFound(Relative(member)), FileIOError(Relative(member))}
  {
    var p := Join(e.path, member);
    match Access(w, p)
    case Ok(_) => Ok(NPFFile(p))
    case Err(NotFound) => Err(FileNotFound(Relative(member)))
    case Err(Other) => Err(FileIOError(Relative(member)))
  }

  /** `open_manifest`: a handle on the raw `manifest.toml`. */
  function OpenManifest(w: World, e: NPFExplorer): (r: Result<NPFFile, ExplorationError>)
    ensures Exists(w, e.path + [ManifestMember]) ==> r == Ok(NPFFile(e.path + [ManifestMember]))
    ensures Access(w, e.path + [ManifestMember]) == Err(NotFound) ==> r == Err(FileNotFound(Relative(ManifestMember)))
    ensures Access(w, e.path + [ManifestMember]) == Err(Other) ==> r == Err(FileIOError(Relative(ManifestMember)))
  {
    MembersAreComponents();
    OpenFile(w, e, ManifestMember)
  }

  /** `open_data`: the payload is optional unless the manifest says the
      package is effective. */
  function OpenData(w: World, e: NPFExplorer): (r: Result<Option<NPFFile>, ExplorationError>)
    ensures Exists(w, e.path + [DataMember]) ==> r == Ok(Some(NPFFile(e.path + [DataMember])))
    ensures Access(w, e.path + [DataMember]) == Err(NotFound) ==>
              (r == Ok(None) <==> e.manifest.kind != Effective)
    ensures Access(w, e.path + [DataMember]) == Err(NotFound) && e.manifest.kind == Effective ==>
              r == Err(FileNotFound(Relative(DataMember)))
    ensures Access(w, e.path + [DataMember]) == Err(Other) ==> r == Err(FileIOError(Relative(DataMember)))
  {
    MembersAreComponents();
    match OpenFile(w, e, DataMember)
    case Ok(f) => Ok(Some(f))
    case Err(err) =>
      if err.FileNotFound? && e.manifest.kind != Effective then Ok(None) else Err(err)
  }

  /** `open_instructions`: the script is optional for every kind of package. */
  function OpenInstructions(w: World, e: NPFExplorer): (r: Result<Option<NPFFile>, ExplorationError>)
    ensures Exists(w, e.path + [InstructionsMember]) ==> r == Ok(Some(NPFFile(e.path + [InstructionsMember])))
    ensures Access(w, e.path + [InstructionsMember]) == Err(NotFound) ==> r == Ok(None)
    ensures Access(w, e.path + [InstructionsMember]) == Err(Other) ==>
              r == Err(FileIOError(Relative(InstructionsMember)))
  {
    MembersAreComponents();
    match OpenFile(w, e, InstructionsMember)
    case Ok(f) => Ok(Some(f))
    case Err(err) => if err.FileNotFound? then Ok(None) else Err(err)
  }

  /** `load_instructions`: builds an executor from `instructions.sh` when the
      archive has one. */
  function LoadInstructions(w: World, e: NPFExplorer, o: Oracles): (r: Result<Option<InstructionsExecutor>, ExplorationError>)
    ensures Access(w, e.path + [InstructionsMember]) == Err(NotFound) ==> r == Ok(None)
    ensures Access(w, e.path + [InstructionsMember]) == Err(Other) ==>
              r == Err(FileIOError(Relative(InstructionsMember)))
    ensures var p := e.path + [InstructionsMember];
            Exists(w, p) ==>
              if w.fs[p].File? && o.loadScript(w.fs[p].content)
              then r == Ok(Some(InstructionsExecutor(w.fs[p].content)))
              else r == Err(FileIOError(Relative(InstructionsMember)))
  {
    MembersAreComponents();
    match OpenInstructions(w, e)
    case Err(err) => Err(err)
    case Ok(None) => Ok(None)
    case Ok(Some(f)) =>
      match w.fs[f.path]
      case File(script) =>
        if o.loadScript(script) then Ok(Some(InstructionsExecutor(script)))
        else Err(FileIOError(Relative(InstructionsMember)))
      case Dir => Err(FileIOError(Relative(InstructionsMember)))
  }

  /** Dropping the explorer: `remove_dir_all` on the scratch directory, where a
      failure panics. `None` stands for that panic. */
  function Drop(w: World, e: NPFExplorer): (r: Option<World>)
    ensures r.None? <==> !IsLive(w, e) || SubtreeFaulty(w, e.path)
    ensures r.Some? ==> forall q :: q in r.value.fs ==> q in w.fs && !IsUnder(e.path, q)
    ensures r.Some? ==> forall q :: q in w.fs && !IsUnder(e.path, q) ==> q in r.value.fs && r.value.fs[q] == w.fs[q]
    ensures r.Some? ==> r.value.faulty == w.faulty
  {
    match RemoveDirAll(w, e.path)
    case Ok(cleaned) => Some(cleaned)
    case Err(_) => None
  }
}
