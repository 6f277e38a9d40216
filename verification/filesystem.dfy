/** The part of the operating system the install path touches: a tree of
    files and directories addressed by absolute paths, plus the paths on which
    every access fails with an error other than "not found". */
module FileSystem {
  import opened Wrappers
  import opened Paths

  newtype byte = x: int | 0 <= x < 256

  type Bytes = seq<byte>

  datatype Node = File(content: Bytes) | Dir

  /** `faulty` is the oracle for failures the tree alone does not explain
      (permission denied, a failing disk): every access to such a path fails
      with an error that is not NotFound. */
  datatype World = World(fs: map<Path, Node>, faulty: set<Path>)

  /** The two classes of `std::io::Error` the code distinguishes. */
  datatype IoError = NotFound | Other

  /** Opening or stat-ing `p`: the node found there, or why not. */
  function Access(w: World, p: Path): (r: Result<Node, IoError>)
    ensures r.Ok? ==> p in w.fs && r.value == w.fs[p]
    ensures r == Err(NotFound) <==> p !in w.fs && p !in w.faulty
  {
    if p in w.faulty then Err(Other)
    else if p in w.fs then Ok(w.fs[p])
    else Err(NotFound)
  }

  /** `Path::exists`: true iff the metadata of `p` can be read. */
  predicate Exists(w: World, p: Path) {
    Access(w, p).Ok?
  }

  /** Some directory on the way down to `p` (or `p` itself) is a file or
      cannot be accessed, so `create_dir_all(p)` fails. */
  predicate BlocksCreation(w: World, p: Path) {
    exists q :: q in Prefixes(p) && (q in w.faulty || (q in w.fs && w.fs[q].File?))
  }

  /** `fs::create_dir_all`: creates `p` and every missing ancestor; succeeds
      when `p` already is a directory. */
  function CreateDirAll(w: World, p: Path): (r: Result<World, IoError>)
    ensures r.Err? <==> BlocksCreation(w, p)
    ensures r.Ok? ==> r.value.faulty == w.faulty
    ensures r.Ok? ==> forall q :: q in w.fs ==> q in r.value.fs && r.value.fs[q] == w.fs[q]
    ensures r.Ok? ==> forall q :: q in Prefixes(p) ==> q in r.value.fs && r.value.fs[q] == Dir
    ensures r.Ok? ==> forall q :: q in r.value.fs ==> q in w.fs || q in Prefixes(p)
  {
    if BlocksCreation(w, p) then Err(Other)
    else Ok(World(w.fs + map q | q in Prefixes(p) :: Dir, w.faulty))
  }

  /** Writes the entries of an unpacked archive, named relative to `dir`, below
      `dir`. An entry with the empty name would be `dir` itself; unpacking
      skips it. */
  function Graft(fs: map<Path, Node>, dir: Path, entries: map<Path, Node>): (r: map<Path, Node>)
    ensures forall q :: q in fs && !IsUnder(dir, q) ==> q in r && r[q] == fs[q]
    ensures forall m :: m in entries && m != [] ==> dir + m in r && r[dir + m] == entries[m]
    ensures forall q :: q in r ==>
              || (q in fs && r[q] == fs[q])
              || (IsUnder(dir, q) && q[|dir|..] != [] && q[|dir|..] in entries && r[q] == entries[q[|dir|..]])
  {
    assert forall m1, m2 :: dir + m1 == dir + m2 ==> m1 == m2 by {
      forall m1, m2 | dir + m1 == dir + m2 ensures m1 == m2 {
        assert m1 == (dir + m1)[|dir|..];
        assert m2 == (dir + m2)[|dir|..];
      }
    }
    var placed := map m | m in entries && m != [] :: dir + m := entries[m];
    assert forall m :: m in entries && m != [] ==> (dir + m)[|dir|..] == m;
    fs + placed
  }

  /** Some entry of an unpacked archive would be written to an inaccessible
      path below `dir`. */
  predicate GraftBlocked(w: World, dir: Path, entries: map<Path, Node>) {
    exists m :: m in entries && m != [] && dir + m in w.faulty
  }

  /** Every path in `p`'s subtree, `p` included, removed from `fs`. */
  function Prune(fs: map<Path, Node>, p: Path): (r: map<Path, Node>)
    ensures forall q :: q in r <==> q in fs && !IsUnder(p, q)
    ensures forall q :: q in r ==> r[q] == fs[q]
  {
    map q | q in fs && !IsUnder(p, q) :: fs[q]
  }

  /** Something in `p`'s subtree, `p` included, cannot be accessed. */
  predicate SubtreeFaulty(w: World, p: Path) {
    exists q :: q in w.faulty && IsUnder(p, q)
  }

  /** `fs::remove_dir_all`: removes the directory `p` and everything below it. */
  function RemoveDirAll(w: World, p: Path): (r: Result<World, IoError>)
    ensures r.Ok? <==> p in w.fs && w.fs[p] == Dir && !SubtreeFaulty(w, p)
    ensures r.Ok? ==> r.value == World(Prune(w.fs, p), w.faulty)
  {
    match Access(w, p)
    case Err(e) => Err(e)
    case Ok(File(_)) => Err(Other)
    case Ok(Dir) =>
      if SubtreeFaulty(w, p) then Err(Other)
      else Ok(World(Prune(w.fs, p), w.faulty))
  }

  /** `fs::remove_file`: unlinks the file at `p`; a directory is refused. */
  function RemoveFile(w: World, p: Path): (r: Result<World, IoError>)
    ensures r.Ok? <==> Exists(w, p) && w.fs[p].File?
    ensures r.Ok? ==> r.value == World(w.fs - {p}, w.faulty)
    ensures r == Err(NotFound) <==> p !in w.fs && p !in w.faulty
  {
    match Access(w, p)
    case Err(e) => Err(e)
    case Ok(Dir) => Err(Other)
    case Ok(File(_)) => Ok(World(w.fs - {p}, w.faulty))
  }
}
