# nest install path, modelled in Dafny

This project models three pieces of the install path of the `nest` package
manager and proves properties of them:

- the **archive explorer** (`NPFExplorer`): it creates a scratch directory
  named `nest_` plus ten random alphanumerics, unpacks a package archive (NPF)
  into it, loads `manifest.toml`, hands out the archive's well-known members
  (`manifest.toml`, `data.tar.gz`, `instructions.sh`), and removes the scratch
  tree when it is dropped;
- the **downloaded-package cache** (`DownloadedPackages`): it puts each package
  at `cache_root/repository/category/name/name-version.nest` and checks,
  explores and removes packages at that one path;
- **install orchestration** (`install_package`): it looks up the target's
  repository, formats the download route, downloads, then extracts under the
  caller's lock-file ownership, and stops at the first failure.

The filesystem is a value: `World(fs, faulty)`. `fs` maps absolute paths
(sequences of components) to files and directories. `faulty` is the set of
paths where every access fails with an OS error other than "not found". Each
I/O call is a pure function of the world. It returns the node, `NotFound`, or
`Other`, and for calls that mutate, the new world. Foreign libraries are
oracles in `Npf.Oracles`: tar unpacking, the UTF-8 check of `read_to_string`,
`toml::from_str`, and `InstructionsExecutor::from_script_file`. The random
generator is the ten characters it draws. `Drop` returns `None` for the panic
of `expect`. The steps of `install_package` that are defined outside the
modelled files (`libnest::transaction` and the CLI's `download` module) are
oracles in `Install.Steps`: creating the download file, downloading with
mirrors, and extracting. The method returns a trace of the steps it ran, with
their arguments, in order.

The world is an idealisation of a real directory tree, not an exact one:

- it keeps no tree invariant, and `Access` looks only at the path itself, so
  a missing path below a regular file reads as `NotFound` where the OS
  reports "not a directory";
- `Graft` writes the archive's entries without adding their parent
  directories, and an entry overwrites whatever was at its target;
- `CreateDirAll` is all or nothing, whereas `create_dir_all` keeps the
  ancestors it created before it failed.

Outcomes such as "an absent file is `NotFound`" are statements about this
world, not about every OS.

Files: `wrappers.dfy` (Option/Result/Outcome), `paths.dfy` (path components,
`PathBuf::join` on strings), `filesystem.dfy` (the world and the std::fs calls
used), `package.dfy` (`PackageID`, `Manifest`, `LockFileOwnership`), `npf.dfy`
(the explorer), `npf_lifecycle.dfy` (whole-session properties),
`downloaded_cache.dfy`, `install.dfy`.

Behaviour of the code worth knowing:

- Opening an explorer that fails after the scratch directory was created
  leaves that directory behind (libnest/src/package/npf.rs:80-90: the `?`
  after unpacking and after loading the manifest return before an explorer
  exists, so `Drop` never runs). `Npf.OpenAt` states that the directory
  still exists.
- `create_dir_all` succeeds when the directory already exists
  (libnest/src/package/npf.rs:80). A collision of the random name therefore
  reuses an existing directory rather than failing. The session lemmas assume
  a fresh scratch directory (`ScratchIsFresh`).
- Exploring a package that is not in the cache fails with `UnpackError`
  (libnest/src/cache/downloaded/mod.rs:42-44 with
  libnest/src/package/npf.rs:83-88: the archive is opened inside the unpack
  step). It does not fail with a not-found error
  (`DownloadedCache.ExploreMissingPackage`).
- A read failure of `manifest.toml` is a `FileIOError` that carries the
  extraction directory, not the manifest's own path
  (libnest/src/package/npf.rs:47 and 52).
- Mirror fallback belongs to `Download::perform_with_mirrors`, which is
  defined in the CLI's `download` module, outside the modelled files. The
  download is one opaque step that receives the mirror list.

## Model

| member | source | states |
|---|---|---|
| Npf.LoadManifest | libnest/src/package/npf.rs:44-55 | NotFound on `manifest.toml` is exactly `MissingManifest`; any other open or read failure is `FileIOError` carrying the extraction directory; an unparsable text is exactly `InvalidManifest`; success returns what the parser made of the file's text |
| Npf.GenTmpFilename | libnest/src/package/npf.rs:57-69 | the scratch path is the base directory plus one component: `nest_` followed by ten alphanumerics |
| Npf.Unpack | libnest/src/package/npf.rs:83-88 | opening or unpacking the archive fails only as `UnpackError`; it succeeds iff the archive is a readable file that tar accepts and none of its entries would land on an inaccessible path, and then writes the archive's entries below the scratch directory |
| Npf.OpenAt | libnest/src/package/npf.rs:73-93 | a failing directory creation leaves the world unchanged and gives `UnpackError`; `UnpackError` iff creation or unpacking failed; the manifest is loaded only from the unpacked tree and its errors are passed through; on success the explorer holds exactly the generated path and the parsed manifest, and the scratch directory exists; once created, the scratch directory remains on every path |
| Npf.From | libnest/src/package/npf.rs:96-98 | every outcome, errors and the world left behind included, is that of `open_at` with the base `/var/run/nest/`; a successful explorer's scratch directory is `/var/run/nest/nest_` plus the ten drawn characters |
| Npf.OpenFile | libnest/src/package/npf.rs:101-111 | a handle exactly when the member can be accessed, pointing at the member's path inside the scratch directory; NotFound becomes `FileNotFound(member)` and every other failure `FileIOError(member)` |
| Npf.OpenManifest | libnest/src/package/npf.rs:122-124 | the raw manifest handle follows the same lookup outcome classification |
| Npf.OpenData | libnest/src/package/npf.rs:127-137 | a present payload gives `Some(handle)`; a missing one gives `Ok(None)` iff the kind is not `Effective` and `FileNotFound("data.tar.gz")` for `Effective`; another I/O error is `FileIOError` for every kind |
| Npf.OpenInstructions | libnest/src/package/npf.rs:140-148 | a missing `instructions.sh` is `Ok(None)` for every kind; a present one is `Some(handle)`; another I/O error is propagated |
| Npf.LoadInstructions | libnest/src/package/npf.rs:151-164 | a missing `instructions.sh` gives `Ok(None)` and any other failure to open it `FileIOError("instructions.sh")`; a present script the loader accepts gives an executor built from exactly its bytes, and one it rejects gives `FileIOError("instructions.sh")` |
| Npf.Drop | libnest/src/package/npf.rs:167-171 | drop panics iff the scratch directory is not a live directory or something in its subtree is inaccessible; otherwise the whole subtree is gone and every path outside it is unchanged |
| NpfLifecycle.UnpackedScratchHolds | libnest/src/package/npf.rs:77-88 | after creating a fresh scratch directory and unpacking, a member is present below it iff the archive holds it, with the archive's content |
| NpfLifecycle.OpenedArchiveManifest | libnest/src/package/npf.rs:44-55 | over a fresh scratch directory: an archive without `manifest.toml` gives `MissingManifest`, an unreadable one `FileIOError`, an unparsable one `InvalidManifest`, a valid one an explorer holding that manifest |
| NpfLifecycle.OpenedArchivePayload | libnest/src/package/npf.rs:127-137 | an archive with a valid manifest opens over a fresh scratch directory, and the explorer's payload lookup follows the archive: present iff the archive has `data.tar.gz`, otherwise absent for virtual and `FileNotFound` for effective packages |
| NpfLifecycle.OpenedArchiveInstructions | libnest/src/package/npf.rs:151-164 | an archive with a valid manifest opens over a fresh scratch directory; the executor is built from exactly the bytes the archive holds as `instructions.sh`; an archive without one loads no instructions |
| NpfLifecycle.OpenAtFrame | libnest/src/package/npf.rs:77-90 | opening changes nothing outside the scratch tree except by creating the missing ancestor directories |
| NpfLifecycle.DropUndoesOpen | libnest/src/package/npf.rs:167-171 | when the extraction directory exists, the scratch name is fresh and the archive has a valid manifest, opening succeeds and dropping the explorer restores the world exactly |
| DownloadedCache.PackagePath | libnest/src/cache/downloaded/mod.rs:28-34 | for path-safe identities the path is `cache_root/repository/category/name/name-version.nest` |
| DownloadedCache.PackagePathInjective | libnest/src/cache/downloaded/mod.rs:28-34 | two path-safe identities share a cache path iff they are equal |
| DownloadedCache.SeparatorInFieldCollides | libnest/src/cache/downloaded/mod.rs:28-34 | without path safety the layout is ambiguous: `x/y, z` and `x, y/z` are distinct identities with one path |
| DownloadedCache.HasPackage | libnest/src/cache/downloaded/mod.rs:37-39 | true iff the package's cache path can be accessed; a pure query |
| DownloadedCache.ExplorePackage | libnest/src/cache/downloaded/mod.rs:42-44 | opens an explorer on exactly the package path with the default scratch base and passes its result through; success implies the package is present |
| DownloadedCache.ExploreMissingPackage | libnest/src/cache/downloaded/mod.rs:42-44 | exploring any package that is not present fails with `UnpackError`: creating the scratch directory adds only directories, and unpacking refuses anything but a file |
| DownloadedCache.RemovePackage | libnest/src/cache/downloaded/mod.rs:47-51 | success removes exactly the package's file, after which `HasPackage` is false; an absent file is `NotFound`, never a silent success |
| DownloadedCache.RemoveKeepsOtherPackages | libnest/src/cache/downloaded/mod.rs:47-51 | removing one package leaves presence and content of every other path-safe package's entry unchanged |
| Install.RequestPath | nest-cli/src/bin/commands/operations/install.rs:27-32 | the route starts with `api/p/`, ends with `/download`, and is exactly the three fields long plus the fixed text and separators |
| Install.Message | nest-cli/src/bin/commands/operations/install.rs:19-54 | a missing repository displays "unable to find repository '<name>'" (lines 19-24); a download-file creation failure is propagated by `?` without context, so it displays its own cause (line 42); a failed download displays "unable to download package from repository '<name>'" (lines 45-48); a failed extraction displays "unable to extract package" (line 54) |
| Install.MessageIdentifiesRepository | nest-cli/src/bin/commands/operations/install.rs:19-24 | two not-found messages are equal iff they name the same repository, and the same holds for download failures; a not-found message never equals a download- or extraction-failure message, and neither do those two |
| Install.RequestPathSegments | nest-cli/src/bin/commands/operations/install.rs:27-32 | read back as a path, the route is `api`, `p`, category, name, version, `download` |
| Install.RequestPathInjective | nest-cli/src/bin/commands/operations/install.rs:27-32 | two path-safe targets share a route iff category, name and version agree |
| Install.FindRepository | nest-cli/src/bin/commands/operations/install.rs:15-24 | returns the first listed repository with the target's name, and nothing iff none has it |
| Install.InstallPackage | nest-cli/src/bin/commands/operations/install.rs:9-58 | an unknown repository fails with `RepositoryNotFound` before any step; a download-file creation failure is propagated as its own cause; the steps run as a prefix of create file → download(route, that repository's mirrors, that file) → extract(caller's ownership); a download failure is `DownloadFailed` naming the repository and stops before extraction; an extraction failure is `ExtractionFailed` with its cause; `Ok` iff every step succeeds; every extraction receives the caller's ownership |

## Left out

- Tar unpacking, TOML deserialisation, UTF-8 decoding and `InstructionsExecutor::from_script_file` are foreign code. They are oracles returning success or failure; a failing unpack is modelled as writing nothing beyond the created directory.
- The random generator is an input: the ten characters it draws. Uniqueness of the scratch name is not guaranteed by the code, so the session lemmas assume it.
- File handle contents and the `NPFFile` lifetime (`PhantomData`). A handle is the path it was opened on.
- `NPFExplorer::manifest` is the datatype field `manifest`; it needs no member of its own.
- `DownloadedPackages::from` is the datatype constructor; it takes the lock-file ownership token, which is how the model keeps the capability.
- Manifest fields other than the kind (metadata, dependencies, wrap date) are not inspected by the install path and are left opaque.
- Symbolic links and the OS's resolution of `..`. Paths are compared as component sequences, so the path-safety condition also excludes `.` and `..`.
- `Download::perform_with_mirrors`, `InstallTransaction::create_download_file` and `InstallTransaction::extract` are defined outside the modelled files (`libnest::transaction` and the CLI's `download` module). They are opaque step outcomes, and no mirror-fallback semantics is modelled.
- Configuration loading and parsing. A `Config` is only the name to mirror-list map, and the iteration order of `config.repositories()` is an input listing.
- Error chains of the `failure` crate. Each install error keeps its kind, the repository name where the message shows it, and the cause.
- Progress bar and console output.
- Lock-file acquisition and cross-process concurrency. Only the ownership token is modelled.
- Dependency resolution and the other CLI commands are not part of this model.
