/** `install_package`: find the repository hosting the target, download the
    archive from that repository's mirrors, then extract it under the caller's
    lock-file ownership. */
module Install {
  import opened Wrappers
  import opened Package
  import opened LockFile
  import Paths

  type MirrorUrl = string

  /** The underlying failure of an opaque step, as its message. */
  type Cause = string

  datatype RepositoryConfig = RepositoryConfig(mirrors: seq<MirrorUrl>)

  /** The configuration, reduced to what installing reads: repository name to
      repository configuration. */
  datatype Config = Config(repositories: map<string, RepositoryConfig>)

  datatype Repository = Repository(name: string, config: RepositoryConfig)

  /** `listing` is `config.repositories()`: every configured repository,
      each with its own configuration, in the map's iteration order. */
  predicate Lists(config: Config, listing: seq<Repository>) {
    && (forall i :: 0 <= i < |listing| ==>
          listing[i].name in config.repositories && config.repositories[listing[i].name] == listing[i].config)
    && (forall n :: n in config.repositories ==> exists i :: 0 <= i < |listing| && listing[i].name == n)
  }

  /** The transaction driving one target package. */
  datatype InstallTransaction = InstallTransaction(target: PackageID)

  /** The file the transaction downloads into. */
  datatype DownloadFile = DownloadFile(handle: nat)

  /** The steps the transaction and the downloader perform, as oracles:
      `createDownloadFile` is `trans.create_download_file(config)`;
      `download` is `Download::from(url).perform_with_mirrors(file, mirrors)`;
      `extract` is `trans.extract(config, ownership)`. */
  datatype Steps = Steps(
    createDownloadFile: Result<DownloadFile, Cause>,
    download: (string, seq<MirrorUrl>, DownloadFile) -> Outcome<Cause>,
    extract: LockFileOwnership -> Outcome<Cause>)

  /** The effectful steps, with their arguments, in the order they run. */
  datatype Step =
    | CreateDownloadFile
    | Download(url: string, mirrors: seq<MirrorUrl>, into: DownloadFile)
    | Extract(ownership: LockFileOwnership)

  datatype InstallError =
    | RepositoryNotFound(repository: string)
    | DownloadFileUnavailable(cause: Cause)
    | DownloadFailed(repository: string, cause: Cause)
    | ExtractionFailed(cause: Cause)

  const NotFoundText: string := "unable to find repository '"
  const DownloadText: string := "unable to download package from repository '"
  const ExtractText: string := "unable to extract package"

  /** The outermost message each error displays. A failure to create the
      download file is propagated without context, so it shows its own cause;
      the other three carry a fixed text, the first two ending in the quoted
      repository name. */
  function Message(e: InstallError): (m: string)
    ensures e.RepositoryNotFound? ==> m == NotFoundText + e.repository + "'"
    ensures e.DownloadFileUnavailable? ==> m == e.cause
    ensures e.DownloadFailed? ==> m == DownloadText + e.repository + "'"
    ensures e.ExtractionFailed? ==> m == ExtractText
  {
    match e
    case RepositoryNotFound(r) => NotFoundText + r + "'"
    case DownloadFileUnavailable(cause) => cause
    case DownloadFailed(r, _) => DownloadText + r + "'"
    case ExtractionFailed(_) => ExtractText
  }

  /** The messages name the repository unambiguously, and a missing repository
      never reads like a failed download. */
  lemma {:induction false} MessageIdentifiesRepository(a: string, b: string, ca: Cause, cb: Cause)
    ensures Message(RepositoryNotFound(a)) == Message(RepositoryNotFound(b)) <==> a == b
    ensures Message(DownloadFailed(a, ca)) == Message(DownloadFailed(b, cb)) <==> a == b
    ensures Message(RepositoryNotFound(a)) != Message(DownloadFailed(b, cb))
    ensures Message(RepositoryNotFound(a)) != Message(ExtractionFailed(cb))
    ensures Message(DownloadFailed(a, ca)) != Message(ExtractionFailed(cb))
  {
    var m1 := Message(RepositoryNotFound(a));
    var m2 := Message(RepositoryNotFound(b));
    if m1 == m2 {
      assert a == m1[|NotFoundText|..|m1| - 1];
      assert b == m2[|NotFoundText|..|m2| - 1];
    }
    var d1 := Message(DownloadFailed(a, ca));
    var d2 := Message(DownloadFailed(b, cb));
    if d1 == d2 {
      assert a == d1[|DownloadText|..|d1| - 1];
      assert b == d2[|DownloadText|..|d2| - 1];
    }
    assert m1[10] == NotFoundText[10] == 'f' && d2[10] == DownloadText[10] == 'd';
    assert Message(ExtractionFailed(cb))[10] == ExtractText[10] == 'e';
  }

  /** The download route of a package: `api/p/` followed by the category, name
      and version and then `/download`. */
  function RequestPath(id: PackageID): (route: string)
    ensures |route| == 17 + |id.category| + |id.name| + |id.version|
    ensures route[..6] == "api/p/"
    ensures route[|route| - 9..] == "/download"
  {
    "api/p/" + id.category + "/" + id.name + "/" + id.version + "/download"
  }

  /** Six strings written out with separators, nested to the right. */
  lemma JoinedSix(a: string, b: string, c: string, d: string, e: string, f: string)
    ensures Paths.Joined([a, b, c, d, e, f]) == a + "/" + (b + "/" + (c + "/" + (d + "/" + (e + "/" + f))))
  {
    var parts := [a, b, c, d, e, f];
    assert parts[5..] == [f] && parts[4..][1..] == parts[5..];
    assert Paths.Joined(parts[4..]) == e + "/" + f;
    assert parts[3..][1..] == parts[4..];
    assert Paths.Joined(parts[3..]) == d + "/" + (e + "/" + f);
    assert parts[2..][1..] == parts[3..];
    assert Paths.Joined(parts[2..]) == c + "/" + (d + "/" + (e + "/" + f));
    assert parts[1..][1..] == parts[2..];
    assert Paths.Joined(parts[1..]) == b + "/" + (c + "/" + (d + "/" + (e + "/" + f)));
  }

  /** The route is its six segments written out with separators. */
  lemma RequestPathIsJoined(id: PackageID)
    ensures RequestPath(id) == Paths.Joined(["api", "p", id.category, id.name, id.version, "download"])
  {
    JoinedSix("api", "p", id.category, id.name, id.version, "download");
  }

  /** Read back as a path, the route names the category, the name and the
      version as separate segments. */
  lemma {:induction false} RequestPathSegments(id: PackageID)
    requires Paths.IsComponent(id.category) && Paths.IsComponent(id.name) && Paths.IsComponent(id.version)
    ensures Paths.Components(RequestPath(id)) == ["api", "p", id.category, id.name, id.version, "download"]
  {
    var parts := ["api", "p", id.category, id.name, id.version, "download"];
    RequestPathIsJoined(id);
    assert Paths.IsComponent("api") && Paths.IsComponent("p") && Paths.IsComponent("download");
    assert forall k :: 0 <= k < |parts| ==> Paths.IsComponent(parts[k]);
    Paths.ComponentsOfJoined(parts);
  }

  /** Distinct packages of one repository are downloaded from distinct routes. */
  lemma {:induction false} RequestPathInjective(a: PackageID, b: PackageID)
    requires Paths.IsComponent(a.category) && Paths.IsComponent(a.name) && Paths.IsComponent(a.version)
    requires Paths.IsComponent(b.category) && Paths.IsComponent(b.name) && Paths.IsComponent(b.version)
    ensures RequestPath(a) == RequestPath(b) <==>
              a.category == b.category && a.name == b.name && a.version == b.version
  {
    RequestPathSegments(a);
    RequestPathSegments(b);
    if RequestPath(a) == RequestPath(b) {
      var sa := Paths.Components(RequestPath(a));
      assert sa[2] == a.category && sa[3] == a.name && sa[4] == a.version;
    }
  }

  /** The first repository of `repositories` named `name`, as `Iterator::find` returns it. */
  method FindRepository(repositories: seq<Repository>, name: string) returns (found: Option<Repository>)
    ensures found.None? <==> forall i :: 0 <= i < |repositories| ==> repositories[i].name != name
    ensures found.Some? ==>
              exists k :: 0 <= k < |repositories| && repositories[k] == found.value && found.value.name == name
                          && forall j :: 0 <= j < k ==> repositories[j].name != name
  {
    var i := 0;
    while i < |repositories|
      invariant 0 <= i <= |repositories|
      invariant forall j :: 0 <= j < i ==> repositories[j].name != name
    {
      if repositories[i].name == name {
        return Some(repositories[i]);
      }
      i := i + 1;
    }
    return None;
  }

  /** Every step of a successful install, in order. */
  function Pipeline(config: Config, trans: InstallTransaction, ownership: LockFileOwnership, file: DownloadFile): seq<Step>
    requires trans.target.repository in config.repositories
  {
    [ CreateDownloadFile,
      Download(RequestPath(trans.target), config.repositories[trans.target.repository].mirrors, file),
      Extract(ownership) ]
  }

  /** `install_package`. `trace` lists the effectful steps attempted. */
  method InstallPackage(config: Config, listing: seq<Repository>, trans: InstallTransaction,
                        ownership: LockFileOwnership, steps: Steps)
    returns (result: Result<(), InstallError>, trace: seq<Step>)
    requires Lists(config, listing)
    ensures var name := trans.target.repository;
            name !in config.repositories ==> result == Err(RepositoryNotFound(name)) && trace == []
    ensures var name := trans.target.repository;
            name in config.repositories && steps.createDownloadFile.Err? ==>
              result == Err(DownloadFileUnavailable(steps.createDownloadFile.error)) && trace == [CreateDownloadFile]
    ensures var name := trans.target.repository;
            name in config.repositories && steps.createDownloadFile.Ok? ==>
              var file := steps.createDownloadFile.value;
              var url := RequestPath(trans.target);
              var mirrors := config.repositories[name].mirrors;
              && trace <= Pipeline(config, trans, ownership, file)
              && 2 <= |trace|
              && (steps.download(url, mirrors, file).Fail? ==>
                    result == Err(DownloadFailed(name, steps.download(url, mirrors, file).error)) && |trace| == 2)
              && (steps.download(url, mirrors, file).Pass? ==> |trace| == 3)
              && (steps.download(url, mirrors, file).Pass? && steps.extract(ownership).Fail? ==>
                    result == Err(ExtractionFailed(steps.extract(ownership).error)))
    ensures result.Ok? <==>
              var name := trans.target.repository;
              && name in config.repositories
              && steps.createDownloadFile.Ok?
              && steps.download(RequestPath(trans.target), config.repositories[name].mirrors,
                                steps.createDownloadFile.value).Pass?
              && steps.extract(ownership).Pass?
    ensures forall k :: 0 <= k < |trace| && trace[k].Extract? ==> trace[k].ownership == ownership
  {
    var name := trans.target.repository;
    var repo := FindRepository(listing, name);
    if repo.None? {
      return Err(RepositoryNotFound(name)), [];
    }
    assert repo.value.name in config.repositories && config.repositories[repo.value.name] == repo.value.config;
    var url := RequestPath(trans.target);
    trace := [CreateDownloadFile];
    if steps.createDownloadFile.Err? {
      return Err(DownloadFileUnavailable(steps.createDownloadFile.error)), trace;
    }
    var file := steps.createDownloadFile.value;
    var mirrors := repo.value.config.mirrors;
    trace := trace + [Download(url, mirrors, file)];
    var downloaded := steps.download(url, mirrors, file);
    if downloaded.Fail? {
      return Err(DownloadFailed(repo.value.name, downloaded.error)), trace;
    }
    trace := trace + [Extract(ownership)];
    var extracted := steps.extract(ownership);
    if extracted.Fail? {
      return Err(ExtractionFailed(extracted.error)), trace;
    }
    return Ok(()), trace;
  }
}
