/** Package identities and manifests, as far as the install path reads them. */
module Package {

  /** The identity of a package: where it comes from and which version it is.
      Equality is structural over the four fields. */
  datatype PackageID = PackageID(repository: string, category: string, name: string, version: string)

  /** Effective packages carry a payload (`data.tar.gz`); virtual packages are
      metadata only. */
  datatype Kind = Effective | Virtual

  /** The parsed `manifest.toml`. Only the kind is inspected by the install
      path; the identity fields stand for the rest of the record. */
  datatype Manifest = Manifest(name: string, category: string, version: string, kind: Kind)
}

/** The capability that proves the caller holds the package store's lock file.
    The install path never creates one; it only receives and forwards it. */
module LockFile {

  /** Which acquisition of the lock file the token stands for. */
  datatype LockFileOwnership = LockFileOwnership(acquisition: nat)
}
