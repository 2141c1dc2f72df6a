/**
 * The registry's JSON records as the Python code reads them. Only the keys the
 * code looks at are kept; `date_published` (an ISO 8601 string in the
 * registry) is an integer timestamp here, ordered like the instants it names.
 */
module Records {
  import opened Wrappers

  /** One entry of a version's `files`. */
  datatype FileRef = FileRef(url: string, filename: string, primary: bool)

  /** One entry of a version's `dependencies`; the registry may leave either id `null`. */
  datatype DependencyRecord = DependencyRecord(
    projectId: Option<string>,
    versionId: Option<string>,
    dependencyType: string)

  /** A version object of the registry. */
  datatype Version = Version(
    id: string,
    name: string,
    versionType: string,
    published: int,
    loaders: seq<string>,
    gameVersions: seq<string>,
    files: seq<FileRef>,
    dependencies: seq<DependencyRecord>)

  /** `v['version_type'] == "release"`; anything else (alpha, beta) is a non-release. */
  predicate IsRelease(v: Version)
  {
    v.versionType == "release"
  }

  /** `"fabric" in v['loaders']`. */
  predicate SupportsFabric(v: Version)
  {
    "fabric" in v.loaders
  }

  /** `d['dependency_type'] == 'required'`. */
  predicate IsRequired(d: DependencyRecord)
  {
    d.dependencyType == "required"
  }

  /** The Python exceptions the modelled code can raise or runs into. */
  datatype Exception =
    | IndexError         // a list index past the end
    | TypeError          // subscripting `None` or a tuple with a string key
    | AttributeError     // an attribute looked up on `None` or never assigned
    | KeyError           // a dictionary subscripted with a key it does not hold
    | FileExistsError    // `open(path, "xb")` on an existing file
    | UnboundLocalError  // a local variable read before any assignment
    | RaisedException    // an explicit `raise Exception(...)`
}
