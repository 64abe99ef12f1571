/** The documents of the configuration index: one per version of a path. */
module ConfigIndex {
  import opened Wrappers

  /** A backup definition, as far as the checks of the store read it; an absent key is None. */
  datatype Definition = Definition(
    name: string,
    kind: string,
    endpoint: Option<string>,
    directory: string,
    calendarTree: Option<bool>,
    gzip: Option<bool>,
    buckets: Option<set<string>>,
    reportModel: Option<string>)

  /** An entry of a service that names a backup, as its file backup or its archive. */
  datatype Reference = Reference(interfaceName: string, verb: string, backup: string)

  datatype Content = Content(
    backups: seq<Definition>, models: set<string>, references: seq<Reference>, interfaces: set<string>)

  datatype Document = Document(
    path: string, version: nat, latest: bool, deleted: bool, services: set<string>, content: Content)

  /** `<path>@<version>`; a path ends with `.json`, so the pair can be read back from the identifier. */
  datatype Id = Id(path: string, version: nat)

  type Index = map<Id, Document>

  const NOTHING := Content([], {}, [], {})
}
