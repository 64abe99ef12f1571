/** Bringing the configuration index into folders, one per service, each with a manifest of what sync wrote. */
module ConfigSync {
  import opened Wrappers
  import opened Ordering
  import opened ConfigIndex
  import opened CurrentDocuments

  const MANIFEST_NAME := ".maas-config-sync.json"

  /** The manifest of a folder: not there, not a list, or the paths of the previous sync. */
  datatype Manifest = Absent | Unusable | Listed(paths: seq<string>)

  /** A service folder: its files but the manifest, and the manifest. */
  datatype Folder = Folder(files: map<string, string>, manifest: Manifest)

  const NO_FOLDER := Folder(map[], Absent)

  /** How contents are written, and which paths and services designate a file of their folder. */
  datatype Rules = Rules(serialize: Content -> string, path: string -> bool, service: string -> bool)

  function Paths(manifest: Manifest): seq<string> {
    if manifest.Listed? then manifest.paths else []
  }

  // ---------- what a sync leaves ----------

  predicate Accepts(rules: Rules, path: string) {
    path != MANIFEST_NAME && rules.path(path)
  }

  function Accepted(rules: Rules, files: map<string, Content>): set<string> {
    set path | path in files && Accepts(rules, path)
  }

  /** The files sync wrote before and the index has no more. */
  function Gone(rules: Rules, folder: Folder, files: map<string, Content>): set<string> {
    set path | path in Paths(folder.manifest) && path !in files && Accepts(rules, path)
  }

  /** The files afterwards: the accepted ones serialised, the gone ones removed, the others as they were. */
  function FilesAfter(rules: Rules, folder: Folder, files: map<string, Content>): map<string, string> {
    (map path | path in folder.files && path !in Gone(rules, folder, files) :: folder.files[path])
    + (map path | path in Accepted(rules, files) :: rules.serialize(files[path]))
  }

  /** A manifest that lists itself is removed with the rest. */
  predicate DropsManifest(rules: Rules, folder: Folder, files: map<string, Content>) {
    MANIFEST_NAME in Paths(folder.manifest) && MANIFEST_NAME !in files && rules.path(MANIFEST_NAME)
  }

  function ManifestAfter(rules: Rules, folder: Folder, files: map<string, Content>): Manifest {
    if Accepted(rules, files) != {} || (!folder.manifest.Absent? && !DropsManifest(rules, folder, files))
    then Listed(SortedSet(Accepted(rules, files)))
    else Absent
  }

  function Synced(rules: Rules, folder: Folder, files: map<string, Content>): Folder {
    Folder(FilesAfter(rules, folder, files), ManifestAfter(rules, folder, files))
  }

  /** The paths that do not hold their content yet. */
  function Stale(rules: Rules, folder: Folder, files: map<string, Content>): set<string> {
    set path | path in Accepted(rules, files)
               && !(path in folder.files && folder.files[path] == rules.serialize(files[path]))
  }

  /** The files there are to remove. */
  function Leftover(rules: Rules, folder: Folder, files: map<string, Content>): set<string> {
    (set path | path in Gone(rules, folder, files) && path in folder.files)
    + if DropsManifest(rules, folder, files) then {MANIFEST_NAME} else {}
  }

  function FolderIn(folders: map<string, Folder>, service: string): Folder {
    if service in folders then folders[service] else NO_FOLDER
  }

  // ---------- laws ----------

  /** The manifest is absent or one sync wrote. */
  predicate WrittenBySync(rules: Rules, manifest: Manifest) {
    !manifest.Unusable? && forall path :: path in Paths(manifest) ==> Accepts(rules, path)
  }

  /**
   A folder is a mirror with a frame: accepted paths hold their content, previously synced paths that left the
   index are gone, and no other file is touched.
   */
  lemma MirrorWithFrame(rules: Rules, folder: Folder, files: map<string, Content>, path: string)
    requires WrittenBySync(rules, folder.manifest)
    ensures var after := Synced(rules, folder, files);
            && (path in files && Accepts(rules, path) ==>
                  path in after.files && after.files[path] == rules.serialize(files[path]))
            && (path in Paths(folder.manifest) && path !in files ==> path !in after.files)
            && ((path !in files || !Accepts(rules, path)) && path !in Paths(folder.manifest) ==>
                  (path in after.files <==> path in folder.files)
                  && (path in folder.files ==> after.files[path] == folder.files[path]))
  {
    var after := FilesAfter(rules, folder, files);
    if path in Accepted(rules, files) {
      assert path in after;
    } else if path in folder.files && path !in Gone(rules, folder, files) {
      assert path in after;
    }
  }

  /** The manifest of a synced folder lists exactly the paths synced. */
  lemma ManifestIsSynced(rules: Rules, folder: Folder, files: map<string, Content>)
    requires WrittenBySync(rules, folder.manifest)
    ensures var manifest := Synced(rules, folder, files).manifest;
            && (forall path :: path in Paths(manifest) <==> path in files && Accepts(rules, path))
            && WrittenBySync(rules, manifest)
  {
    assert forall path :: path in Accepted(rules, files) <==> path in files && Accepts(rules, path);
  }

  /** A second sync writes and removes nothing, and leaves the folder and its manifest as they are. */
  lemma SecondSyncIsIdle(rules: Rules, folder: Folder, files: map<string, Content>)
    requires WrittenBySync(rules, folder.manifest)
    ensures var after := Synced(rules, folder, files);
            && Stale(rules, after, files) == {} && Leftover(rules, after, files) == {}
            && Synced(rules, after, files) == after
  {
    var after := Synced(rules, folder, files);
    assert forall path :: path in Paths(after.manifest) ==> path in files;
    NothingGone(rules, after, files);
  }

  /** Where accepted files hold their content and the manifest lists no other, a sync has nothing to do. */
  lemma NothingGone(rules: Rules, folder: Folder, files: map<string, Content>)
    requires forall path :: path in Paths(folder.manifest) ==> path in files
    requires forall path :: path in Accepted(rules, files) ==>
                              path in folder.files && folder.files[path] == rules.serialize(files[path])
    ensures Stale(rules, folder, files) == {} && Leftover(rules, folder, files) == {}
    ensures FilesAfter(rules, folder, files) == folder.files
  {
    assert Gone(rules, folder, files) == {};
  }

  // ---------- the files of each service ----------

  predicate OnePerPath(documents: seq<Document>) {
    forall i, j :: 0 <= i < j < |documents| ==> documents[i].path != documents[j].path
  }

  /** The files of a service: the contents of its documents, but for the tombstones. */
  function FilesOf(documents: seq<Document>, service: string): map<string, Content> {
    if documents == [] then map[]
    else
      var files := FilesOf(documents[..|documents| - 1], service);
      var last := documents[|documents| - 1];
      if service in last.services && !last.deleted then files[last.path := last.content] else files
  }

  predicate Holds(documents: seq<Document>, service: string, path: string, content: Content) {
    exists d :: d in documents && d.path == path && d.content == content && service in d.services && !d.deleted
  }

  lemma {:induction false} FilesAreDocuments(documents: seq<Document>, service: string, path: string, content: Content)
    requires OnePerPath(documents)
    ensures path in FilesOf(documents, service) && FilesOf(documents, service)[path] == content
            <==> Holds(documents, service, path, content)
  {
    if documents != [] {
      var before, last := documents[..|documents| - 1], documents[|documents| - 1];
      FilesAreDocuments(before, service, path, content);
      assert forall d :: d in documents <==> d in before || d == last;
      assert forall d :: d in before ==> d.path != last.path;
      if last.path == path && path in FilesOf(before, service) {
        FilesAreDocuments(before, service, path, FilesOf(before, service)[path]);
      }
    }
  }

  predicate Named(documents: seq<Document>, service: string) {
    exists d :: d in documents && service in d.services
  }

  /** A service that is synced: asked for, or found in the index or among the folders with a manifest. */
  predicate Concerned(documents: seq<Document>, services: seq<string>, folders: map<string, Folder>, service: string) {
    if services != [] then service in services
    else Named(documents, service) || (service in folders && !folders[service].manifest.Absent?)
  }

  /** Adds a document to the files of each of its services that is asked for. */
  method AddDocument(document: Document, services: seq<string>, current: map<string, map<string, Content>>)
    returns (r: map<string, map<string, Content>>)
    ensures forall s :: s in r <==> s in current || (s in document.services && (services == [] || s in services))
    ensures forall s :: s in r ==>
              var files := if s in current then current[s] else map[];
              r[s] == if s in document.services && (services == [] || s in services) && !document.deleted
                      then files[document.path := document.content] else files
  {
    r := current;
    var left := document.services;
    while left != {}
      invariant left <= document.services
      invariant forall s :: s in r <==>
                            s in current || (s in document.services - left && (services == [] || s in services))
      invariant forall s :: s in r ==>
                  var files := if s in current then current[s] else map[];
                  r[s] == if s in document.services - left && (services == [] || s in services) && !document.deleted
                          then files[document.path := document.content] else files
      decreases left
    {
      var service :| service in left;
      left := left - {service};
      if services == [] || service in services {
        var files := if service in r then r[service] else map[];
        r := r[service := if document.deleted then files else files[document.path := document.content]];
      }
    }
  }

  /** The files of every service to sync. */
  method CurrentFiles(documents: seq<Document>, services: seq<string>, folders: map<string, Folder>)
    returns (current: map<string, map<string, Content>>)
    ensures forall s :: s in current <==> Concerned(documents, services, folders, s)
    ensures forall s :: s in current ==> current[s] == FilesOf(documents, s)
  {
    current := map s | s in services :: map[];
    for k := 0 to |documents|
      invariant forall s :: s in current <==> if services != [] then s in services else Named(documents[..k], s)
      invariant forall s :: s in current ==> current[s] == FilesOf(documents[..k], s)
    {
      assert documents[..k + 1] == documents[..k] + [documents[k]];
      forall s | s in documents[k].services && !Named(documents[..k], s) {
        UnnamedHasNone(documents[..k], s);
      }
      current := AddDocument(documents[k], services, current);
    }
    assert documents[..|documents|] == documents;
    if services == [] {
      forall s | !Named(documents, s) {
        UnnamedHasNone(documents, s);
      }
      current := (map s | s in folders && !folders[s].manifest.Absent? :: map[]) + current;
    }
  }

  lemma {:induction false} UnnamedHasNone(documents: seq<Document>, service: string)
    requires !Named(documents, service)
    ensures FilesOf(documents, service) == map[]
  {
    if documents != [] {
      var before := documents[..|documents| - 1];
      assert forall d :: d in before ==> d in documents;
      assert documents[|documents| - 1] in documents;
      UnnamedHasNone(before, service);
    }
  }

  /** The folder of a service once those of some services are synced. */
  function Target(
      rules: Rules, folders: map<string, Folder>, documents: seq<Document>, names: seq<string>, service: string): Folder
  {
    if service in names && rules.service(service)
    then Synced(rules, FolderIn(folders, service), FilesOf(documents, service)) else FolderIn(folders, service)
  }

  lemma TargetMore(rules: Rules, folders: map<string, Folder>, documents: seq<Document>, names: seq<string>, k: nat)
    requires Ascending(names) && k < |names|
    ensures Target(rules, folders, documents, names[..k], names[k]) == FolderIn(folders, names[k])
    ensures Target(rules, folders, documents, names[..k + 1], names[k])
            == if rules.service(names[k])
               then Synced(rules, FolderIn(folders, names[k]), FilesOf(documents, names[k])) else FolderIn(folders, names[k])
    ensures forall service :: service != names[k] ==>
                                Target(rules, folders, documents, names[..k + 1], service)
                                == Target(rules, folders, documents, names[..k], service)
  {
    NotYet(names, k);
  }

  // ---------- the sync ----------

  /** What a sync did. */
  datatype Report = Report(written: seq<string>, kept: seq<string>, removed: seq<string>, skipped: seq<string>)

  class ConfigSync {
    const rules: Rules
    /** The folder of each service under the root. */
    var folders: map<string, Folder>

    constructor (rules: Rules, folders: map<string, Folder>)
      ensures this.rules == rules && this.folders == folders
    {
      this.rules := rules;
      this.folders := folders;
    }

    function At(service: string): Folder
      reads this
    {
      FolderIn(folders, service)
    }

    /** Writes a file, unless it holds the data already. */
    method WriteFile(service: string, path: string, data: string) returns (wrote: bool)
      modifies this
      ensures forall s :: s != service ==> At(s) == old(At(s))
      ensures At(service) == old(At(service)).(files := old(At(service)).files[path := data])
      ensures wrote <==> !(path in old(At(service)).files && old(At(service)).files[path] == data)
    {
      var folder := At(service);
      wrote := !(path in folder.files && folder.files[path] == data);
      if wrote {
        folders := folders[service := folder.(files := folder.files[path := data])];
      }
    }

    /** One turn: refuses the path, writes its content, or leaves it as it is. */
    method WriteNext(
        service: string, files: map<string, Content>, ghost before: Folder, ghost done: seq<string>, path: string,
        synced: seq<string>, report: Report)
      returns (nowSynced: seq<string>, nowReport: Report)
      requires path in files && forall p :: p in done ==> Less(p, path)
      requires Wrote(rules, before.files, At(service).files, files, synced)
      requires Told(rules, before, files, done, synced, report)
      modifies this
      ensures forall s :: s != service ==> At(s) == old(At(s))
      ensures At(service).manifest == old(At(service)).manifest
      ensures Wrote(rules, before.files, At(service).files, files, nowSynced)
      ensures Told(rules, before, files, done + [path], nowSynced, nowReport)
    {
      if path == MANIFEST_NAME || !rules.path(path) {
        return synced, report.(skipped := report.skipped + [path]);
      }
      ToldMore(rules, before, files, done, path, synced, report);
      var wrote := WriteFile(service, path, rules.serialize(files[path]));
      return synced + [path],
             if wrote then report.(written := report.written + [path]) else report.(kept := report.kept + [path]);
    }

    /** Writes the accepted files that differ. */
    method WriteFiles(service: string, files: map<string, Content>)
      returns (synced: seq<string>, report: Report)
      modifies this
      ensures forall s :: s != service ==> At(s) == old(At(s))
      ensures At(service).manifest == old(At(service).manifest)
      ensures Wrote(rules, old(At(service)).files, At(service).files, files, synced)
      ensures Told(rules, old(At(service)), files, SortedSet(files.Keys), synced, report)
    {
      synced, report := [], Report([], [], [], []);
      var paths := SortedSet(files.Keys);
      ghost var before := At(service);
      for k := 0 to |paths|
        invariant forall s :: s != service ==> At(s) == old(At(s))
        invariant At(service).manifest == before.manifest
        invariant Wrote(rules, before.files, At(service).files, files, synced)
        invariant Told(rules, before, files, paths[..k], synced, report)
      {
        NotYet(paths, k);
        synced, report := WriteNext(service, files, before, paths[..k], paths[k], synced, report);
      }
      assert paths[..|paths|] == paths;
    }

    /** Removes a file of a folder, if it is there; the manifest is one. */
    method RemoveFile(service: string, path: string) returns (gone: bool)
      requires MANIFEST_NAME !in At(service).files
      modifies this
      ensures forall s :: s != service ==> At(s) == old(At(s))
      ensures At(service).files == old(At(service)).files - {path}
      ensures At(service).manifest == if path == MANIFEST_NAME then Absent else old(At(service)).manifest
      ensures gone <==> if path == MANIFEST_NAME then !old(At(service)).manifest.Absent? else path in old(At(service)).files
    {
      var folder := At(service);
      gone := if path == MANIFEST_NAME then !folder.manifest.Absent? else path in folder.files;
      if gone {
        folders := folders[service := if path == MANIFEST_NAME then folder.(manifest := Absent)
                                      else folder.(files := folder.files - {path})];
      }
    }

    /** Removes the files of the manifest that left the index. */
    method RemoveFiles(service: string, files: map<string, Content>) returns (removed: seq<string>, skipped: seq<string>)
      requires MANIFEST_NAME !in At(service).files
      modifies this
      ensures forall s :: s != service ==> At(s) == old(At(s))
      ensures At(service).files ==
              map path | path in old(At(service).files) && path !in Gone(rules, old(At(service)), files) ::
                old(At(service).files)[path]
      ensures At(service).manifest ==
              if DropsManifest(rules, old(At(service)), files) then Absent else old(At(service).manifest)
      ensures forall path :: path in removed <==> path in Leftover(rules, old(At(service)), files)
      ensures forall path :: path in skipped <==>
                               path in Paths(old(At(service).manifest)) && path !in files && !rules.path(path)
    {
      removed, skipped := [], [];
      ghost var before := At(service);
      var paths := Paths(At(service).manifest);
      for k := 0 to |paths|
        invariant forall s :: s != service ==> At(s) == old(At(s))
        invariant forall path :: path in At(service).files <==>
                                   path in before.files && !Removes(rules, paths[..k], files, path)
        invariant forall path :: path in At(service).files ==> At(service).files[path] == before.files[path]
        invariant At(service).manifest ==
                  if Removes(rules, paths[..k], files, MANIFEST_NAME) then Absent else before.manifest
        invariant forall path :: path in removed <==>
                                   Removes(rules, paths[..k], files, path)
                                   && (path in before.files || path == MANIFEST_NAME)
        invariant forall path :: path in skipped <==> path in paths[..k] && path !in files && !rules.path(path)
      {
        var path := paths[k];
        assert paths[..k + 1] == paths[..k] + [path];
        if path !in files {
          if !rules.path(path) {
            skipped := skipped + [path];
          } else {
            var gone := RemoveFile(service, path);
            if gone {
              removed := removed + [path];
            }
          }
        }
      }
      assert paths[..|paths|] == paths;
    }

    /** Makes the folder of a service hold its current files. */
    method SyncService(service: string, files: map<string, Content>) returns (report: Report)
      requires MANIFEST_NAME !in At(service).files
      modifies this
      ensures forall s :: s != service ==> At(s) == old(At(s))
      ensures At(service) == if rules.service(service) then Synced(rules, old(At(service)), files) else old(At(service))
      ensures Tells(rules, service, old(At(service)), files, report)
      ensures MANIFEST_NAME !in At(service).files
    {
      if !rules.service(service) {
        return Report([], [], [], [service]);
      }
      ghost var before := At(service);
      var synced, wrote := WriteFiles(service, files);
      WrittenThenRemoved(rules, before, At(service), files, synced);
      AscendingIsUnique(synced, SortedSet(Accepted(rules, files)));
      var removed, refused := RemoveFiles(service, files);
      if synced != [] || !At(service).manifest.Absent? {
        folders := folders[service := At(service).(manifest := Listed(synced))];
      }
      report := wrote.(removed := removed, skipped := wrote.skipped + refused);
      AllTold(rules, service, before, files, synced, wrote, removed, refused);
    }

    /**
     Syncs the services asked for, or all those of the index and of the folders synced before: each folder is a
     sync of the files its service has in the index, and the other folders are as they were.
     */
    method SyncConfigs(documents: seq<Document>, services: seq<string>) returns (reports: map<string, Report>)
      requires OnePerPath(documents) && forall service :: MANIFEST_NAME !in At(service).files
      modifies this
      ensures forall service ::
                At(service) == if Concerned(documents, services, old(folders), service) && rules.service(service)
                               then Synced(rules, FolderIn(old(folders), service), FilesOf(documents, service))
                               else FolderIn(old(folders), service)
      ensures forall service :: service in reports <==> Concerned(documents, services, old(folders), service)
      ensures forall service :: service in reports ==>
                Tells(rules, service, FolderIn(old(folders), service), FilesOf(documents, service), reports[service])
    {
      var current := CurrentFiles(documents, services, folders);
      reports := SyncAll(documents, SortedSet(current.Keys), current);
    }

    /** Syncs the folders of some services, one after the other. */
    method SyncAll(ghost documents: seq<Document>, names: seq<string>, current: map<string, map<string, Content>>)
      returns (reports: map<string, Report>)
      requires Ascending(names) && forall service :: MANIFEST_NAME !in At(service).files
      requires forall name :: name in names ==> name in current && current[name] == FilesOf(documents, name)
      modifies this
      ensures forall service :: At(service) == Target(rules, old(folders), documents, names, service)
      ensures forall service :: service in reports <==> service in names
      ensures forall service :: service in reports ==>
                Tells(rules, service, FolderIn(old(folders), service), FilesOf(documents, service), reports[service])
    {
      ghost var before := folders;
      reports := map[];
      for k := 0 to |names|
        invariant forall service :: MANIFEST_NAME !in At(service).files
        invariant forall service :: At(service) == Target(rules, before, documents, names[..k], service)
        invariant forall service :: service in reports <==> service in names[..k]
        invariant forall service :: service in reports ==>
                    Tells(rules, service, FolderIn(before, service), FilesOf(documents, service), reports[service])
      {
        NotYet(names, k);
        TargetMore(rules, before, documents, names, k);
        var report := SyncService(names[k], current[names[k]]);
        reports := reports[names[k] := report];
      }
      assert names[..|names|] == names;
    }
  }

  /** What was told of the paths gone through: which are synced, which of those were stale, which are refused. */
  ghost predicate Told(
      rules: Rules, before: Folder, files: map<string, Content>, paths: seq<string>, synced: seq<string>, report: Report)
  {
    && (forall path :: path in synced <==> path in paths && Accepts(rules, path))
    && Ascending(synced) && report.removed == []
    && (forall path :: path in report.written <==> path in synced && path in Stale(rules, before, files))
    && (forall path :: path in report.kept <==> path in synced && path !in Stale(rules, before, files))
    && (forall path :: path in report.skipped <==> path in paths && !Accepts(rules, path))
  }

  /** What a sync tells of a service: what it wrote, found in place, removed and refused; a bad service is refused. */
  ghost predicate Tells(rules: Rules, service: string, before: Folder, files: map<string, Content>, report: Report) {
    if rules.service(service) then
      && (forall path :: path in report.written <==> path in Stale(rules, before, files))
      && (forall path :: path in report.kept <==> path in Accepted(rules, files) && path !in Stale(rules, before, files))
      && (forall path :: path in report.removed <==> path in Leftover(rules, before, files))
      && (forall path :: path in report.skipped <==> Skips(rules, before, files, path))
    else report == Report([], [], [], [service])
  }

  /** A path that designates no file of the folder, of the index or of the manifest. */
  predicate Skips(rules: Rules, before: Folder, files: map<string, Content>, path: string) {
    if path in files then !Accepts(rules, path) else path in Paths(before.manifest) && !rules.path(path)
  }

  lemma ToldMore(
      rules: Rules, before: Folder, files: map<string, Content>, paths: seq<string>, path: string, synced: seq<string>,
      report: Report)
    requires Told(rules, before, files, paths, synced, report)
    requires path in files && Accepts(rules, path) && forall p :: p in paths ==> Less(p, path)
    ensures path !in synced
    ensures Told(rules, before, files, paths + [path], synced + [path],
                 if path in Stale(rules, before, files) then report.(written := report.written + [path])
                 else report.(kept := report.kept + [path]))
  {
    LessTotal(path, path);
    assert forall i :: 0 <= i < |synced| ==> synced[i] in synced;
  }

  /** What was told of the files written, then of those removed, is what a sync tells. */
  lemma AllTold(
      rules: Rules, service: string, before: Folder, files: map<string, Content>, synced: seq<string>, wrote: Report,
      removed: seq<string>, refused: seq<string>)
    requires rules.service(service) && Told(rules, before, files, SortedSet(files.Keys), synced, wrote)
    requires forall path :: path in removed <==> path in Leftover(rules, before, files)
    requires forall path :: path in refused <==>
                              path in Paths(before.manifest) && path !in files && !rules.path(path)
    ensures Tells(rules, service, before, files, wrote.(removed := removed, skipped := wrote.skipped + refused))
  {
    forall path
      ensures path in wrote.written <==> path in Stale(rules, before, files)
      ensures path in wrote.kept <==> path in Accepted(rules, files) && path !in Stale(rules, before, files)
      ensures path in wrote.skipped + refused <==> Skips(rules, before, files, path)
    {
      PathTold(rules, before, files, synced, wrote, path);
    }
  }

  lemma PathTold(rules: Rules, before: Folder, files: map<string, Content>, synced: seq<string>, wrote: Report, path: string)
    requires Told(rules, before, files, SortedSet(files.Keys), synced, wrote)
    ensures path in wrote.written <==> path in Stale(rules, before, files)
    ensures path in wrote.kept <==> path in Accepted(rules, files) && path !in Stale(rules, before, files)
    ensures path in wrote.skipped <==> path in files && !Accepts(rules, path)
  {
    assert path in SortedSet(files.Keys) <==> path in files;
  }

  /** The synced paths hold their content, the others what they held. */
  predicate Wrote(
      rules: Rules, before: map<string, string>, after: map<string, string>, files: map<string, Content>,
      synced: seq<string>)
  {
    && (forall path :: path in synced ==> path in files && path in after && after[path] == rules.serialize(files[path]))
    && (forall path :: path in after ==> path in before || path in synced)
    && (forall path :: path in before ==> path in after && (path in synced || after[path] == before[path]))
  }

  /** Writing the accepted files, then removing the gone ones, is a sync of the files. */
  lemma WrittenThenRemoved(rules: Rules, folder: Folder, wrote: Folder, files: map<string, Content>, synced: seq<string>)
    requires Wrote(rules, folder.files, wrote.files, files, synced) && wrote.manifest == folder.manifest
    requires forall path :: path in synced <==> path in Accepted(rules, files)
    ensures (map path | path in wrote.files && path !in Gone(rules, wrote, files) :: wrote.files[path])
            == FilesAfter(rules, folder, files)
    ensures forall path :: path in Leftover(rules, wrote, files) <==> path in Leftover(rules, folder, files)
  {
  }

  /** The manifest walked so far removes the path. */
  predicate Removes(rules: Rules, paths: seq<string>, files: map<string, Content>, path: string) {
    path in paths && path !in files && rules.path(path)
  }

  lemma NotYet(paths: seq<string>, k: nat)
    requires Ascending(paths) && k < |paths|
    ensures paths[k] !in paths[..k]
    ensures forall path :: path in paths[..k] ==> Less(path, paths[k])
    ensures paths[..k + 1] == paths[..k] + [paths[k]] && paths[k] in paths
  {
    LessTotal(paths[k], paths[k]);
  }
}
