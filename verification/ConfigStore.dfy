/** The writer of the configuration index: publish, rollback and delete, one call at a time. */
module ConfigStore {
  import opened Wrappers
  import opened Ordering
  import opened ConfigIndex
  import opened CurrentDocuments
  import opened Integrity
  import opened StoreIndex
  import S = StoreRuns

  /** A search of every version of a path, in any order. */
  type PathScan = (Index, string) -> seq<Document>

  ghost predicate ExactPaths(scan: PathScan) {
    forall index, path, d :: d in scan(index, path) <==> d in index.Values && d.path == path
  }

  /** The searches of an index return what they select. */
  ghost predicate Faithful(scan: Scan, pathScan: PathScan) {
    ExactPaths(pathScan) && forall index :: Exact(scan, index)
  }

  predicate ServicesNamed(rules: S.Rules, version: S.Version) {
    forall service :: service in version.services ==> rules.service(service)
  }

  /** Every service of every version has a good name. */
  predicate AllNamed(rules: S.Rules, histories: Histories) {
    forall path, v :: path in histories && v in histories[path] ==> ServicesNamed(rules, v)
  }

  lemma NamedMore(rules: S.Rules, store: S.Store, edit: S.Edit)
    requires AllNamed(rules, store.histories) && ServicesNamed(rules, edit.version)
    ensures AllNamed(rules, S.Appended(store, edit).histories)
  {
    forall path, v | path in S.Appended(store, edit).histories && v in S.Appended(store, edit).histories[path]
      ensures ServicesNamed(rules, v)
    {
      if path == edit.path {
        assert v in S.History(store, path) || v == edit.version;
      }
    }
  }

  /** The services that load the path before or after a version is added to its history. */
  function AffectedBy(history: seq<Document>, version: S.Version): set<string> {
    (if version.deleted then {} else version.services)
    + (if history != [] && !history[|history| - 1].deleted then history[|history| - 1].services else {})
  }

  lemma AffectedNamed(rules: S.Rules, store: S.Store, edit: S.Edit)
    requires AllNamed(rules, store.histories) && ServicesNamed(rules, edit.version)
    ensures forall service :: service in S.Affected(S.History(store, edit.path), edit.version) ==> rules.service(service)
  {
    var versions := S.History(store, edit.path);
    if versions != [] {
      var last := versions[|versions| - 1];
      assert last in store.histories[edit.path];
      assert ServicesNamed(rules, last);
    }
  }

  lemma PathHits(scan: PathScan, index: Index, path: string)
    requires ExactPaths(scan)
    ensures forall d :: d in scan(index, path) <==> d in index.Values && d.path == path
  {
  }

  /** The files of documents that are not tombstones, but for those of one path. */
  function FilesOf(documents: seq<Document>, path: string): set<Source> {
    set d | d in documents && !d.deleted && d.path != path :: Source(d.path, d.content)
  }

  lemma FilesOneMore(documents: seq<Document>, k: nat, path: string)
    requires k < |documents|
    ensures var d := documents[k];
            FilesOf(documents[..k + 1], path)
            == FilesOf(documents[..k], path) + if !d.deleted && d.path != path then {Source(d.path, d.content)} else {}
  {
    assert documents[..k + 1] == documents[..k] + [documents[k]];
  }

  /** The definitions of a content by name: a later one replaces an earlier one. */
  method DefinitionsByName(definitions: seq<Definition>) returns (r: map<string, Definition>)
    ensures forall name :: name in r <==> S.Defined(definitions, name).Some?
    ensures forall name :: name in r ==> S.Defined(definitions, name) == Some(r[name])
  {
    r := map[];
    for k := 0 to |definitions|
      invariant forall name :: name in r <==> S.Defined(definitions[..k], name).Some?
      invariant forall name :: name in r ==> S.Defined(definitions[..k], name) == Some(r[name])
    {
      assert definitions[..k + 1][..k] == definitions[..k];
      r := r[definitions[k].name := definitions[k]];
    }
    assert definitions[..|definitions|] == definitions;
  }

  /** The definitions of the last version that is not a tombstone. */
  method PreviousDefinitions(path: string, ghost versions: seq<S.Version>, history: seq<Document>)
    returns (previous: map<string, Definition>)
    requires history == Documents(path, versions)
    ensures forall name :: name in previous <==> S.Previous(versions, name).Some?
    ensures forall name :: name in previous ==> S.Previous(versions, name) == Some(previous[name])
  {
    var k := |history|;
    while k > 0 && history[k - 1].deleted
      invariant 0 <= k <= |history|
      invariant S.LastLive(versions) == S.LastLive(versions[..k])
    {
      assert versions[..k][..k - 1] == versions[..k - 1];
      k := k - 1;
    }
    if k == 0 {
      return map[];
    }
    assert S.LastLive(versions[..k]) == Some(k - 1);
    previous := DefinitionsByName(history[k - 1].content.backups);
  }

  /** Refuses a backup that has reports and changes its destination, or has another file. */
  method CheckDestinations(
      reports: set<string>, path: string, ghost versions: seq<S.Version>, history: seq<Document>, content: Content)
    returns (kept: bool)
    requires history == Documents(path, versions)
    ensures kept <==> S.DestinationsKept(reports, versions, content)
  {
    var previous := PreviousDefinitions(path, versions, history);
    for k := 0 to |content.backups|
      invariant forall i :: 0 <= i < k ==> S.MayDefine(reports, versions, content.backups[i])
    {
      var definition := content.backups[k];
      assert definition in content.backups;
      if definition.name in previous {
        var changes := S.DestinationChanges(previous[definition.name], definition);
        if changes != [] && definition.name in reports {
          assert !S.MayDefine(reports, versions, definition);
          return false;
        }
      } else if definition.name in reports {
        assert !S.MayDefine(reports, versions, definition);
        return false;
      }
    }
    return true;
  }

  class ConfigStore {
    const rules: S.Rules
    const scan: Scan
    const pathScan: PathScan
    var index: Index
    /** The names of the backup reports; other programs add to them. */
    var reports: set<string>
    ghost var store: S.Store

    constructor (rules: S.Rules, scan: Scan, pathScan: PathScan, reports: set<string>)
      requires Faithful(scan, pathScan)
      requires !rules.service("")
      ensures Valid() && store == S.Store(map[], reports) && this.rules == rules
    {
      this.rules := rules;
      this.scan := scan;
      this.pathScan := pathScan;
      this.reports := reports;
      index := map[];
      store := S.Store(map[], reports);
    }

    ghost predicate Valid()
      reads this
    {
      && index == ToIndex(store.histories) && reports == store.reports
      && Faithful(scan, pathScan) && AllNamed(rules, store.histories) && !rules.service("")
    }

    /** Another program reports on a backup. */
    method Report(backup: string)
      requires Valid()
      modifies this`reports, this`store
      ensures Valid() && store == old(store).(reports := old(store).reports + {backup})
    {
      reports := reports + {backup};
      store := store.(reports := reports);
    }

    /** Every version of a path, oldest first. */
    method History(path: string) returns (history: seq<Document>)
      requires Valid()
      ensures history == Documents(path, S.History(store, path))
    {
      var hits := pathScan(index, path);
      var found := set hit | hit in hits;
      PathHits(pathScan, index, path);
      SortedIsHistory(store.histories, path, found);
      history := SortedByVersion(found);
    }

    /** The files a service would load: those it loads but the path, and the new version. */
    method FilesAfter(service: string, edit: S.Edit) returns (sources: seq<Source>)
      requires Valid() && rules.service(service)
      ensures Elements(sources) == S.Checked(store, service, edit)
    {
      var documents := ReadCurrent(index, scan, service, "");
      ReadIsLoaded(store, service, documents);
      sources := [];
      for k := 0 to |documents|
        invariant Elements(sources) == FilesOf(documents[..k], edit.path)
      {
        var document := documents[k];
        FilesOneMore(documents, k, edit.path);
        if !document.deleted && document.path != edit.path {
          sources := sources + [Source(document.path, document.content)];
        }
      }
      assert documents[..|documents|] == documents;
      assert FilesOf(documents, edit.path) == set s | s in S.Loaded(store, service) && s.name != edit.path;
      if !edit.version.deleted && service in edit.version.services {
        sources := sources + [Source(edit.path, edit.version.content)];
      }
    }

    /** The problems of the services: none exactly when all would be sound. */
    method CheckServices(edit: S.Edit, services: seq<string>) returns (problems: seq<Problem>)
      requires Valid() && forall service :: service in services ==> rules.service(service)
      ensures problems == [] <==> forall service :: service in services ==> Sound(S.Checked(store, service, edit))
    {
      problems := [];
      for k := 0 to |services|
        invariant problems == [] <==> forall i :: 0 <= i < k ==> Sound(S.Checked(store, services[i], edit))
      {
        var sources := FilesAfter(services[k], edit);
        var found := IntegrityProblems(sources);
        problems := problems + found;
      }
    }

    /** Refuses a write that leaves a reference dangling in a service it affects. */
    method CheckIntegrity(edit: S.Edit, history: seq<Document>) returns (kept: bool)
      requires Valid() && history == Documents(edit.path, S.History(store, edit.path))
      requires ServicesNamed(rules, edit.version)
      ensures kept <==> S.ReferencesKept(store, edit)
    {
      var affected := AffectedBy(history, edit.version);
      AffectedNamed(rules, store, edit);
      var problems := CheckServices(edit, SortedSet(affected));
      kept := problems == [];
    }

    /** Clears the flag of every version of the path below one, whatever order they are found in. */
    method ClearLatest(path: string, version: nat)
      requires Filed(index) && Exact(scan, index)
      modifies this`index
      ensures index == Cleared(old(index), path, version)
    {
      var flagged := scan(index, ByPaths([path]));
      forall d {
        HitSelected(index, scan, ByPaths([path]), d);
      }
      for k := 0 to |flagged|
        invariant ClearedSome(old(index), index, path, version, flagged[..k])
      {
        var document := flagged[k];
        assert document in flagged;
        if document.version < version {
          var id := Id(path, document.version);
          ClearedNext(old(index), index, path, version, flagged, k);
          index := index[id := index[id].(latest := false)];
        } else {
          ClearedPast(old(index), index, path, version, flagged, k);
        }
      }
      assert flagged[..|flagged|] == flagged;
      ClearedAll(old(index), index, path, version, flagged);
    }

    /** The checks of a publication, in order. */
    method Check(edit: S.Edit, history: seq<Document>) returns (refusal: Option<S.Refusal>)
      requires Valid() && history == Documents(edit.path, S.History(store, edit.path)) && rules.path(edit.path)
      ensures refusal == S.Refused(store, rules, edit)
      ensures refusal.None? ==> ServicesNamed(rules, edit.version)
    {
      var current: nat := if history == [] then 0 else history[|history| - 1].version;
      if edit.base.Some? && edit.base.value != current {
        return Some(S.StaleBase);
      }
      if !edit.version.deleted && !rules.content(edit.version.content) {
        return Some(S.BadContent);
      }
      if edit.version.services == {} {
        return Some(S.NoService);
      }
      if exists service :: service in edit.version.services && !rules.service(service) {
        return Some(S.BadService);
      }
      if !edit.version.deleted {
        var destinations := CheckDestinations(
          reports, edit.path, S.History(store, edit.path), history, edit.version.content);
        if !destinations {
          return Some(S.DestinationFrozen);
        }
      }
      var references := CheckIntegrity(edit, history);
      return if references then None else Some(S.Dangling);
    }

    /** Creates a document, then clears the flag of the versions below it. */
    method Write(document: Document)
      requires Faithful(scan, pathScan)
      requires Filed(index[Id(document.path, document.version) := document])
      modifies this`index
      ensures index ==
              Cleared(old(index)[Id(document.path, document.version) := document], document.path, document.version)
    {
      index := index[Id(document.path, document.version) := document];
      ClearLatest(document.path, document.version);
    }

    /** Records an edit that passed the checks. */
    method Record(edit: S.Edit, current: nat) returns (document: Document)
      requires Valid() && ServicesNamed(rules, edit.version) && current == |S.History(store, edit.path)|
      modifies this`index, this`store
      ensures Valid() && store == S.Appended(old(store), edit) && document == Created(old(store), edit)
    {
      document := Document(
        edit.path, current + 1, true, edit.version.deleted, edit.version.services, edit.version.content);
      WrittenIndex(store, edit);
      Write(document);
      NamedMore(rules, store, edit);
      store := S.Appended(store, edit);
    }

    /** Writes a new version of a path and makes it the current one, or refuses and changes nothing. */
    method Publish(edit: S.Edit) returns (r: Result<Document, S.Refusal>)
      requires Valid()
      modifies this`index, this`store
      ensures Valid()
      ensures var published := S.Published(old(store), rules, edit);
              match published
              case Failure(refusal) => r == Failure(refusal) && store == old(store) && index == old(index)
              case Success(after) => r == Success(Created(old(store), edit)) && store == after
      ensures r.Success? <==> S.Allowed(old(store), rules, edit)
      ensures r.Success? ==> S.History(store, edit.path) == S.History(old(store), edit.path) + [edit.version]
      ensures r.Success? && edit.base.Some? ==> edit.base.value == |S.History(old(store), edit.path)|
      ensures r.Failure? ==> S.Because(old(store), rules, edit, r.error)
    {
      S.PublishedIsAllowed(store, rules, edit);
      if !rules.path(edit.path) {
        return Failure(S.BadPath);
      }
      var history := History(edit.path);
      var refusal := Check(edit, history);
      if refusal.Some? {
        return Failure(refusal.value);
      }
      var document := Record(edit, if history == [] then 0 else history[|history| - 1].version);
      return Success(document);
    }

    /** Publishes the content and the services of an older version as a new version. */
    method Rollback(path: string, to: nat, base: Option<nat>) returns (r: Result<Document, S.Refusal>)
      requires Valid()
      modifies this`index, this`store
      ensures Valid()
      ensures S.Next(old(store), store, rules, S.Rollback(path, to, base))
      ensures r.Success? <==> store != old(store)
      ensures r.Success? <==>
                && 1 <= to <= |S.History(old(store), path)|
                && S.Allowed(old(store), rules, S.Edit(path, S.History(old(store), path)[to - 1], base))
      ensures r.Success? ==>
                var versions := S.History(old(store), path);
                && 1 <= to <= |versions|
                && S.History(store, path) == versions + [versions[to - 1]]
                && (base.Some? ==> base.value == |versions|)
      ensures r.Failure? ==>
                if r.error.NotFound? then !(1 <= to <= |S.History(old(store), path)|)
                else S.RollbackEdit(old(store), path, to, base).Success?
                     && S.Because(old(store), rules, S.RollbackEdit(old(store), path, to, base).value, r.error)
    {
      InIndex(store.histories, Id(path, to));
      if Id(path, to) !in index {
        return Failure(S.NotFound);
      }
      var target := index[Id(path, to)];
      var edit := S.Edit(path, S.Version(target.deleted, target.services, target.content), base);
      assert S.RollbackEdit(store, path, to, base) == Success(edit);
      r := Publish(edit);
    }

    /** Publishes a tombstone: the services stop loading the path. */
    method Delete(path: string, base: Option<nat>) returns (r: Result<Document, S.Refusal>)
      requires Valid()
      modifies this`index, this`store
      ensures Valid()
      ensures S.Next(old(store), store, rules, S.Delete(path, base))
      ensures r.Success? <==> store != old(store)
      ensures r.Success? <==>
                var versions := S.History(old(store), path);
                && versions != [] && !versions[|versions| - 1].deleted
                && S.Allowed(old(store), rules, S.Edit(path, S.Version(true, versions[|versions| - 1].services, NOTHING), base))
      ensures r.Success? ==> forall service :: !S.Loads(store, service, path)
      ensures r.Success? && base.Some? ==> base.value == |S.History(old(store), path)|
      ensures r.Failure? ==>
                if r.error.NotFound? then S.DeleteEdit(old(store), path, base).Failure?
                else S.DeleteEdit(old(store), path, base).Success?
                     && S.Because(old(store), rules, S.DeleteEdit(old(store), path, base).value, r.error)
    {
      var history := History(path);
      if history == [] || history[|history| - 1].deleted {
        return Failure(S.NotFound);
      }
      var current := history[|history| - 1];
      var edit := S.Edit(path, S.Version(true, current.services, NOTHING), base);
      assert S.DeleteEdit(store, path, base) == Success(edit);
      r := Publish(edit);
    }
  }

  // ---------- the flags ----------

  /** The index with the flag of the versions of a path below one cleared. */
  function Cleared(index: Index, path: string, version: nat): Index {
    map id | id in index ::
      if id.path == path && id.version < version then index[id].(latest := false) else index[id]
  }

  /** The flags of the versions found so far are cleared. */
  ghost predicate ClearedSome(before: Index, index: Index, path: string, version: nat, found: seq<Document>) {
    && (forall id :: id in index <==> id in before)
    && (forall id :: id in index ==>
          index[id] == if id.path == path && id.version < version && FoundVersion(found, id.version)
                       then before[id].(latest := false) else before[id])
  }

  predicate FoundVersion(found: seq<Document>, version: nat) {
    exists d :: d in found && d.version == version
  }

  lemma FoundOneMore(found: seq<Document>, k: nat)
    requires k < |found|
    ensures forall v :: FoundVersion(found[..k + 1], v) <==> FoundVersion(found[..k], v) || v == found[k].version
  {
    assert found[..k + 1] == found[..k] + [found[k]];
    forall v
      ensures FoundVersion(found[..k + 1], v) <==> FoundVersion(found[..k], v) || v == found[k].version
    {
      if FoundVersion(found[..k], v) {
        var d :| d in found[..k] && d.version == v;
        assert d in found[..k + 1];
      }
      assert found[k] in found[..k + 1];
    }
  }

  lemma ClearedNext(before: Index, index: Index, path: string, version: nat, found: seq<Document>, k: nat)
    requires k < |found| && ClearedSome(before, index, path, version, found[..k])
    requires Filed(before) && found[k] in before.Values && found[k].path == path && found[k].version < version
    ensures var id := Id(path, found[k].version);
            && id in index
            && ClearedSome(before, index[id := index[id].(latest := false)], path, version, found[..k + 1])
  {
    FoundOneMore(found, k);
    var id := Id(path, found[k].version);
    assert id in before by {
      var i :| i in before && before[i] == found[k];
      assert i == id;
    }
  }

  lemma ClearedPast(before: Index, index: Index, path: string, version: nat, found: seq<Document>, k: nat)
    requires k < |found| && ClearedSome(before, index, path, version, found[..k]) && found[k].version >= version
    ensures ClearedSome(before, index, path, version, found[..k + 1])
  {
    FoundOneMore(found, k);
  }

  lemma ClearedAll(before: Index, index: Index, path: string, version: nat, found: seq<Document>)
    requires Filed(before) && ClearedSome(before, index, path, version, found)
    requires forall d :: d in found <==> d in before.Values && d.latest && d.path == path
    ensures index == Cleared(before, path, version)
  {
    forall id | id in before && id.path == path && before[id].latest
      ensures FoundVersion(found, id.version)
    {
      assert before[id] in before.Values;
      assert before[id] in found;
    }
  }

  lemma ClearedAt(store: S.Store, edit: S.Edit, id: Id)
    requires id.path == edit.path
    ensures var index := ToIndex(store.histories);
            var created := Created(store, edit);
            SameAt(Cleared(index[Id(edit.path, created.version) := created], edit.path, created.version),
                   WithNext(index, created), id)
  {
    InIndex(store.histories, id);
  }

  /** Clearing after creating is what an appended history looks like in the index. */
  lemma CreatedThenCleared(store: S.Store, edit: S.Edit)
    ensures var index := ToIndex(store.histories);
            var created := Created(store, edit);
            Cleared(index[Id(edit.path, created.version) := created], edit.path, created.version)
            == WithNext(index, created)
  {
    var index := ToIndex(store.histories);
    var created := Created(store, edit);
    var left := Cleared(index[Id(edit.path, created.version) := created], edit.path, created.version);
    forall id
      ensures SameAt(left, WithNext(index, created), id)
    {
      if id.path == edit.path {
        ClearedAt(store, edit, id);
      }
    }
    SameEverywhere(left, WithNext(index, created));
  }

  lemma WrittenIndex(store: S.Store, edit: S.Edit)
    ensures var created := Created(store, edit);
            var written := ToIndex(store.histories)[Id(edit.path, created.version) := created];
            && Filed(written)
            && Cleared(written, edit.path, created.version) == ToIndex(S.Appended(store, edit).histories)
  {
    IndexShape(store.histories);
    AppendedIndex(store, edit);
    CreatedThenCleared(store, edit);
  }
}
