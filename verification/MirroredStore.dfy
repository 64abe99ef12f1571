/** The folders sync writes hold what the services load from the index. */
module MirroredStore {
  import opened Wrappers
  import opened Ordering
  import opened ConfigIndex
  import opened CurrentDocuments
  import opened Integrity
  import opened StoreIndex
  import S = StoreRuns
  import Sync = ConfigSync

  lemma ReadsOnePerPath(index: Index, documents: seq<Document>)
    requires Reads(index, "", "", documents)
    ensures Sync.OnePerPath(documents)
  {
    forall i, j | 0 <= i < j < |documents|
      ensures documents[i].path != documents[j].path
    {
      LessTotal(documents[i].path, documents[j].path);
    }
  }

  lemma LoadedIsHeld(store: S.Store, documents: seq<Document>, service: string, source: Source)
    requires Reads(ToIndex(store.histories), "", "", documents) && source in S.Loaded(store, service)
    ensures Sync.Holds(documents, service, source.name, source.content)
  {
    var versions := store.histories[source.name];
    var d := DocumentOf(source.name, |versions|, versions);
    CurrentIsLast(store.histories, d);
    assert d in documents;
  }

  lemma HeldIsLoaded(store: S.Store, documents: seq<Document>, service: string, d: Document)
    requires Reads(ToIndex(store.histories), "", "", documents)
    requires d in documents && service in d.services && !d.deleted
    ensures Source(d.path, d.content) in S.Loaded(store, service)
  {
    CurrentIsLast(store.histories, d);
    assert S.Loads(store, service, d.path);
  }

  /** The files sync takes for a service, from a read of the whole index, are those the service loads. */
  lemma SyncedIsLoaded(store: S.Store, documents: seq<Document>, service: string, path: string, content: Content)
    requires Reads(ToIndex(store.histories), "", "", documents)
    ensures path in Sync.FilesOf(documents, service) && Sync.FilesOf(documents, service)[path] == content
            <==> Source(path, content) in S.Loaded(store, service)
  {
    ReadsOnePerPath(ToIndex(store.histories), documents);
    Sync.FilesAreDocuments(documents, service, path, content);
    if Source(path, content) in S.Loaded(store, service) {
      LoadedIsHeld(store, documents, service, Source(path, content));
    }
    if Sync.Holds(documents, service, path, content) {
      var d :| d in documents && d.path == path && d.content == content && service in d.services && !d.deleted;
      HeldIsLoaded(store, documents, service, d);
    }
  }

  // ---------- the folder of a service over a run of the store ----------

  /** The files of a service that may lie in its folder. */
  function Mirrored(rules: Sync.Rules, sources: set<Source>): (r: set<Source>)
    ensures (forall source :: source in sources ==> Sync.Accepts(rules, source.name)) ==> r == sources
  {
    set source | source in sources && Sync.Accepts(rules, source.name)
  }

  predicate Named(sources: set<Source>, path: string) {
    exists source :: source in sources && source.name == path
  }

  /** The manifest lists the sources, no more and no less, and each file listed holds its source. */
  ghost predicate Mirrors(rules: Sync.Rules, folder: Sync.Folder, sources: set<Source>) {
    && (forall path :: path in Sync.Paths(folder.manifest) <==> Named(sources, path))
    && (forall source :: source in sources ==>
          source.name in folder.files && folder.files[source.name] == rules.serialize(source.content))
  }

  lemma SyncMirrors(
      store: S.Store, documents: seq<Document>, rules: Sync.Rules, folder: Sync.Folder, service: string)
    requires Reads(ToIndex(store.histories), "", "", documents) && Sync.WrittenBySync(rules, folder.manifest)
    ensures Mirrors(
              rules, Sync.Synced(rules, folder, Sync.FilesOf(documents, service)),
              Mirrored(rules, S.Loaded(store, service)))
  {
    var files := Sync.FilesOf(documents, service);
    var after := Sync.Synced(rules, folder, files);
    var sources := Mirrored(rules, S.Loaded(store, service));
    Sync.ManifestIsSynced(rules, folder, files);
    forall path
      ensures path in Sync.Paths(after.manifest) <==> Named(sources, path)
    {
      if path in files && Sync.Accepts(rules, path) {
        SyncedIsLoaded(store, documents, service, path, files[path]);
        assert Source(path, files[path]) in sources;
      }
      if Named(sources, path) {
        var source :| source in sources && source.name == path;
        SyncedIsLoaded(store, documents, service, path, source.content);
      }
    }
    forall source | source in sources
      ensures source.name in after.files && after.files[source.name] == rules.serialize(source.content)
    {
      SyncedIsLoaded(store, documents, service, source.name, source.content);
      Sync.MirrorWithFrame(rules, folder, files, source.name);
    }
  }

  /** Whatever was published, every path of a store was allowed. */
  lemma {:induction false} PathsAllowed(states: seq<S.Store>, steps: seq<S.Step>, rules: S.Rules, k: nat, path: string)
    requires S.Run(states, steps, rules) && k < |states| && states[0].histories == map[]
    requires path in states[k].histories
    ensures rules.path(path)
  {
    if k > 0 {
      assert S.Next(states[k - 1], states[k], rules, steps[k - 1]);
      if path in states[k - 1].histories {
        PathsAllowed(states, steps, rules, k - 1, path);
      }
    }
  }

  /**
   After any run of the store from an empty one, and a sync over a folder that sync wrote before: the folder mirrors
   the files the service loads and that may lie in a folder, and these are sound when no loaded path is refused.
   */
  lemma SyncedFolderIsSound(
      states: seq<S.Store>, steps: seq<S.Step>, published: S.Rules, k: nat, documents: seq<Document>, rules: Sync.Rules,
      folder: Sync.Folder, service: string)
    requires S.Run(states, steps, published) && k < |states| && states[0].histories == map[]
    requires Reads(ToIndex(states[k].histories), "", "", documents) && Sync.WrittenBySync(rules, folder.manifest)
    ensures var loaded := S.Loaded(states[k], service);
            && Mirrors(rules, Sync.Synced(rules, folder, Sync.FilesOf(documents, service)), Mirrored(rules, loaded))
            && ((forall source :: source in loaded ==> Sync.Accepts(rules, source.name)) ==> Sound(Mirrored(rules, loaded)))
  {
    SyncMirrors(states[k], documents, rules, folder, service);
    S.IntegrityIsInductive(states, steps, published, k);
    assert Sound(S.Loaded(states[k], service));
  }

  /** Where sync refuses no path but that of its manifest, a service loads a refused path exactly when it loads that one. */
  lemma RefusedIsManifest(
      states: seq<S.Store>, steps: seq<S.Step>, published: S.Rules, k: nat, rules: Sync.Rules, service: string)
    requires S.Run(states, steps, published) && k < |states| && states[0].histories == map[]
    requires forall path :: published.path(path) ==> rules.path(path)
    ensures var loaded := S.Loaded(states[k], service);
            (forall source :: source in loaded ==> Sync.Accepts(rules, source.name)) <==> !Named(loaded, Sync.MANIFEST_NAME)
  {
    var loaded := S.Loaded(states[k], service);
    forall source | source in loaded
      ensures rules.path(source.name)
    {
      PathsAllowed(states, steps, published, k, source.name);
    }
    assert Named(loaded, Sync.MANIFEST_NAME) ==>
        exists source :: source in loaded && !Sync.Accepts(rules, source.name);
  }
}
