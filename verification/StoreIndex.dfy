/** How the histories of a store lie in the configuration index, and what a reader of the index sees of them. */
module StoreIndex {
  import opened Wrappers
  import opened Ordering
  import opened ConfigIndex
  import opened PublishProtocol
  import opened CurrentDocuments
  import opened Integrity
  import S = StoreRuns

  type Histories = map<string, seq<S.Version>>

  /** Version `v` of a path, counted from 1: the last one is flagged. */
  function DocumentOf(path: string, v: nat, versions: seq<S.Version>): Document
    requires 1 <= v <= |versions|
  {
    var version := versions[v - 1];
    Document(path, v, v == |versions|, version.deleted, version.services, version.content)
  }

  function ToIndex(histories: Histories): Index {
    map path, v: nat | path in histories && 1 <= v <= |histories[path]| ::
      Id(path, v) := DocumentOf(path, v, histories[path])
  }

  lemma InIndex(histories: Histories, id: Id)
    ensures id in ToIndex(histories) <==> id.path in histories && 1 <= id.version <= |histories[id.path]|
    ensures id in ToIndex(histories) ==>
              ToIndex(histories)[id] == DocumentOf(id.path, id.version, histories[id.path])
  {
    assert id == Id(id.path, id.version);
    if id in ToIndex(histories) {
      var path, v: nat :| path in histories && 1 <= v <= |histories[path]| && Id(path, v) == id;
    }
  }

  /** The index of a store has the shape publishers keep and readers need. */
  lemma IndexShape(histories: Histories)
    ensures Filed(ToIndex(histories)) && Contiguous(ToIndex(histories)) && HeadsFlagged(ToIndex(histories))
  {
    var index := ToIndex(histories);
    forall id | id in index
      ensures index[id].path == id.path && index[id].version == id.version >= 1
      ensures Follows(index, id) && FlaggedIfHead(index, id)
    {
      InIndex(histories, id);
      InIndex(histories, Id(id.path, id.version + 1));
      if id.version > 1 {
        InIndex(histories, Id(id.path, id.version - 1));
      }
    }
  }

  /** The current documents are the last versions. */
  lemma CurrentIsLast(histories: Histories, document: Document)
    ensures IsCurrent(ToIndex(histories), document) <==>
            && document.path in histories && histories[document.path] != []
            && document == DocumentOf(document.path, |histories[document.path]|, histories[document.path])
  {
    var index := ToIndex(histories);
    IndexShape(histories);
    CurrentIsHead(index, document);
    InIndex(histories, Id(document.path, document.version));
    InIndex(histories, Id(document.path, document.version + 1));
    if document in index.Values {
      var id :| id in index && index[id] == document;
      assert id == Id(document.path, document.version);
    }
    if document.path in histories && histories[document.path] != [] {
      var last := Id(document.path, |histories[document.path]|);
      InIndex(histories, last);
      assert index[last] in index.Values;
    }
  }

  // ---------- the history of a path ----------

  predicate AscendingVersions(documents: seq<Document>) {
    forall i, j :: 0 <= i < j < |documents| ==> documents[i].version < documents[j].version
  }

  predicate OnePerVersion(documents: set<Document>) {
    forall a, b :: a in documents && b in documents && a.version == b.version ==> a == b
  }

  predicate IsLowest(lowest: Document, documents: set<Document>) {
    lowest in documents && forall d :: d in documents ==> lowest.version <= d.version
  }

  lemma {:induction false} LowestExists(documents: set<Document>)
    requires documents != {}
    ensures exists lowest :: IsLowest(lowest, documents)
  {
    var some :| some in documents;
    if documents == {some} {
      assert IsLowest(some, documents);
    } else {
      LowestExists(documents - {some});
      var other :| IsLowest(other, documents - {some});
      assert IsLowest(if some.version <= other.version then some else other, documents);
    }
  }

  /** The hits of a search, sorted by version. */
  function SortedByVersion(documents: set<Document>): (r: seq<Document>)
    requires OnePerVersion(documents)
    ensures AscendingVersions(r)
    ensures forall d :: d in r <==> d in documents
    decreases |documents|
  {
    if documents == {} then []
    else
      LowestExists(documents);
      var lowest :| IsLowest(lowest, documents);
      var rest := SortedByVersion(documents - {lowest});
      LowestFirst(documents, lowest, rest);
      [lowest] + rest
  }

  lemma LowestFirst(documents: set<Document>, lowest: Document, rest: seq<Document>)
    requires OnePerVersion(documents) && IsLowest(lowest, documents) && AscendingVersions(rest)
    requires forall d :: d in rest <==> d in documents && d != lowest
    ensures AscendingVersions([lowest] + rest)
    ensures forall d :: d in [lowest] + rest <==> d in documents
  {
    assert forall i :: 0 <= i < |rest| ==> rest[i] in rest;
  }

  lemma {:induction false} SortedIsUnique(a: seq<Document>, b: seq<Document>)
    requires AscendingVersions(a) && AscendingVersions(b) && forall d :: d in a <==> d in b
    ensures a == b
    decreases |a|
  {
    assert a != [] ==> a[0] in b;
    assert b != [] ==> b[0] in a;
    if a != [] {
      forall d
        ensures d in a[1..] <==> d in b[1..]
      {
        assert d in a <==> d == a[0] || d in a[1..];
        assert d in b <==> d == b[0] || d in b[1..];
      }
      SortedIsUnique(a[1..], b[1..]);
    }
  }

  function Documents(path: string, versions: seq<S.Version>): (r: seq<Document>)
    ensures |r| == |versions|
  {
    seq(|versions|, i requires 0 <= i < |versions| => DocumentOf(path, i + 1, versions))
  }

  lemma OfPath(histories: Histories, path: string, d: Document)
    ensures d in ToIndex(histories).Values && d.path == path <==>
            d in Documents(path, if path in histories then histories[path] else [])
  {
    var index := ToIndex(histories);
    var documents := Documents(path, if path in histories then histories[path] else []);
    if d in index.Values && d.path == path {
      var id :| id in index && index[id] == d;
      InIndex(histories, id);
      assert documents[id.version - 1] == d;
    }
    if d in documents {
      var i :| 0 <= i < |documents| && documents[i] == d;
      InIndex(histories, Id(path, i + 1));
      assert index[Id(path, i + 1)] in index.Values;
    }
  }

  /** A search of the versions of a path, sorted, is its history. */
  lemma SortedIsHistory(histories: Histories, path: string, hits: set<Document>)
    requires forall d :: d in hits <==> d in ToIndex(histories).Values && d.path == path
    ensures OnePerVersion(hits)
    ensures SortedByVersion(hits) == Documents(path, if path in histories then histories[path] else [])
  {
    var documents := Documents(path, if path in histories then histories[path] else []);
    IndexShape(histories);
    forall d {
      OfPath(histories, path, d);
    }
    SortedIsUnique(SortedByVersion(hits), documents);
  }

  // ---------- what a publication does to the index ----------

  /** The index with the next version created and the flag of the one before cleared. */
  function WithNext(index: Index, created: Document): Index {
    var before := Id(created.path, if created.version > 0 then created.version - 1 else 0);
    (if before in index then index[before := index[before].(latest := false)] else index)
    [Id(created.path, created.version) := created]
  }

  /** The document an edit creates. */
  function Created(store: S.Store, edit: S.Edit): Document {
    var versions := S.History(store, edit.path);
    Document(edit.path, |versions| + 1, true, edit.version.deleted, edit.version.services, edit.version.content)
  }

  predicate SameAt(a: Index, b: Index, id: Id) {
    (id in a <==> id in b) && (id in a && id in b ==> a[id] == b[id])
  }

  lemma AppendedAt(store: S.Store, edit: S.Edit, id: Id)
    requires id.path == edit.path
    ensures SameAt(ToIndex(S.Appended(store, edit).histories), WithNext(ToIndex(store.histories), Created(store, edit)), id)
  {
    InIndex(S.Appended(store, edit).histories, id);
    InIndex(store.histories, id);
    InIndex(store.histories, Id(edit.path, |S.History(store, edit.path)|));
  }

  lemma OtherPathsSame(store: S.Store, edit: S.Edit, id: Id)
    requires id.path != edit.path
    ensures SameAt(ToIndex(S.Appended(store, edit).histories), WithNext(ToIndex(store.histories), Created(store, edit)), id)
  {
    InIndex(S.Appended(store, edit).histories, id);
    InIndex(store.histories, id);
  }

  lemma SameEverywhere(a: Index, b: Index)
    requires forall id :: SameAt(a, b, id)
    ensures a == b
  {
    forall id
      ensures (id in a <==> id in b) && (id in a && id in b ==> a[id] == b[id])
    {
      assert SameAt(a, b, id);
    }
  }

  /** Creating the next version, then clearing the flag of the one before, appends to the history. */
  lemma AppendedIndex(store: S.Store, edit: S.Edit)
    ensures Id(edit.path, Created(store, edit).version) !in ToIndex(store.histories)
    ensures ToIndex(S.Appended(store, edit).histories) == WithNext(ToIndex(store.histories), Created(store, edit))
  {
    InIndex(store.histories, Id(edit.path, Created(store, edit).version));
    forall id
      ensures SameAt(ToIndex(S.Appended(store, edit).histories), WithNext(ToIndex(store.histories), Created(store, edit)), id)
    {
      if id.path == edit.path {
        AppendedAt(store, edit, id);
      } else {
        OtherPathsSame(store, edit, id);
      }
    }
    SameEverywhere(ToIndex(S.Appended(store, edit).histories), WithNext(ToIndex(store.histories), Created(store, edit)));
  }

  lemma LoadedIsRead(store: S.Store, service: string, documents: seq<Document>, source: Source)
    requires service != "" && Reads(ToIndex(store.histories), service, "", documents)
    requires source in S.Loaded(store, service)
    ensures exists d :: d in documents && !d.deleted && source == Source(d.path, d.content)
  {
    var versions := store.histories[source.name];
    var d := DocumentOf(source.name, |versions|, versions);
    CurrentIsLast(store.histories, d);
    assert d in documents;
  }

  lemma ReadIsLoadedBy(store: S.Store, service: string, documents: seq<Document>, d: Document)
    requires service != "" && Reads(ToIndex(store.histories), service, "", documents)
    requires d in documents && !d.deleted
    ensures Source(d.path, d.content) in S.Loaded(store, service)
  {
    CurrentIsLast(store.histories, d);
    assert S.Loads(store, service, d.path);
  }

  /** What a service loads, read from the index, is what it loads of the store. */
  lemma ReadIsLoaded(store: S.Store, service: string, documents: seq<Document>)
    requires service != "" && Reads(ToIndex(store.histories), service, "", documents)
    ensures S.Loaded(store, service) == set d | d in documents && !d.deleted :: Source(d.path, d.content)
  {
    forall source | source in S.Loaded(store, service)
      ensures exists d :: d in documents && !d.deleted && source == Source(d.path, d.content)
    {
      LoadedIsRead(store, service, documents, source);
    }
    forall d | d in documents && !d.deleted
      ensures Source(d.path, d.content) in S.Loaded(store, service)
    {
      ReadIsLoadedBy(store, service, documents, d);
    }
  }
}
