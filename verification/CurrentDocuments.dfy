/** Reading the current version of every path: candidates first, then their versions, chunk by chunk. */
module CurrentDocuments {
  import opened Wrappers
  import opened Ordering
  import opened ConfigIndex
  import opened PublishProtocol

  const PATH_CHUNK_SIZE: nat := 1024

  /** Every document is filed under its own path and version. */
  predicate Filed(index: Index) {
    forall id :: id in index ==> index[id].path == id.path && index[id].version == id.version
  }

  // ---------- searches ----------

  /** A search of the flagged documents: those that pass the filters, or those of some paths. */
  datatype Query = ByFilters(service: string, interfaceName: string) | ByPaths(paths: seq<string>)

  /** An empty filter admits everything. */
  predicate Admits(document: Document, service: string, interfaceName: string) {
    && (service == "" || service in document.services)
    && (interfaceName == "" || interfaceName in document.content.interfaces)
  }

  predicate Selects(query: Query, document: Document) {
    document.latest &&
    match query
    case ByFilters(service, interfaceName) => Admits(document, service, interfaceName)
    case ByPaths(paths) => document.path in paths
  }

  /** A scan: the hits of a query, in any order. */
  type Scan = (Index, Query) -> seq<Document>

  ghost predicate Exact(scan: Scan, index: Index) {
    forall query, document ::
      document in scan(index, query) <==> document in index.Values && Selects(query, document)
  }

  lemma HitSelected(index: Index, scan: Scan, query: Query, document: Document)
    requires Exact(scan, index)
    ensures document in scan(index, query) <==> document in index.Values && Selects(query, document)
  {
  }

  predicate HasFlagged(index: Index, path: string) {
    exists d :: d in index.Values && d.latest && d.path == path
  }

  // ---------- what is read ----------

  /** The document is flagged, and no flagged version of its path is higher. */
  predicate IsCurrent(index: Index, document: Document) {
    && document in index.Values && document.latest
    && forall id :: id in index && id.path == document.path && index[id].latest ==> id.version <= document.version
  }

  /** What a read returns: the current document of each path that passes the filters, sorted by path. */
  ghost predicate Reads(index: Index, service: string, interfaceName: string, documents: seq<Document>) {
    && (forall i, j :: 0 <= i < j < |documents| ==> Less(documents[i].path, documents[j].path))
    && forall d :: d in documents <==> IsCurrent(index, d) && Admits(d, service, interfaceName)
  }

  /** A path has one current document at most. */
  lemma CurrentIsUnique(index: Index, a: Document, b: Document)
    requires Filed(index) && IsCurrent(index, a) && IsCurrent(index, b) && a.path == b.path
    ensures a == b
  {
    var i :| i in index && index[i] == a;
    var j :| j in index && index[j] == b;
  }

  /** What is known is flagged and filed under its path. */
  predicate Known(index: Index, newest: map<string, Document>) {
    forall path :: path in newest ==>
                     newest[path].path == path && newest[path] in index.Values && newest[path].latest
  }

  /** What was known stays known, is only replaced by higher versions, and stays when it is current. */
  ghost predicate Improves(index: Index, before: map<string, Document>, after: map<string, Document>) {
    && Known(index, after)
    && forall path :: path in before ==>
                        && path in after
                        && (IsCurrent(index, before[path]) ==> after[path] == before[path])
  }

  lemma ImprovedBy(index: Index, before: map<string, Document>, r: map<string, Document>, document: Document)
    requires Filed(index) && Improves(index, before, r) && document in index.Values && document.latest
    requires document.path in r ==> document.version > r[document.path].version
    ensures Improves(index, before, r[document.path := document])
  {
    NotAbove(index, document);
  }

  /** Keeps the highest version seen of each path of the hits. */
  method KeepNewest(index: Index, newest: map<string, Document>, hits: seq<Document>)
    returns (r: map<string, Document>)
    requires Filed(index) && Known(index, newest)
    requires forall hit :: hit in hits ==> hit in index.Values && hit.latest
    ensures Improves(index, newest, r)
    ensures forall path :: path in r ==> path in newest || exists hit :: hit in hits && hit.path == path
    ensures forall hit :: hit in hits ==> hit.path in r && r[hit.path].version >= hit.version
  {
    r := newest;
    for k := 0 to |hits|
      invariant Improves(index, newest, r)
      invariant forall path :: path in r ==> path in newest || exists hit :: hit in hits && hit.path == path
      invariant forall i :: 0 <= i < k ==> hits[i].path in r && r[hits[i].path].version >= hits[i].version
    {
      var document := hits[k];
      assert document in hits;
      if document.path !in r || document.version > r[document.path].version {
        ImprovedBy(index, newest, r, document);
        r := r[document.path := document];
      }
    }
  }

  /** A flagged document is not above the current one of its path. */
  lemma NotAbove(index: Index, document: Document)
    requires Filed(index) && document in index.Values && document.latest
    ensures forall current :: IsCurrent(index, current) && current.path == document.path ==>
                                document.version <= current.version
  {
    var id :| id in index && index[id] == document;
  }

  /** The newest flagged versions of paths that have some are their current documents. */
  lemma NewestIsCurrent(index: Index, newest: map<string, Document>, hits: seq<Document>, path: string)
    requires Filed(index) && Known(index, newest) && path in newest
    requires forall d :: d in index.Values && d.latest && d.path == path ==> d in hits
    requires forall hit :: hit in hits ==> hit.path in newest && newest[hit.path].version >= hit.version
    ensures IsCurrent(index, newest[path])
  {
    forall id | id in index && id.path == path && index[id].latest
      ensures id.version <= newest[path].version
    {
      assert index[id] in index.Values;
    }
  }

  /** One chunk: its paths are all read, and what was current stays. */
  method ReadChunk(
      index: Index, scan: Scan, newest: map<string, Document>, paths: seq<string>)
    returns (r: map<string, Document>)
    requires Filed(index) && Exact(scan, index) && Known(index, newest)
    requires forall path :: path in paths ==> HasFlagged(index, path)
    ensures Improves(index, newest, r)
    ensures forall path :: path in r ==> path in newest || path in paths
    ensures forall path :: path in paths ==> path in r && IsCurrent(index, r[path])
  {
    var found := scan(index, ByPaths(paths));
    forall d
      ensures d in found <==> d in index.Values && d.latest && d.path in paths
    {
      HitSelected(index, scan, ByPaths(paths), d);
    }
    r := KeepNewest(index, newest, found);
    forall path | path in paths
      ensures path in r && IsCurrent(index, r[path])
    {
      var d :| d in index.Values && d.latest && d.path == path;
      NewestIsCurrent(index, r, found, path);
    }
  }

  /** The documents of the paths that pass the filters, in the order of the paths. */
  function Admitted(newest: map<string, Document>, paths: seq<string>, service: string, interfaceName: string)
    : (r: seq<Document>)
    requires forall path :: path in paths ==> path in newest && newest[path].path == path
    requires Ascending(paths)
    ensures forall d :: d in r <==> d.path in paths && newest[d.path] == d && Admits(d, service, interfaceName)
    ensures forall i, j :: 0 <= i < j < |r| ==> Less(r[i].path, r[j].path)
  {
    if paths == [] then []
    else
      var rest := Admitted(newest, paths[1..], service, interfaceName);
      if Admits(newest[paths[0]], service, interfaceName) then [newest[paths[0]]] + rest else rest
  }

  /** The newest flagged version of every path, a chunk of paths per query. */
  method ReadPaths(index: Index, scan: Scan, paths: seq<string>) returns (newest: map<string, Document>)
    requires Filed(index) && Exact(scan, index)
    requires forall path :: path in paths ==> HasFlagged(index, path)
    ensures forall path :: path in newest <==> path in paths
    ensures forall path :: path in newest ==> newest[path].path == path && IsCurrent(index, newest[path])
  {
    newest := map[];
    var start := 0;
    while start < |paths|
      invariant 0 <= start
      invariant Known(index, newest)
      invariant forall path :: path in newest ==> path in paths
      invariant forall k :: 0 <= k < start && k < |paths| ==> paths[k] in newest && IsCurrent(index, newest[paths[k]])
    {
      var end := if start + PATH_CHUNK_SIZE <= |paths| then start + PATH_CHUNK_SIZE else |paths|;
      var chunk := paths[start..end];
      newest := ReadChunk(index, scan, newest, chunk);
      forall k | start <= k < start + PATH_CHUNK_SIZE && k < |paths|
        ensures paths[k] in newest && IsCurrent(index, newest[paths[k]])
      {
        assert paths[k] == chunk[k - start];
      }
      start := start + PATH_CHUNK_SIZE;
    }
  }

  /** The path of a current document that passes the filters is among the candidates of the first search. */
  lemma CandidatesSuffice(
      index: Index, scan: Scan, service: string, interfaceName: string, newest: map<string, Document>, d: Document)
    requires Filed(index) && Exact(scan, index)
    requires var hits := scan(index, ByFilters(service, interfaceName));
             forall path :: path in newest <==> exists hit :: hit in hits && hit.path == path
    requires forall path :: path in newest ==> newest[path].path == path && IsCurrent(index, newest[path])
    requires IsCurrent(index, d) && Admits(d, service, interfaceName)
    ensures d.path in newest && newest[d.path] == d
  {
    HitSelected(index, scan, ByFilters(service, interfaceName), d);
    CurrentIsUnique(index, d, newest[d.path]);
  }

  /**
   The current documents that pass the filters: whatever the order of the hits and the number of chunks, the
   filters apply to the current version of a path, so a newer version that drops a service hides the older one.
   */
  method ReadCurrent(index: Index, scan: Scan, service: string, interfaceName: string)
    returns (documents: seq<Document>)
    requires Filed(index) && Exact(scan, index)
    ensures Reads(index, service, interfaceName, documents)
  {
    var hits := scan(index, ByFilters(service, interfaceName));
    var candidates := SortedSet(set hit | hit in hits :: hit.path);
    forall hit | hit in hits
      ensures HasFlagged(index, hit.path)
    {
      HitSelected(index, scan, ByFilters(service, interfaceName), hit);
    }
    var newest := ReadPaths(index, scan, candidates);
    documents := Admitted(newest, SortedSet(newest.Keys), service, interfaceName);
    forall d | IsCurrent(index, d) && Admits(d, service, interfaceName)
      ensures d in documents
    {
      CandidatesSuffice(index, scan, service, interfaceName, newest, d);
    }
  }

  // ---------- readers and publishers ----------

  /** Above a version that is not the head, there is a flagged one. */
  lemma {:induction false} HeadAbove(index: Index, path: string, version: nat)
    requires Contiguous(index) && HeadsFlagged(index) && Id(path, version + 1) in index
    ensures exists id :: id in index && id.path == path && id.version > version && index[id].latest
    decreases set id | id in index && id.path == path && id.version > version
  {
    var next := Id(path, version + 1);
    if Id(path, version + 2) in index {
      var above := set id | id in index && id.path == path && id.version > version;
      var higher := set id | id in index && id.path == path && id.version > version + 1;
      assert next in above && next !in higher && higher <= above;
      HeadAbove(index, path, version + 1);
    } else {
      assert FlaggedIfHead(index, next);
    }
  }

  lemma HeadIsCurrent(index: Index, id: Id)
    requires Contiguous(index) && HeadsFlagged(index) && id in index && Id(id.path, id.version + 1) !in index
    ensures IsCurrent(index, index[id])
  {
    CreatedIsAbove(index, id.path, id.version + 1);
    assert FlaggedIfHead(index, id);
    forall i | i in index && i.path == id.path
      ensures i.version <= id.version
    {
      assert i == Id(id.path, i.version);
    }
  }

  lemma OthersAreNotCurrent(index: Index, id: Id)
    requires Contiguous(index) && HeadsFlagged(index) && id in index && Id(id.path, id.version + 1) in index
    ensures !IsCurrent(index, index[id])
  {
    HeadAbove(index, id.path, id.version);
  }

  /** Where heads are flagged, the current document of a path is its highest version. */
  lemma CurrentIsHead(index: Index, document: Document)
    requires Contiguous(index) && HeadsFlagged(index)
    ensures IsCurrent(index, document) <==>
            document in index.Values && IsHead(index, document.path, document.version)
  {
    if document in index.Values {
      var id :| id in index && index[id] == document;
      assert id == Id(document.path, document.version);
      if Id(id.path, id.version + 1) in index {
        OthersAreNotCurrent(index, id);
      } else {
        HeadIsCurrent(index, id);
      }
    }
  }

  /**
   In every state of every run, between the steps of publications and after crashes, a read returns the
   heads: exactly the highest version of each path, when that version passes the filters.
   */
  lemma ReadersSeeHeads(
      states: seq<State>, moves: seq<(nat, Step)>, k: nat, service: string, interfaceName: string,
      documents: seq<Document>)
    requires Run(states, moves) && k < |states|
    requires Reads(states[k].index, service, interfaceName, documents)
    ensures var index := states[k].index;
            forall d :: d in documents <==>
                          d in index.Values && IsHead(index, d.path, d.version) && Admits(d, service, interfaceName)
  {
    RunInv(states, moves, k);
    forall d {
      CurrentIsHead(states[k].index, d);
    }
  }
}
