/** Turning the documents of a collected file into transfer requests, and keeping those the broker refuses. */
module Requester {

  const REQUEST_BATCH_SIZE: nat := 10
  const MAX_PENDING_REQUESTS: nat := 10000

  /** A document: its identifier and its index. */
  datatype Doc = Doc(id: string, index: string)

  datatype Request = Request(interfaceName: string, documents: seq<Doc>)

  // ---------- the batches of a file ----------

  /** In order, each document once. */
  function Distinct(documents: seq<Doc>): (r: seq<Doc>)
    ensures forall d :: d in r <==> d in documents
    ensures forall i, j :: 0 <= i < j < |r| ==> r[i] != r[j]
  {
    if documents == [] then []
    else
      var last := documents[|documents| - 1];
      var before := Distinct(documents[..|documents| - 1]);
      assert forall d :: d in documents <==> d in documents[..|documents| - 1] || d == last;
      if last in documents[..|documents| - 1] then before else before + [last]
  }

  /** A document comes before another when its first mention does. */
  predicate MentionedBefore(documents: seq<Doc>, a: Doc, b: Doc) {
    exists i :: 0 <= i < |documents| && documents[i] == a && b !in documents[..i + 1]
  }

  lemma {:induction false} DistinctKeepsOrder(documents: seq<Doc>, i: nat, j: nat)
    requires i < j < |Distinct(documents)|
    ensures MentionedBefore(documents, Distinct(documents)[i], Distinct(documents)[j])
  {
    var before := documents[..|documents| - 1];
    var a, b := Distinct(documents)[i], Distinct(documents)[j];
    if j < |Distinct(before)| {
      DistinctKeepsOrder(before, i, j);
      var k :| 0 <= k < |before| && before[k] == a && b !in before[..k + 1];
      assert before[..k + 1] == documents[..k + 1];
      assert documents[k] == a;
    } else {
      assert a in before && b !in before;
      var k :| 0 <= k < |before| && before[k] == a;
      assert forall d :: d in documents[..k + 1] ==> d in before;
      assert documents[k] == a;
    }
  }

  /** The requests of a list of documents: batches of ten, the last one may be shorter. */
  function Batches(interfaceName: string, documents: seq<Doc>): seq<Request>
    decreases |documents|
  {
    if documents == [] then []
    else if |documents| <= REQUEST_BATCH_SIZE then [Request(interfaceName, documents)]
    else
      [Request(interfaceName, documents[..REQUEST_BATCH_SIZE])]
      + Batches(interfaceName, documents[REQUEST_BATCH_SIZE..])
  }

  function DocumentsOf(requests: seq<Request>): seq<Doc> {
    if requests == [] then [] else requests[0].documents + DocumentsOf(requests[1..])
  }

  /** The batches are the documents, in order, once each, ten a batch but for the last one, which may be shorter. */
  lemma {:induction false} BatchesAreDocuments(interfaceName: string, documents: seq<Doc>)
    ensures DocumentsOf(Batches(interfaceName, documents)) == documents
    ensures forall request :: request in Batches(interfaceName, documents) ==>
                                0 < |request.documents| <= REQUEST_BATCH_SIZE && request.interfaceName == interfaceName
    ensures forall i :: 0 <= i < |Batches(interfaceName, documents)| - 1 ==>
                          |Batches(interfaceName, documents)[i].documents| == REQUEST_BATCH_SIZE
    decreases |documents|
  {
    if |documents| > REQUEST_BATCH_SIZE {
      BatchesAreDocuments(interfaceName, documents[REQUEST_BATCH_SIZE..]);
      assert documents == documents[..REQUEST_BATCH_SIZE] + documents[REQUEST_BATCH_SIZE..];
    }
  }

  lemma {:induction false} DocumentsConcat(a: seq<Request>, b: seq<Request>)
    ensures DocumentsOf(a + b) == DocumentsOf(a) + DocumentsOf(b)
  {
    if a == [] {
      assert a + b == b;
    } else {
      assert (a + b)[1..] == a[1..] + b;
      DocumentsConcat(a[1..], b);
    }
  }

  lemma BatchesNext(interfaceName: string, documents: seq<Doc>, start: nat)
    requires start < |documents|
    ensures var end := if start + REQUEST_BATCH_SIZE <= |documents| then start + REQUEST_BATCH_SIZE else |documents|;
            Batches(interfaceName, documents[start..])
            == [Request(interfaceName, documents[start..end])] + Batches(interfaceName, documents[end..])
  {
    var end := if start + REQUEST_BATCH_SIZE <= |documents| then start + REQUEST_BATCH_SIZE else |documents|;
    var rest := documents[start..];
    assert rest[..end - start] == documents[start..end] && rest[end - start..] == documents[end..];
    if |rest| <= REQUEST_BATCH_SIZE {
      assert rest == documents[start..end] && documents[end..] == [];
    }
  }

  /** The requests the broker takes or refuses, in order: `sends` says which, by their number, the first being `from`. */
  function Sent(requests: seq<Request>, sends: nat -> bool, from: nat, taken: bool): seq<Request>
    decreases |requests|
  {
    if requests == [] then []
    else (if sends(from) == taken then [requests[0]] else []) + Sent(requests[1..], sends, from + 1, taken)
  }

  /** A request is among those taken, or among those refused, as the broker said of its number. */
  lemma {:induction false} SentIsSaid(requests: seq<Request>, sends: nat -> bool, from: nat, taken: bool, request: Request)
    ensures request in Sent(requests, sends, from, taken)
            <==> exists i :: 0 <= i < |requests| && requests[i] == request && sends(from + i) == taken
    decreases |requests|
  {
    if requests != [] {
      SentIsSaid(requests[1..], sends, from + 1, taken, request);
      assert forall i :: 0 < i < |requests| ==> requests[i] == requests[1..][i - 1] && from + i == from + 1 + (i - 1);
      if i :| 0 <= i < |requests[1..]| && requests[1..][i] == request && sends(from + 1 + i) == taken {
        assert requests[i + 1] == request && sends(from + (i + 1)) == taken;
      }
    }
  }

  lemma {:induction false} SentPartition(requests: seq<Request>, sends: nat -> bool, from: nat)
    ensures multiset(requests)
            == multiset(Sent(requests, sends, from, true)) + multiset(Sent(requests, sends, from, false))
    decreases |requests|
  {
    if requests != [] {
      SentPartition(requests[1..], sends, from + 1);
      assert requests == [requests[0]] + requests[1..];
    }
  }

  /** What was built, taken and refused so far of all the requests, `rest` being those to come. */
  datatype Progress = Progress(built: seq<Request>, taken: seq<Request>, refused: seq<Request>)

  predicate OnTheWay(all: seq<Request>, rest: seq<Request>, sends: nat -> bool, batch: nat, p: Progress) {
    && p.built + rest == all
    && p.taken + Sent(rest, sends, batch, true) == Sent(all, sends, 0, true)
    && p.refused + Sent(rest, sends, batch, false) == Sent(all, sends, 0, false)
  }

  function Step(p: Progress, request: Request, taken: bool): Progress {
    Progress(p.built + [request], p.taken + (if taken then [request] else []), p.refused + if taken then [] else [request])
  }

  lemma OnTheWayNext(
    all: seq<Request>, request: Request, rest: seq<Request>, sends: nat -> bool, batch: nat, p: Progress)
    requires OnTheWay(all, [request] + rest, sends, batch, p)
    ensures OnTheWay(all, rest, sends, batch + 1, Step(p, request, sends(batch)))
  {
    assert ([request] + rest)[1..] == rest;
    assert p.built + ([request] + rest) == (p.built + [request]) + rest;
  }

  lemma OnTheWayEnd(all: seq<Request>, sends: nat -> bool, batch: nat, p: Progress)
    requires OnTheWay(all, [], sends, batch, p)
    ensures p == Progress(all, Sent(all, sends, 0, true), Sent(all, sends, 0, false))
  {
  }

  lemma OnTheWayStart(all: seq<Request>, sends: nat -> bool)
    ensures OnTheWay(all, all, sends, 0, Progress([], [], []))
  {
  }

  // ---------- the requester ----------

  /** The lists of a requester at some time. */
  datatype Lists = Lists(
    built: seq<Request>, published: seq<Request>, dropped: seq<Request>, pending: seq<Request>, failures: nat)

  class TransferRequester {
    const isReplay: bool
    var failures: nat
    var pending: seq<Request>
    /** Every request built, the ones the broker took, and the ones given up. */
    ghost var built: seq<Request>
    ghost var published: seq<Request>
    ghost var dropped: seq<Request>

    constructor (isReplay: bool)
      ensures Valid() && this.isReplay == isReplay && failures == 0 && pending == []
      ensures built == [] && published == [] && dropped == []
    {
      this.isReplay := isReplay;
      failures, pending := 0, [];
      built, published, dropped := [], [], [];
    }

    /**
     Live, the requests built are those published, those waiting and those dropped; in a replay, the documents
     of the requests built are those published and those counted as failures.
     */
    ghost predicate Valid()
      reads this
    {
      && |pending| <= MAX_PENDING_REQUESTS
      && (!isReplay ==> failures == 0 && multiset(built) == multiset(published) + (multiset(dropped) + multiset(pending)))
      && (isReplay ==> pending == [] && dropped == []
                       && |DocumentsOf(built)| == |DocumentsOf(published)| + failures)
    }

    /** The documents of a file that are to be archived. */
    function Requested(indexed: seq<Doc>, same: seq<Doc>): seq<Doc> {
      Distinct(indexed + if isReplay then same else [])
    }

    /** The requester after some requests, `before` being its lists at the start: what they add is the progress. */
    ghost predicate Went(before: Lists, p: Progress)
      reads this
    {
      && built == before.built + p.built && published == before.published + p.taken && before.dropped <= dropped
      && (if isReplay then
            failures == before.failures + |DocumentsOf(p.refused)| && dropped == before.dropped && pending == before.pending
          else dropped + pending == before.dropped + before.pending + p.refused && failures == before.failures)
    }

    ghost function Now(): Lists
      reads this
    {
      Lists(built, published, dropped, pending, failures)
    }

    /**
     Requests the archive of the documents of a file: nothing raises. What the broker takes is published, in order; what
     it refuses is counted in a replay, else kept after what waited.
     */
    method DocumentsIndexed(
        hasRule: bool, interfaceName: string, indexed: seq<Doc>, same: seq<Doc>, sends: nat -> bool)
      requires Valid()
      modifies this
      ensures Valid()
      ensures var all := if hasRule then Batches(interfaceName, Requested(indexed, same)) else [];
              Went(old(Now()), Progress(all, Sent(all, sends, 0, true), Sent(all, sends, 0, false)))
      ensures (forall batch :: sends(batch)) ==> pending == old(pending) && dropped == old(dropped)
    {
      NothingWent();
      if !hasRule {
        return;
      }
      var documents := Distinct(indexed + if isReplay then same else []);
      var start := 0;
      var batch := 0;
      assert documents[0..] == documents;
      ghost var all := Batches(interfaceName, documents);
      ghost var p := Progress([], [], []);
      OnTheWayStart(all, sends);
      while start < |documents|
        invariant Valid() && 0 <= start <= |documents|
        invariant OnTheWay(all, Batches(interfaceName, documents[start..]), sends, batch, p)
        invariant Went(old(Now()), p)
        invariant (forall batch :: sends(batch)) ==> pending == old(pending) && dropped == old(dropped)
      {
        var end := if start + REQUEST_BATCH_SIZE <= |documents| then start + REQUEST_BATCH_SIZE else |documents|;
        var request := Request(interfaceName, documents[start..end]);
        BatchesNext(interfaceName, documents, start);
        OnTheWayNext(all, request, Batches(interfaceName, documents[end..]), sends, batch, p);
        Offer(request, sends(batch), old(Now()), p);
        p := Step(p, request, sends(batch));
        batch := batch + 1;
        start := end;
      }
      OnTheWayEnd(all, sends, batch, p);
    }

    lemma NothingWent()
      ensures Went(Now(), Progress([], [], []))
    {
      assert built + [] == built && published + [] == published;
      assert dropped + pending + [] == dropped + pending;
    }

    /** Publishes a request, or keeps what the broker refuses. */
    method Offer(request: Request, sent: bool, ghost before: Lists, ghost p: Progress)
      requires Valid() && Went(before, p)
      modifies this
      ensures Valid() && Went(before, Step(p, request, sent))
      ensures sent ==> pending == old(pending) && dropped == old(dropped)
    {
      DocumentsConcat(p.refused, [request]);
      assert DocumentsOf([request]) == request.documents + DocumentsOf([]) == request.documents;
      assert p.refused + [] == p.refused && p.taken + [] == p.taken;
      if sent {
        Took(request);
      } else {
        Failed(request);
      }
    }

    /** A new request the broker took. */
    ghost method Took(request: Request)
      requires Valid()
      modifies this`built, this`published
      ensures Valid() && built == old(built) + [request] && published == old(published) + [request]
    {
      DocumentsConcat(built, [request]);
      DocumentsConcat(published, [request]);
      built := built + [request];
      published := published + [request];
    }

    /** A new request that was not sent: counted in a replay, else kept, dropping the oldest beyond the cap. */
    method Failed(request: Request)
      requires Valid()
      modifies this`failures, this`pending, this`built, this`dropped
      ensures Valid() && built == old(built) + [request]
      ensures isReplay ==> failures == old(failures) + |request.documents| && dropped == old(dropped)
      ensures !isReplay ==>
                && failures == old(failures)
                && dropped + pending == old(dropped) + old(pending) + [request]
                && dropped == old(dropped) + if |old(pending)| < MAX_PENDING_REQUESTS then [] else [old(pending)[0]]
    {
      DocumentsConcat(built, [request]);
      built := built + [request];
      if isReplay {
        assert DocumentsOf([request]) == request.documents + DocumentsOf([]) == request.documents;
        failures := failures + |request.documents|;
        return;
      }
      assert multiset(built) == multiset(old(built)) + multiset{request};
      Keep(request);
    }

    /** Keeps a request for the next loop, dropping the oldest beyond the cap. */
    method Keep(request: Request)
      requires |pending| <= MAX_PENDING_REQUESTS
      modifies this`pending, this`dropped
      ensures |pending| <= MAX_PENDING_REQUESTS
      ensures multiset(dropped) + multiset(pending)
              == multiset(old(dropped)) + multiset(old(pending)) + multiset{request}
      ensures dropped + pending == old(dropped) + old(pending) + [request]
      ensures dropped == old(dropped) + if |old(pending)| < MAX_PENDING_REQUESTS then [] else [old(pending)[0]]
    {
      pending := pending + [request];
      var excess := |pending| - MAX_PENDING_REQUESTS;
      if excess > 0 {
        Split(dropped, pending, excess);
        assert pending[..excess] == [old(pending)[0]];
        dropped := dropped + pending[..excess];
        pending := pending[excess..];
      } else {
        assert dropped + [] == dropped;
      }
    }

    /** Publishes the waiting requests again, oldest first, until one is refused. */
    method RetryPending(sends: nat -> bool) returns (ghost retried: nat)
      requires Valid()
      modifies this`pending, this`published
      ensures Valid()
      ensures Retried(old(published), old(pending), retried, published, pending)
      ensures forall attempt :: 0 <= attempt < retried ==> sends(attempt)
      ensures retried < |old(pending)| ==> !sends(retried)
    {
      var attempt := 0;
      retried := 0;
      assert published + [] == published;
      while pending != []
        invariant Valid()
        invariant attempt == retried && forall i :: 0 <= i < retried ==> sends(i)
        invariant Retried(old(published), old(pending), retried, published, pending)
        decreases |pending|
      {
        if !sends(attempt) {
          return;
        }
        RetriedNext(old(published), old(pending), retried, published, pending, dropped);
        published := published + [pending[0]];
        pending := pending[1..];
        attempt := attempt + 1;
        retried := retried + 1;
      }
    }
  }

  /** The oldest requests that waited are published, in order, and the others wait. */
  predicate Retried(
    before: seq<Request>, waiting: seq<Request>, count: nat, published: seq<Request>, pending: seq<Request>)
  {
    count <= |waiting| && published == before + waiting[..count] && pending == waiting[count..]
  }

  lemma RetriedNext(
    before: seq<Request>, waiting: seq<Request>, count: nat, published: seq<Request>, pending: seq<Request>,
    dropped: seq<Request>)
    requires Retried(before, waiting, count, published, pending) && pending != []
    ensures Retried(before, waiting, count + 1, published + [pending[0]], pending[1..])
    ensures multiset(published) + (multiset(dropped) + multiset(pending))
            == multiset(published + [pending[0]]) + (multiset(dropped) + multiset(pending[1..]))
  {
    assert waiting[..count + 1] == waiting[..count] + [waiting[count]];
    assert pending == [pending[0]] + pending[1..];
  }

  /** Moving the oldest requests from one list to the other moves nothing else. */
  lemma Split(dropped: seq<Request>, pending: seq<Request>, excess: nat)
    requires excess <= |pending|
    ensures (dropped + pending[..excess]) + pending[excess..] == dropped + pending
    ensures multiset(dropped + pending[..excess]) + multiset(pending[excess..]) == multiset(dropped) + multiset(pending)
  {
    assert pending == pending[..excess] + pending[excess..];
    assert multiset(pending[..excess] + pending[excess..]) == multiset(pending[..excess]) + multiset(pending[excess..]);
  }

}
