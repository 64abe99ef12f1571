/** The transfer stage as it runs: one request at a time from the queue, one product at a time from a request. */
module TransferStage {
  import opened Wrappers
  import opened Duplicates
  import opened Upload
  import opened Transfer
  import opened Mirrors
  import opened Serving
  import opened Accounts

  // ---------- bounded retries ----------

  /** An attempt at an action: a value, an error worth another try, or an error that is not. */
  datatype Try<T> = Got(value: T) | Transient | Permanent | Stop

  /** `with_retries`: the first result that is not transient, or the transient one of the last attempt. */
  method WithRetries<T>(action: nat -> Try<T>, max: int) returns (result: Try<T>, attempts: nat)
    ensures 1 <= attempts && (attempts > 1 ==> attempts <= max)
    ensures result == action(attempts)
    ensures forall i :: 1 <= i < attempts ==> action(i).Transient?
    ensures result.Transient? ==> attempts >= max
  {
    attempts := 1;
    result := action(attempts);
    while result.Transient? && attempts < max
      invariant 1 <= attempts && (attempts > 1 ==> attempts <= max)
      invariant result == action(attempts)
      invariant forall i :: 1 <= i < attempts ==> action(i).Transient?
    {
      attempts := attempts + 1;
      result := action(attempts);
    }
  }

  // ---------- the queue ----------

  /** The body of a message: a request, or something that is none. */
  datatype Body = Malformed | Good(request: Request)

  /** What happens around one turn of the loop. */
  datatype Turn = Turn(stopped: bool, takeFails: bool, now: Conditions, publishFails: bool)

  function Waiting(queue: seq<Body>): multiset<Document> {
    if queue == [] then multiset{}
    else
      (match queue[0] case Malformed => multiset{} case Good(request) => multiset(request.documents))
      + Waiting(queue[1..])
  }

  lemma {:induction false} WaitingAppend(queue: seq<Body>, last: Body)
    ensures Waiting(queue + [last]) == Waiting(queue) + Waiting([last])
  {
    if queue == [] {
      assert queue + [last] == [last];
    } else {
      assert (queue + [last])[1..] == queue[1..] + [last];
      WaitingAppend(queue[1..], last);
    }
  }

  /** The requests are taken in the order they came, those that came back after the others. */
  predicate Taken(before: seq<Body>, again: seq<Body>, taken: nat, queue: seq<Body>) {
    taken <= |before + again| && queue == (before + again)[taken..]
  }

  lemma TakenNext(before: seq<Body>, again: seq<Body>, taken: nat, queue: seq<Body>)
    requires Taken(before, again, taken, queue) && queue != []
    ensures Taken(before, again, taken + 1, queue[1..])
  {
  }

  lemma TakenMore(before: seq<Body>, again: seq<Body>, taken: nat, queue: seq<Body>, back: seq<Body>)
    requires Taken(before, again, taken, queue)
    ensures Taken(before, again + back, taken, queue + back)
  {
    assert before + (again + back) == (before + again) + back;
  }

  lemma DistinctSites(now: Conditions, sites: Sites)
    requires Fair(now, sites) && forall backup :: NoDuplicates(sites(backup))
    ensures OneEach(now)
  {
  }

  /** What was spoken of stays so, and what is reported is spoken of. */
  lemma SpokenMore(before: Books, after: Books, reported: multiset<Document>, more: seq<Document>)
    requires Extends(before, after) && forall d :: d in reported ==> KoFor(before, d)
    requires forall d :: d in more ==> KoFor(after, d)
    ensures forall d :: d in reported + multiset(more) ==> KoFor(after, d)
  {
    forall d | d in reported + multiset(more)
      ensures KoFor(after, d)
    {
      if d in reported {
        KoStays(before, after, d);
      }
    }
  }

  /** The documents of a request that are done with. */
  function Settled(h: Handling): multiset<Document> {
    multiset(h.reported) + multiset(Ids(h.served.handled)) + multiset(Ids(h.served.folded)) + multiset(h.dropped)
  }

  /** What handling a request keeps, and where its documents go. */
  lemma Fates(service: string, request: Request, books: Books, now: Conditions, max: int, sites: Sites)
    returns (h: Handling)
    requires Sound(books.log, sites) && Timed(books) && Fair(now, sites) && OneEach(now)
    ensures h == Handle(service, request, books, now, max)
    ensures multiset(request.documents) == Settled(h) + multiset(h.left)
    ensures h.left == [] ==> multiset(request.documents) == Settled(h)
    ensures Sound(h.served.books.log, sites) && Timed(h.served.books)
    ensures h.left != [] ==> request.service == service && Interrupted(now)
  {
    HandleKeeps(service, request, books, now, max, sites);
    NoDocumentVanishes(service, request, books, now, max);
    LeftIsInterrupted(service, request, books, now, max);
    h := Handle(service, request, books, now, max);
  }

  class Stage {
    const service: string
    const max: int
    /** The report index, as this stage alone writes it. */
    var books: Books
    /** The queue of the service. */
    var queue: seq<Body>
    /** The documents logged as critical: a stop left them and they could not be published again. */
    var critical: seq<Document>
    /** The documents reported missing or unreadable, and those done with: handled, folded or dropped with their request. */
    ghost var reported: multiset<Document>
    ghost var settled: multiset<Document>

    constructor (service: string, max: int, queue: seq<Body>)
      ensures this.service == service && this.max == max && this.queue == queue
      ensures books == Books([], 0, [], 0) && critical == [] && reported == multiset{} && settled == multiset{}
      ensures Spoken() && forall sites: Sites :: Kept(sites)
    {
      this.service := service;
      this.max := max;
      this.queue := queue;
      books := Books([], 0, [], 0);
      critical := [];
      reported, settled := multiset{}, multiset{};
      new;
      forall sites: Sites {
        EmptyArchive(sites);
      }
    }

    /** `transfer_product`, with its uploads and the reports built one destination at a time. */
    method TransferOne(ctx: Context, product: Product, world: World) returns (outcome: Outcome)
      requires Timed(books) && Searches(world)
      ensures outcome == TransferProduct(ctx, product, books.log, world, max, books.clock)
    {
      var now := books.clock;
      if !SafeName(product.name) {
        return Reported(Failures(ctx, product, ctx.destinations, now), []);
      }
      if world.stateFails {
        return Crashed([]);
      }
      var decision := DecideFor(ctx, product, world.search(books.log, KeyOf(ctx, product)));
      if decision.conflict {
        return if world.conflictFails then Crashed([]) else Reported(Skips(ctx, product, ctx.destinations, now), []);
      }
      if decision.transfer == [] {
        return Reported(Skips(ctx, product, decision.skip, now), []);
      }
      if world.keyUnusable {
        return Reported(Failures(ctx, product, decision.transfer, now), []);
      }
      if world.prepareFails {
        return Crashed([]);
      }
      outcome := FetchAndStore(ctx, product, decision, world, now);
    }

    /** The decision, from the hits of the search: what is read back is what the log holds. */
    method DecideFor(ctx: Context, product: Product, hits: seq<Report>) returns (decision: Decision)
      requires Timed(books) && SafeName(product.name) && Enough(hits, books.log, KeyOf(ctx, product))
      ensures decision == DecisionFor(ctx, product, books.log)
    {
      ghost var all :| Hits(all, books.log, KeyOf(ctx, product)) && hits <= all;
      var state := ArchivedState(hits, all, books.log, KeyOf(ctx, product));
      DecideSame(
        ctx.destinations, state, State(books.log, KeyOf(ctx, product), ctx.destinations), ctx.mode, ctx.force,
        product.checksum);
      decision := Decide(ctx.destinations, state, ctx.mode, ctx.force, product.checksum);
    }

    /** `download_and_upload`. */
    method FetchAndStore(ctx: Context, product: Product, decision: Decision, world: World, now: int)
      returns (outcome: Outcome)
      ensures outcome == DownloadAndUpload(ctx, product, decision, world, max, now)
    {
      match world.download {
        case DownloadStopped => return Stopped;
        case DownloadCrashed => return Crashed([]);
        case DownloadFailed => return Reported(Failures(ctx, product, decision.transfer, now), []);
        case Downloaded(md5) =>
          if decision.sameBytesAs != "" && decision.sameBytesAs != md5 {
            return if world.conflictFails then Crashed([])
              else Reported(Skips(ctx, product, decision.skip, now) + Skips(ctx, product, decision.transfer, now), []);
          }
          var finals, attempts := UploadTo(world.sink, decision.transfer, max);
          var reports := [];
          for i := 0 to |decision.transfer|
            invariant reports == Uploaded(ctx, product, decision, finals, md5, now)[..i]
          {
            var d := decision.transfer[i];
            var status := if d in finals then finals[d] else KO;
            if status == OK && d in decision.archived {
              status := REPLACED;
            }
            reports := reports + [UploadReport(ctx, product, d, status, md5, now)];
          }
          reports := reports + Skips(ctx, product, decision.skip, now);
          if (forall d :: d in finals ==> finals[d].Archived()) && world.resolveFails {
            return Crashed(attempts);
          }
          return Reported(reports, attempts);
      }
    }

    /** Write reports, or log them as lost: the batch is in the log whole, or among the lost ones whole. */
    method StoreReports(reports: seq<Report>, stored: nat -> bool)
      modifies this`books
      ensures books == Store(old(books), reports, stored)
      ensures old(books).log <= books.log && books.clock > old(books).clock
      ensures multiset(books.log) + multiset(books.lost)
              == multiset(old(books).log) + multiset(old(books).lost) + multiset(reports)
      ensures books.log == old(books).log || books.lost == old(books).lost
    {
      if reports != [] {
        if stored(books.writes) {
          books := books.(log := books.log + reports, writes := books.writes + 1);
        } else {
          books := books.(lost := books.lost + reports, writes := books.writes + 1);
        }
      }
      books := books.(clock := books.clock + 1);
    }

    /**
     `handle_request`: what is left is what the specification leaves, in order. A request that must wait is given back
     whole and nothing is written, and every document reported is named by a KO.
     */
    method HandleRequest(request: Request, now: Conditions) returns (left: seq<Document>)
      requires Timed(books) && OneEach(now) && Answered(now)
      modifies this`books
      ensures var h := Handle(service, request, old(books), now, max);
              && books == h.served.books && left == h.left
              && Extends(old(books), books) && forall d :: d in h.reported ==> KoFor(books, d)
      ensures request.service == service && MustWait(now) ==> left == request.documents && books == old(books)
      ensures request.service != service ==> left == [] && books == old(books)
    {
      ReportedIsSpokenOf(service, request, books, now, max);
      if request.service != service {
        return [];
      }
      if now.resolution.Unavailable? {
        return request.documents;
      }
      if now.reading.Unreachable? {
        return request.documents;
      }
      if now.reading.Unreadable? {
        StoreReports(StandinReports(request, request.documents, books.clock), now.stored);
        return [];
      }
      var products, missing := ReadProducts(now.reading.find, request.documents);
      if missing != [] {
        StandinsKeepTimed(request, missing, books, now.stored);
        StoreReports(StandinReports(request, missing, books.clock), now.stored);
      }
      left := ServeProducts(request, products, now);
    }

    /** `read_products`: one document after the other, found or missing. */
    method ReadProducts(find: Document -> Option<(Option<string>, string)>, documents: seq<Document>)
      returns (products: seq<Product>, missing: seq<Document>)
      ensures products == Found(find, documents) && missing == Missing(find, documents)
    {
      products, missing := [], [];
      for i := 0 to |documents|
        invariant products + Found(find, documents[i..]) == Found(find, documents)
        invariant missing + Missing(find, documents[i..]) == Missing(find, documents)
      {
        assert documents[i..][1..] == documents[i + 1..];
        match find(documents[i]) {
          case Some((name, checksum)) => products := products + [Product(documents[i], name, checksum)];
          case None => missing := missing + [documents[i]];
        }
      }
    }

    /** The loop over the products of a request: a stop ends it, a repeated name is passed over. */
    method ServeProducts(request: Request, products: seq<Product>, now: Conditions) returns (left: seq<Document>)
      requires !now.resolution.Unavailable? && Timed(books) && OneEach(now) && Answered(now)
      modifies this`books
      ensures var r := ServeFrom(request, products, 0, {}, old(books), now, max);
              books == r.books && left == Ids(r.left)
    {
      ghost var whole := ServeFrom(request, products, 0, {}, books, now, max);
      var seen: set<Option<string>> := {};
      for p := 0 to |products|
        invariant Timed(books)
        invariant var rest := ServeFrom(request, products, p, seen, books, now, max);
                  rest.books == whole.books && rest.left == whole.left
      {
        if now.stop(p) {
          return Ids(products[p..]);
        }
        var product := products[p];
        if product.name !in seen {
          var reports: seq<Report>;
          ghost var specified := ProductReports(request, now.resolution, product, books, now.world(p), max);
          if specified.Some? {
            ProductKeepsTimed(request, now, product, books, now.world(p), max);
          }
          match now.resolution {
            case Refused =>
              reports := Failures(RefusedContext(request), product, [""], books.clock);
            case Resolved(ctx) =>
              var outcome := TransferOne(ctx, product, now.world(p));
              match outcome {
                case Stopped => return Ids(products[p..]);
                case Crashed(_) => reports := Failures(ctx, product, ctx.destinations, books.clock);
                case Reported(rs, _) => reports := rs;
              }
          }
          seen := seen + {product.name};
          StoreReports(reports, now.stored);
        }
      }
      return [];
    }

    /** What the loop keeps: every document taken is reported, settled, logged as critical, or in the queue again. */
    ghost function Everything(): multiset<Document>
      reads this
    {
      Waiting(queue) + (reported + settled) + multiset(critical)
    }

    /** Every document reported is named by a KO in the log, or among the reports that could not be stored. */
    ghost predicate Spoken()
      reads this`books, this`reported
    {
      forall d :: d in reported ==> KoFor(books, d)
    }

    /** What the archive keeps over every run. */
    ghost predicate Kept(sites: Sites)
      reads this`books
    {
      Sound(books.log, sites) && Timed(books)
    }

    /** `loop_body`: take requests until the queue is empty, the stage stops or the time is up. */
    method LoopBody(turns: nat, turn: nat -> Turn, ghost sites: Sites) returns (ghost taken: nat, ghost again: seq<Body>)
      requires Kept(sites) && Spoken()
      requires forall i :: Fair(turn(i).now, sites)
      requires forall backup :: NoDuplicates(sites(backup))
      modifies this
      ensures Everything() == old(Everything())
      ensures Kept(sites) && Spoken()
      ensures taken <= turns && Taken(old(queue), again, taken, queue)
      ensures |again| <= taken && (again != [] ==> exists i :: Interrupted(turn(i).now))
      ensures taken < turns ==> turn(taken).stopped || turn(taken).takeFails || queue == []
    {
      taken, again := 0, [];
      for i := 0 to turns
        invariant Everything() == old(Everything())
        invariant Kept(sites) && Spoken()
        invariant taken == i && Taken(old(queue), again, taken, queue)
        invariant |again| <= taken && (again != [] ==> exists j :: Interrupted(turn(j).now))
      {
        var t := turn(i);
        if t.stopped || t.takeFails || queue == [] {
          return;
        }
        TakenNext(old(queue), again, taken, queue);
        var body := queue[0];
        queue := queue[1..];
        taken := taken + 1;
        if body.Good? {
          ghost var rest := queue;
          ghost var back := ServeTaken(body.request, t, sites);
          TakenMore(old(queue), again, taken, rest, back);
          again := again + back;
        }
      }
    }

    /** Serve a request that was taken: what comes back in the queue was interrupted. */
    method ServeTaken(request: Request, t: Turn, ghost sites: Sites) returns (ghost back: seq<Body>)
      requires Kept(sites) && Spoken() && Fair(t.now, sites) && forall backup :: NoDuplicates(sites(backup))
      modifies this
      ensures Everything() == old(Everything()) + multiset(request.documents)
      ensures Kept(sites) && Spoken()
      ensures |back| <= 1 && queue == old(queue) + back
      ensures back != [] ==> Interrupted(t.now)
    {
      ghost var waiting := |queue|;
      ServeRequest(request, t, sites);
      back := queue[waiting..];
    }

    /** Serve a request that was taken, and publish again what a stop left of it. */
    method ServeRequest(request: Request, t: Turn, ghost sites: Sites)
      requires Kept(sites) && Spoken() && Fair(t.now, sites) && forall backup :: NoDuplicates(sites(backup))
      modifies this
      ensures Everything() == old(Everything()) + multiset(request.documents)
      ensures Kept(sites) && Spoken()
      ensures var h := Handle(service, request, old(books), t.now, max);
              && books == h.served.books
              && (h.left == [] || t.publishFails ==> queue == old(queue))
              && (h.left != [] && !t.publishFails ==> queue == old(queue) + [Good(request.(documents := h.left))])
              && critical == old(critical) + (if t.publishFails then h.left else [])
              && (h.left != [] ==> Interrupted(t.now))
    {
      DistinctSites(t.now, sites);
      ghost var h := Fates(service, request, books, t.now, max, sites);
      var left := HandleRequest(request, t.now);
      Account(h, old(books));
      assert critical + [] == critical;
      if left != [] {
        Republish(request, left, t.publishFails);
      }
    }

    /** Books what became of the documents of a request. */
    ghost method Account(h: Handling, before: Books)
      requires Extends(before, books)
      requires (forall d :: d in reported ==> KoFor(before, d)) && forall d :: d in h.reported ==> KoFor(books, d)
      modifies this`reported, this`settled
      ensures Spoken()
      ensures reported + settled == old(reported) + old(settled) + Settled(h)
    {
      SpokenMore(before, books, reported, h.reported);
      reported := reported + multiset(h.reported);
      settled := settled + multiset(Ids(h.served.handled)) + multiset(Ids(h.served.folded)) + multiset(h.dropped);
    }

    /** Publish the documents a stop left as one request, or log them. */
    method Republish(request: Request, documents: seq<Document>, fails: bool)
      modifies this`queue, this`critical
      ensures Everything() == old(Everything()) + multiset(documents)
      ensures queue == old(queue) + if fails then [] else [Good(request.(documents := documents))]
      ensures critical == old(critical) + if fails then documents else []
    {
      if fails {
        critical := critical + documents;
      } else {
        var again := Good(request.(documents := documents));
        WaitingAppend(queue, again);
        assert Waiting([again]) == multiset(documents);
        queue := queue + [again];
      }
    }
  }
}
