/** What serving a request leaves in the books: a KO of each document reported, a batch of each product handled. */
module Accounts {
  import opened Wrappers
  import opened Duplicates
  import opened Upload
  import opened Transfer
  import opened Serving
  import opened Reporting

  // ---------- one batch ----------

  /** A batch went whole to the log, or whole among the lost reports. */
  predicate Recorded(before: Books, after: Books, batch: seq<Report>, stored: bool) {
    if stored then after.log == before.log + batch && after.lost == before.lost
    else after.log == before.log && after.lost == before.lost + batch
  }

  lemma StoreRecords(books: Books, batch: seq<Report>, stored: nat -> bool)
    ensures Recorded(books, Store(books, batch, stored), batch, stored(books.writes))
  {
    assert books.log + [] == books.log && books.lost + [] == books.lost;
  }

  /** One KO for each of the documents, named by it, of no destination and no product. */
  predicate KoOfEach(batch: seq<Report>, request: Request, documents: seq<Document>) {
    && |batch| == |documents|
    && forall i :: 0 <= i < |batch| ==>
         && batch[i].status.KO? && batch[i].filename == documents[i].id && batch[i].destination == ""
         && batch[i].key == Key(request.backup, request.interfaceName, "")
  }

  // ---------- the products ----------

  /** Nothing stops the loop from one place to another, and all products there have a name already served. */
  predicate Passed(products: seq<Product>, from: nat, to: nat, seen: set<Option<string>>, now: Conditions) {
    from <= to <= |products|
    && forall q :: from <= q < to ==> !now.stop(q) && products[q].name in seen
  }

  /** The loop ends where there is no product left, where it is stopped, or where a download is. */
  predicate Ends(
    request: Request, products: seq<Product>, end: nat, seen: set<Option<string>>, books: Books, now: Conditions, max: int)
    requires !now.resolution.Unavailable?
  {
    end < |products| ==>
      || now.stop(end)
      || (products[end].name !in seen
          && ProductReports(request, now.resolution, products[end], books, now.world(end), max).None?)
  }

  /**
   The products handled are, in order, those of a name not seen before, up to where the loop ends; the batch of each
   one, made from what the books hold by then, is stored before the next one is looked at.
   */
  ghost predicate Ledger(
    request: Request, products: seq<Product>, from: nat, seen: set<Option<string>>, handled: seq<Product>, end: nat,
    before: Books, after: Books, now: Conditions, max: int)
    requires !now.resolution.Unavailable?
    decreases |handled|, 1
  {
    if handled == [] then
      after == before && Passed(products, from, end, seen, now) && Ends(request, products, end, seen, before, now, max)
    else
      exists p: nat :: HandledAt(request, products, from, seen, handled, end, before, after, now, max, p)
  }

  /** The first product handled is at this place: its batch is stored, and the others follow. */
  ghost predicate HandledAt(
    request: Request, products: seq<Product>, from: nat, seen: set<Option<string>>, handled: seq<Product>, end: nat,
    before: Books, after: Books, now: Conditions, max: int, p: nat)
    requires !now.resolution.Unavailable? && handled != []
    decreases |handled|, 0
  {
    && Passed(products, from, p, seen, now) && p < end && p < |products| && !now.stop(p)
    && products[p] == handled[0] && products[p].name !in seen
    && var reports := ProductReports(request, now.resolution, products[p], before, now.world(p), max);
       && reports.Some?
       && Ledger(request, products, p + 1, seen + {products[p].name}, handled[1..], end,
                 Store(before, reports.value, now.stored), after, now, max)
  }

  /** A product of a name already served is passed over. */
  lemma LedgerPasses(
    request: Request, products: seq<Product>, from: nat, seen: set<Option<string>>, handled: seq<Product>, end: nat,
    before: Books, after: Books, now: Conditions, max: int)
    requires !now.resolution.Unavailable? && from < |products| && !now.stop(from) && products[from].name in seen
    requires Ledger(request, products, from + 1, seen, handled, end, before, after, now, max)
    ensures Ledger(request, products, from, seen, handled, end, before, after, now, max)
  {
    if handled != [] {
      var p: nat :| HandledAt(request, products, from + 1, seen, handled, end, before, after, now, max, p);
      assert HandledAt(request, products, from, seen, handled, end, before, after, now, max, p);
    }
  }

  /** A product of a new name is handled. */
  lemma LedgerStarts(
    request: Request, products: seq<Product>, p: nat, seen: set<Option<string>>, handled: seq<Product>, end: nat,
    before: Books, after: Books, now: Conditions, max: int, reports: seq<Report>)
    requires !now.resolution.Unavailable? && p < end <= |products| && !now.stop(p) && products[p].name !in seen
    requires ProductReports(request, now.resolution, products[p], before, now.world(p), max) == Some(reports)
    requires Ledger(request, products, p + 1, seen + {products[p].name}, handled, end, Store(before, reports, now.stored),
                    after, now, max)
    ensures Ledger(request, products, p, seen, [products[p]] + handled, end, before, after, now, max)
  {
    assert ([products[p]] + handled)[1..] == handled;
    assert HandledAt(request, products, p, seen, [products[p]] + handled, end, before, after, now, max, p);
  }

  /** What was served from a place on is such a ledger, up to the first product left. */
  ghost predicate Served(
    request: Request, products: seq<Product>, p: nat, seen: set<Option<string>>, books: Books, now: Conditions, max: int,
    r: Serving.Served)
    requires !now.resolution.Unavailable?
  {
    && p + |r.left| <= |products| && r.left == products[|products| - |r.left|..]
    && Ledger(request, products, p, seen, r.handled, |products| - |r.left|, books, r.books, now, max)
  }

  lemma ServedNone(
    request: Request, products: seq<Product>, p: nat, seen: set<Option<string>>, books: Books, now: Conditions, max: int)
    requires !now.resolution.Unavailable? && p <= |products| && Ends(request, products, p, seen, books, now, max)
    ensures Served(request, products, p, seen, books, now, max, Serving.Served(books, [], [], products[p..]))
  {
  }

  lemma ServedFold(
    request: Request, products: seq<Product>, p: nat, seen: set<Option<string>>, books: Books, now: Conditions, max: int,
    r: Serving.Served)
    requires !now.resolution.Unavailable? && p < |products| && !now.stop(p) && products[p].name in seen
    requires Served(request, products, p + 1, seen, books, now, max, r)
    ensures Served(request, products, p, seen, books, now, max, r.(folded := [products[p]] + r.folded))
  {
    LedgerPasses(request, products, p, seen, r.handled, |products| - |r.left|, books, r.books, now, max);
  }

  lemma ServedOne(
    request: Request, products: seq<Product>, p: nat, seen: set<Option<string>>, books: Books, now: Conditions, max: int,
    reports: seq<Report>, r: Serving.Served)
    requires !now.resolution.Unavailable? && p < |products| && !now.stop(p) && products[p].name !in seen
    requires ProductReports(request, now.resolution, products[p], books, now.world(p), max) == Some(reports)
    requires Served(
               request, products, p + 1, seen + {products[p].name}, Store(books, reports, now.stored), now, max, r)
    ensures Served(request, products, p, seen, books, now, max, r.(handled := [products[p]] + r.handled))
  {
    LedgerStarts(request, products, p, seen, r.handled, |products| - |r.left|, books, r.books, now, max, reports);
  }

  lemma {:induction false} ServeLedger(
    request: Request, products: seq<Product>, p: nat, seen: set<Option<string>>, books: Books, now: Conditions, max: int)
    requires p <= |products| && !now.resolution.Unavailable?
    ensures Served(
              request, products, p, seen, books, now, max, ServeFrom(request, products, p, seen, books, now, max))
    decreases |products| - p
  {
    if p == |products| || now.stop(p) {
      assert products[|products|..] == [];
      ServedNone(request, products, p, seen, books, now, max);
    } else if products[p].name in seen {
      ServeLedger(request, products, p + 1, seen, books, now, max);
      ServedFold(
        request, products, p, seen, books, now, max, ServeFrom(request, products, p + 1, seen, books, now, max));
    } else {
      match ProductReports(request, now.resolution, products[p], books, now.world(p), max) {
        case None => ServedNone(request, products, p, seen, books, now, max);
        case Some(reports) =>
          var more, after := seen + {products[p].name}, Store(books, reports, now.stored);
          ServeLedger(request, products, p + 1, more, after, now, max);
          ServedOne(
            request, products, p, seen, books, now, max, reports,
            ServeFrom(request, products, p + 1, more, after, now, max));
      }
    }
  }

  // ---------- what the batches hold ----------

  function Flatten(batches: seq<seq<Report>>): multiset<Report> {
    if batches == [] then multiset{} else multiset(batches[0]) + Flatten(batches[1..])
  }

  /** A batch about a product: it names it, or the product is none of an operation and needs no transfer. */
  predicate Speaks(batch: seq<Report>, product: Product, resolution: Resolution) {
    && (forall r :: r in batch ==> r.filename == FileName(product) && r.checksum == product.checksum)
    && (batch == [] ==> resolution.Resolved? && (resolution.ctx.destinations == [] || !resolution.ctx.operation))
  }

  ghost predicate AllSpeak(batches: seq<seq<Report>>, handled: seq<Product>, resolution: Resolution) {
    |batches| == |handled| && forall i :: 0 <= i < |batches| ==> Speaks(batches[i], handled[i], resolution)
  }

  lemma DownloadSpeaks(ctx: Context, product: Product, x: Decision, world: World, max: int, now: int)
    requires DownloadAndUpload(ctx, product, x, world, max, now).Reported?
    ensures forall r :: r in DownloadAndUpload(ctx, product, x, world, max, now).reports ==>
                          r.filename == FileName(product) && r.checksum == product.checksum
  {
    if world.download.Downloaded? {
      var finals := Finals(world.sink, x.transfer, max);
    }
  }

  lemma TransferSpeaks(ctx: Context, product: Product, log: seq<Report>, world: World, max: int, now: int)
    requires !TransferProduct(ctx, product, log, world, max, now).Stopped?
    ensures Speaks(ToStore(ctx, product, log, world, max, now), product, Resolved(ctx))
  {
    var x := DecisionFor(ctx, product, log);
    if DownloadAndUpload(ctx, product, x, world, max, now).Reported? {
      DownloadSpeaks(ctx, product, x, world, max, now);
    }
    if ToStore(ctx, product, log, world, max, now) == [] {
      SilentIsHeld(ctx, product, log, world, max, now);
    }
  }

  lemma ProductSpeaks(request: Request, resolution: Resolution, product: Product, books: Books, world: World, max: int)
    requires !resolution.Unavailable? && ProductReports(request, resolution, product, books, world, max).Some?
    ensures Speaks(ProductReports(request, resolution, product, books, world, max).value, product, resolution)
  {
    match resolution {
      case Refused =>
        var batch := Failures(RefusedContext(request), product, [""], books.clock);
        assert |batch| == 1;
      case Resolved(ctx) => TransferSpeaks(ctx, product, books.log, world, max, books.clock);
    }
  }

  /** Of a refused request, each product gets one KO of no destination. */
  lemma RefusedIsKo(request: Request, product: Product, books: Books, world: World, max: int)
    ensures var batch := ProductReports(request, Refused, product, books, world, max);
            && batch.Some? && |batch.value| == 1
            && batch.value[0].status.KO? && batch.value[0].destination == "" && batch.value[0].filename == FileName(product)
            && batch.value[0].key.backup == request.backup && batch.value[0].key.interfaceName == request.interfaceName
  {
    assert ProductReports(request, Refused, product, books, world, max).value[0].destination == "";
  }

  /** Both lists of reports only grow, by the batches: one for each product handled, in order, and nothing else. */
  lemma {:induction false} LedgerConserves(
    request: Request, products: seq<Product>, from: nat, seen: set<Option<string>>, handled: seq<Product>, end: nat,
    before: Books, after: Books, now: Conditions, max: int)
    returns (batches: seq<seq<Report>>)
    requires !now.resolution.Unavailable?
    requires Ledger(request, products, from, seen, handled, end, before, after, now, max)
    ensures before.log <= after.log && before.lost <= after.lost
    ensures multiset(after.log) + multiset(after.lost)
            == multiset(before.log) + multiset(before.lost) + Flatten(batches)
    ensures AllSpeak(batches, handled, now.resolution)
    decreases |handled|
  {
    batches := [];
    if handled != [] {
      var p: nat :| HandledAt(request, products, from, seen, handled, end, before, after, now, max, p);
      var batch := ProductReports(request, now.resolution, products[p], before, now.world(p), max).value;
      var rest := LedgerConserves(
        request, products, p + 1, seen + {products[p].name}, handled[1..], end, Store(before, batch, now.stored), after,
        now, max);
      ProductSpeaks(request, now.resolution, products[p], before, now.world(p), max);
      StoreRecords(before, batch, now.stored);
      batches := [batch] + rest;
      assert batches[1..] == rest;
      forall i | 0 <= i < |batches|
        ensures Speaks(batches[i], handled[i], now.resolution)
      {
        assert i > 0 ==> Speaks(rest[i - 1], handled[1..][i - 1], now.resolution);
      }
    }
  }

  // ---------- the request ----------

  /** Nothing can be done for now: the request cannot be resolved, or its documents cannot be read. */
  predicate MustWait(now: Conditions) {
    now.resolution.Unavailable? || now.reading.Unreachable?
  }

  /** A request that cannot be served now is given back whole, and nothing is reported of it. */
  lemma WaitingIsGivenBack(service: string, request: Request, books: Books, now: Conditions, max: int)
    requires request.service == service && MustWait(now)
    ensures var h := Handle(service, request, books, now, max);
            && h.left == request.documents && h.served.books == books
            && h.reported == [] && h.served.handled == [] && h.served.folded == [] && h.dropped == []
  {
  }

  /** Of a request whose documents are refused, each document has one KO in the log or among the lost reports. */
  lemma UnreadableIsReported(service: string, request: Request, books: Books, now: Conditions, max: int)
    returns (standins: seq<Report>)
    requires request.service == service && !MustWait(now) && now.reading.Unreadable?
    ensures var h := Handle(service, request, books, now, max);
            && h.reported == request.documents && h.left == [] && h.served.handled == [] && h.served.folded == []
            && KoOfEach(standins, request, h.reported)
            && Recorded(books, h.served.books, standins, now.stored(books.writes))
  {
    standins := StandinReports(request, request.documents, books.clock);
    StoreRecords(books, standins, now.stored);
  }

  /** Where what a request reads begins: one KO for each document not found. */
  function Begun(request: Request, books: Books, now: Conditions): Books
    requires now.reading.Readable?
  {
    var missing := Missing(now.reading.find, request.documents);
    if missing == [] then books else Store(books, StandinReports(request, missing, books.clock), now.stored)
  }

  lemma BegunIsRecorded(request: Request, books: Books, now: Conditions) returns (standins: seq<Report>)
    requires now.reading.Readable?
    ensures var find := now.reading.find;
            && KoOfEach(standins, request, Those(request.documents, d => find(d).None?))
            && Recorded(books, Begun(request, books, now), standins, now.stored(books.writes))
  {
    var find := now.reading.find;
    ReadKeepsOrder(find, request.documents, d => find(d).Some?, d => find(d).None?);
    standins := StandinReports(request, Missing(find, request.documents), books.clock);
    StoreRecords(books, standins, now.stored);
    assert books.log + [] == books.log && books.lost + [] == books.lost;
  }

  lemma ReadableHandling(service: string, request: Request, books: Books, now: Conditions, max: int)
    requires request.service == service && !MustWait(now) && now.reading.Readable?
    ensures var products := Found(now.reading.find, request.documents);
            var served := ServeFrom(request, products, 0, {}, Begun(request, books, now), now, max);
            Handle(service, request, books, now, max)
            == Handling(served, Missing(now.reading.find, request.documents), Ids(served.left), [])
  {
  }

  /**
   What serving a request does when it is read: each document not found has one KO, in the log or among the lost reports;
   then the products are served in their order, those after the end being given back.
   */
  ghost predicate Reads(
    request: Request, books: Books, now: Conditions, max: int, h: Handling, middle: Books, standins: seq<Report>)
    requires !MustWait(now) && now.reading.Readable?
  {
    var find := now.reading.find;
    var products := Found(find, request.documents);
    && h.reported == Those(request.documents, d => find(d).None?)
    && KoOfEach(standins, request, h.reported)
    && Recorded(books, middle, standins, now.stored(books.writes))
    && |h.left| <= |products| && h.left == Ids(products)[|products| - |h.left|..]
    && Ledger(request, products, 0, {}, h.served.handled, |products| - |h.left|, middle, h.served.books, now, max)
  }

  lemma ReadableIsServed(service: string, request: Request, books: Books, now: Conditions, max: int)
    returns (middle: Books, standins: seq<Report>)
    requires request.service == service && !MustWait(now) && now.reading.Readable?
    ensures Reads(request, books, now, max, Handle(service, request, books, now, max), middle, standins)
  {
    var find := now.reading.find;
    var products := Found(find, request.documents);
    middle := Begun(request, books, now);
    standins := BegunIsRecorded(request, books, now);
    ReadKeepsOrder(find, request.documents, d => find(d).Some?, d => find(d).None?);
    ReadableHandling(service, request, books, now, max);
    ServeLedger(request, products, 0, {}, middle, now, max);
    SuffixIds(products, ServeFrom(request, products, 0, {}, middle, now, max).left);
  }

  lemma SuffixIds(products: seq<Product>, left: seq<Product>)
    requires |left| <= |products| && left == products[|products| - |left|..]
    ensures Ids(left) == Ids(products)[|products| - |left|..]
  {
  }

  /** A document is spoken of: a KO names it, in the log or among the lost reports. */
  predicate KoFor(books: Books, document: Document) {
    KoAmong(books.log, document) || KoAmong(books.lost, document)
  }

  predicate KoAmong(reports: seq<Report>, document: Document) {
    exists r :: r in reports && r.filename == document.id && r.status.KO?
  }

  predicate Extends(before: Books, after: Books) {
    before.log <= after.log && before.lost <= after.lost
  }

  lemma KoStays(before: Books, after: Books, document: Document)
    requires Extends(before, after) && KoFor(before, document)
    ensures KoFor(after, document)
  {
    if KoAmong(before.log, document) {
      var r :| r in before.log && r.filename == document.id && r.status.KO?;
      assert r in after.log;
    } else {
      var r :| r in before.lost && r.filename == document.id && r.status.KO?;
      assert r in after.lost;
    }
  }

  lemma RecordedKo(before: Books, after: Books, batch: seq<Report>, request: Request, documents: seq<Document>, stored: bool)
    requires KoOfEach(batch, request, documents) && Recorded(before, after, batch, stored)
    ensures Extends(before, after) && forall d :: d in documents ==> KoFor(after, d)
  {
    forall d | d in documents
      ensures KoFor(after, d)
    {
      var i :| 0 <= i < |documents| && documents[i] == d;
      assert batch[i] in after.log || batch[i] in after.lost;
    }
  }

  /** Every document a request reports is named by a KO, and nothing in the books is taken back. */
  lemma ReportedIsSpokenOf(service: string, request: Request, books: Books, now: Conditions, max: int)
    ensures var h := Handle(service, request, books, now, max);
            Extends(books, h.served.books) && forall d :: d in h.reported ==> KoFor(h.served.books, d)
  {
    if request.service == service && !MustWait(now) {
      match now.reading {
        case Unreadable =>
          var standins := UnreadableIsReported(service, request, books, now, max);
          var h := Handle(service, request, books, now, max);
          RecordedKo(books, h.served.books, standins, request, h.reported, now.stored(books.writes));
        case Readable(find) => FoundIsSpokenOf(service, request, books, now, max);
      }
    }
  }

  lemma FoundIsSpokenOf(service: string, request: Request, books: Books, now: Conditions, max: int)
    requires request.service == service && !MustWait(now) && now.reading.Readable?
    ensures var h := Handle(service, request, books, now, max);
            Extends(books, h.served.books) && forall d :: d in h.reported ==> KoFor(h.served.books, d)
  {
    var middle, standins := ReadableIsServed(service, request, books, now, max);
    ReadIsSpokenOf(request, books, now, max, Handle(service, request, books, now, max), middle, standins);
  }

  lemma ReadIsSpokenOf(
    request: Request, books: Books, now: Conditions, max: int, h: Handling, middle: Books, standins: seq<Report>)
    requires !MustWait(now) && now.reading.Readable? && Reads(request, books, now, max, h, middle, standins)
    ensures Extends(books, h.served.books) && forall d :: d in h.reported ==> KoFor(h.served.books, d)
  {
    RecordedKo(books, middle, standins, request, h.reported, now.stored(books.writes));
    var products := Found(now.reading.find, request.documents);
    LedgerSpeaksOn(
      request, products, h.served.handled, |products| - |h.left|, middle, h.served.books, now, max, h.reported);
  }

  /** What is spoken of before the products are served is so after. */
  lemma LedgerSpeaksOn(
    request: Request, products: seq<Product>, handled: seq<Product>, end: nat, before: Books, after: Books,
    now: Conditions, max: int, documents: seq<Document>)
    requires !now.resolution.Unavailable?
    requires Ledger(request, products, 0, {}, handled, end, before, after, now, max)
    requires forall d :: d in documents ==> KoFor(before, d)
    ensures Extends(before, after) && forall d :: d in documents ==> KoFor(after, d)
  {
    var batches := LedgerConserves(request, products, 0, {}, handled, end, before, after, now, max);
    forall d | d in documents
      ensures KoFor(after, d)
    {
      KoStays(before, after, d);
    }
  }

  /** Something keeps a request from being served to its end: it must wait, it is stopped, or a download is. */
  ghost predicate Interrupted(now: Conditions) {
    MustWait(now) || exists p: nat :: StoppedAt(now, p)
  }

  predicate StoppedAt(now: Conditions, p: nat) {
    now.stop(p) || now.world(p).download.DownloadStopped?
  }

  lemma StoppedByDownload(
    request: Request, resolution: Resolution, product: Product, books: Books, world: World, max: int)
    requires !resolution.Unavailable? && ProductReports(request, resolution, product, books, world, max).None?
    ensures world.download.DownloadStopped?
  {
  }

  /** Nothing is served past a stop, and products are given back only where there is one, or a download is stopped. */
  predicate LeftByAStop(products: seq<Product>, p: nat, left: seq<Product>, now: Conditions, stop: nat) {
    && p + |left| <= |products|
    && (left != [] ==> StoppedAt(now, |products| - |left|))
    && (p <= stop < |products| && now.stop(stop) ==> |products| - |left| <= stop)
  }

  lemma {:induction false} ServeStops(
    request: Request, products: seq<Product>, p: nat, seen: set<Option<string>>, books: Books, now: Conditions, max: int,
    stop: nat)
    requires p <= |products| && !now.resolution.Unavailable?
    ensures LeftByAStop(products, p, ServeFrom(request, products, p, seen, books, now, max).left, now, stop)
    decreases |products| - p
  {
    if p < |products| && !now.stop(p) {
      if products[p].name in seen {
        ServeStops(request, products, p + 1, seen, books, now, max, stop);
      } else {
        match ProductReports(request, now.resolution, products[p], books, now.world(p), max) {
          case None => StoppedByDownload(request, now.resolution, products[p], books, now.world(p), max);
          case Some(reports) =>
            ServeStops(
              request, products, p + 1, seen + {products[p].name}, Store(books, reports, now.stored), now, max, stop);
        }
      }
    }
  }

  /** Documents are given back only of a request of the service that something interrupts. */
  lemma LeftIsInterrupted(service: string, request: Request, books: Books, now: Conditions, max: int)
    ensures Handle(service, request, books, now, max).left != [] ==> request.service == service && Interrupted(now)
  {
    if request.service == service && !MustWait(now) && now.reading.Readable? {
      ReadableHandling(service, request, books, now, max);
      ServeStops(request, Found(now.reading.find, request.documents), 0, {}, Begun(request, books, now), now, max, 0);
    }
  }
}
