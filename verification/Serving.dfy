/** A request served document by document: what is reported, and where every document goes. */
module Serving {
  import opened Wrappers
  import opened Duplicates
  import opened Upload
  import opened Transfer
  import opened Mirrors

  datatype Request = Request(service: string, interfaceName: string, backup: string, documents: seq<Document>)

  /** What the configuration makes of a request: the context, a refusal, or nothing for now. */
  datatype Resolution = Resolved(ctx: Context) | Refused | Unavailable

  /** What the index gives for a document: a name and a checksum, or nothing; or a failure of the whole read. */
  datatype Reading = Readable(find: Document -> Option<(Option<string>, string)>) | Unreachable | Unreadable

  /** The conditions a request is served under: stop and worlds by position, report writes by count. */
  datatype Conditions = Conditions(
    resolution: Resolution,
    reading: Reading,
    stop: nat -> bool,
    world: nat -> World,
    stored: nat -> bool)

  /** The report log, the clock, the reports that could not be stored, and how many batches were written. */
  datatype Books = Books(log: seq<Report>, clock: int, lost: seq<Report>, writes: nat)

  /** Write a batch, whole or not at all; nothing is written when there is nothing to write. */
  function Store(books: Books, reports: seq<Report>, stored: nat -> bool): Books {
    if reports == [] then books.(clock := books.clock + 1)
    else if stored(books.writes) then Books(books.log + reports, books.clock + 1, books.lost, books.writes + 1)
    else Books(books.log, books.clock + 1, books.lost + reports, books.writes + 1)
  }

  // ---------- reading the documents ----------

  function Found(find: Document -> Option<(Option<string>, string)>, documents: seq<Document>): seq<Product> {
    if documents == [] then []
    else
      var rest := Found(find, documents[1..]);
      match find(documents[0])
      case Some((name, checksum)) => [Product(documents[0], name, checksum)] + rest
      case None => rest
  }

  function Missing(find: Document -> Option<(Option<string>, string)>, documents: seq<Document>): seq<Document> {
    if documents == [] then []
    else
      var rest := Missing(find, documents[1..]);
      if find(documents[0]).None? then [documents[0]] + rest else rest
  }

  function Ids(products: seq<Product>): seq<Document> {
    seq(|products|, i requires 0 <= i < |products| => products[i].document)
  }

  /** The documents of a kind, in the order they come. */
  function Those(documents: seq<Document>, kind: Document -> bool): (r: seq<Document>)
    ensures forall d :: d in r <==> d in documents && kind(d)
  {
    if documents == [] then []
    else (if kind(documents[0]) then [documents[0]] else []) + Those(documents[1..], kind)
  }

  /** A document is found or missing, never both, and both lists keep the order. */
  lemma {:induction false} ReadConserves(find: Document -> Option<(Option<string>, string)>, documents: seq<Document>)
    ensures multiset(documents) == multiset(Ids(Found(find, documents))) + multiset(Missing(find, documents))
  {
    if documents != [] {
      ReadConserves(find, documents[1..]);
      assert documents == [documents[0]] + documents[1..];
      var rest := Found(find, documents[1..]);
      match find(documents[0]) {
        case Some((name, checksum)) =>
          assert Ids(Found(find, documents)) == [documents[0]] + Ids(rest);
        case None =>
      }
    }
  }

  /** A product is what was read of its document. */
  lemma {:induction false} FoundIsRead(find: Document -> Option<(Option<string>, string)>, documents: seq<Document>)
    ensures forall x :: x in Found(find, documents) ==>
                          x.document in documents && find(x.document) == Some((x.name, x.checksum))
  {
    if documents != [] {
      FoundIsRead(find, documents[1..]);
    }
  }

  /** Both lists keep the order of the request. */
  lemma {:induction false} ReadKeepsOrder(
    find: Document -> Option<(Option<string>, string)>, documents: seq<Document>, found: Document -> bool,
    missing: Document -> bool)
    requires forall d :: found(d) == find(d).Some? && missing(d) == find(d).None?
    ensures Ids(Found(find, documents)) == Those(documents, found)
    ensures Missing(find, documents) == Those(documents, missing)
  {
    if documents != [] {
      ReadKeepsOrder(find, documents[1..], found, missing);
      var rest := Found(find, documents[1..]);
      match find(documents[0]) {
        case Some((name, checksum)) =>
          assert Ids(Found(find, documents)) == [documents[0]] + Ids(rest);
        case None =>
          assert [] + Ids(rest) == Ids(rest);
      }
    }
  }

  // ---------- serving the products ----------

  /** What serving leaves: the books, and the documents by where they went. */
  datatype Served = Served(books: Books, handled: seq<Product>, folded: seq<Product>, left: seq<Product>)

  /** What is stored for a product: its transfer, or one KO on no destination when the request was refused. */
  function ProductReports(
    request: Request, resolution: Resolution, product: Product, books: Books, world: World, max: int): Option<seq<Report>>
    requires !resolution.Unavailable?
  {
    match resolution
    case Refused => Some(Failures(RefusedContext(request), product, [""], books.clock))
    case Resolved(ctx) =>
      if TransferProduct(ctx, product, books.log, world, max, books.clock).Stopped? then None
      else Some(ToStore(ctx, product, books.log, world, max, books.clock))
  }

  /** The context a refused request reports in: only its backup and interface matter. */
  function RefusedContext(request: Request): Context {
    Context(request.backup, request.interfaceName, [], Skip, false, true)
  }

  function ServeFrom(
    request: Request, products: seq<Product>, p: nat, seen: set<Option<string>>, books: Books, now: Conditions, max: int)
    : Served
    requires p <= |products| && !now.resolution.Unavailable?
    decreases |products| - p
  {
    if p == |products| then Served(books, [], [], [])
    else if now.stop(p) then Served(books, [], [], products[p..])
    else if products[p].name in seen then
      var rest := ServeFrom(request, products, p + 1, seen, books, now, max);
      rest.(folded := [products[p]] + rest.folded)
    else
      match ProductReports(request, now.resolution, products[p], books, now.world(p), max)
      case None => Served(books, [], [], products[p..])
      case Some(reports) =>
        var rest := ServeFrom(
                      request, products, p + 1, seen + {products[p].name}, Store(books, reports, now.stored), now, max);
        rest.(handled := [products[p]] + rest.handled)
  }

  /** What a document that cannot be read or found is reported as: a KO of no destination, named by the document. */
  function Standin(request: Request, document: Document, clock: int): Report {
    Report(Key(request.backup, request.interfaceName, ""), document.id, "", KO, "", "", clock)
  }

  function StandinReports(request: Request, documents: seq<Document>, clock: int): seq<Report> {
    seq(|documents|, i requires 0 <= i < |documents| => Standin(request, documents[i], clock))
  }

  datatype Handling = Handling(served: Served, reported: seq<Document>, left: seq<Document>, dropped: seq<Document>)

  function Untouched(books: Books): Served {
    Served(books, [], [], [])
  }

  /** `handle_request`: the documents given back, those reported missing or unreadable, those served. */
  function Handle(service: string, request: Request, books: Books, now: Conditions, max: int): Handling {
    if request.service != service then Handling(Untouched(books), [], [], request.documents)
    else if now.resolution.Unavailable? then Handling(Untouched(books), [], request.documents, [])
    else
      match now.reading
      case Unreachable => Handling(Untouched(books), [], request.documents, [])
      case Unreadable =>
        var after := Store(books, StandinReports(request, request.documents, books.clock), now.stored);
        Handling(Untouched(after), request.documents, [], [])
      case Readable(find) =>
        var missing := Missing(find, request.documents);
        var after := if missing == [] then books
                     else Store(books, StandinReports(request, missing, books.clock), now.stored);
        var served := ServeFrom(request, Found(find, request.documents), 0, {}, after, now, max);
        Handling(served, missing, Ids(served.left), [])
  }

  // ---------- no document vanishes ----------

  lemma IdsCons(x: Product, rest: seq<Product>)
    ensures Ids([x] + rest) == [x.document] + Ids(rest)
    ensures multiset(Ids([x] + rest)) == multiset{x.document} + multiset(Ids(rest))
  {
    assert Ids([x] + rest) == [x.document] + Ids(rest);
  }

  /** The products handled, folded and left are those from `p` on, the left ones last and in order. */
  predicate Conserves(products: seq<Product>, p: nat, r: Served)
    requires p <= |products|
  {
    && |r.left| <= |products| - p && r.left == products[|products| - |r.left|..]
    && multiset(Ids(products[p..])) == multiset(Ids(r.handled)) + multiset(Ids(r.folded)) + multiset(Ids(r.left))
  }

  lemma OneMore(products: seq<Product>, p: nat, r: Served)
    requires p < |products| && Conserves(products, p + 1, r)
    ensures Conserves(products, p, r.(folded := [products[p]] + r.folded))
    ensures Conserves(products, p, r.(handled := [products[p]] + r.handled))
  {
    var x := products[p];
    assert products[p..] == [x] + products[p + 1..];
    IdsCons(x, products[p + 1..]);
    IdsCons(x, r.folded);
    IdsCons(x, r.handled);
  }

  /** Where nothing is served, all is left. */
  lemma StopConserves(products: seq<Product>, p: nat, r: Served)
    requires p <= |products| && r.handled == [] && r.folded == [] && r.left == products[p..]
    ensures Conserves(products, p, r)
  {
    assert Ids([]) == [];
  }

  /** The documents of handled, folded and left products are those of the products, the left ones last and in order. */
  lemma {:induction false} ServeConserves(
    request: Request, products: seq<Product>, p: nat, seen: set<Option<string>>, books: Books, now: Conditions, max: int)
    requires p <= |products| && !now.resolution.Unavailable?
    ensures Conserves(products, p, ServeFrom(request, products, p, seen, books, now, max))
    decreases |products| - p
  {
    if p == |products| || now.stop(p) {
      StopConserves(products, p, ServeFrom(request, products, p, seen, books, now, max));
    } else {
      var x := products[p];
      if x.name in seen {
        ServeConserves(request, products, p + 1, seen, books, now, max);
        OneMore(products, p, ServeFrom(request, products, p + 1, seen, books, now, max));
      } else {
        match ProductReports(request, now.resolution, x, books, now.world(p), max) {
          case None =>
            StopConserves(products, p, ServeFrom(request, products, p, seen, books, now, max));
          case Some(reports) =>
            var after := Store(books, reports, now.stored);
            ServeConserves(request, products, p + 1, seen + {x.name}, after, now, max);
            OneMore(products, p, ServeFrom(request, products, p + 1, seen + {x.name}, after, now, max));
        }
      }
    }
  }

  /**
   Every document of a request goes to one place: reported missing or unreadable, handled, folded into a
   product of the same name, given back, or dropped with a request for another service.
   */
  lemma NoDocumentVanishes(service: string, request: Request, books: Books, now: Conditions, max: int)
    ensures var h := Handle(service, request, books, now, max);
            && multiset(request.documents) ==
               multiset(h.reported) + multiset(Ids(h.served.handled)) + multiset(Ids(h.served.folded))
               + multiset(h.left) + multiset(h.dropped)
            && (h.dropped != [] ==> request.service != service)
  {
    if request.service == service && !now.resolution.Unavailable? && now.reading.Readable? {
      var find := now.reading.find;
      ReadConserves(find, request.documents);
      var missing := Missing(find, request.documents);
      var after := if missing == [] then books
                   else Store(books, StandinReports(request, missing, books.clock), now.stored);
      var products := Found(find, request.documents);
      ServeConserves(request, products, 0, {}, after, now, max);
      assert products[0..] == products;
    }
  }

  /** Each name is handled once, and a folded product shares its name with a handled one. */
  lemma {:induction false} ServeOncePerName(
    request: Request, products: seq<Product>, p: nat, seen: set<Option<string>>, books: Books, now: Conditions, max: int)
    requires p <= |products| && !now.resolution.Unavailable?
    ensures var r := ServeFrom(request, products, p, seen, books, now, max);
            && (forall x :: x in r.handled ==> x.name !in seen)
            && (forall i, j :: 0 <= i < j < |r.handled| ==> r.handled[i].name != r.handled[j].name)
            && (forall x :: x in r.folded ==> x.name in seen || exists y :: y in r.handled && y.name == x.name)
    decreases |products| - p
  {
    if p < |products| && !now.stop(p) {
      if products[p].name in seen {
        ServeOncePerName(request, products, p + 1, seen, books, now, max);
      } else {
        match ProductReports(request, now.resolution, products[p], books, now.world(p), max) {
          case None =>
          case Some(reports) =>
            ServeOncePerName(
              request, products, p + 1, seen + {products[p].name}, Store(books, reports, now.stored), now, max);
            assert ServeFrom(request, products, p, seen, books, now, max).handled[0] == products[p];
        }
      }
    }
  }

  // ---------- the archive over a request ----------

  /** The destinations of each backup, which no request changes. */
  type Sites = string -> seq<string>

  /** What every step keeps: the mirrors of every product agree, and only safe names are archived. */
  ghost predicate Sound(log: seq<Report>, sites: Sites) {
    NamesSafe(log) && forall key: Key :: Agree(log, key, sites(key.backup))
  }

  /**
   The conditions the archive relies on: requests name the destinations of their backup, downloads and sinks are
   honest, searches give what they are asked for.
   */
  ghost predicate Fair(now: Conditions, sites: Sites) {
    && (now.resolution.Resolved? ==> now.resolution.ctx.destinations == sites(now.resolution.ctx.backup))
    && (forall p :: Honest(now.world(p)))
    && Answered(now)
  }

  ghost predicate Answered(now: Conditions) {
    forall p :: Searches(now.world(p))
  }

  /** The destinations of a request are distinct. */
  predicate OneEach(now: Conditions) {
    now.resolution.Resolved? ==> NoDuplicates(now.resolution.ctx.destinations)
  }

  /** What is stored for a product keeps the archive sound. */
  lemma ProductKeepsSound(
    request: Request, resolution: Resolution, product: Product, books: Books, world: World, max: int, sites: Sites)
    requires Sound(books.log, sites) && Honest(world) && !resolution.Unavailable?
    requires resolution.Resolved? ==> resolution.ctx.destinations == sites(resolution.ctx.backup)
    requires ProductReports(request, resolution, product, books, world, max).Some?
    ensures Sound(books.log + ProductReports(request, resolution, product, books, world, max).value, sites)
  {
    var log := books.log;
    var batch := ProductReports(request, resolution, product, books, world, max).value;
    match resolution {
      case Refused =>
        var ctx := RefusedContext(request);
        forall key: Key ensures Agree(log + batch, key, sites(key.backup)) {
          FailureKeepsAgreement(ctx, product, log, [""], books.clock, sites(ctx.backup));
          if key != KeyOf(ctx, product) {
            forall d: string ensures LastOutcome(log + batch, key, d) == LastOutcome(log, key, d) {
              FailureAfter(ctx, product, log, [""], books.clock, key, d);
            }
          }
        }
      case Resolved(ctx) =>
        ReportsAreOfProduct(ctx, product, log, world, max, books.clock);
        TransferKeepsAgreement(ctx, product, log, world, max, books.clock);
        forall key: Key ensures Agree(log + batch, key, sites(key.backup)) {
          if key != KeyOf(ctx, product) {
            forall d: string ensures LastOutcome(log + batch, key, d) == LastOutcome(log, key, d) {
              OtherProducts(ctx, product, log, world, max, books.clock, key, d);
            }
          }
        }
    }
  }

  lemma StandinsKeepSound(request: Request, documents: seq<Document>, log: seq<Report>, clock: int, sites: Sites)
    requires Sound(log, sites)
    ensures Sound(log + StandinReports(request, documents, clock), sites)
  {
    var batch := StandinReports(request, documents, clock);
    forall key: Key ensures Agree(log + batch, key, sites(key.backup)) {
      forall d
        ensures IsArchived(log + batch, key, d) ==> LastOutcome(log + batch, key, d) == LastOutcome(log, key, d)
      {
        LastOutcomeIs(batch, key, d);
        LastOutcomeAppend(log, batch, key, d);
      }
    }
  }

  /** Serving a request keeps the archive sound, product after product. */
  lemma {:induction false} ServeKeepsSound(
    request: Request, products: seq<Product>, p: nat, seen: set<Option<string>>, books: Books, now: Conditions, max: int,
    sites: Sites)
    requires p <= |products| && !now.resolution.Unavailable? && Sound(books.log, sites) && Fair(now, sites)
    ensures Sound(ServeFrom(request, products, p, seen, books, now, max).books.log, sites)
    decreases |products| - p
  {
    if p < |products| && !now.stop(p) {
      if products[p].name in seen {
        ServeKeepsSound(request, products, p + 1, seen, books, now, max, sites);
      } else {
        match ProductReports(request, now.resolution, products[p], books, now.world(p), max) {
          case None =>
          case Some(reports) =>
            ProductKeepsSound(request, now.resolution, products[p], books, now.world(p), max, sites);
            ServeKeepsSound(
              request, products, p + 1, seen + {products[p].name}, Store(books, reports, now.stored), now, max, sites);
        }
      }
    }
  }

  /** A request, whatever it meets, keeps the archive sound. */
  lemma HandleKeepsSound(service: string, request: Request, books: Books, now: Conditions, max: int, sites: Sites)
    requires Sound(books.log, sites) && Fair(now, sites)
    ensures Sound(Handle(service, request, books, now, max).served.books.log, sites)
  {
    if request.service == service && !now.resolution.Unavailable? {
      match now.reading {
        case Unreachable =>
        case Unreadable =>
          StandinsKeepSound(request, request.documents, books.log, books.clock, sites);
        case Readable(find) =>
          var missing := Missing(find, request.documents);
          StandinsKeepSound(request, missing, books.log, books.clock, sites);
          var after := if missing == [] then books
                       else Store(books, StandinReports(request, missing, books.clock), now.stored);
          ServeKeepsSound(request, Found(find, request.documents), 0, {}, after, now, max, sites);
      }
    }
  }

  // ---------- the clock of the log ----------

  predicate Past(log: seq<Report>, clock: int) {
    forall i :: 0 <= i < |log| ==> log[i].start < clock
  }

  /** The log can be read back: times are past, and the reports of a product for a destination are told apart by them. */
  ghost predicate Timed(books: Books) {
    Past(books.log, books.clock) && forall key: Key :: SafeName(Some(key.name)) ==> Clocked(books.log, key)
  }

  /** A batch made at `clock`, with one outcome report at most for each destination. */
  predicate OneTime(batch: seq<Report>, clock: int) {
    && (forall i :: 0 <= i < |batch| ==> batch[i].start == clock)
    && (forall i, j :: 0 <= i < j < |batch| ==> !SameTarget(batch[i], batch[j]))
  }

  lemma ReportsOneTime(ctx: Context, product: Product, log: seq<Report>, world: World, max: int, clock: int)
    requires NoDuplicates(ctx.destinations) && !TransferProduct(ctx, product, log, world, max, clock).Stopped?
    ensures OneTime(ToStore(ctx, product, log, world, max, clock), clock)
  {
    var x := DecisionFor(ctx, product, log);
    if DownloadAndUpload(ctx, product, x, world, max, clock).Reported? {
      DownloadedOneTime(ctx, product, x, world, max, clock);
    }
  }

  lemma DownloadedOneTime(ctx: Context, product: Product, x: Decision, world: World, max: int, clock: int)
    requires NoDuplicates(x.transfer) && DownloadAndUpload(ctx, product, x, world, max, clock).Reported?
    ensures OneTime(DownloadAndUpload(ctx, product, x, world, max, clock).reports, clock)
  {
    if world.download.Downloaded? {
      var finals := Finals(world.sink, x.transfer, max);
      var md5 := world.download.md5;
    }
  }

  lemma StoreKeepsTimed(books: Books, reports: seq<Report>, stored: nat -> bool)
    requires Timed(books) && OneTime(reports, books.clock)
    ensures Timed(Store(books, reports, stored))
  {
    var all := books.log + reports;
    forall key: Key | SafeName(Some(key.name)) ensures Clocked(all, key) {
      assert Clocked(books.log, key);
    }
  }

  lemma StandinsKeepTimed(request: Request, documents: seq<Document>, books: Books, stored: nat -> bool)
    requires Timed(books)
    ensures Timed(Store(books, StandinReports(request, documents, books.clock), stored))
  {
    var all := books.log + StandinReports(request, documents, books.clock);
    forall key: Key | SafeName(Some(key.name)) ensures Clocked(all, key) {
      assert Clocked(books.log, key);
      assert key.name != "";
    }
  }

  /** The reports of one product keep the log readable. */
  lemma ProductKeepsTimed(request: Request, now: Conditions, x: Product, books: Books, world: World, max: int)
    requires !now.resolution.Unavailable? && Timed(books) && OneEach(now)
    requires ProductReports(request, now.resolution, x, books, world, max).Some?
    ensures Timed(Store(books, ProductReports(request, now.resolution, x, books, world, max).value, now.stored))
  {
    match now.resolution {
      case Refused =>
      case Resolved(ctx) =>
        ReportsOneTime(ctx, x, books.log, world, max, books.clock);
    }
    StoreKeepsTimed(books, ProductReports(request, now.resolution, x, books, world, max).value, now.stored);
  }

  lemma {:induction false} ServeKeepsTimed(
    request: Request, products: seq<Product>, p: nat, seen: set<Option<string>>, books: Books, now: Conditions, max: int)
    requires p <= |products| && !now.resolution.Unavailable? && Timed(books)
    requires OneEach(now)
    ensures Timed(ServeFrom(request, products, p, seen, books, now, max).books)
    decreases |products| - p
  {
    if p < |products| && !now.stop(p) {
      var x := products[p];
      if x.name in seen {
        ServeKeepsTimed(request, products, p + 1, seen, books, now, max);
      } else {
        match ProductReports(request, now.resolution, x, books, now.world(p), max) {
          case None =>
          case Some(reports) =>
            ProductKeepsTimed(request, now, x, books, now.world(p), max);
            ServeKeepsTimed(request, products, p + 1, seen + {x.name}, Store(books, reports, now.stored), now, max);
        }
      }
    }
  }

  /** A request keeps the log readable: what `archived_state` reads back is the state the decision needs. */
  lemma HandleKeepsTimed(service: string, request: Request, books: Books, now: Conditions, max: int)
    requires Timed(books) && OneEach(now)
    ensures Timed(Handle(service, request, books, now, max).served.books)
  {
    if request.service == service && !now.resolution.Unavailable? {
      match now.reading {
        case Unreachable =>
        case Unreadable =>
          StandinsKeepTimed(request, request.documents, books, now.stored);
        case Readable(find) =>
          var missing := Missing(find, request.documents);
          StandinsKeepTimed(request, missing, books, now.stored);
          var after := if missing == [] then books
                       else Store(books, StandinReports(request, missing, books.clock), now.stored);
          ServeKeepsTimed(request, Found(find, request.documents), 0, {}, after, now, max);
      }
    }
  }

  /** Both together, of a request whose destinations are those of its backup. */
  lemma HandleKeeps(service: string, request: Request, books: Books, now: Conditions, max: int, sites: Sites)
    requires Sound(books.log, sites) && Timed(books) && Fair(now, sites) && OneEach(now)
    ensures var after := Handle(service, request, books, now, max).served.books; Sound(after.log, sites) && Timed(after)
  {
    HandleKeepsSound(service, request, books, now, max, sites);
    HandleKeepsTimed(service, request, books, now, max);
  }

  /** An archive with no report keeps all of it. */
  lemma EmptyArchive(sites: Sites)
    ensures Sound([], sites) && Timed(Books([], 0, [], 0))
  {
    forall key: Key
      ensures Agree([], key, sites(key.backup)) && Clocked([], key)
    {
      assert forall d :: !IsArchived([], key, d);
    }
  }
}
