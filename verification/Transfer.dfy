/** The transfer of one product: what the stage reports, given the report log and what the outside world does. */
module Transfer {
  import opened Wrappers
  import opened Duplicates
  import opened Upload

  datatype Document = Document(id: string, index: string)

  /** A product read from a document; an unknown name is None, an unknown checksum is empty. */
  datatype Product = Product(document: Document, name: Option<string>, checksum: string)

  /** A request resolved against the configuration. */
  datatype Context = Context(
    backup: string, interfaceName: string, destinations: seq<string>, mode: Mode, force: bool, operation: bool)

  datatype Download = Downloaded(md5: string) | DownloadFailed | DownloadStopped | DownloadCrashed

  /** What the index, the disk, the catalogue and the sinks do while one product is transferred. */
  datatype World = World(
    stateFails: bool,
    search: (seq<Report>, Key) -> seq<Report>,
    conflictFails: bool,
    keyUnusable: bool,
    prepareFails: bool,
    download: Download,
    sink: Sink,
    resolveFails: bool)

  /** The MD5 of downloaded bytes is never empty. */
  predicate RealBytes(world: World) {
    world.download.Downloaded? ==> world.download.md5 != ""
  }

  /** A search of the report index gives the latest outcome reports of the product, some of each of its destinations. */
  ghost predicate Searches(world: World) {
    forall log, key :: Enough(world.search(log, key), log, key)
  }

  /** Reports to store, with the upload attempts made; a stop; an exception, after some attempts or none. */
  datatype Outcome =
    | Reported(reports: seq<Report>, attempts: seq<seq<string>>)
    | Stopped
    | Crashed(attempts: seq<seq<string>>)

  function KeyOf(ctx: Context, product: Product): Key {
    Key(ctx.backup, ctx.interfaceName, if product.name.Some? then product.name.value else "")
  }

  /** What names the reports of a product: its name, or its document where it has none. */
  function FileName(product: Product): string {
    if product.name.Some? && product.name.value != "" then product.name.value else product.document.id
  }

  /** A name that can be a file name and an object key. */
  predicate SafeName(name: Option<string>) {
    name.Some? && name.value !in {"", ".", ".."}
    && forall i :: 0 <= i < |name.value| ==> name.value[i] !in "\0/\\"
  }

  // ---------- batches of reports ----------

  function Batch(destinations: seq<string>, make: string -> Report): seq<Report> {
    seq(|destinations|, i requires 0 <= i < |destinations| => make(destinations[i]))
  }

  function Make(ctx: Context, product: Product, status: Status, now: int): string -> Report {
    d => Report(KeyOf(ctx, product), FileName(product), d, status, "", product.checksum, now)
  }

  /** One KO report per destination. */
  function Failures(ctx: Context, product: Product, destinations: seq<string>, now: int): seq<Report> {
    Batch(destinations, Make(ctx, product, KO, now))
  }

  /** SKIPPED reports, of an operation only. */
  function Skips(ctx: Context, product: Product, destinations: seq<string>, now: int): seq<Report> {
    if ctx.operation then Batch(destinations, Make(ctx, product, SKIPPED, now)) else []
  }

  function FinalStatus(finals: map<string, Status>, archived: set<string>, d: string): Status {
    if d !in finals then KO
    else if finals[d] == OK && d in archived then REPLACED
    else finals[d]
  }

  /** What an upload to a destination is reported as. */
  function UploadReport(ctx: Context, product: Product, d: string, status: Status, md5: string, now: int): Report {
    Report(KeyOf(ctx, product), FileName(product), d, status, md5, product.checksum, now)
  }

  function Uploaded(
    ctx: Context, product: Product, decision: Decision, finals: map<string, Status>, md5: string, now: int): seq<Report>
  {
    Batch(decision.transfer,
          d => UploadReport(ctx, product, d, FinalStatus(finals, decision.archived, d), md5, now))
  }

  // ---------- the transfer ----------

  function DecisionFor(ctx: Context, product: Product, log: seq<Report>): Decision {
    Decide(ctx.destinations, State(log, KeyOf(ctx, product), ctx.destinations), ctx.mode, ctx.force, product.checksum)
  }

  function DownloadAndUpload(
    ctx: Context, product: Product, decision: Decision, world: World, max: int, now: int): Outcome
  {
    match world.download
    case DownloadStopped => Stopped
    case DownloadCrashed => Crashed([])
    case DownloadFailed => Reported(Failures(ctx, product, decision.transfer, now), [])
    case Downloaded(md5) =>
      if decision.sameBytesAs != "" && decision.sameBytesAs != md5 then
        if world.conflictFails then Crashed([])
        else
          Reported(Skips(ctx, product, decision.skip, now) + Skips(ctx, product, decision.transfer, now), [])
      else
        var finals := Finals(world.sink, decision.transfer, max);
        var attempts := Attempts(world.sink, decision.transfer, max);
        if (forall d :: d in finals ==> finals[d].Archived()) && world.resolveFails then Crashed(attempts)
        else
          Reported(
            Uploaded(ctx, product, decision, finals, md5, now) + Skips(ctx, product, decision.skip, now), attempts)
  }

  function TransferProduct(ctx: Context, product: Product, log: seq<Report>, world: World, max: int, now: int): Outcome {
    if !SafeName(product.name) then Reported(Failures(ctx, product, ctx.destinations, now), [])
    else if world.stateFails then Crashed([])
    else
      var decision := DecisionFor(ctx, product, log);
      if decision.conflict then
        if world.conflictFails then Crashed([]) else Reported(Skips(ctx, product, ctx.destinations, now), [])
      else if decision.transfer == [] then Reported(Skips(ctx, product, decision.skip, now), [])
      else if world.keyUnusable then Reported(Failures(ctx, product, decision.transfer, now), [])
      else if world.prepareFails then Crashed([])
      else DownloadAndUpload(ctx, product, decision, world, max, now)
  }

  /** What is stored for a product: its reports, or a KO everywhere when the transfer raises. */
  function ToStore(ctx: Context, product: Product, log: seq<Report>, world: World, max: int, now: int): seq<Report>
    requires !TransferProduct(ctx, product, log, world, max, now).Stopped?
  {
    match TransferProduct(ctx, product, log, world, max, now)
    case Reported(reports, _) => reports
    case Crashed(_) => Failures(ctx, product, ctx.destinations, now)
  }

  // ---------- what a batch says ----------

  /** The last outcome a batch holds for a destination is the one made for it. */
  lemma {:induction false} BatchLast(destinations: seq<string>, make: string -> Report, key: Key, d: string)
    requires forall x :: x in destinations ==> make(x).destination == x
    ensures LastOutcome(Batch(destinations, make), key, d) ==
            if d in destinations && About(make(d), key, d) then Some(make(d)) else None
    decreases |destinations|
  {
    if destinations != [] {
      var n := |destinations| - 1;
      assert Batch(destinations, make)[..n] == Batch(destinations[..n], make);
      assert destinations == destinations[..n] + [destinations[n]];
      BatchLast(destinations[..n], make, key, d);
    }
  }

  lemma SkippedLast(ctx: Context, product: Product, destinations: seq<string>, now: int, key: Key, d: string)
    ensures LastOutcome(Skips(ctx, product, destinations, now), key, d).None?
  {
    if ctx.operation {
      BatchLast(destinations, Make(ctx, product, SKIPPED, now), key, d);
    }
  }

  /** After a batch of KO, the destinations it names hold nothing and the others are as they were. */
  lemma FailureAfter(
    ctx: Context, product: Product, log: seq<Report>, destinations: seq<string>, now: int, key: Key, d: string)
    ensures var after := log + Failures(ctx, product, destinations, now);
            if key == KeyOf(ctx, product) && d in destinations then !IsArchived(after, key, d)
            else LastOutcome(after, key, d) == LastOutcome(log, key, d)
  {
    BatchLast(destinations, Make(ctx, product, KO, now), key, d);
    LastOutcomeAppend(log, Failures(ctx, product, destinations, now), key, d);
  }

  lemma SkippedAfter(
    ctx: Context, product: Product, log: seq<Report>, a: seq<string>, b: seq<string>, now: int, key: Key, d: string)
    ensures LastOutcome(log + Skips(ctx, product, a, now), key, d) == LastOutcome(log, key, d)
    ensures LastOutcome(log + (Skips(ctx, product, a, now) + Skips(ctx, product, b, now)), key, d)
            == LastOutcome(log, key, d)
  {
    SkippedLast(ctx, product, a, now, key, d);
    SkippedLast(ctx, product, b, now, key, d);
    LastOutcomeAppend(log, Skips(ctx, product, a, now), key, d);
    LastOutcomeAppend(Skips(ctx, product, a, now), Skips(ctx, product, b, now), key, d);
    LastOutcomeAppend(log, Skips(ctx, product, a, now) + Skips(ctx, product, b, now), key, d);
  }

  /** After an upload, a destination that was written to holds the downloaded bytes or nothing. */
  lemma UploadedAfter(
    ctx: Context, product: Product, log: seq<Report>, decision: Decision, finals: map<string, Status>, md5: string,
    now: int, key: Key, d: string)
    requires forall x :: x in decision.transfer ==> x in finals
    ensures var after := log + (Uploaded(ctx, product, decision, finals, md5, now) + Skips(ctx, product, decision.skip, now));
            if key == KeyOf(ctx, product) && d in decision.transfer && finals[d].Outcome() then
              && (IsArchived(after, key, d) <==> finals[d].Archived())
              && LastOutcome(after, key, d).Some? && LastOutcome(after, key, d).value.md5 == md5
            else LastOutcome(after, key, d) == LastOutcome(log, key, d)
  {
    var uploaded := Uploaded(ctx, product, decision, finals, md5, now);
    var skipped := Skips(ctx, product, decision.skip, now);
    BatchLast(
      decision.transfer, x => UploadReport(ctx, product, x, FinalStatus(finals, decision.archived, x), md5, now), key, d);
    SkippedLast(ctx, product, decision.skip, now, key, d);
    LastOutcomeAppend(uploaded, skipped, key, d);
    LastOutcomeAppend(log, uploaded + skipped, key, d);
  }
}
