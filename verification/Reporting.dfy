/** What is reported for a product: the reports tell what became of it, destination by destination. */
module Reporting {
  import opened Wrappers
  import opened Duplicates
  import opened Upload
  import opened Transfer

  /** Sinks report OK or KO: the archive alone makes an OK a REPLACED. */
  ghost predicate Plainly(sink: Sink) {
    forall attempt, pending :: PlainlyAt(sink, attempt, pending)
  }

  predicate PlainlyAt(sink: Sink, attempt: nat, pending: seq<string>) {
    sink(attempt, pending).Reports? ==>
      forall i :: 0 <= i < |sink(attempt, pending).statuses| ==> sink(attempt, pending).statuses[i].1 in {OK, KO}
  }

  predicate OkOrKo(finals: map<string, Status>) {
    forall d :: d in finals ==> finals[d] in {OK, KO}
  }

  lemma {:induction false} AbsorbPlain(finals: map<string, Status>, statuses: seq<(string, Status)>)
    requires OkOrKo(finals) && forall i :: 0 <= i < |statuses| ==> statuses[i].1 in {OK, KO}
    ensures OkOrKo(Absorb(finals, statuses))
    decreases |statuses|
  {
    if statuses != [] {
      AbsorbPlain(finals[statuses[0].0 := statuses[0].1], statuses[1..]);
    }
  }

  lemma {:induction false} FinalsPlain(sink: Sink, pending: seq<string>, finals: map<string, Status>, attempt: nat, max: int)
    requires Plainly(sink) && OkOrKo(finals)
    ensures OkOrKo(UploadFrom(sink, pending, finals, attempt, max).1)
    decreases max - attempt
  {
    if attempt <= max {
      assert PlainlyAt(sink, attempt, pending);
      AbsorbPlain(finals, Attempt(sink, attempt, pending));
      var known := Absorb(finals, Attempt(sink, attempt, pending));
      Turn(sink, [], pending, finals, attempt, max);
      FinalsPlain(sink, StillPending(known, pending), known, attempt + 1, max);
    }
  }

  /** What the batch stored for a product says last of a destination. */
  function Told(ctx: Context, product: Product, log: seq<Report>, world: World, max: int, now: int, d: string)
    : Option<Status>
    requires !TransferProduct(ctx, product, log, world, max, now).Stopped?
  {
    var last := LastOutcome(ToStore(ctx, product, log, world, max, now), KeyOf(ctx, product), d);
    if last.None? then None else Some(last.value.status)
  }

  lemma FailureTells(ctx: Context, product: Product, destinations: seq<string>, now: int, d: string)
    requires d in destinations
    ensures var last := LastOutcome(Failures(ctx, product, destinations, now), KeyOf(ctx, product), d);
            last.Some? && last.value.status.KO?
  {
    BatchLast(destinations, Make(ctx, product, KO, now), KeyOf(ctx, product), d);
  }

  /** A product that cannot be named, or whose transfer raises, is a KO of every destination. */
  lemma RaisedIsTold(ctx: Context, product: Product, log: seq<Report>, world: World, max: int, now: int, d: string)
    requires d in ctx.destinations && !TransferProduct(ctx, product, log, world, max, now).Stopped?
    requires !SafeName(product.name) || TransferProduct(ctx, product, log, world, max, now).Crashed?
    ensures Told(ctx, product, log, world, max, now, d) == Some(KO)
  {
    FailureTells(ctx, product, ctx.destinations, now, d);
  }

  /** Something raises before any upload: the state cannot be read, the conflict not opened, the file not fetched. */
  predicate Trouble(ctx: Context, product: Product, log: seq<Report>, world: World) {
    var x := DecisionFor(ctx, product, log);
    || world.stateFails
    || (x.conflict && world.conflictFails)
    || (x.transfer != [] && !world.keyUnusable && (world.prepareFails || world.download.DownloadCrashed?))
  }

  /** Then nothing is written, and every destination is a KO. */
  lemma TroubleIsTold(ctx: Context, product: Product, log: seq<Report>, world: World, max: int, now: int, d: string)
    requires d in ctx.destinations && (!SafeName(product.name) || Trouble(ctx, product, log, world))
    ensures !TransferProduct(ctx, product, log, world, max, now).Stopped?
    ensures Told(ctx, product, log, world, max, now, d) == Some(KO)
    ensures TransferProduct(ctx, product, log, world, max, now).attempts == []
  {
    FailureTells(ctx, product, ctx.destinations, now, d);
  }

  /** A product that was not downloaded is a KO of every destination it was to be written to, and nothing is written. */
  lemma NotDownloadedIsTold(ctx: Context, product: Product, log: seq<Report>, world: World, max: int, now: int, d: string)
    requires d in ctx.destinations && d in DecisionFor(ctx, product, log).transfer
    requires !TransferProduct(ctx, product, log, world, max, now).Stopped?
    requires !world.download.Downloaded? || world.keyUnusable
    ensures Told(ctx, product, log, world, max, now, d) == Some(KO)
    ensures TransferProduct(ctx, product, log, world, max, now).attempts == []
  {
    FailureTells(ctx, product, ctx.destinations, now, d);
    FailureTells(ctx, product, DecisionFor(ctx, product, log).transfer, now, d);
  }

  /** Nothing stands in the way of the upload: the product was decided, prepared and downloaded, the bytes are right. */
  predicate Uploading(ctx: Context, product: Product, log: seq<Report>, world: World) {
    && SafeName(product.name) && !world.stateFails && !world.keyUnusable && !world.prepareFails
    && world.download.Downloaded? && DecisionFor(ctx, product, log).transfer != []
    && (DecisionFor(ctx, product, log).sameBytesAs in {"", world.download.md5})
  }

  predicate AllWritten(sink: Sink, attempts: seq<seq<string>>, ctx: Context, product: Product, log: seq<Report>) {
    forall d :: d in DecisionFor(ctx, product, log).transfer ==> Upload.Written(sink, 1, attempts, d)
  }

  /** The final statuses are those of the destinations asked, and no other. */
  lemma {:induction false} FinalsOwn(sink: Sink, pending: seq<string>, finals: map<string, Status>, attempt: nat, max: int)
    requires OwnReports(sink)
    ensures var r := UploadFrom(sink, pending, finals, attempt, max);
            (forall d :: d in r.1 ==> d in finals || d in pending) && forall d :: d in r.2 ==> d in pending
    decreases max - attempt
  {
    if attempt <= max {
      assert OwnReportsAt(sink, attempt, pending);
      AbsorbKeeps(finals, Attempt(sink, attempt, pending));
      var known := Absorb(finals, Attempt(sink, attempt, pending));
      FinalsOwn(sink, StillPending(known, pending), known, attempt + 1, max);
    }
  }

  lemma AllArchived(ctx: Context, product: Product, log: seq<Report>, sink: Sink, max: int)
    requires OwnReports(sink) && Plainly(sink)
    ensures var x := DecisionFor(ctx, product, log);
            var finals := Finals(sink, x.transfer, max);
            (forall d :: d in finals ==> finals[d].Archived())
            <==> AllWritten(sink, Attempts(sink, x.transfer, max), ctx, product, log)
  {
    var x := DecisionFor(ctx, product, log);
    UploadCorrect(sink, x.transfer, max);
    FinalsPlain(sink, x.transfer, map[], 1, max);
    FinalsOwn(sink, x.transfer, map[], 1, max);
  }

  lemma UploadedTells(
    ctx: Context, product: Product, decision: Decision, finals: map<string, Status>, md5: string, now: int, d: string)
    requires d in decision.transfer && d in finals && finals[d] in {OK, KO}
    ensures var batch := Uploaded(ctx, product, decision, finals, md5, now) + Skips(ctx, product, decision.skip, now);
            var last := LastOutcome(batch, KeyOf(ctx, product), d);
            && last.Some? && last.value.md5 == md5
            && last.value.filename == FileName(product) && last.value.checksum == product.checksum
            && last.value.status == if finals[d] == KO then KO else if d in decision.archived then REPLACED else OK
  {
    var key := KeyOf(ctx, product);
    BatchLast(
      decision.transfer, x => UploadReport(ctx, product, x, FinalStatus(finals, decision.archived, x), md5, now), key, d);
    SkippedLast(ctx, product, decision.skip, now, key, d);
    LastOutcomeAppend(
      Uploaded(ctx, product, decision, finals, md5, now), Skips(ctx, product, decision.skip, now), key, d);
  }

  /**
   The reports of an upload tell the truth: a destination that an attempt wrote to is REPLACED where it held the product
   and OK elsewhere, one that none wrote to after all of them is a KO, and all carry the MD5 of the bytes downloaded and
   the checksum announced. Only a conflict that cannot be resolved raises, and only once all is written.
   */
  lemma UploadIsTold(ctx: Context, product: Product, log: seq<Report>, world: World, max: int, now: int, d: string)
    requires Uploading(ctx, product, log, world) && OwnReports(world.sink) && Plainly(world.sink)
    requires d in ctx.destinations && d in DecisionFor(ctx, product, log).transfer
    ensures var outcome := TransferProduct(ctx, product, log, world, max, now);
            && !outcome.Stopped?
            && (outcome.Crashed? <==> world.resolveFails && AllWritten(world.sink, outcome.attempts, ctx, product, log))
            && (max > 0 ==> outcome.attempts != [] && outcome.attempts[0] == DecisionFor(ctx, product, log).transfer)
            && NeverAgain(world.sink, 1, outcome.attempts)
            && (outcome.Reported? ==>
                  var last := LastOutcome(outcome.reports, KeyOf(ctx, product), d);
                  && last.Some? && last.value.md5 == world.download.md5 && last.value.checksum == product.checksum
                  && last.value.status == (if !Written(world.sink, 1, outcome.attempts, d) then KO
                                           else if IsArchived(log, KeyOf(ctx, product), d) then REPLACED else OK))
            && (Written(world.sink, 1, outcome.attempts, d) || Insisted(outcome.attempts, if max > 0 then max else 0, d))
  {
    var x := DecisionFor(ctx, product, log);
    UploadCorrect(world.sink, x.transfer, max);
    FinalsPlain(world.sink, x.transfer, map[], 1, max);
    AllArchived(ctx, product, log, world.sink, max);
    UploadedTells(ctx, product, x, Finals(world.sink, x.transfer, max), world.download.md5, now, d);
    assert d in x.archived <==> Duplicates.Holds(State(log, KeyOf(ctx, product), ctx.destinations), d);
  }

  predicate OtherBytes(x: Decision, world: World) {
    !world.keyUnusable && world.download.Downloaded? && x.sameBytesAs != "" && x.sameBytesAs != world.download.md5
  }

  lemma SkipsAreUntold(ctx: Context, product: Product, a: seq<string>, b: seq<string>, now: int, d: string)
    ensures LastOutcome(Skips(ctx, product, a, now), KeyOf(ctx, product), d).None?
    ensures LastOutcome(Skips(ctx, product, a, now) + Skips(ctx, product, b, now), KeyOf(ctx, product), d).None?
  {
    SkippedLast(ctx, product, a, now, KeyOf(ctx, product), d);
    SkippedLast(ctx, product, b, now, KeyOf(ctx, product), d);
    LastOutcomeAppend(Skips(ctx, product, a, now), Skips(ctx, product, b, now), KeyOf(ctx, product), d);
  }

  lemma DownloadedUntold(ctx: Context, product: Product, x: Decision, world: World, max: int, now: int, d: string)
    requires DownloadAndUpload(ctx, product, x, world, max, now).Reported?
    requires d !in x.transfer || (world.download.Downloaded? && x.sameBytesAs != "" && x.sameBytesAs != world.download.md5)
    ensures LastOutcome(DownloadAndUpload(ctx, product, x, world, max, now).reports, KeyOf(ctx, product), d).None?
    ensures Absent(DownloadAndUpload(ctx, product, x, world, max, now).attempts, d)
  {
    if world.download.Downloaded? {
      SkipsAreUntold(ctx, product, x.skip, x.transfer, now, d);
      if d !in x.transfer {
        UploadedUntold(ctx, product, x, Finals(world.sink, x.transfer, max), world.download.md5, now, d);
        AmongPending(world.sink, x.transfer, map[], 1, max);
      }
    } else {
      BatchLast(x.transfer, Make(ctx, product, KO, now), KeyOf(ctx, product), d);
    }
  }

  /** A destination that is skipped, or that other bytes cannot fill, keeps its last outcome. */
  lemma SkippedIsUntold(ctx: Context, product: Product, log: seq<Report>, world: World, max: int, now: int, d: string)
    requires SafeName(product.name) && TransferProduct(ctx, product, log, world, max, now).Reported?
    requires var x := DecisionFor(ctx, product, log); d !in x.transfer || OtherBytes(x, world)
    ensures LastOutcome(TransferProduct(ctx, product, log, world, max, now).reports, KeyOf(ctx, product), d).None?
    ensures Absent(TransferProduct(ctx, product, log, world, max, now).attempts, d)
  {
    var x := DecisionFor(ctx, product, log);
    BatchLast(x.transfer, Make(ctx, product, KO, now), KeyOf(ctx, product), d);
    SkipsAreUntold(ctx, product, ctx.destinations, [], now, d);
    SkipsAreUntold(ctx, product, x.skip, [], now, d);
    if DownloadAndUpload(ctx, product, x, world, max, now).Reported? {
      if d !in x.transfer || x.sameBytesAs != "" {
        DownloadedUntold(ctx, product, x, world, max, now, d);
      }
    }
  }

  lemma UploadedUntold(
    ctx: Context, product: Product, decision: Decision, finals: map<string, Status>, md5: string, now: int, d: string)
    requires d !in decision.transfer
    ensures LastOutcome(
              Uploaded(ctx, product, decision, finals, md5, now) + Skips(ctx, product, decision.skip, now),
              KeyOf(ctx, product), d).None?
  {
    var key := KeyOf(ctx, product);
    BatchLast(
      decision.transfer, x => UploadReport(ctx, product, x, FinalStatus(finals, decision.archived, x), md5, now), key, d);
    SkippedLast(ctx, product, decision.skip, now, key, d);
    LastOutcomeAppend(
      Uploaded(ctx, product, decision, finals, md5, now), Skips(ctx, product, decision.skip, now), key, d);
  }

  /** The reports of a destination, in an operation one SKIPPED, else none. */
  predicate SkippedOnly(reports: seq<Report>, product: Product, d: string, operation: bool) {
    && (operation <==> exists r :: r in reports && r.destination == d)
    && forall r :: r in reports && r.destination == d ==> r.status.SKIPPED? && r.filename == FileName(product)
  }

  lemma BatchOnly(ctx: Context, product: Product, destinations: seq<string>, now: int, d: string)
    requires d in destinations
    ensures SkippedOnly(Skips(ctx, product, destinations, now), product, d, ctx.operation)
  {
    var i :| 0 <= i < |destinations| && destinations[i] == d;
    if ctx.operation {
      assert Skips(ctx, product, destinations, now)[i].destination == d;
    }
  }

  lemma NoneOf(ctx: Context, product: Product, destinations: seq<string>, now: int, d: string)
    requires d !in destinations
    ensures forall r :: r in Skips(ctx, product, destinations, now) ==> r.destination != d
  {
  }

  /** An operation is told of the destinations that are skipped, nobody else is. */
  lemma SkipIsReported(ctx: Context, product: Product, log: seq<Report>, world: World, max: int, now: int, d: string)
    requires SafeName(product.name) && !world.stateFails && d in ctx.destinations
    requires TransferProduct(ctx, product, log, world, max, now).Reported?
    requires var x := DecisionFor(ctx, product, log); x.conflict || x.transfer == []
    ensures SkippedOnly(
              TransferProduct(ctx, product, log, world, max, now).reports, product, d, ctx.operation)
  {
    var x := DecisionFor(ctx, product, log);
    BatchOnly(ctx, product, if x.conflict then ctx.destinations else x.skip, now, d);
  }

  /** So where a mirror is filled beside it, or could not be with the bytes downloaded. */
  lemma SkipBesideIsReported(
    ctx: Context, product: Product, x: Decision, world: World, max: int, now: int, d: string)
    requires world.download.Downloaded? && DownloadAndUpload(ctx, product, x, world, max, now).Reported?
    requires d in x.skip && d !in x.transfer
    ensures SkippedOnly(DownloadAndUpload(ctx, product, x, world, max, now).reports, product, d, ctx.operation)
  {
    var md5 := world.download.md5;
    var finals := Finals(world.sink, x.transfer, max);
    BatchOnly(ctx, product, x.skip, now, d);
    NoneOf(ctx, product, x.transfer, now, d);
    var skipped := Skips(ctx, product, x.skip, now);
    assert forall r :: r in Uploaded(ctx, product, x, finals, md5, now) ==> r.destination != d;
    var reports := DownloadAndUpload(ctx, product, x, world, max, now).reports;
    assert forall r: Report :: r.destination == d ==> (r in reports <==> r in skipped);
  }

  /** Nothing reported of a download is bytes that cannot fill a mirror. */
  lemma SilentDownload(ctx: Context, product: Product, x: Decision, world: World, max: int, now: int)
    requires DownloadAndUpload(ctx, product, x, world, max, now).Reported? && x.transfer != []
    requires DownloadAndUpload(ctx, product, x, world, max, now).reports == []
    ensures !ctx.operation && x.sameBytesAs != ""
  {
  }

  /** A decision that skips, refuses or wants the bytes of another destination is about a product that is archived. */
  lemma DecidedIsHeld(ctx: Context, product: Product, log: seq<Report>)
    requires var x := DecisionFor(ctx, product, log); x.transfer == [] || x.sameBytesAs != ""
    ensures ctx.destinations == [] || exists d :: d in ctx.destinations && IsArchived(log, KeyOf(ctx, product), d)
  {
    var state := State(log, KeyOf(ctx, product), ctx.destinations);
    if !NoneHolds(ctx.destinations, state) {
      var d :| d in ctx.destinations && Duplicates.Holds(state, d);
      assert IsArchived(log, KeyOf(ctx, product), d);
    }
  }

  /** A product nothing is reported of is none of an operation, and some destination holds it, or there is none. */
  lemma SilentIsHeld(ctx: Context, product: Product, log: seq<Report>, world: World, max: int, now: int)
    requires !TransferProduct(ctx, product, log, world, max, now).Stopped?
    requires ToStore(ctx, product, log, world, max, now) == []
    ensures ctx.destinations == []
            || (!ctx.operation && exists d :: d in ctx.destinations && IsArchived(log, KeyOf(ctx, product), d))
  {
    var x := DecisionFor(ctx, product, log);
    if ctx.destinations != [] && (x.transfer == [] || x.sameBytesAs != "") {
      DecidedIsHeld(ctx, product, log);
    }
    if x.transfer != [] && DownloadAndUpload(ctx, product, x, world, max, now).Reported?
       && DownloadAndUpload(ctx, product, x, world, max, now).reports == [] {
      SilentDownload(ctx, product, x, world, max, now);
    }
  }
}
