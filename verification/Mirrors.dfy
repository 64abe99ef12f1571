/** What every transfer keeps: the mirrors of a product hold the same bytes, and `skip` keeps what is archived. */
module Mirrors {
  import opened Wrappers
  import opened Duplicates
  import opened Upload
  import opened Transfer

  /** All the destinations that hold the product hold the same bytes. */
  predicate Agree(log: seq<Report>, key: Key, destinations: seq<string>) {
    && (forall d :: d in destinations && IsArchived(log, key, d) ==> LastOutcome(log, key, d).value.md5 != "")
    && (forall d, e :: d in destinations && e in destinations && IsArchived(log, key, d) && IsArchived(log, key, e) ==>
                         LastOutcome(log, key, d).value.md5 == LastOutcome(log, key, e).value.md5)
  }

  /** Only products whose name can be an object key are archived. */
  predicate NamesSafe(log: seq<Report>) {
    forall r :: r in log && r.status.Archived() ==> SafeName(Some(r.key.name))
  }

  /** Sinks report OK, REPLACED or KO. */
  ghost predicate OutcomesOnly(sink: Sink) {
    forall attempt, pending :: OutcomesAt(sink, attempt, pending)
  }

  predicate OutcomesAt(sink: Sink, attempt: nat, pending: seq<string>) {
    sink(attempt, pending).Reports? ==>
      forall i :: 0 <= i < |sink(attempt, pending).statuses| ==> sink(attempt, pending).statuses[i].1.Outcome()
  }

  /** The world of a transfer, as far as the bytes of the archive depend on it. */
  ghost predicate Honest(world: World) {
    RealBytes(world) && OutcomesOnly(world.sink)
  }

  lemma {:induction false} FinalsOutcome(sink: Sink, pending: seq<string>, finals: map<string, Status>, attempt: nat, max: int)
    requires OutcomesOnly(sink) && forall d :: d in finals ==> finals[d].Outcome()
    ensures var r := UploadFrom(sink, pending, finals, attempt, max);
            forall d :: d in r.1 ==> r.1[d].Outcome()
    decreases max - attempt
  {
    if attempt <= max {
      assert OutcomesAt(sink, attempt, pending);
      AbsorbOutcome(finals, Attempt(sink, attempt, pending));
      var known := Absorb(finals, Attempt(sink, attempt, pending));
      Turn(sink, [], pending, finals, attempt, max);
      if StillPending(known, pending) != [] {
        FinalsOutcome(sink, StillPending(known, pending), known, attempt + 1, max);
      }
    }
  }

  lemma {:induction false} AbsorbOutcome(finals: map<string, Status>, statuses: seq<(string, Status)>)
    requires forall d :: d in finals ==> finals[d].Outcome()
    requires forall i :: 0 <= i < |statuses| ==> statuses[i].1.Outcome()
    ensures forall d :: d in Absorb(finals, statuses) ==> Absorb(finals, statuses)[d].Outcome()
    decreases |statuses|
  {
    if statuses != [] {
      AbsorbOutcome(finals[statuses[0].0 := statuses[0].1], statuses[1..]);
    }
  }

  /** Nothing said about a product changes what the log says about another one. */
  lemma OtherProducts(ctx: Context, product: Product, log: seq<Report>, world: World, max: int, now: int, key: Key, d: string)
    requires !TransferProduct(ctx, product, log, world, max, now).Stopped? && key != KeyOf(ctx, product)
    ensures LastOutcome(log + ToStore(ctx, product, log, world, max, now), key, d) == LastOutcome(log, key, d)
  {
    var batch := ToStore(ctx, product, log, world, max, now);
    ReportsAreOfProduct(ctx, product, log, world, max, now);
    LastOutcomeIs(batch, key, d);
    LastOutcomeAppend(log, batch, key, d);
  }

  predicate OfProduct(reports: seq<Report>, ctx: Context, product: Product) {
    forall r :: r in reports ==> r.key == KeyOf(ctx, product)
  }

  predicate NothingArchived(reports: seq<Report>) {
    forall r :: r in reports ==> !r.status.Archived()
  }

  lemma ReportsAreOfProduct(ctx: Context, product: Product, log: seq<Report>, world: World, max: int, now: int)
    requires !TransferProduct(ctx, product, log, world, max, now).Stopped?
    ensures OfProduct(ToStore(ctx, product, log, world, max, now), ctx, product)
    ensures !SafeName(product.name) ==> NothingArchived(ToStore(ctx, product, log, world, max, now))
  {
    var x := DecisionFor(ctx, product, log);
    if DownloadAndUpload(ctx, product, x, world, max, now).Reported? {
      DownloadedOfProduct(ctx, product, x, world, max, now);
    }
  }

  lemma DownloadedOfProduct(ctx: Context, product: Product, x: Decision, world: World, max: int, now: int)
    requires DownloadAndUpload(ctx, product, x, world, max, now).Reported?
    ensures OfProduct(DownloadAndUpload(ctx, product, x, world, max, now).reports, ctx, product)
  {
    if world.download.Downloaded? {
      var finals := Finals(world.sink, x.transfer, max);
    }
  }

  /** A batch of KO keeps the agreement: it only takes destinations away. */
  lemma FailureKeepsAgreement(
    ctx: Context, product: Product, log: seq<Report>, destinations: seq<string>, now: int, sites: seq<string>)
    requires Agree(log, KeyOf(ctx, product), sites)
    ensures Agree(log + Failures(ctx, product, destinations, now), KeyOf(ctx, product), sites)
  {
    forall d ensures var after := log + Failures(ctx, product, destinations, now);
                     IsArchived(after, KeyOf(ctx, product), d) ==>
                       LastOutcome(after, KeyOf(ctx, product), d) == LastOutcome(log, KeyOf(ctx, product), d)
    {
      FailureAfter(ctx, product, log, destinations, now, KeyOf(ctx, product), d);
    }
  }

  /** An upload keeps the agreement: it writes everywhere, or the bytes the archive holds. */
  lemma UploadKeepsAgreement(
    ctx: Context, product: Product, log: seq<Report>, finals: map<string, Status>, md5: string, now: int)
    requires Agree(log, KeyOf(ctx, product), ctx.destinations) && md5 != ""
    requires var decision := DecisionFor(ctx, product, log);
             && !decision.conflict
             && (decision.sameBytesAs == "" || decision.sameBytesAs == md5)
             && (forall d :: d in decision.transfer ==> d in finals && finals[d].Outcome())
    ensures var decision := DecisionFor(ctx, product, log);
            var batch := Uploaded(ctx, product, decision, finals, md5, now) + Skips(ctx, product, decision.skip, now);
            Agree(log + batch, KeyOf(ctx, product), ctx.destinations)
  {
    var key := KeyOf(ctx, product);
    var decision := DecisionFor(ctx, product, log);
    var batch := Uploaded(ctx, product, decision, finals, md5, now) + Skips(ctx, product, decision.skip, now);
    var after := log + batch;
    forall d | d in ctx.destinations
      ensures IsArchived(after, key, d) ==>
                LastOutcome(after, key, d).value.md5 ==
                if d in decision.transfer then md5 else LastOutcome(log, key, d).value.md5
      ensures IsArchived(after, key, d) && d !in decision.transfer ==> IsArchived(log, key, d)
    {
      UploadedAfter(ctx, product, log, decision, finals, md5, now, key, d);
    }
    forall d | d in ctx.destinations
      ensures Duplicates.Holds(State(log, key, ctx.destinations), d) <==> IsArchived(log, key, d)
    {
    }
  }

  /** A product whose name is unsafe is held nowhere. */
  lemma UnsafeIsNowhere(log: seq<Report>, key: Key, d: string)
    requires NamesSafe(log) && !SafeName(Some(key.name))
    ensures !IsArchived(log, key, d)
  {
    LastOutcomeIs(log, key, d);
  }

  /** Whatever a transfer of a product meets, what is stored for it keeps its mirrors alike. */
  lemma TransferKeepsAgreement(ctx: Context, product: Product, log: seq<Report>, world: World, max: int, now: int)
    requires Agree(log, KeyOf(ctx, product), ctx.destinations) && Honest(world)
    requires !TransferProduct(ctx, product, log, world, max, now).Stopped?
    ensures Agree(log + ToStore(ctx, product, log, world, max, now), KeyOf(ctx, product), ctx.destinations)
  {
    var key := KeyOf(ctx, product);
    var decision := DecisionFor(ctx, product, log);
    var batch := ToStore(ctx, product, log, world, max, now);
    FailureKeepsAgreement(ctx, product, log, ctx.destinations, now, ctx.destinations);
    FailureKeepsAgreement(ctx, product, log, decision.transfer, now, ctx.destinations);
    SkipsKeepAgreement(ctx, product, log, now);
    if world.download.Downloaded? && !decision.conflict
       && (decision.sameBytesAs == "" || decision.sameBytesAs == world.download.md5)
    {
      FinalsKeepAgreement(ctx, product, log, world, max, now);
    }
  }

  lemma FinalsKeepAgreement(ctx: Context, product: Product, log: seq<Report>, world: World, max: int, now: int)
    requires Agree(log, KeyOf(ctx, product), ctx.destinations) && Honest(world) && world.download.Downloaded?
    requires var x := DecisionFor(ctx, product, log);
             !x.conflict && (x.sameBytesAs == "" || x.sameBytesAs == world.download.md5)
    ensures var x := DecisionFor(ctx, product, log);
            Agree(
              log + (Uploaded(ctx, product, x, Finals(world.sink, x.transfer, max), world.download.md5, now)
                     + Skips(ctx, product, x.skip, now)),
              KeyOf(ctx, product), ctx.destinations)
  {
    var x := DecisionFor(ctx, product, log);
    FinalsDefined(world.sink, x.transfer, map[], 1, max);
    FinalsOutcome(world.sink, x.transfer, map[], 1, max);
    UploadKeepsAgreement(ctx, product, log, Finals(world.sink, x.transfer, max), world.download.md5, now);
  }

  lemma SkipsKeepAgreement(ctx: Context, product: Product, log: seq<Report>, now: int)
    requires Agree(log, KeyOf(ctx, product), ctx.destinations)
    ensures var key := KeyOf(ctx, product);
            var x := DecisionFor(ctx, product, log);
            && Agree(log + Skips(ctx, product, ctx.destinations, now), key, ctx.destinations)
            && Agree(log + Skips(ctx, product, x.skip, now), key, ctx.destinations)
            && Agree(log + (Skips(ctx, product, x.skip, now) + Skips(ctx, product, x.transfer, now)), key, ctx.destinations)
  {
    var key := KeyOf(ctx, product);
    var x := DecisionFor(ctx, product, log);
    forall d
      ensures LastOutcome(log + Skips(ctx, product, ctx.destinations, now), key, d) == LastOutcome(log, key, d)
      ensures LastOutcome(log + Skips(ctx, product, x.skip, now), key, d) == LastOutcome(log, key, d)
      ensures LastOutcome(log + (Skips(ctx, product, x.skip, now) + Skips(ctx, product, x.transfer, now)), key, d)
              == LastOutcome(log, key, d)
    {
      SkippedAfter(ctx, product, log, ctx.destinations, [], now, key, d);
      SkippedAfter(ctx, product, log, x.skip, x.transfer, now, key, d);
    }
  }

  /**
   `skip` without force keeps the archive: when the transfer returns its reports, a destination that holds
   the product is not written to, and its last outcome report stays.
   */
  lemma SkipKeepsArchive(
    ctx: Context, product: Product, log: seq<Report>, world: World, max: int, now: int, d: string)
    requires NamesSafe(log) && ctx.mode.Skip? && !ctx.force && d in ctx.destinations
    requires IsArchived(log, KeyOf(ctx, product), d)
    requires TransferProduct(ctx, product, log, world, max, now).Reported?
    ensures var (reports, attempts) := (TransferProduct(ctx, product, log, world, max, now).reports,
                                        TransferProduct(ctx, product, log, world, max, now).attempts);
            && LastOutcome(log + reports, KeyOf(ctx, product), d) == LastOutcome(log, KeyOf(ctx, product), d)
            && Absent(attempts, d)
  {
    var key := KeyOf(ctx, product);
    if !SafeName(product.name) {
      UnsafeIsNowhere(log, key, d);
    }
    var x := DecisionFor(ctx, product, log);
    assert d !in x.transfer;
    OutsideTransfer(ctx, product, log, world, max, now, d);
  }

  /** What is reported for a product says nothing new about a destination outside the decision. */
  lemma OutsideTransfer(
    ctx: Context, product: Product, log: seq<Report>, world: World, max: int, now: int, d: string)
    requires SafeName(product.name) && d !in DecisionFor(ctx, product, log).transfer
    requires TransferProduct(ctx, product, log, world, max, now).Reported?
    ensures var outcome := TransferProduct(ctx, product, log, world, max, now);
            && LastOutcome(log + outcome.reports, KeyOf(ctx, product), d) == LastOutcome(log, KeyOf(ctx, product), d)
            && Absent(outcome.attempts, d)
  {
    var key := KeyOf(ctx, product);
    var x := DecisionFor(ctx, product, log);
    FailureAfter(ctx, product, log, x.transfer, now, key, d);
    SkippedAfter(ctx, product, log, ctx.destinations, [], now, key, d);
    SkippedAfter(ctx, product, log, x.skip, x.transfer, now, key, d);
    if world.download.Downloaded? {
      FinalsDefined(world.sink, x.transfer, map[], 1, max);
      UploadedAfter(ctx, product, log, x, Finals(world.sink, x.transfer, max), world.download.md5, now, key, d);
      AmongPending(world.sink, x.transfer, map[], 1, max);
    }
  }
}
