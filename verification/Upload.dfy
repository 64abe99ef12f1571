/** The upload loop: the destinations that failed are tried again alone, a bounded number of times. */
module Upload {
  import opened Duplicates

  /** What a sink on some destinations does at an attempt: a status for some of them, or an exception. */
  datatype SinkOutcome = Reports(statuses: seq<(string, Status)>) | Raised

  type Sink = (nat, seq<string>) -> SinkOutcome

  /** A sink reports on the destinations it was built on, once at most. */
  ghost predicate OwnReports(sink: Sink) {
    forall attempt, pending :: OwnReportsAt(sink, attempt, pending)
  }

  predicate OwnReportsAt(sink: Sink, attempt: nat, pending: seq<string>) {
    sink(attempt, pending).Reports? ==>
      var statuses := sink(attempt, pending).statuses;
      && (forall i :: 0 <= i < |statuses| ==> statuses[i].0 in pending)
      && (forall i, j :: 0 <= i < j < |statuses| ==> statuses[i].0 != statuses[j].0)
  }

  /** The statuses of an attempt: KO for every destination when the sink raises. */
  function Attempt(sink: Sink, attempt: nat, pending: seq<string>): seq<(string, Status)> {
    match sink(attempt, pending)
    case Reports(statuses) => statuses
    case Raised => seq(|pending|, i requires 0 <= i < |pending| => (pending[i], KO))
  }

  function Absorb(finals: map<string, Status>, statuses: seq<(string, Status)>): map<string, Status>
    decreases |statuses|
  {
    if statuses == [] then finals else Absorb(finals[statuses[0].0 := statuses[0].1], statuses[1..])
  }

  function Done(finals: map<string, Status>, destination: string): bool {
    destination in finals && finals[destination] == OK
  }

  function StillPending(finals: map<string, Status>, pending: seq<string>): seq<string> {
    Filter(pending, d => !Done(finals, d))
  }

  /** The destinations of each attempt from `attempt` on, and what is known after the last one. */
  function UploadFrom(sink: Sink, pending: seq<string>, finals: map<string, Status>, attempt: nat, max: int)
    : (r: (seq<seq<string>>, map<string, Status>, seq<string>))
    ensures |r.0| <= (if attempt <= max then max - attempt + 1 else 0)
    ensures r.0 != [] ==> r.0[0] == pending
    ensures r.0 == [] ==> attempt > max
    decreases max - attempt
  {
    if attempt > max then ([], finals, pending)
    else
      var known := Absorb(finals, Attempt(sink, attempt, pending));
      var left := StillPending(known, pending);
      if left == [] then ([pending], known, [])
      else
        var rest := UploadFrom(sink, left, known, attempt + 1, max);
        ([pending] + rest.0, rest.1, rest.2)
  }

  /** A destination that never answered is a KO. */
  function Complete(finals: map<string, Status>, pending: seq<string>): map<string, Status> {
    finals + map d | d in pending && d !in finals :: KO
  }

  function Finals(sink: Sink, destinations: seq<string>, max: int): map<string, Status> {
    var r := UploadFrom(sink, destinations, map[], 1, max);
    Complete(r.1, r.2)
  }

  /** The destinations handed to the sink, attempt by attempt. */
  function Attempts(sink: Sink, destinations: seq<string>, max: int): seq<seq<string>> {
    UploadFrom(sink, destinations, map[], 1, max).0
  }

  /** One turn of the loop, as the accumulated attempts see it. */
  lemma Turn(
    sink: Sink, attempts: seq<seq<string>>, pending: seq<string>, finals: map<string, Status>, attempt: nat, max: int)
    requires attempt <= max
    ensures var known := Absorb(finals, Attempt(sink, attempt, pending));
            var left := StillPending(known, pending);
            var r := UploadFrom(sink, pending, finals, attempt, max);
            if left == [] then (attempts + r.0, r.1, r.2) == (attempts + [pending], known, left)
            else
              var rest := UploadFrom(sink, left, known, attempt + 1, max);
              (attempts + r.0, r.1, r.2) == ((attempts + [pending]) + rest.0, rest.1, rest.2)
  {
    var known := Absorb(finals, Attempt(sink, attempt, pending));
    var rest := UploadFrom(sink, StillPending(known, pending), known, attempt + 1, max);
    assert attempts + ([pending] + rest.0) == (attempts + [pending]) + rest.0;
  }

  method UploadTo(sink: Sink, destinations: seq<string>, max: int)
    returns (finals: map<string, Status>, attempts: seq<seq<string>>)
    ensures finals == Finals(sink, destinations, max)
    ensures attempts == Attempts(sink, destinations, max)
  {
    finals := map[];
    attempts := [];
    var pending := destinations;
    var attempt := 1;
    var done := false;
    ghost var whole := UploadFrom(sink, destinations, map[], 1, max);
    assert attempts + whole.0 == whole.0;
    while attempt <= max && !done
      invariant attempt >= 1
      invariant done ==> whole == (attempts, finals, pending)
      invariant !done ==> var rest := UploadFrom(sink, pending, finals, attempt, max);
                          whole == (attempts + rest.0, rest.1, rest.2)
      decreases max - attempt, !done
    {
      Turn(sink, attempts, pending, finals, attempt, max);
      attempts := attempts + [pending];
      finals := AbsorbReports(finals, Attempt(sink, attempt, pending));
      pending := StillPending(finals, pending);
      if pending == [] {
        done := true;
      } else {
        attempt := attempt + 1;
      }
    }
    assert attempts + [] == attempts;
    finals := Complete(finals, pending);
  }

  /** The reports of an attempt, one after the other: the last one of a destination stays. */
  method AbsorbReports(finals: map<string, Status>, reports: seq<(string, Status)>) returns (known: map<string, Status>)
    ensures known == Absorb(finals, reports)
  {
    known := finals;
    for i := 0 to |reports|
      invariant Absorb(known, reports[i..]) == Absorb(finals, reports)
    {
      known := known[reports[i].0 := reports[i].1];
      assert reports[i..][1..] == reports[i + 1..];
    }
    assert reports[|reports|..] == [];
  }

  // ---------- what the loop guarantees ----------

  /** Every requested destination has a final status, whatever the sink does. */
  lemma {:induction false} FinalsDefined(sink: Sink, pending: seq<string>, finals: map<string, Status>, attempt: nat, max: int)
    ensures var r := UploadFrom(sink, pending, finals, attempt, max);
            forall d :: d in pending ==> d in Complete(r.1, r.2)
    decreases max - attempt
  {
    if attempt <= max {
      var known := Absorb(finals, Attempt(sink, attempt, pending));
      var left := StillPending(known, pending);
      FinalsDefined(sink, left, known, attempt + 1, max);
      DoneStays(sink, left, known, attempt + 1, max);
    }
  }

  /** The destinations that are not pending keep their status: the attempts after do not write there. */
  lemma {:induction false} DoneStays(sink: Sink, pending: seq<string>, finals: map<string, Status>, attempt: nat, max: int)
    ensures var r := UploadFrom(sink, pending, finals, attempt, max);
            forall d :: d in finals ==> d in r.1
    decreases max - attempt
  {
    if attempt <= max {
      var known := Absorb(finals, Attempt(sink, attempt, pending));
      AbsorbKeeps(finals, Attempt(sink, attempt, pending));
      DoneStays(sink, StillPending(known, pending), known, attempt + 1, max);
    }
  }

  lemma {:induction false} AbsorbKeeps(finals: map<string, Status>, statuses: seq<(string, Status)>)
    ensures forall d :: d in finals ==> d in Absorb(finals, statuses)
    ensures forall d :: d in finals && (forall i :: 0 <= i < |statuses| ==> statuses[i].0 != d) ==>
                          Absorb(finals, statuses)[d] == finals[d]
    ensures forall d :: d in Absorb(finals, statuses) && d !in finals ==> exists i :: 0 <= i < |statuses| && statuses[i].0 == d
    decreases |statuses|
  {
    if statuses != [] {
      var next := finals[statuses[0].0 := statuses[0].1];
      AbsorbKeeps(next, statuses[1..]);
      forall d | d in Absorb(finals, statuses) && d !in finals
        ensures exists i :: 0 <= i < |statuses| && statuses[i].0 == d
      {
        if d in next {
          assert statuses[0].0 == d;
        } else {
          var i :| 0 <= i < |statuses[1..]| && statuses[1..][i].0 == d;
          assert statuses[i + 1].0 == d;
        }
      }
    }
  }

  /** An attempt on `pending` wrote to `d` and was told it is there. */
  predicate TellsOk(sink: Sink, attempt: nat, pending: seq<string>, d: string) {
    d in pending && sink(attempt, pending).Reports? && (d, OK) in sink(attempt, pending).statuses
  }

  /** Some attempt, the first being number `attempt`, wrote to `d`. */
  predicate Written(sink: Sink, attempt: nat, attempts: seq<seq<string>>, d: string)
    decreases |attempts|
  {
    attempts != [] && (TellsOk(sink, attempt, attempts[0], d) || Written(sink, attempt + 1, attempts[1..], d))
  }

  predicate Among(attempts: seq<seq<string>>, destinations: seq<string>) {
    forall i, d :: 0 <= i < |attempts| && d in attempts[i] ==> d in destinations
  }

  predicate Absent(attempts: seq<seq<string>>, d: string) {
    forall i :: 0 <= i < |attempts| ==> d !in attempts[i]
  }

  /** No attempt writes again to a destination that was written. */
  predicate NeverAgain(sink: Sink, attempt: nat, attempts: seq<seq<string>>)
    decreases |attempts|
  {
    attempts != [] ==>
      && (forall d :: d in attempts[0] && TellsOk(sink, attempt, attempts[0], d) ==> Absent(attempts[1..], d))
      && NeverAgain(sink, attempt + 1, attempts[1..])
  }

  lemma {:induction false} AbsorbOwn(finals: map<string, Status>, statuses: seq<(string, Status)>)
    requires forall i, j :: 0 <= i < j < |statuses| ==> statuses[i].0 != statuses[j].0
    ensures forall i :: 0 <= i < |statuses| ==>
                          statuses[i].0 in Absorb(finals, statuses) && Absorb(finals, statuses)[statuses[i].0] == statuses[i].1
    decreases |statuses|
  {
    if statuses != [] {
      var next := finals[statuses[0].0 := statuses[0].1];
      assert Absorb(finals, statuses) == Absorb(next, statuses[1..]);
      AbsorbOwn(next, statuses[1..]);
      AbsorbKeeps(next, statuses[1..]);
      assert forall j :: 0 <= j < |statuses[1..]| ==> statuses[1..][j].0 == statuses[j + 1].0 != statuses[0].0;
      forall i | 0 <= i < |statuses|
        ensures statuses[i].0 in Absorb(finals, statuses) && Absorb(finals, statuses)[statuses[i].0] == statuses[i].1
      {
        if i == 0 {
          assert statuses[0].0 in next && next[statuses[0].0] == statuses[0].1;
        } else {
          assert statuses[i] == statuses[1..][i - 1];
        }
      }
    }
  }

  /** After an attempt, a destination that was pending is done exactly when the sink said so. */
  lemma DoneAfter(sink: Sink, pending: seq<string>, finals: map<string, Status>, attempt: nat, d: string)
    requires OwnReports(sink) && d in pending && !Done(finals, d)
    ensures var known := Absorb(finals, Attempt(sink, attempt, pending));
            Done(known, d) <==> TellsOk(sink, attempt, pending, d)
  {
    assert OwnReportsAt(sink, attempt, pending);
    var statuses := Attempt(sink, attempt, pending);
    AbsorbKeeps(finals, statuses);
    match sink(attempt, pending) {
      case Reports(_) =>
        AbsorbOwn(finals, statuses);
        assert forall i :: 0 <= i < |statuses| && statuses[i].0 == d ==> statuses[i] == (d, statuses[i].1);
      case Raised => RaisedIsKo(finals, pending, d);
    }
  }

  lemma {:induction false} RaisedIsKo(finals: map<string, Status>, pending: seq<string>, d: string)
    ensures d in pending ==> !Done(Absorb(finals, seq(|pending|, i requires 0 <= i < |pending| => (pending[i], KO))), d)
    ensures d !in pending ==>
              Done(Absorb(finals, seq(|pending|, i requires 0 <= i < |pending| => (pending[i], KO))), d) == Done(finals, d)
    decreases |pending|
  {
    if pending != [] {
      var all := seq(|pending|, i requires 0 <= i < |pending| => (pending[i], KO));
      var rest := pending[1..];
      assert all[1..] == seq(|rest|, i requires 0 <= i < |rest| => (rest[i], KO));
      RaisedIsKo(finals[pending[0] := KO], rest, d);
    }
  }

  lemma {:induction false} AmongPending(sink: Sink, pending: seq<string>, finals: map<string, Status>, attempt: nat, max: int)
    ensures Among(UploadFrom(sink, pending, finals, attempt, max).0, pending)
    decreases max - attempt
  {
    if attempt <= max {
      var known := Absorb(finals, Attempt(sink, attempt, pending));
      AmongPending(sink, StillPending(known, pending), known, attempt + 1, max);
    }
  }

  /** The loop only touches what is pending. */
  lemma {:induction false} OthersStay(
    sink: Sink, pending: seq<string>, finals: map<string, Status>, attempt: nat, max: int, d: string)
    requires OwnReports(sink) && d in finals && d !in pending
    ensures var r := UploadFrom(sink, pending, finals, attempt, max);
            d in r.1 && d !in r.2 && r.1[d] == finals[d] && Absent(r.0, d)
    decreases max - attempt
  {
    if attempt <= max {
      var statuses := Attempt(sink, attempt, pending);
      var known := Absorb(finals, statuses);
      assert OwnReportsAt(sink, attempt, pending);
      AbsorbKeeps(finals, statuses);
      OthersStay(sink, StillPending(known, pending), known, attempt + 1, max, d);
    }
  }

  /** A destination ends OK exactly when an attempt wrote it. */
  lemma {:induction false} OkWhenWritten(
    sink: Sink, pending: seq<string>, finals: map<string, Status>, attempt: nat, max: int, d: string)
    requires OwnReports(sink) && d in pending && !Done(finals, d)
    ensures var (attempts, known, left) := UploadFrom(sink, pending, finals, attempt, max);
            Done(Complete(known, left), d) <==> Written(sink, attempt, attempts, d)
    decreases max - attempt
  {
    if attempt <= max {
      var known := Absorb(finals, Attempt(sink, attempt, pending));
      var left := StillPending(known, pending);
      DoneAfter(sink, pending, finals, attempt, d);
      var rest := UploadFrom(sink, left, known, attempt + 1, max);
      if left != [] {
        assert ([pending] + rest.0)[1..] == rest.0;
        if d in left {
          OkWhenWritten(sink, left, known, attempt + 1, max, d);
        } else {
          OthersStay(sink, left, known, attempt + 1, max, d);
          AbsentUnwritten(sink, attempt + 1, rest.0, d);
        }
      }
    }
  }

  lemma {:induction false} AbsentUnwritten(sink: Sink, attempt: nat, attempts: seq<seq<string>>, d: string)
    requires Absent(attempts, d)
    ensures !Written(sink, attempt, attempts, d)
    decreases |attempts|
  {
    if attempts != [] {
      AbsentUnwritten(sink, attempt + 1, attempts[1..], d);
    }
  }

  /** A destination that is written is left alone by the attempts that follow. */
  lemma {:induction false} WrittenOnce(sink: Sink, pending: seq<string>, finals: map<string, Status>, attempt: nat, max: int)
    requires OwnReports(sink) && forall d :: d in pending ==> !Done(finals, d)
    ensures NeverAgain(sink, attempt, UploadFrom(sink, pending, finals, attempt, max).0)
    decreases max - attempt
  {
    if attempt <= max {
      var known := Absorb(finals, Attempt(sink, attempt, pending));
      var left := StillPending(known, pending);
      var rest := UploadFrom(sink, left, known, attempt + 1, max);
      assert ([pending] + rest.0)[1..] == rest.0;
      forall d | d in pending && TellsOk(sink, attempt, pending, d) && left != []
        ensures Absent(rest.0, d)
      {
        DoneAfter(sink, pending, finals, attempt, d);
        OthersStay(sink, left, known, attempt + 1, max, d);
      }
      WrittenOnce(sink, left, known, attempt + 1, max);
    }
  }

  /** A destination that no attempt wrote to was handed to the sink at each of all the attempts there may be. */
  predicate Insisted(attempts: seq<seq<string>>, count: int, d: string) {
    |attempts| == count && forall i :: 0 <= i < |attempts| ==> d in attempts[i]
  }

  lemma {:induction false} TriedToTheEnd(
    sink: Sink, pending: seq<string>, finals: map<string, Status>, attempt: nat, max: int, d: string)
    requires OwnReports(sink) && d in pending && !Done(finals, d)
    ensures var (attempts, known, left) := UploadFrom(sink, pending, finals, attempt, max);
            !Done(Complete(known, left), d) ==> Insisted(attempts, if attempt <= max then max - attempt + 1 else 0, d)
    decreases max - attempt
  {
    if attempt <= max {
      var known := Absorb(finals, Attempt(sink, attempt, pending));
      var left := StillPending(known, pending);
      if left != [] {
        if d in left {
          TriedToTheEnd(sink, left, known, attempt + 1, max, d);
        } else {
          OthersStay(sink, left, known, attempt + 1, max, d);
        }
      }
    }
  }

  /**
   The loop is right, for any sink that reports on its own destinations, or raises, or omits some: each
   requested destination has a final status, OK exactly when an attempt wrote it, none is written again
   after that, one that is never written is tried `max` times, and there are at most `max` attempts, the first one on all
   the requested destinations and none on others.
   */
  lemma UploadCorrect(sink: Sink, destinations: seq<string>, max: int)
    requires OwnReports(sink)
    ensures var finals := Finals(sink, destinations, max);
            var attempts := Attempts(sink, destinations, max);
            && (forall d :: d in destinations ==> d in finals && (finals[d] == OK <==> Written(sink, 1, attempts, d)))
            && (forall d :: d in destinations && finals[d] != OK ==> Insisted(attempts, if max > 0 then max else 0, d))
            && NeverAgain(sink, 1, attempts)
            && Among(attempts, destinations)
            && |attempts| <= (if max > 0 then max else 0)
            && (max > 0 ==> attempts != [] && attempts[0] == destinations)
  {
    FinalsDefined(sink, destinations, map[], 1, max);
    forall d | d in destinations
      ensures Done(Finals(sink, destinations, max), d) <==> Written(sink, 1, Attempts(sink, destinations, max), d)
      ensures !Done(Finals(sink, destinations, max), d) ==>
                Insisted(Attempts(sink, destinations, max), if max > 0 then max else 0, d)
    {
      OkWhenWritten(sink, destinations, map[], 1, max, d);
      TriedToTheEnd(sink, destinations, map[], 1, max, d);
    }
    WrittenOnce(sink, destinations, map[], 1, max);
    AmongPending(sink, destinations, map[], 1, max);
  }
}
