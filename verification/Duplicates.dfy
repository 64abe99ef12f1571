/** What to do with a product the archive may already hold, and what the report log says it holds. */
module Duplicates {
  import opened Wrappers
  import Chars

  datatype Status = OK | REPLACED | KO | SKIPPED | REQUESTED {
    predicate Archived() {
      OK? || REPLACED?
    }

    /** The statuses that tell whether the object is there. */
    predicate Outcome() {
      OK? || REPLACED? || KO?
    }
  }

  /** A product of the archive: the backup, the interface and the name (empty when the document gives none). */
  datatype Key = Key(backup: string, interfaceName: string, name: string)

  /**
   An archive report. `filename` names what it is about: the product, or its document where it has no name. `start` is
   when the batch it belongs to was made.
   */
  datatype Report = Report(
    key: Key, filename: string, destination: string, status: Status, md5: string, checksum: string, start: int)

  datatype Mode = Skip | ReplaceIfChanged

  datatype Decision = Decision(
    transfer: seq<string>, skip: seq<string>, conflict: bool, sameBytesAs: string, archived: set<string>)

  // ---------- checksums ----------

  function Normalised(checksum: string): string {
    var s := Chars.Strip(checksum);
    seq(|s|, i requires 0 <= i < |s| => Chars.Lower(s[i]))
  }

  /** Whether two checksums are the same, None when either is unknown (empty). */
  function SameChecksum(first: string, second: string): Option<bool> {
    if Normalised(first) == "" || Normalised(second) == "" then None
    else Some(Normalised(first) == Normalised(second))
  }

  /** The case and the blanks around do not matter, and two known checksums are the same or not. */
  lemma ChecksumFolds(first: string, second: string)
    ensures SameChecksum(first, second).None? <==> Chars.AllSpace(first) || Chars.AllSpace(second)
    ensures SameChecksum(first, second) == Some(true) ==> SameLetters(Chars.Strip(first), Chars.Strip(second))
    ensures SameChecksum(first, second) == Some(false) ==> !SameLetters(Chars.Strip(first), Chars.Strip(second))
  {
    StripBlank(first);
    StripBlank(second);
    var a, b := Chars.Strip(first), Chars.Strip(second);
    if SameLetters(a, b) {
      assert Normalised(first) == Normalised(second);
    } else if |a| == |b| {
      var i :| 0 <= i < |a| && Chars.Lower(a[i]) != Chars.Lower(b[i]);
      assert Normalised(first)[i] != Normalised(second)[i];
    }
  }

  predicate SameLetters(a: string, b: string) {
    |a| == |b| && forall i :: 0 <= i < |a| ==> Chars.Lower(a[i]) == Chars.Lower(b[i])
  }

  lemma {:induction false} StripBlank(s: string)
    ensures Chars.Strip(s) == "" <==> Chars.AllSpace(s)
    decreases |s|
  {
    if s != "" {
      if Chars.IsSpace(s[0]) {
        StripBlank(s[1..]);
        assert forall i :: 1 <= i < |s| ==> s[i] == s[1..][i - 1];
      } else if Chars.IsSpace(s[|s| - 1]) {
        StripBlank(s[..|s| - 1]);
        assert s[..|s| - 1][0] == s[0];
      }
    }
  }

  // ---------- the state of the archive ----------

  predicate About(r: Report, key: Key, destination: string) {
    r.key == key && r.destination == destination && r.status.Outcome()
  }

  /** The last outcome report of a product for a destination, in the order the reports were made. */
  function LastOutcome(log: seq<Report>, key: Key, destination: string): Option<Report> {
    if log == [] then None
    else if About(log[|log| - 1], key, destination) then Some(log[|log| - 1])
    else LastOutcome(log[..|log| - 1], key, destination)
  }

  predicate IsArchived(log: seq<Report>, key: Key, destination: string) {
    var last := LastOutcome(log, key, destination);
    last.Some? && last.value.status.Archived()
  }

  function State(log: seq<Report>, key: Key, destinations: seq<string>): map<string, Report> {
    map d | d in destinations && LastOutcome(log, key, d).Some? :: LastOutcome(log, key, d).value
  }

  // ---------- the decision ----------

  predicate Holds(state: map<string, Report>, destination: string) {
    destination in state && state[destination].status.Archived()
  }

  /** Those to keep, as often and in the order they stand. */
  function Filter(destinations: seq<string>, keep: string -> bool): (r: seq<string>)
    ensures forall d :: d in r <==> d in destinations && keep(d)
    ensures |r| <= |destinations|
    ensures NoDuplicates(destinations) ==> NoDuplicates(r)
  {
    if destinations == [] then []
    else
      var rest := Filter(destinations[1..], keep);
      if keep(destinations[0]) then [destinations[0]] + rest else rest
  }

  /** In this order among `destinations`, with others between them or none. */
  predicate Within(some: seq<string>, destinations: seq<string>) {
    some == []
    || (destinations != []
        && ((some[0] == destinations[0] && Within(some[1..], destinations[1..])) || Within(some, destinations[1..])))
  }

  lemma {:induction false} FilterWithin(destinations: seq<string>, keep: string -> bool)
    ensures Within(Filter(destinations, keep), destinations)
  {
    if destinations != [] {
      FilterWithin(destinations[1..], keep);
      var rest := Filter(destinations[1..], keep);
      assert ([destinations[0]] + rest)[1..] == rest;
    }
  }

  predicate NoDuplicates(destinations: seq<string>) {
    forall i, j :: 0 <= i < j < |destinations| ==> destinations[i] != destinations[j]
  }

  /** The report of the latest start among the destinations, the first of these in their order. */
  function Latest(destinations: seq<string>, state: map<string, Report>): (r: Report)
    requires destinations != [] && forall d :: d in destinations ==> d in state
    ensures exists d :: d in destinations && r == state[d]
    ensures forall d :: d in destinations ==> state[d].start <= r.start
  {
    var first := state[destinations[0]];
    if |destinations| == 1 then first
    else
      var rest := Latest(destinations[1..], state);
      assert forall d :: d in destinations ==> d == destinations[0] || d in destinations[1..];
      if rest.start > first.start then rest else first
  }

  /** The destination whose report decides: of those that hold the product, the first of the latest start. */
  predicate IsReference(destinations: seq<string>, state: map<string, Report>, i: nat) {
    && i < |destinations| && Holds(state, destinations[i])
    && (forall j :: 0 <= j < |destinations| && Holds(state, destinations[j]) ==>
          && state[destinations[j]].start <= state[destinations[i]].start
          && (j < i ==> state[destinations[j]].start < state[destinations[i]].start))
  }

  /** The archive holds the product, and the catalogue announces other bytes now than it did of its latest report. */
  predicate Changed(destinations: seq<string>, state: map<string, Report>, checksum: string) {
    exists i :: 0 <= i < |destinations| && IsReference(destinations, state, i)
                && SameChecksum(checksum, state[destinations[i]].checksum) == Some(false)
  }

  predicate NoneHolds(destinations: seq<string>, state: map<string, Report>) {
    forall d :: d in destinations ==> !Holds(state, d)
  }

  /** The destination whose report decides is among those that hold the product, and its report is the latest. */
  lemma {:induction false} ReferenceIsLatest(destinations: seq<string>, state: map<string, Report>, i: nat)
    requires IsReference(destinations, state, i)
    ensures var archived := Filter(destinations, d => Holds(state, d));
            archived != [] && Latest(archived, state) == state[destinations[i]]
  {
    var rest := destinations[1..];
    var held := Filter(rest, d => Holds(state, d));
    if i > 0 {
      assert IsReference(rest, state, i - 1);
      ReferenceIsLatest(rest, state, i - 1);
      assert ([destinations[0]] + held)[1..] == held;
    } else {
      assert ([destinations[0]] + held)[1..] == held;
      assert forall d :: d in held ==> d in rest;
    }
  }

  lemma {:induction false} SomeReference(destinations: seq<string>, state: map<string, Report>) returns (i: nat)
    requires !NoneHolds(destinations, state)
    ensures IsReference(destinations, state, i)
    decreases |destinations|
  {
    var n := |destinations| - 1;
    var before := destinations[..n];
    assert forall d :: d in destinations ==> d in before || d == destinations[n];
    if NoneHolds(before, state) {
      i := n;
    } else {
      i := SomeReference(before, state);
      assert forall j :: 0 <= j < n ==> destinations[j] == before[j];
      if Holds(state, destinations[n]) && state[destinations[n]].start > state[destinations[i]].start {
        i := n;
      }
    }
  }

  lemma ReferencesAreLatest(destinations: seq<string>, state: map<string, Report>)
    ensures forall i: nat :: IsReference(destinations, state, i) ==>
                               var archived := Filter(destinations, d => Holds(state, d));
                               archived != [] && Latest(archived, state) == state[destinations[i]]
    ensures NoneHolds(destinations, state) || exists i: nat :: IsReference(destinations, state, i)
  {
    forall i: nat | IsReference(destinations, state, i)
      ensures var archived := Filter(destinations, d => Holds(state, d));
              archived != [] && Latest(archived, state) == state[destinations[i]]
    {
      ReferenceIsLatest(destinations, state, i);
    }
    if !NoneHolds(destinations, state) {
      var i := SomeReference(destinations, state);
    }
  }

  /** The decision, from the destinations that hold the product and the latest of their reports. */
  function Choose(
    destinations: seq<string>, archived: seq<string>, missing: seq<string>, reference: Option<Report>, mode: Mode,
    force: bool, checksum: string): Decision
  {
    var held := set d | d in archived;
    if force || reference.None? then Decision(destinations, [], false, "", held)
    else
      var changed := SameChecksum(checksum, reference.value.checksum) == Some(false);
      if changed && mode.ReplaceIfChanged? then Decision(destinations, [], false, "", held)
      else if changed then Decision([], [], true, "", held)
      else Decision(missing, archived, false, reference.value.md5, held)
  }

  function Decide(
    destinations: seq<string>, state: map<string, Report>, mode: Mode, force: bool, checksum: string): Decision
  {
    var archived := Filter(destinations, d => Holds(state, d));
    var missing := Filter(destinations, d => !Holds(state, d));
    var reference := if archived == [] then None else Some(Latest(archived, state));
    Choose(destinations, archived, missing, reference, mode, force, checksum)
  }

  /**
   The decision, case by case. With force, of a product no destination holds, and of one that changed where changes
   replace, every destination is transferred to. Where a change does not replace, it is a conflict. Else the destinations
   that hold the product are skipped, and the others are to get the bytes of the latest report. So each destination is
   transferred to or skipped, never both, but for a conflict.
   */
  lemma DecideExactly(destinations: seq<string>, state: map<string, Report>, mode: Mode, force: bool, checksum: string)
    ensures var x := Decide(destinations, state, mode, force, checksum);
            var anew := force || NoneHolds(destinations, state)
                            || (mode.ReplaceIfChanged? && Changed(destinations, state, checksum));
            && (anew ==> x.transfer == destinations && x.skip == [] && !x.conflict && x.sameBytesAs == "")
            && (x.conflict <==> !force && mode.Skip? && Changed(destinations, state, checksum))
            && (x.conflict ==> x.transfer == [] && x.skip == [])
            && (!anew && !x.conflict ==>
                  && x.transfer == Filter(destinations, d => !Holds(state, d))
                  && x.skip == Filter(destinations, d => Holds(state, d))
                  && Within(x.transfer, destinations) && Within(x.skip, destinations)
                  && exists i: nat :: IsReference(destinations, state, i) && x.sameBytesAs == state[destinations[i]].md5)
            && (forall d :: d in x.archived <==> d in destinations && Holds(state, d))
            && (!x.conflict ==> forall d :: d in destinations <==> (d in x.transfer || d in x.skip))
            && (forall d :: d in x.transfer ==> d !in x.skip)
  {
    ReferencesAreLatest(destinations, state);
    FilterWithin(destinations, d => Holds(state, d));
    FilterWithin(destinations, d => !Holds(state, d));
  }

  // ---------- the log grows ----------

  /** The reports a batch holds about a product and a destination are the first thing the next read sees. */
  lemma {:induction false} LastOutcomeAppend(log: seq<Report>, batch: seq<Report>, key: Key, destination: string)
    ensures LastOutcome(log + batch, key, destination) ==
            if LastOutcome(batch, key, destination).Some? then LastOutcome(batch, key, destination)
            else LastOutcome(log, key, destination)
    decreases |batch|
  {
    if batch == [] {
      assert log + batch == log;
    } else {
      var all := log + batch;
      assert all[..|all| - 1] == log + batch[..|batch| - 1];
      LastOutcomeAppend(log, batch[..|batch| - 1], key, destination);
    }
  }

  /** The last outcome report is a report of the log about the product and the destination. */
  lemma {:induction false} LastOutcomeIs(log: seq<Report>, key: Key, destination: string)
    ensures LastOutcome(log, key, destination).Some? <==> exists r :: r in log && About(r, key, destination)
    ensures LastOutcome(log, key, destination).Some? ==>
              var r := LastOutcome(log, key, destination).value; r in log && About(r, key, destination)
  {
    if log != [] {
      LastOutcomeIs(log[..|log| - 1], key, destination);
      assert forall r :: r in log <==> r in log[..|log| - 1] || r == log[|log| - 1];
    }
  }

  // ---------- reading the state back from the index ----------

  predicate SameTarget(r: Report, s: Report) {
    r.key == s.key && r.destination == s.destination && r.status.Outcome() && s.status.Outcome()
  }

  /** Two outcome reports of the product for a destination are never of the same time, and the clock moves forward. */
  predicate Clocked(log: seq<Report>, key: Key) {
    forall i, j :: 0 <= i < j < |log| && log[i].key == key && SameTarget(log[i], log[j]) ==> log[i].start < log[j].start
  }

  /** What the search returns: the outcome reports of the product, the latest first, ties in any order. */
  ghost predicate Hits(hits: seq<Report>, log: seq<Report>, key: Key) {
    && (forall r :: r in hits <==> r in log && r.key == key && r.status.Outcome())
    && (forall i, j :: 0 <= i < j < |hits| ==> hits[i].start >= hits[j].start)
  }

  /** What the search finds, when it stops early: the latest of them, one at least of each destination that has any. */
  ghost predicate Enough(hits: seq<Report>, log: seq<Report>, key: Key) {
    && (exists all :: Hits(all, log, key) && hits <= all)
    && (forall d :: LastOutcome(log, key, d).Some? ==> exists r :: r in hits && r.destination == d)
  }

  /**
   The loop that keeps the first hit of each destination, over the first hits of the search: what it reads of a
   destination is its last outcome, and it misses one exactly when none of its reports is among the hits read.
   */
  method ArchivedState(hits: seq<Report>, ghost all: seq<Report>, ghost log: seq<Report>, ghost key: Key)
    returns (state: map<string, Report>)
    requires hits <= all && Hits(all, log, key) && Clocked(log, key)
    ensures forall d :: d in state <==> exists r :: r in hits && r.destination == d
    ensures forall d :: d in state ==> LastOutcome(log, key, d) == Some(state[d])
    ensures hits == all ==> forall d :: d in state <==> LastOutcome(log, key, d).Some?
  {
    state := map[];
    for i := 0 to |hits|
      invariant forall d :: d in state <==> exists j :: 0 <= j < i && hits[j].destination == d
      invariant forall d :: d in state ==> state[d] in hits && state[d].destination == d
      invariant forall d, j :: d in state && 0 <= j < |all| && all[j].destination == d ==> all[j].start <= state[d].start
    {
      var source := hits[i];
      if source.destination !in state {
        state := state[source.destination := source];
      }
    }
    forall d
      ensures d in state ==> LastOutcome(log, key, d) == Some(state[d])
      ensures hits == all && LastOutcome(log, key, d).Some? ==> d in state
    {
      LastOutcomeIs(log, key, d);
      if d in state {
        assert state[d] in all;
        LatestIsLast(log, key, d, state[d]);
      }
      if LastOutcome(log, key, d).Some? {
        assert LastOutcome(log, key, d).value in all;
      }
    }
  }

  /** Of two states that agree on the destinations, the decision is the same. */
  lemma {:induction false} FilterSame(destinations: seq<string>, f: string -> bool, g: string -> bool)
    requires forall d :: d in destinations ==> f(d) == g(d)
    ensures Filter(destinations, f) == Filter(destinations, g)
  {
    if destinations != [] {
      assert forall d :: d in destinations[1..] ==> d in destinations;
      FilterSame(destinations[1..], f, g);
    }
  }

  lemma {:induction false} LatestSame(destinations: seq<string>, a: map<string, Report>, b: map<string, Report>)
    requires destinations != [] && forall d :: d in destinations ==> d in a && d in b && a[d] == b[d]
    ensures Latest(destinations, a) == Latest(destinations, b)
  {
    if |destinations| > 1 {
      assert forall d :: d in destinations[1..] ==> d in destinations;
      LatestSame(destinations[1..], a, b);
    }
  }

  /** What a read keeps beyond the destinations of the request changes no decision. */
  lemma DecideSame(
    destinations: seq<string>, a: map<string, Report>, b: map<string, Report>, mode: Mode, force: bool, checksum: string)
    requires forall d :: d in destinations ==> (d in a <==> d in b) && (d in a ==> a[d] == b[d])
    ensures Decide(destinations, a, mode, force, checksum) == Decide(destinations, b, mode, force, checksum)
  {
    FilterSame(destinations, d => Holds(a, d), d => Holds(b, d));
    FilterSame(destinations, d => !Holds(a, d), d => !Holds(b, d));
    var archived := Filter(destinations, d => Holds(a, d));
    if archived != [] {
      LatestSame(archived, a, b);
    }
  }

  /** The report of the latest start is the last one. */
  lemma {:induction false} LatestIsLast(log: seq<Report>, key: Key, destination: string, r: Report)
    requires Clocked(log, key) && r in log && About(r, key, destination)
    requires forall x :: x in log && About(x, key, destination) ==> x.start <= r.start
    ensures LastOutcome(log, key, destination) == Some(r)
  {
    var n := |log| - 1;
    if !About(log[n], key, destination) {
      assert forall x :: x in log[..n] ==> x in log;
      LatestIsLast(log[..n], key, destination, r);
    } else {
      var i :| 0 <= i < |log| && log[i] == r;
      assert log[n].start <= r.start;
    }
  }
}
