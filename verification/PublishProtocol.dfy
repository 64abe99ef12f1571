/**
 Publishing as a protocol of many publishers on one index: each reads the history, creates the next
 version, then clears the flag of the lower versions one at a time, and may stop for good between any
 two steps.
 */
module PublishProtocol {
  import opened Wrappers
  import opened ConfigIndex

  datatype Phase =
    | Starting
    | HasRead(current: nat)
    | HasCreated(version: nat)
    | Clearing(version: nat, todo: set<nat>)
    | Published(version: nat)
    | Conflict
    | Crashed

  /** A call of `publish`: what it writes, the version the edit started from, and how far it is. */
  datatype Publisher = Publisher(
    path: string, content: Content, services: set<string>, deleted: bool, base: Option<nat>, phase: Phase)
  {
    /** The version it created, once it has. */
    function Version(): Option<nat> {
      match phase
      case HasCreated(v) => Some(v)
      case Clearing(v, _) => Some(v)
      case Published(v) => Some(v)
      case _ => None
    }

    function NewDocument(version: nat): Document {
      Document(path, version, true, deleted, services, content)
    }
  }

  datatype State = State(index: Index, publishers: map<nat, Publisher>)

  // ---------- the steps ----------

  predicate Moves(s: State, t: State, p: nat, phase: Phase) {
    && p in s.publishers
    && t.publishers == s.publishers[p := s.publishers[p].(phase := phase)]
  }

  /** A new call starts. */
  predicate Start(s: State, t: State, p: nat, publisher: Publisher) {
    && p !in s.publishers && publisher.phase == Starting
    && t == State(s.index, s.publishers[p := publisher])
  }

  /** The history is read: the search may miss any version, so what it takes for current is any version or none. */
  predicate Read(s: State, t: State, p: nat, current: nat) {
    && p in s.publishers && s.publishers[p].phase == Starting
    && (current == 0 || Id(s.publishers[p].path, current) in s.index)
    && t.index == s.index
    && var base := s.publishers[p].base;
       Moves(s, t, p, if base.Some? && base.value != current then Conflict else HasRead(current))
  }

  /** The next version is created, unless it exists. */
  predicate Create(s: State, t: State, p: nat) {
    && p in s.publishers && s.publishers[p].phase.HasRead?
    && var publisher := s.publishers[p];
       var version := publisher.phase.current + 1;
       var id := Id(publisher.path, version);
       if id in s.index then t.index == s.index && Moves(s, t, p, Conflict)
       else t.index == s.index[id := publisher.NewDocument(version)] && Moves(s, t, p, HasCreated(version))
  }

  /** The flagged versions are searched: no flagged lower version is missed, a stale flag may be seen. */
  predicate Scan(s: State, t: State, p: nat, todo: set<nat>) {
    && p in s.publishers && s.publishers[p].phase.HasCreated?
    && var path := s.publishers[p].path;
       var version := s.publishers[p].phase.version;
       && (forall v :: v in todo ==> v < version && Id(path, v) in s.index)
       && (forall id :: id in s.index && id.path == path && id.version < version && s.index[id].latest ==> id.version in todo)
       && t.index == s.index && Moves(s, t, p, Clearing(version, todo))
  }

  /** One flag is cleared. */
  predicate Clear(s: State, t: State, p: nat, v: nat) {
    && p in s.publishers && s.publishers[p].phase.Clearing? && v in s.publishers[p].phase.todo
    && var phase := s.publishers[p].phase;
       var id := Id(s.publishers[p].path, v);
       && id in s.index
       && t.index == s.index[id := s.index[id].(latest := false)]
       && Moves(s, t, p, Clearing(phase.version, phase.todo - {v}))
  }

  predicate Finish(s: State, t: State, p: nat) {
    && p in s.publishers && s.publishers[p].phase.Clearing? && s.publishers[p].phase.todo == {}
    && t.index == s.index && Moves(s, t, p, Published(s.publishers[p].phase.version))
  }

  /** A publisher stops for good: refused by a check, or dead. */
  predicate Crash(s: State, t: State, p: nat) {
    && p in s.publishers && !s.publishers[p].phase.Published?
    && t.index == s.index && Moves(s, t, p, Crashed)
  }

  datatype Step =
    | StartStep(publisher: Publisher)
    | ReadStep(current: nat)
    | CreateStep
    | ScanStep(todo: set<nat>)
    | ClearStep(version: nat)
    | FinishStep
    | CrashStep

  predicate Next(s: State, t: State, p: nat, step: Step) {
    match step
    case StartStep(publisher) => Start(s, t, p, publisher)
    case ReadStep(current) => Read(s, t, p, current)
    case CreateStep => Create(s, t, p)
    case ScanStep(todo) => Scan(s, t, p, todo)
    case ClearStep(version) => Clear(s, t, p, version)
    case FinishStep => Finish(s, t, p)
    case CrashStep => Crash(s, t, p)
  }

  predicate Init(s: State) {
    s == State(map[], map[])
  }

  /** A run, with the publisher and the step of each move. */
  predicate Run(states: seq<State>, moves: seq<(nat, Step)>) {
    && |states| == |moves| + 1 && Init(states[0])
    && forall i :: 0 <= i < |moves| ==> Next(states[i], states[i + 1], moves[i].0, moves[i].1)
  }

  // ---------- what holds in every state ----------

  /** Every version but the first follows another. */
  predicate Follows(index: Index, id: Id) {
    id.version > 1 ==> Id(id.path, id.version - 1) in index
  }

  /** Every document is filed under its path and version, and follows the version before. */
  predicate Contiguous(index: Index) {
    && (forall id :: id in index ==> index[id].path == id.path && index[id].version == id.version >= 1)
    && (forall id {:trigger Follows(index, id)} :: id in index ==> Follows(index, id))
  }

  /** The highest version of a path: the one no other follows. */
  predicate IsHead(index: Index, path: string, version: nat) {
    (version == 0 || Id(path, version) in index) && Id(path, version + 1) !in index
  }

  /** A version no other follows is flagged. */
  predicate FlaggedIfHead(index: Index, id: Id)
    requires id in index
  {
    Id(id.path, id.version + 1) !in index ==> index[id].latest
  }

  predicate HeadsFlagged(index: Index) {
    forall id {:trigger FlaggedIfHead(index, id)} :: id in index ==> FlaggedIfHead(index, id)
  }

  /** No version of the path below `version` is flagged, but for those of `except`. */
  predicate ClearedBelow(index: Index, path: string, version: nat, except: set<nat>) {
    forall id :: id in index && id.path == path && id.version < version && id.version !in except ==> !index[id].latest
  }

  predicate PublisherInv(index: Index, publisher: Publisher) {
    && (publisher.phase.HasRead? ==>
          var current := publisher.phase.current;
          && (current == 0 || Id(publisher.path, current) in index)
          && (publisher.base.Some? ==> publisher.base.value == current))
    && (publisher.Version().Some? ==>
          var v := publisher.Version().value;
          var id := Id(publisher.path, v);
          && v >= 1 && id in index
          && index[id].(latest := true) == publisher.NewDocument(v)
          && (publisher.base.Some? ==> publisher.base.value == v - 1))
    && (publisher.phase.Clearing? ==>
          && (forall v :: v in publisher.phase.todo ==> v < publisher.phase.version && Id(publisher.path, v) in index)
          && ClearedBelow(index, publisher.path, publisher.phase.version, publisher.phase.todo))
    && (publisher.phase.Published? ==> ClearedBelow(index, publisher.path, publisher.phase.version, {}))
  }

  predicate Inv(s: State) {
    && Contiguous(s.index) && HeadsFlagged(s.index)
    && forall p :: p in s.publishers ==> PublisherInv(s.index, s.publishers[p])
  }

  /** Documents are never removed nor changed, but for the flag, which is only ever cleared. */
  predicate Grows(before: Index, after: Index) {
    forall id :: id in before ==>
                   && id in after
                   && after[id].(latest := before[id].latest) == before[id]
                   && (after[id].latest ==> before[id].latest)
  }

  // ---------- every step keeps it ----------

  /** In a contiguous index, every version below an existing one exists. */
  lemma {:induction false} Below(index: Index, path: string, version: nat, v: nat)
    requires Contiguous(index) && Id(path, version) in index && 1 <= v <= version
    ensures Id(path, v) in index
    decreases version
  {
    assert Follows(index, Id(path, version));
    if v < version {
      Below(index, path, version - 1, v);
    }
  }

  /** A version that is not there is above all that are. */
  lemma CreatedIsAbove(index: Index, path: string, version: nat)
    requires Contiguous(index) && version >= 1 && Id(path, version) !in index
    ensures forall v: nat :: Id(path, v) in index ==> v < version
  {
    forall v: nat | Id(path, v) in index
      ensures v < version
    {
      if v >= version {
        Below(index, path, v, version);
      }
    }
  }

  /** Creating the next version keeps the shape of the index. */
  lemma AddedInv(index: Index, document: Document)
    requires Contiguous(index) && HeadsFlagged(index)
    requires var id := Id(document.path, document.version);
             && id !in index && document.version >= 1 && document.latest
             && (document.version > 1 ==> Id(document.path, document.version - 1) in index)
    ensures var after := index[Id(document.path, document.version) := document];
            Contiguous(after) && HeadsFlagged(after)
  {
    var added := Id(document.path, document.version);
    var after := index[added := document];
    forall id | id in after
      ensures Follows(after, id) && FlaggedIfHead(after, id)
    {
      assert id != added ==> Follows(index, id) && FlaggedIfHead(index, id);
    }
  }

  /** Clearing the flag of a version that another follows keeps the shape of the index. */
  lemma ClearedInv(index: Index, id: Id)
    requires Contiguous(index) && HeadsFlagged(index) && id in index && Id(id.path, id.version + 1) in index
    ensures var after := index[id := index[id].(latest := false)];
            Contiguous(after) && HeadsFlagged(after)
  {
    var after := index[id := index[id].(latest := false)];
    SameShape(index, after);
    forall i | i in after
      ensures FlaggedIfHead(after, i)
    {
      assert FlaggedIfHead(index, i);
    }
  }

  lemma SameShape(index: Index, after: Index)
    requires Contiguous(index)
    requires forall id :: id in after <==> id in index
    requires forall id :: id in after ==> after[id].path == index[id].path && after[id].version == index[id].version
    ensures Contiguous(after)
  {
    forall id | id in after
      ensures Follows(after, id)
    {
      assert Follows(index, id);
    }
  }

  /** A new version above all the others leaves what a publisher did. */
  lemma AddedKeeps(index: Index, after: Index, added: Id, publisher: Publisher)
    requires PublisherInv(index, publisher) && added in after && after - {added} == index
    requires forall v: nat :: Id(added.path, v) in index ==> v < added.version
    ensures PublisherInv(after, publisher)
  {
    assert forall id :: id in index ==> id in after && after[id] == index[id];
    if publisher.phase.Clearing? || publisher.phase.Published? {
      var version := publisher.Version().value;
      assert Id(publisher.path, version) in index;
    }
  }

  /** So does clearing a flag. */
  lemma ClearedKeeps(index: Index, id: Id, publisher: Publisher)
    requires PublisherInv(index, publisher) && id in index
    ensures PublisherInv(index[id := index[id].(latest := false)], publisher)
  {
    var after := index[id := index[id].(latest := false)];
    assert forall i :: i in index <==> i in after;
    assert forall i :: i in after ==> after[i].latest ==> index[i].latest;
  }

  lemma OthersKept(s: State, t: State, p: nat, step: Step, q: nat)
    requires Inv(s) && Next(s, t, p, step) && q in s.publishers && q != p
    ensures q in t.publishers && t.publishers[q] == s.publishers[q] && PublisherInv(t.index, t.publishers[q])
  {
    var publisher := s.publishers[q];
    assert PublisherInv(s.index, publisher);
    if t.index == s.index {
    } else if step.CreateStep? {
      var creator := s.publishers[p];
      CreatedIsAbove(s.index, creator.path, creator.phase.current + 1);
      AddedKeeps(s.index, t.index, Id(creator.path, creator.phase.current + 1), publisher);
    } else {
      ClearedKeeps(s.index, Id(s.publishers[p].path, step.version), publisher);
    }
  }

  lemma CreateInv(s: State, t: State, p: nat)
    requires Inv(s) && Create(s, t, p)
    ensures Contiguous(t.index) && HeadsFlagged(t.index) && PublisherInv(t.index, t.publishers[p])
  {
    var publisher := s.publishers[p];
    assert PublisherInv(s.index, publisher);
    var version := publisher.phase.current + 1;
    if Id(publisher.path, version) !in s.index {
      AddedInv(s.index, publisher.NewDocument(version));
    }
  }

  lemma ClearProgress(index: Index, publisher: Publisher, v: nat)
    requires PublisherInv(index, publisher) && publisher.phase.Clearing? && v in publisher.phase.todo
    ensures Id(publisher.path, v) in index
    ensures var id := Id(publisher.path, v);
            PublisherInv(index[id := index[id].(latest := false)],
                         publisher.(phase := Clearing(publisher.phase.version, publisher.phase.todo - {v})))
  {
    var id := Id(publisher.path, v);
    ClearedKeeps(index, id, publisher);
  }

  lemma ClearInv(s: State, t: State, p: nat, v: nat)
    requires Inv(s) && Clear(s, t, p, v)
    ensures Contiguous(t.index) && HeadsFlagged(t.index) && PublisherInv(t.index, t.publishers[p])
  {
    ClearProgress(s.index, s.publishers[p], v);
    Below(s.index, s.publishers[p].path, s.publishers[p].phase.version, v + 1);
    ClearedInv(s.index, Id(s.publishers[p].path, v));
  }

  lemma MoverKept(s: State, t: State, p: nat, step: Step)
    requires Inv(s) && Next(s, t, p, step)
    ensures p in t.publishers && PublisherInv(t.index, t.publishers[p])
    ensures Contiguous(t.index) && HeadsFlagged(t.index)
  {
    if p in s.publishers {
      assert PublisherInv(s.index, s.publishers[p]);
    }
    if step.CreateStep? {
      CreateInv(s, t, p);
    } else if step.ClearStep? {
      ClearInv(s, t, p, step.version);
    }
  }

  lemma NextInv(s: State, t: State, p: nat, step: Step)
    requires Inv(s) && Next(s, t, p, step)
    ensures Inv(t)
  {
    MoverKept(s, t, p, step);
    forall q | q in t.publishers && q != p
      ensures PublisherInv(t.index, t.publishers[q])
    {
      assert q in s.publishers;
      OthersKept(s, t, p, step, q);
    }
  }

  // ---------- whole runs ----------

  lemma {:induction false} RunInv(states: seq<State>, moves: seq<(nat, Step)>, k: nat)
    requires Run(states, moves) && k < |states|
    ensures Inv(states[k])
  {
    if k > 0 {
      RunInv(states, moves, k - 1);
      NextInv(states[k - 1], states[k], moves[k - 1].0, moves[k - 1].1);
    }
  }

  /** What was created stays as it was created, to the end of the run: only its flag changes, and it is only cleared. */
  lemma {:induction false} HistoryKept(states: seq<State>, moves: seq<(nat, Step)>, i: nat, j: nat)
    requires Run(states, moves) && i <= j < |states|
    ensures Grows(states[i].index, states[j].index)
  {
    if i < j {
      HistoryKept(states, moves, i, j - 1);
    }
  }

  /** The versions of a path are exactly 1..n, in every state: the head n is unique, and all below it exist. */
  lemma VersionsAreContiguous(states: seq<State>, moves: seq<(nat, Step)>, k: nat, path: string, head: nat, v: nat)
    requires Run(states, moves) && k < |states| && IsHead(states[k].index, path, head)
    ensures Id(path, v) in states[k].index <==> 1 <= v <= head
  {
    RunInv(states, moves, k);
    var index := states[k].index;
    CreatedIsAbove(index, path, head + 1);
    if 1 <= v <= head {
      Below(index, path, head, v);
    }
  }

  /** The move creates a version: the index gains one document. */
  predicate Creates(s: State, t: State, p: nat, step: Step, id: Id) {
    Next(s, t, p, step) && id in t.index && id !in s.index
  }

  /**
   Publishing is a compare-and-swap: whatever the history it read, a publisher creates its version on top
   of the head, the head was its base version if it has one, and what it creates is what it was given.
   */
  lemma PublishIsCompareAndSwap(states: seq<State>, moves: seq<(nat, Step)>, k: nat, id: Id)
    requires Run(states, moves) && k < |moves|
    requires Creates(states[k], states[k + 1], moves[k].0, moves[k].1, id)
    ensures var publisher := states[k].publishers[moves[k].0];
            && id.path == publisher.path && id.version >= 1
            && IsHead(states[k].index, id.path, id.version - 1)
            && (publisher.base.Some? ==> publisher.base.value == id.version - 1)
            && IsHead(states[k + 1].index, id.path, id.version)
            && states[k + 1].index == states[k].index[id := publisher.NewDocument(id.version)]
  {
    RunInv(states, moves, k);
    var s, t, p := states[k], states[k + 1], moves[k].0;
    assert moves[k].1.CreateStep?;
    assert PublisherInv(s.index, s.publishers[p]);
    CreatedIsAbove(s.index, id.path, id.version);
  }

  /** No version is created twice: of two publishers racing for one, one succeeds. */
  lemma CreatedOnce(states: seq<State>, moves: seq<(nat, Step)>, i: nat, j: nat, first: Id, second: Id)
    requires Run(states, moves) && i < j < |moves|
    requires Creates(states[i], states[i + 1], moves[i].0, moves[i].1, first)
    requires Creates(states[j], states[j + 1], moves[j].0, moves[j].1, second)
    ensures first != second
  {
    HistoryKept(states, moves, i + 1, j);
  }

  /** Readers never miss the head: in every state, the highest version of a path is flagged. */
  lemma HeadIsFlagged(states: seq<State>, moves: seq<(nat, Step)>, k: nat, path: string, head: nat)
    requires Run(states, moves) && k < |states| && head >= 1 && IsHead(states[k].index, path, head)
    ensures Id(path, head) in states[k].index && states[k].index[Id(path, head)].latest
  {
    RunInv(states, moves, k);
    assert FlaggedIfHead(states[k].index, Id(path, head));
  }

  /** Once a publication completes, no lower version is flagged any more, then or later. */
  lemma PublishedClears(states: seq<State>, moves: seq<(nat, Step)>, i: nat, j: nat, p: nat, id: Id)
    requires Run(states, moves) && i <= j < |states|
    requires p in states[i].publishers && states[i].publishers[p].phase.Published?
    requires id in states[j].index && id.path == states[i].publishers[p].path
    requires id.version < states[i].publishers[p].phase.version
    ensures !states[j].index[id].latest
  {
    RunInv(states, moves, i);
    RunInv(states, moves, j);
    assert PublisherInv(states[i].index, states[i].publishers[p]);
    Below(states[i].index, id.path, states[i].publishers[p].phase.version, id.version);
    HistoryKept(states, moves, i, j);
  }

  // ---------- a publisher without a competitor ----------

  /** Steps of one publisher alone. */
  predicate Alone(states: seq<State>, steps: seq<Step>, p: nat) {
    |states| == |steps| + 1 && forall i :: 0 <= i < |steps| ==> Next(states[i], states[i + 1], p, steps[i])
  }

  lemma AloneCons(s: State, step: Step, states: seq<State>, steps: seq<Step>, p: nat)
    requires Alone(states, steps, p) && Next(s, states[0], p, step)
    ensures Alone([s] + states, [step] + steps, p)
  {
  }

  function Moved(s: State, index: Index, p: nat, phase: Phase): State
    requires p in s.publishers
  {
    State(index, s.publishers[p := s.publishers[p].(phase := phase)])
  }

  /** The publisher ended: its version is there as it was given, flagged, and no lower version is. */
  predicate Succeeded(t: State, publisher: Publisher, p: nat, version: nat) {
    && p in t.publishers && t.publishers[p] == publisher.(phase := Published(version))
    && Id(publisher.path, version) in t.index
    && t.index[Id(publisher.path, version)] == publisher.NewDocument(version)
    && ClearedBelow(t.index, publisher.path, version, {})
  }

  /** Clearing ends, flag after flag, when nobody else moves. */
  lemma {:induction false} ClearingEnds(s: State, p: nat) returns (states: seq<State>, steps: seq<Step>)
    requires Inv(s) && p in s.publishers && s.publishers[p].phase.Clearing?
    requires var publisher := s.publishers[p];
             var version := publisher.phase.version;
             IsHead(s.index, publisher.path, version) && s.index[Id(publisher.path, version)].latest
    ensures Alone(states, steps, p) && states[0] == s
    ensures Succeeded(states[|steps|], s.publishers[p], p, s.publishers[p].phase.version)
    decreases s.publishers[p].phase.todo
  {
    var publisher := s.publishers[p];
    var version, todo := publisher.phase.version, publisher.phase.todo;
    assert PublisherInv(s.index, publisher);
    if todo == {} {
      states, steps := [s, Moved(s, s.index, p, Published(version))], [FinishStep];
    } else {
      var v :| v in todo;
      var id := Id(publisher.path, v);
      var t := Moved(s, s.index[id := s.index[id].(latest := false)], p, Clearing(version, todo - {v}));
      NextInv(s, t, p, ClearStep(v));
      states, steps := ClearingEnds(t, p);
      AloneCons(s, ClearStep(v), states, steps, p);
      states, steps := [s] + states, [ClearStep(v)] + steps;
    }
  }

  /** The versions whose flag is to be cleared. */
  ghost function Flagged(index: Index, path: string, version: nat): set<nat> {
    set id | id in index && id.path == path && id.version < version && index[id].latest :: id.version
  }

  /** A version that was just created is cleared below, when nobody else moves. */
  lemma CreatedEnds(s: State, p: nat) returns (states: seq<State>, steps: seq<Step>)
    requires Inv(s) && p in s.publishers && s.publishers[p].phase.HasCreated?
    requires IsHead(s.index, s.publishers[p].path, s.publishers[p].phase.version)
    requires s.index[Id(s.publishers[p].path, s.publishers[p].phase.version)].latest
    ensures Alone(states, steps, p) && states[0] == s
    ensures Succeeded(states[|steps|], s.publishers[p], p, s.publishers[p].phase.version)
  {
    var publisher := s.publishers[p];
    var version := publisher.phase.version;
    var todo := Flagged(s.index, publisher.path, version);
    var t := Moved(s, s.index, p, Clearing(version, todo));
    NextInv(s, t, p, ScanStep(todo));
    states, steps := ClearingEnds(t, p);
    AloneCons(s, ScanStep(todo), states, steps, p);
    states, steps := [s] + states, [ScanStep(todo)] + steps;
  }

  /**
   A publisher whose edit started from the head, or that does not say, can end Published whatever came before: left to
   itself, its version is written on top of the head, as it was given, and is then the only flagged one of its path.
   */
  lemma PublisherSucceeds(before: seq<State>, moves: seq<(nat, Step)>, k: nat, p: nat, head: nat)
    returns (states: seq<State>, steps: seq<Step>)
    requires Run(before, moves) && k < |before|
    requires p in before[k].publishers && before[k].publishers[p].phase.Starting?
    requires IsHead(before[k].index, before[k].publishers[p].path, head)
    requires var base := before[k].publishers[p].base; base.Some? ==> base.value == head
    ensures Alone(states, steps, p) && states[0] == before[k]
    ensures Succeeded(states[|steps|], before[k].publishers[p], p, head + 1)
  {
    RunInv(before, moves, k);
    var s := before[k];
    var publisher := s.publishers[p];
    var id := Id(publisher.path, head + 1);
    var read := Moved(s, s.index, p, HasRead(head));
    NextInv(s, read, p, ReadStep(head));
    var created := Moved(read, s.index[id := publisher.NewDocument(head + 1)], p, HasCreated(head + 1));
    NextInv(read, created, p, CreateStep);
    CreatedIsAbove(s.index, publisher.path, head + 1);
    states, steps := CreatedEnds(created, p);
    AloneCons(read, CreateStep, states, steps, p);
    AloneCons(s, ReadStep(head), [read] + states, [CreateStep] + steps, p);
    states, steps := [s] + ([read] + states), [ReadStep(head)] + ([CreateStep] + steps);
  }

  /** A publisher that an edit of an older version started conflicts, or misses the head when it reads. */
  lemma StaleConflicts(before: seq<State>, moves: seq<(nat, Step)>, k: nat, p: nat, head: nat, base: nat)
    requires Run(before, moves) && k < |moves| && moves[k].0 == p && p in before[k].publishers
    requires IsHead(before[k].index, before[k].publishers[p].path, head)
    requires before[k].publishers[p].base == Some(base) && base != head
    ensures moves[k].1 == ReadStep(head) ==> before[k + 1].publishers[p].phase == Conflict
    ensures moves[k].1 == CreateStep ==>
              before[k + 1].publishers[p].phase == Conflict && before[k + 1].index == before[k].index
  {
    RunInv(before, moves, k);
    assert PublisherInv(before[k].index, before[k].publishers[p]);
    if moves[k].1 == CreateStep {
      assert Next(before[k], before[k + 1], p, CreateStep);
      CreatedIsAbove(before[k].index, before[k].publishers[p].path, head + 1);
      if base < head {
        Below(before[k].index, before[k].publishers[p].path, head, base + 1);
      }
    }
  }
}
