/**
 The configuration store used by one writer at a time: what publish, rollback and delete accept, and what
 holds over whole runs of them while reports arrive.
 */
module StoreRuns {
  import opened Wrappers
  import opened ConfigIndex
  import opened Integrity

  /** A version of a path; a tombstone is a deleted one. */
  datatype Version = Version(deleted: bool, services: set<string>, content: Content)

  /** The versions of every path, oldest first, and the backups that have reports. */
  datatype Store = Store(histories: map<string, seq<Version>>, reports: set<string>)

  /** What a publication writes, and the version the edit started from. */
  datatype Edit = Edit(path: string, version: Version, base: Option<nat>)

  /** The rules a path, a service name and a content must satisfy on their own. */
  datatype Rules = Rules(path: string -> bool, service: string -> bool, content: Content -> bool)

  datatype Refusal = BadPath | StaleBase | BadContent | NoService | BadService | DestinationFrozen | Dangling | NotFound

  function History(store: Store, path: string): seq<Version> {
    if path in store.histories then store.histories[path] else []
  }

  // ---------- destinations ----------

  function OrFalse(flag: Option<bool>): bool {
    flag.Some? && flag.value
  }

  function Buckets(definition: Definition): set<string> {
    if definition.buckets.Some? then definition.buckets.value else {}
  }

  datatype Key = TypeKey | EndpointKey | DirectoryKey | CalendarTreeKey | GzipKey | BucketsKey

  /** `destination_changes`: the keys of the destination that differ, the buckets when one is gone. */
  function DestinationChanges(was: Definition, now: Definition): (changes: seq<Key>)
    ensures changes == [] <==> SameDestination(was, now)
    ensures BucketsKey in changes <==> exists bucket :: bucket in Buckets(was) && bucket !in Buckets(now)
  {
    var gone := Buckets(was) - Buckets(now);
    assert forall bucket :: bucket in gone <==> bucket in Buckets(was) && bucket !in Buckets(now);
    assert gone == {} ==> forall bucket :: bucket in Buckets(was) ==> bucket !in gone;
    (if was.kind != now.kind then [TypeKey] else [])
    + (if was.endpoint != now.endpoint then [EndpointKey] else [])
    + (if was.directory != now.directory then [DirectoryKey] else [])
    + (if OrFalse(was.calendarTree) != OrFalse(now.calendarTree) then [CalendarTreeKey] else [])
    + (if OrFalse(was.gzip) != OrFalse(now.gzip) then [GzipKey] else [])
    + (if gone != {} then [BucketsKey] else [])
  }

  /** The files already backed up stay where the new definition looks for them. */
  predicate SameDestination(was: Definition, now: Definition) {
    && was.kind == now.kind && was.endpoint == now.endpoint && was.directory == now.directory
    && OrFalse(was.calendarTree) == OrFalse(now.calendarTree) && OrFalse(was.gzip) == OrFalse(now.gzip)
    && Buckets(was) <= Buckets(now)
  }

  /** The definition of a name in a list: the last one, as in a dictionary. */
  function Defined(definitions: seq<Definition>, name: string): (r: Option<Definition>)
    ensures r.Some? ==> r.value in definitions && r.value.name == name
    ensures r.None? ==> forall d :: d in definitions ==> d.name != name
  {
    if definitions == [] then None
    else if definitions[|definitions| - 1].name == name then Some(definitions[|definitions| - 1])
    else Defined(definitions[..|definitions| - 1], name)
  }

  /** The last version that is not a tombstone. */
  function LastLive(history: seq<Version>): (r: Option<nat>)
    ensures r.Some? ==> r.value < |history| && !history[r.value].deleted
    ensures forall w :: 0 <= w < |history| && !history[w].deleted ==> r.Some? && w <= r.value
  {
    if history == [] then None
    else if !history[|history| - 1].deleted then Some(|history| - 1)
    else LastLive(history[..|history| - 1])
  }

  function Previous(history: seq<Version>, name: string): Option<Definition> {
    match LastLive(history)
    case None => None
    case Some(last) => Defined(history[last].content.backups, name)
  }

  /** A definition may be published: its name has no reports, or the path had it already, at the same destination. */
  predicate MayDefine(reports: set<string>, history: seq<Version>, definition: Definition) {
    definition.name in reports ==>
      && Previous(history, definition.name).Some?
      && SameDestination(Previous(history, definition.name).value, definition)
  }

  predicate DestinationsKept(reports: set<string>, history: seq<Version>, content: Content) {
    forall definition :: definition in content.backups ==> MayDefine(reports, history, definition)
  }

  // ---------- references ----------

  predicate Loads(store: Store, service: string, path: string) {
    var history := History(store, path);
    history != [] && !history[|history| - 1].deleted && service in history[|history| - 1].services
  }

  /** The files a service loads. */
  function Loaded(store: Store, service: string): set<Source> {
    set path | path in store.histories && Loads(store, service, path) ::
      Source(path, store.histories[path][|store.histories[path]| - 1].content)
  }

  /** The services that load the path before or after the edit. */
  function Affected(history: seq<Version>, version: Version): set<string> {
    (if version.deleted then {} else version.services)
    + (if history == [] || history[|history| - 1].deleted then {} else history[|history| - 1].services)
  }

  /** The files the check looks at: those the service loads but the path, and the new version. */
  function Checked(store: Store, service: string, edit: Edit): set<Source> {
    (set source | source in Loaded(store, service) && source.name != edit.path)
    + (if !edit.version.deleted && service in edit.version.services then {Source(edit.path, edit.version.content)} else {})
  }

  ghost predicate ReferencesKept(store: Store, edit: Edit) {
    forall service :: service in Affected(History(store, edit.path), edit.version) ==> Sound(Checked(store, service, edit))
  }

  // ---------- the operations ----------

  /** Why an edit is refused, in the order of the checks. */
  ghost function Refused(store: Store, rules: Rules, edit: Edit): Option<Refusal> {
    var history := History(store, edit.path);
    if !rules.path(edit.path) then Some(BadPath)
    else if edit.base.Some? && edit.base.value != |history| then Some(StaleBase)
    else if !edit.version.deleted && !rules.content(edit.version.content) then Some(BadContent)
    else if edit.version.services == {} then Some(NoService)
    else if exists service :: service in edit.version.services && !rules.service(service) then Some(BadService)
    else if !edit.version.deleted && !DestinationsKept(store.reports, history, edit.version.content) then
      Some(DestinationFrozen)
    else if !ReferencesKept(store, edit) then Some(Dangling)
    else None
  }

  function Appended(store: Store, edit: Edit): Store {
    store.(histories := store.histories[edit.path := History(store, edit.path) + [edit.version]])
  }

  ghost function Published(store: Store, rules: Rules, edit: Edit): Result<Store, Refusal> {
    var refusal := Refused(store, rules, edit);
    if refusal.Some? then Failure(refusal.value) else Success(Appended(store, edit))
  }

  /** The edit a rollback publishes: the version it goes back to. */
  function RollbackEdit(store: Store, path: string, to: nat, base: Option<nat>): Result<Edit, Refusal> {
    var history := History(store, path);
    if 1 <= to <= |history| then Success(Edit(path, history[to - 1], base)) else Failure(NotFound)
  }

  /** The edit a deletion publishes: a tombstone for the services of the current version. */
  function DeleteEdit(store: Store, path: string, base: Option<nat>): Result<Edit, Refusal> {
    var history := History(store, path);
    if history == [] || history[|history| - 1].deleted then Failure(NotFound)
    else Success(Edit(path, Version(true, history[|history| - 1].services, NOTHING), base))
  }

  // ---------- what an edit must be ----------

  /** Every service has a good name, and there is one. */
  predicate GoodServices(rules: Rules, services: set<string>) {
    services != {} && forall service :: service in services ==> rules.service(service)
  }

  /** The editor saw the last version of the path, or does not say what it saw. */
  predicate Current(store: Store, path: string, base: Option<nat>) {
    base.Some? ==> base.value == |History(store, path)|
  }

  /** What may be published: all the rules at once, whatever the order they are checked in. */
  ghost predicate Allowed(store: Store, rules: Rules, edit: Edit) {
    && rules.path(edit.path) && Current(store, edit.path, edit.base) && GoodServices(rules, edit.version.services)
    && (!edit.version.deleted ==>
          && rules.content(edit.version.content)
          && DestinationsKept(store.reports, History(store, edit.path), edit.version.content))
    && ReferencesKept(store, edit)
  }

  /** What is wrong with an edit that is refused for that. */
  ghost predicate Because(store: Store, rules: Rules, edit: Edit, refusal: Refusal) {
    match refusal
    case BadPath => !rules.path(edit.path)
    case StaleBase => edit.base.Some? && edit.base.value != |History(store, edit.path)|
    case BadContent => !edit.version.deleted && !rules.content(edit.version.content)
    case NoService => edit.version.services == {}
    case BadService => exists service :: service in edit.version.services && !rules.service(service)
    case DestinationFrozen =>
      !edit.version.deleted
      && exists definition :: definition in edit.version.content.backups
                              && !MayDefine(store.reports, History(store, edit.path), definition)
    case Dangling =>
      exists service :: service in Affected(History(store, edit.path), edit.version)
                        && !Sound(Checked(store, service, edit))
    case NotFound => false
  }

  /** An edit is published exactly when it is allowed, as one more version, and a refusal says what is wrong with it. */
  lemma PublishedIsAllowed(store: Store, rules: Rules, edit: Edit)
    ensures Published(store, rules, edit).Success? <==> Allowed(store, rules, edit)
    ensures Published(store, rules, edit).Success? ==>
              var after := Published(store, rules, edit).value;
              && History(after, edit.path) == History(store, edit.path) + [edit.version] && after.reports == store.reports
              && forall path :: path != edit.path ==> History(after, path) == History(store, path)
    ensures Published(store, rules, edit).Failure? ==>
              Because(store, rules, edit, Published(store, rules, edit).error) && !Allowed(store, rules, edit)
  {
  }

  datatype Step =
    | Publish(edit: Edit)
    | Rollback(path: string, to: nat, base: Option<nat>)
    | Delete(path: string, base: Option<nat>)
    | Report(backup: string)
    | Failed

  function EditOf(store: Store, step: Step): Result<Edit, Refusal>
    requires step.Publish? || step.Rollback? || step.Delete?
  {
    match step
    case Publish(edit) => Success(edit)
    case Rollback(path, to, base) => RollbackEdit(store, path, to, base)
    case Delete(path, base) => DeleteEdit(store, path, base)
  }

  /** One operation at a time: it is refused and changes nothing, or appends one version; reports arrive between. */
  ghost predicate Next(s: Store, t: Store, rules: Rules, step: Step) {
    match step
    case Report(backup) => t == s.(reports := s.reports + {backup})
    case Failed => t == s
    case _ =>
      var edit := EditOf(s, step);
      if edit.Success? && Published(s, rules, edit.value).Success? then t == Published(s, rules, edit.value).value else t == s
  }

  ghost predicate Run(states: seq<Store>, steps: seq<Step>, rules: Rules) {
    && |states| == |steps| + 1
    && forall i :: 0 <= i < |steps| ==> Next(states[i], states[i + 1], rules, steps[i])
  }

  /** The version the editor of a step saw. */
  function BaseOf(step: Step): Option<nat> {
    match step
    case Publish(edit) => edit.base
    case Rollback(_, _, base) => base
    case Delete(_, base) => base
    case _ => None
  }

  /** What a step may add to the history of a path: the version it publishes, goes back to, or a tombstone. */
  predicate Adds(history: seq<Version>, step: Step, path: string, version: Version) {
    match step
    case Publish(edit) => edit.path == path && version == edit.version
    case Rollback(p, to, _) => p == path && 1 <= to <= |history| && version == history[to - 1]
    case Delete(p, _) =>
      p == path && history != [] && !history[|history| - 1].deleted
      && version == Version(true, history[|history| - 1].services, NOTHING)
    case _ => false
  }

  /** A version on top of a history follows the rules that do not depend on other paths. */
  predicate Lawful(reports: set<string>, history: seq<Version>, version: Version, rules: Rules) {
    && GoodServices(rules, version.services)
    && (!version.deleted ==> rules.content(version.content) && DestinationsKept(reports, history, version.content))
  }

  /**
   A step that changes a path adds one version to it, of an editor who saw the last one or does not say; the path and the
   version follow the rules, no other path changes, and the services it affects load files with no dangling reference.
   */
  lemma StepIsLawful(s: Store, t: Store, rules: Rules, step: Step, path: string)
    requires Next(s, t, rules, step) && History(t, path) != History(s, path)
    ensures |History(t, path)| == |History(s, path)| + 1 && History(s, path) == History(t, path)[..|History(s, path)|]
    ensures var version := History(t, path)[|History(s, path)|];
            && rules.path(path) && Current(s, path, BaseOf(step))
            && Adds(History(s, path), step, path, version) && Lawful(s.reports, History(s, path), version, rules)
            && t.reports == s.reports
            && (forall other :: other != path ==> History(t, other) == History(s, other))
            && (forall service :: service in Affected(History(s, path), version) ==> Sound(Loaded(t, service)))
  {
    var edit := EditOf(s, step).value;
    PublishedIsAllowed(s, rules, edit);
    assert edit.path == path;
    assert t == Appended(s, edit);
    forall service | service in Affected(History(s, path), edit.version)
      ensures Sound(Loaded(t, service))
    {
      CheckedIsLoaded(s, edit, service);
    }
  }

  /** A version of a run was added by some step, on top of all the versions before it. */
  ghost predicate AddedBy(states: seq<Store>, steps: seq<Step>, rules: Rules, path: string, v: nat, version: Version, i: nat)
    requires |states| == |steps| + 1
  {
    && i < |steps| && |History(states[i], path)| == v
    && rules.path(path) && Current(states[i], path, BaseOf(steps[i]))
    && Adds(History(states[i], path), steps[i], path, version)
    && Lawful(states[i].reports, History(states[i], path), version, rules)
  }

  /**
   No version was ever written over one its editor had not seen: version v of a path was added by a step that found v
   versions before it, and whose editor saw the last of them or does not say.
   */
  lemma {:induction false} EveryVersionIsLawful(
      states: seq<Store>, steps: seq<Step>, rules: Rules, k: nat, path: string, v: nat) returns (i: nat)
    requires Run(states, steps, rules) && k < |states| && states[0].histories == map[]
    requires v < |History(states[k], path)|
    ensures i < k && AddedBy(states, steps, rules, path, v, History(states[k], path)[v], i)
    ensures History(states[i], path) == History(states[k], path)[..v]
    decreases k
  {
    var before, after := History(states[k - 1], path), History(states[k], path);
    if after != before {
      StepIsLawful(states[k - 1], states[k], rules, steps[k - 1], path);
    }
    if v < |before| {
      i := EveryVersionIsLawful(states, steps, rules, k - 1, path, v);
      assert after[v] == before[v] && after[..v] == before[..v];
    } else {
      i := k - 1;
    }
  }

  // ---------- integrity ----------

  ghost predicate AllSound(store: Store) {
    forall service :: Sound(Loaded(store, service))
  }

  /** The files checked for a service are those it loads afterwards. */
  lemma CheckedIsLoaded(store: Store, edit: Edit, service: string)
    ensures Loaded(Appended(store, edit), service) == Checked(store, service, edit)
  {
    var after := Appended(store, edit);
    forall source
      ensures source in Loaded(after, service) <==> source in Checked(store, service, edit)
    {
      if source.name != edit.path {
        assert source.name in after.histories <==> source.name in store.histories;
        assert History(after, source.name) == History(store, source.name);
      }
    }
  }

  /** A service that is not affected loads the same files. */
  lemma UnaffectedLoadsSame(store: Store, edit: Edit, service: string)
    requires service !in Affected(History(store, edit.path), edit.version)
    ensures Loaded(Appended(store, edit), service) == Loaded(store, service)
  {
    CheckedIsLoaded(store, edit, service);
    assert !Loads(store, service, edit.path);
    assert forall source :: source in Loaded(store, service) ==> source.name != edit.path;
  }

  lemma AppendedSound(store: Store, edit: Edit)
    requires AllSound(store) && ReferencesKept(store, edit)
    ensures AllSound(Appended(store, edit))
  {
    forall service
      ensures Sound(Loaded(Appended(store, edit), service))
    {
      if service in Affected(History(store, edit.path), edit.version) {
        CheckedIsLoaded(store, edit, service);
      } else {
        UnaffectedLoadsSame(store, edit, service);
      }
    }
  }

  lemma SameFilesSound(s: Store, t: Store)
    requires AllSound(s) && s.histories == t.histories
    ensures AllSound(t)
  {
    forall service
      ensures Sound(Loaded(t, service))
    {
      assert Loaded(t, service) == Loaded(s, service);
    }
  }

  lemma NextSound(s: Store, t: Store, rules: Rules, step: Step)
    requires AllSound(s) && Next(s, t, rules, step)
    ensures AllSound(t)
  {
    if s.histories == t.histories {
      SameFilesSound(s, t);
    } else {
      AppendedSound(s, EditOf(s, step).value);
    }
  }

  /**
   From an empty store, after every publication, rollback and deletion, no service loads files with a
   dangling reference or a backup of two files: checking the affected services is enough.
   */
  lemma {:induction false} IntegrityIsInductive(states: seq<Store>, steps: seq<Step>, rules: Rules, k: nat)
    requires Run(states, steps, rules) && k < |states| && states[0].histories == map[]
    ensures AllSound(states[k])
  {
    if k == 0 {
      forall service
        ensures Sound(Loaded(states[0], service))
      {
        assert Loaded(states[0], service) == {};
      }
    } else {
      IntegrityIsInductive(states, steps, rules, k - 1);
      NextSound(states[k - 1], states[k], rules, steps[k - 1]);
    }
  }

  // ---------- frozen destinations ----------

  function DefinedIn(version: Version, name: string): Option<Definition> {
    Defined(version.content.backups, name)
  }

  /** The newer version keeps the backup of that name, at the same destination. */
  predicate Keeps(older: Version, newer: Version, name: string) {
    && DefinedIn(older, name).Some? && DefinedIn(newer, name).Some?
    && SameDestination(DefinedIn(older, name).value, DefinedIn(newer, name).value)
  }

  /** A live version that defines the name follows a live version it keeps the backup of. */
  predicate LinkedAt(history: seq<Version>, v: nat, name: string)
    requires v < |history|
  {
    !history[v].deleted && DefinedIn(history[v], name).Some? ==>
      && LastLive(history[..v]).Some?
      && Keeps(history[LastLive(history[..v]).value], history[v], name)
  }

  ghost predicate LinkedFrom(history: seq<Version>, from: nat, name: string) {
    forall v :: from <= v < |history| ==> LinkedAt(history, v, name)
  }

  /** A step appends one version to a path at most, and links it when the name has reports. */
  lemma NextLinked(s: Store, t: Store, rules: Rules, step: Step, path: string, name: string)
    requires Next(s, t, rules, step)
    ensures s.reports <= t.reports
    ensures History(t, path) == History(s, path)
            || (|History(t, path)| == |History(s, path)| + 1 && History(s, path) <= History(t, path)
                && (name in s.reports ==> LinkedAt(History(t, path), |History(s, path)|, name)))
  {
    if step.Report? || step.Failed? || t == s {
    } else {
      var edit := EditOf(s, step).value;
      assert t == Appended(s, edit);
      if path == edit.path {
        assert History(t, path)[..|History(s, path)|] == History(s, path);
      }
    }
  }

  lemma {:induction false} RunLinked(
      states: seq<Store>, steps: seq<Step>, rules: Rules, i: nat, j: nat, path: string, name: string)
    requires Run(states, steps, rules) && i <= j < |states| && name in states[i].reports
    ensures name in states[j].reports && History(states[i], path) <= History(states[j], path)
    ensures LinkedFrom(History(states[j], path), |History(states[i], path)|, name)
  {
    if i < j {
      RunLinked(states, steps, rules, i, j - 1, path, name);
      var before, after := History(states[j - 1], path), History(states[j], path);
      NextLinked(states[j - 1], states[j], rules, steps[j - 1], path, name);
      forall v | |History(states[i], path)| <= v < |after|
        ensures LinkedAt(after, v, name)
      {
        if v < |before| {
          assert LinkedAt(before, v, name);
          assert after[..v] == before[..v];
        }
      }
    }
  }

  lemma {:induction false} LinksChain(history: seq<Version>, from: nat, name: string, v: nat)
    requires LinkedFrom(history, from, name) && from <= v < |history|
    requires !history[v].deleted && DefinedIn(history[v], name).Some?
    ensures LastLive(history[..from]).Some?
    ensures forall w :: LastLive(history[..from]).value <= w < v && !history[w].deleted ==>
                          Keeps(history[w], history[v], name)
    decreases v
  {
    assert LinkedAt(history, v, name);
    var u := LastLive(history[..v]).value;
    assert forall w :: 0 <= w < v ==> history[..v][w] == history[w];
    assert forall w :: 0 <= w < from ==> history[..from][w] == history[w];
    if u >= from {
      LinksChain(history, from, name, u);
    } else {
      assert !history[..from][u].deleted;
    }
    forall w | LastLive(history[..from]).value <= w < v && !history[w].deleted
      ensures Keeps(history[w], history[v], name)
    {
      assert !history[..v][w].deleted;
    }
  }

  /**
   Once a backup has reports, every later live version that defines it has its destination: that of the
   version last live on the path when the reports were there, and of every live version since, across
   tombstones and rollbacks.
   */
  lemma DestinationIsFrozen(
      states: seq<Store>, steps: seq<Step>, rules: Rules, i: nat, j: nat, path: string, name: string, v: nat)
    requires Run(states, steps, rules) && i <= j < |states| && name in states[i].reports
    requires |History(states[i], path)| <= v < |History(states[j], path)|
    requires var version := History(states[j], path)[v]; !version.deleted && DefinedIn(version, name).Some?
    ensures LastLive(History(states[i], path)).Some?
    ensures var history := History(states[j], path);
            forall w :: LastLive(History(states[i], path)).value <= w < v && !history[w].deleted ==>
                          Keeps(history[w], history[v], name)
  {
    RunLinked(states, steps, rules, i, j, path, name);
    var before, after := History(states[i], path), History(states[j], path);
    assert after[..|before|] == before;
    LinksChain(after, |before|, name, v);
  }

  /** A backup with reports that a path drops, or never defined, is not defined by it any more. */
  lemma DroppedForGood(
      states: seq<Store>, steps: seq<Step>, rules: Rules, i: nat, j: nat, path: string, name: string, v: nat)
    requires Run(states, steps, rules) && i <= j < |states| && name in states[i].reports
    requires |History(states[i], path)| <= v < |History(states[j], path)| && !History(states[j], path)[v].deleted
    requires var before, after := History(states[i], path), History(states[j], path);
             || LastLive(before).None?
             || exists w :: LastLive(before).value <= w < v && !after[w].deleted && DefinedIn(after[w], name).None?
    ensures DefinedIn(History(states[j], path)[v], name).None?
  {
    if DefinedIn(History(states[j], path)[v], name).Some? {
      DestinationIsFrozen(states, steps, rules, i, j, path, name, v);
    }
  }
}
