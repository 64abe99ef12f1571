/** The references the files of one service leave dangling. */
module Integrity {
  import opened Wrappers
  import opened ConfigIndex

  /** A file a service loads. */
  datatype Source = Source(name: string, content: Content)

  datatype Problem =
    | DefinedTwice(backup: string, first: string, second: string)
    | BackupMissing(file: string, reference: Reference)
    | ModelMissing(file: string, backup: string, model: string)

  /** The report model a definition names; an empty name is none. */
  predicate NamesModel(definition: Definition, model: string) {
    definition.reportModel == Some(model) && model != ""
  }

  // ---------- what it means to be sound ----------

  predicate Names(definitions: seq<Definition>, backup: string) {
    exists definition :: definition in definitions && definition.name == backup
  }

  predicate Defines(sources: set<Source>, backup: string, file: string) {
    exists source :: source in sources && source.name == file && Names(source.content.backups, backup)
  }

  ghost predicate IsDefined(sources: set<Source>, backup: string) {
    exists file :: Defines(sources, backup, file)
  }

  predicate DefinesModel(sources: set<Source>, model: string) {
    exists source :: source in sources && model in source.content.models
  }

  /** No backup is defined in two files. */
  ghost predicate OneFileEach(sources: set<Source>) {
    forall backup, a, b :: Defines(sources, backup, a) && Defines(sources, backup, b) ==> a == b
  }

  ghost predicate BackupsDefined(sources: set<Source>) {
    forall source, reference :: source in sources && reference in source.content.references ==>
                                  IsDefined(sources, reference.backup)
  }

  ghost predicate ModelsDefined(sources: set<Source>) {
    forall source, definition, model ::
      source in sources && definition in source.content.backups && NamesModel(definition, model) ==>
        DefinesModel(sources, model)
  }

  /** Every reference of the files is defined by one of them. */
  ghost predicate Sound(sources: set<Source>) {
    OneFileEach(sources) && BackupsDefined(sources) && ModelsDefined(sources)
  }

  predicate RefersTo(sources: set<Source>, file: string, reference: Reference) {
    exists source :: source in sources && source.name == file && reference in source.content.references
  }

  predicate WantsModel(sources: set<Source>, file: string, backup: string, model: string) {
    exists source, definition ::
      && source in sources && source.name == file && definition in source.content.backups
      && definition.name == backup && NamesModel(definition, model)
  }

  /** The problem is one of the files. */
  ghost predicate IsReal(sources: set<Source>, problem: Problem) {
    match problem
    case DefinedTwice(backup, first, second) =>
      first != second && Defines(sources, backup, first) && Defines(sources, backup, second)
    case BackupMissing(file, reference) =>
      RefersTo(sources, file, reference) && !IsDefined(sources, reference.backup)
    case ModelMissing(file, backup, model) =>
      WantsModel(sources, file, backup, model) && !DefinesModel(sources, model)
  }

  function Elements(sources: seq<Source>): set<Source> {
    set source | source in sources
  }

  // ---------- the check ----------

  /** The problem names a definition of this file that an earlier file has. */
  predicate Clashes(problem: Problem, file: string, definitions: seq<Definition>, backups: map<string, string>) {
    && problem.DefinedTwice? && problem.second == file && Names(definitions, problem.backup)
    && problem.backup in backups && problem.first == backups[problem.backup] != file
  }

  /** The definitions of one file: the first file of a name keeps it. */
  method AddDefinitions(file: string, definitions: seq<Definition>, backups: map<string, string>)
    returns (after: map<string, string>, problems: seq<Problem>)
    ensures forall name :: name in after <==> name in backups || Names(definitions, name)
    ensures forall name :: name in after ==> after[name] == if name in backups then backups[name] else file
    ensures problems == [] <==> forall name :: Names(definitions, name) && name in backups ==> backups[name] == file
    ensures forall problem :: problem in problems ==> Clashes(problem, file, definitions, backups)
  {
    after, problems := backups, [];
    for k := 0 to |definitions|
      invariant forall name :: name in after <==> name in backups || Names(definitions[..k], name)
      invariant forall name :: name in after ==> after[name] == if name in backups then backups[name] else file
      invariant problems == [] <==>
                forall name :: Names(definitions[..k], name) && name in backups ==> backups[name] == file
      invariant forall problem :: problem in problems ==> Clashes(problem, file, definitions[..k], backups)
    {
      var name := definitions[k].name;
      NamesOneMore(definitions, k);
      if name in after && after[name] != file {
        problems := problems + [DefinedTwice(name, after[name], file)];
      } else if name !in after {
        after := after[name := file];
      }
    }
    assert definitions[..|definitions|] == definitions;
  }

  lemma NamesOneMore(definitions: seq<Definition>, k: nat)
    requires k < |definitions|
    ensures forall name ::
              Names(definitions[..k + 1], name) <==> Names(definitions[..k], name) || name == definitions[k].name
  {
    assert definitions[..k + 1] == definitions[..k] + [definitions[k]];
    assert definitions[k] in definitions[..k + 1];
    forall name
      ensures Names(definitions[..k + 1], name) <==> Names(definitions[..k], name) || name == definitions[k].name
    {
      if Names(definitions[..k], name) {
        var d :| d in definitions[..k] && d.name == name;
        assert d in definitions[..k + 1];
      }
    }
  }

  /** What the scan of the files remembers: the file of each backup. */
  ghost predicate Remembers(sources: set<Source>, backups: map<string, string>) {
    && (forall name, file :: Defines(sources, name, file) ==> name in backups)
    && (forall name :: name in backups ==> Defines(sources, name, backups[name]))
  }

  lemma DefinesOneMore(sources: set<Source>, source: Source)
    ensures forall name, file ::
              Defines(sources + {source}, name, file) <==>
              Defines(sources, name, file) || (file == source.name && Names(source.content.backups, name))
  {
    forall name, file
      ensures Defines(sources + {source}, name, file) <==>
              Defines(sources, name, file) || (file == source.name && Names(source.content.backups, name))
    {
      if Defines(sources, name, file) {
        var known :| known in sources && known.name == file && Names(known.content.backups, name);
        assert known in sources + {source};
      } else if file == source.name && Names(source.content.backups, name) {
        assert source in sources + {source};
      }
    }
  }

  /** A file keeps the names apart exactly when it defines none that another file has. */
  lemma OneFileOneMore(sources: set<Source>, source: Source, backups: map<string, string>)
    requires Remembers(sources, backups)
    ensures OneFileEach(sources + {source}) <==>
            OneFileEach(sources)
            && forall name :: Names(source.content.backups, name) && name in backups ==> backups[name] == source.name
  {
    DefinesOneMore(sources, source);
    var more := sources + {source};
    if OneFileEach(more) {
      forall backup, a, b | Defines(sources, backup, a) && Defines(sources, backup, b)
        ensures a == b
      {
        assert Defines(more, backup, a) && Defines(more, backup, b);
      }
      forall name | Names(source.content.backups, name) && name in backups
        ensures backups[name] == source.name
      {
        assert Defines(more, name, backups[name]) && Defines(more, name, source.name);
      }
    }
  }

  lemma RemembersMore(
      sources: set<Source>, source: Source, backups: map<string, string>, after: map<string, string>)
    requires Remembers(sources, backups)
    requires forall name :: name in after <==> name in backups || Names(source.content.backups, name)
    requires forall name :: name in after ==> after[name] == if name in backups then backups[name] else source.name
    ensures Remembers(sources + {source}, after)
  {
    DefinesOneMore(sources, source);
  }

  lemma ClashIsReal(sources: set<Source>, source: Source, backups: map<string, string>, problem: Problem)
    requires Remembers(sources, backups) && Clashes(problem, source.name, source.content.backups, backups)
    ensures IsReal(sources + {source}, problem)
  {
    DefinesOneMore(sources, source);
  }

  lemma RealOneMore(sources: set<Source>, source: Source, problem: Problem)
    requires problem.DefinedTwice? && IsReal(sources, problem)
    ensures IsReal(sources + {source}, problem)
  {
    DefinesOneMore(sources, source);
  }

  /** The first pass: whose file each backup is, and the backups of two files. */
  method ScanDefinitions(sources: seq<Source>) returns (backups: map<string, string>, problems: seq<Problem>)
    ensures Remembers(Elements(sources), backups)
    ensures problems == [] <==> OneFileEach(Elements(sources))
    ensures forall problem :: problem in problems ==> IsReal(Elements(sources), problem)
  {
    backups, problems := map[], [];
    for k := 0 to |sources|
      invariant Remembers(Elements(sources[..k]), backups)
      invariant problems == [] <==> OneFileEach(Elements(sources[..k]))
      invariant forall problem :: problem in problems ==> problem.DefinedTwice? && IsReal(Elements(sources[..k]), problem)
    {
      ghost var seen := Elements(sources[..k]);
      assert Elements(sources[..k + 1]) == seen + {sources[k]};
      var after, more := AddDefinitions(sources[k].name, sources[k].content.backups, backups);
      OneFileOneMore(seen, sources[k], backups);
      RemembersMore(seen, sources[k], backups, after);
      forall problem | problem in problems + more
        ensures problem.DefinedTwice? && IsReal(seen + {sources[k]}, problem)
      {
        if problem in problems {
          RealOneMore(seen, sources[k], problem);
        } else {
          ClashIsReal(seen, sources[k], backups, problem);
        }
      }
      backups, problems := after, problems + more;
    }
    assert sources[..|sources|] == sources;
  }

  /** The references of the files that name no backup. */
  method DanglingReferences(sources: seq<Source>, backups: map<string, string>) returns (problems: seq<Problem>)
    ensures problems == [] <==>
            forall source, reference :: source in sources && reference in source.content.references ==>
                                          reference.backup in backups
    ensures forall problem :: problem in problems ==>
                                && problem.BackupMissing? && problem.reference.backup !in backups
                                && RefersTo(Elements(sources), problem.file, problem.reference)
  {
    problems := [];
    for k := 0 to |sources|
      invariant problems == [] <==>
                forall i, reference :: 0 <= i < k && reference in sources[i].content.references ==>
                                         reference.backup in backups
      invariant forall problem :: problem in problems ==>
                                    && problem.BackupMissing? && problem.reference.backup !in backups
                                    && RefersTo(Elements(sources), problem.file, problem.reference)
    {
      assert sources[k] in Elements(sources);
      var references := sources[k].content.references;
      var more: seq<Problem> := [];
      for r := 0 to |references|
        invariant more == [] <==> forall i :: 0 <= i < r ==> references[i].backup in backups
        invariant forall problem :: problem in more ==>
                                      && problem.BackupMissing? && problem.file == sources[k].name
                                      && problem.reference in references && problem.reference.backup !in backups
      {
        if references[r].backup !in backups {
          more := more + [BackupMissing(sources[k].name, references[r])];
        }
      }
      problems := problems + more;
    }
  }

  /** The report models of the files that no file defines. */
  method MissingModels(sources: seq<Source>, models: set<string>) returns (problems: seq<Problem>)
    ensures problems == [] <==>
            forall source, definition, model ::
              source in sources && definition in source.content.backups && NamesModel(definition, model) ==>
                model in models
    ensures forall problem :: problem in problems ==>
                                && problem.ModelMissing? && problem.model !in models
                                && WantsModel(Elements(sources), problem.file, problem.backup, problem.model)
  {
    problems := [];
    for k := 0 to |sources|
      invariant problems == [] <==>
                forall i, definition, model ::
                  0 <= i < k && definition in sources[i].content.backups && NamesModel(definition, model) ==>
                    model in models
      invariant forall problem :: problem in problems ==>
                                    && problem.ModelMissing? && problem.model !in models
                                    && WantsModel(Elements(sources), problem.file, problem.backup, problem.model)
    {
      assert sources[k] in Elements(sources);
      var definitions := sources[k].content.backups;
      var more: seq<Problem> := [];
      for d := 0 to |definitions|
        invariant more == [] <==>
                  forall i, model :: 0 <= i < d && NamesModel(definitions[i], model) ==> model in models
        invariant forall problem :: problem in more ==>
                                      && problem.ModelMissing? && problem.model !in models
                                      && WantsModel(Elements(sources), problem.file, problem.backup, problem.model)
      {
        var model := definitions[d].reportModel;
        if model.Some? && model.value != "" && model.value !in models {
          assert NamesModel(definitions[d], model.value);
          more := more + [ModelMissing(sources[k].name, definitions[d].name, model.value)];
        }
      }
      problems := problems + more;
    }
  }

  /**
   Nothing is reported exactly when the files are sound, in whatever order they are given, and every line
   reported is a problem of the files.
   */
  method IntegrityProblems(sources: seq<Source>) returns (problems: seq<Problem>)
    ensures problems == [] <==> Sound(Elements(sources))
    ensures forall problem :: problem in problems ==> IsReal(Elements(sources), problem)
  {
    var backups, twice := ScanDefinitions(sources);
    var models := set source, model | source in sources && model in source.content.models :: model;
    var dangling := DanglingReferences(sources, backups);
    var missing := MissingModels(sources, models);
    problems := twice + dangling + missing;
    PassesAreSound(sources, backups, models);
  }

  lemma PassesAreSound(sources: seq<Source>, backups: map<string, string>, models: set<string>)
    requires Remembers(Elements(sources), backups)
    requires forall model :: model in models <==> DefinesModel(Elements(sources), model)
    ensures forall backup :: backup in backups <==> IsDefined(Elements(sources), backup)
    ensures BackupsDefined(Elements(sources)) <==>
            forall source, reference :: source in sources && reference in source.content.references ==>
                                          reference.backup in backups
    ensures ModelsDefined(Elements(sources)) <==>
            forall source, definition, model ::
              source in sources && definition in source.content.backups && NamesModel(definition, model) ==>
                model in models
  {
    var all := Elements(sources);
    forall backup: string
      ensures backup in backups <==> IsDefined(all, backup)
    {
      if backup in backups {
        assert Defines(all, backup, backups[backup]);
      }
    }
    assert forall source :: source in all <==> source in sources;
  }
}
