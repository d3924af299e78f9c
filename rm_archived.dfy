/** `wdk repos rm-archived`: delete the local clones of the repositories archived upstream. */
module RmArchived {
  import opened Wrappers
  import opened Repos
  import Paths

  /** What happened to one repository of the upstream listing. */
  datatype Decision =
    | NotArchived
    | Excluded          // named by `--exclude`
    | NoDirectory       // nothing at `local_source/<name>` (any more)
    | KeptDirty
    | WouldDelete       // dry run
    | Deleted

  datatype Entry = Entry(name: string, decision: Decision)

  /** The whole run: one entry per repository handled, the paths deleted in order, and the
      path at which `git.Repo` raised `InvalidGitRepositoryError`, which ends the command. */
  datatype Run = Run(entries: seq<Entry>, deleted: seq<string>, failed: Option<string>)

  datatype Step = Handled(decision: Decision, removed: seq<string>) | Failed(path: string)

  /** One pass of the loop. A directory is there when `isDir` says so and the run has not
      deleted it already (two organisations may list the same name). */
  function StepFor(localSource: string, exclude: seq<string>, isDir: string -> bool, repoAt: string -> LocalRepo,
                   dryRun: bool, gone: seq<string>, repo: RemoteRepo): Step
  {
    if !repo.archived then Handled(NotArchived, [])
    else if repo.name in exclude then Handled(Excluded, [])
    else
      var path := Paths.Join(localSource, repo.name);
      if !isDir(path) || path in gone then Handled(NoDirectory, [])
      else match repoAt(path)
        case NotARepository => Failed(path)
        case Repository(dirty) =>
          if dirty then Handled(KeptDirty, [])
          else if dryRun then Handled(WouldDelete, [])
          else Handled(Deleted, [path])
  }

  function Then(first: Run, rest: Run): Run {
    Run(first.entries + rest.entries, first.deleted + rest.deleted, rest.failed)
  }

  /** The loop of `take_action` over the upstream listing, with `gone` already deleted. */
  function ArchivedRun(localSource: string, exclude: seq<string>, isDir: string -> bool, repoAt: string -> LocalRepo,
                       dryRun: bool, gone: seq<string>, repos: seq<RemoteRepo>): Run
    decreases |repos|
  {
    if repos == [] then Run([], [], None)
    else match StepFor(localSource, exclude, isDir, repoAt, dryRun, gone, repos[0])
      case Failed(path) => Run([], [], Some(path))
      case Handled(decision, removed) =>
        Then(Run([Entry(repos[0].name, decision)], removed, None),
             ArchivedRun(localSource, exclude, isDir, repoAt, dryRun, gone + removed, repos[1..]))
  }

  lemma ThenAssoc(a: Run, b: Run, c: Run)
    ensures Then(a, Then(b, c)) == Then(Then(a, b), c)
  {
    assert a.entries + (b.entries + c.entries) == (a.entries + b.entries) + c.entries;
    assert a.deleted + (b.deleted + c.deleted) == (a.deleted + b.deleted) + c.deleted;
  }

  /** One pass of the loop of `take_action`, the checks in the order the code makes them;
      `deleted` is what the run has removed so far. */
  method HandleRepo(localSource: string, exclude: seq<string>, isDir: string -> bool, repoAt: string -> LocalRepo,
                    dryRun: bool, deleted: seq<string>, repo: RemoteRepo) returns (step: Step)
    ensures step == StepFor(localSource, exclude, isDir, repoAt, dryRun, deleted, repo)
  {
    if !repo.archived || repo.name in exclude {
      return Handled(if !repo.archived then NotArchived else Excluded, []);
    }
    var path := Paths.Join(localSource, repo.name);
    if !isDir(path) || path in deleted {
      return Handled(NoDirectory, []);
    }
    var local := repoAt(path);
    if local.NotARepository? {
      return Failed(path);
    }
    if local.dirty {
      return Handled(KeptDirty, []);
    }
    if dryRun {
      return Handled(WouldDelete, []);
    }
    return Handled(Deleted, [path]);
  }

  /** `take_action`, with the upstream listing, `os.path.isdir` and `git.Repo` given. */
  method TakeAction(repos: seq<RemoteRepo>, localSource: string, exclude: seq<string>,
                    isDir: string -> bool, repoAt: string -> LocalRepo, dryRun: bool) returns (run: Run)
    ensures run == ArchivedRun(localSource, exclude, isDir, repoAt, dryRun, [], repos)
  {
    ghost var all := ArchivedRun(localSource, exclude, isDir, repoAt, dryRun, [], repos);
    run := Run([], [], None);
    var i := 0;
    while i < |repos|
      invariant 0 <= i <= |repos|
      invariant run.failed.None?
      invariant Then(run, ArchivedRun(localSource, exclude, isDir, repoAt, dryRun, run.deleted, repos[i..])) == all
    {
      var step := HandleRepo(localSource, exclude, isDir, repoAt, dryRun, run.deleted, repos[i]);
      assert repos[i..][0] == repos[i] && repos[i..][1..] == repos[i + 1..];
      if step.Failed? {
        return Run(run.entries, run.deleted, Some(step.path));
      }
      ghost var rest := ArchivedRun(localSource, exclude, isDir, repoAt, dryRun, run.deleted + step.removed, repos[i + 1..]);
      ThenAssoc(run, Run([Entry(repos[i].name, step.decision)], step.removed, None), rest);
      run := Run(run.entries + [Entry(repos[i].name, step.decision)], run.deleted + step.removed, None);
      i := i + 1;
    }
  }

  // ---------------------------------------------------------------------------
  // Lemmas.

  /** What the entry for `repo` satisfies, each check as an if-and-only-if: a repository
      not archived or excluded is passed over, an archived one whose directory is missing
      or was already deleted (`gone`) is passed over too, and otherwise a dirty repository
      is kept, a clean one is reported in a dry run and deleted in a real one. */
  predicate Justified(localSource: string, exclude: seq<string>, isDir: string -> bool, repoAt: string -> LocalRepo,
                      dryRun: bool, gone: seq<string>, repo: RemoteRepo, e: Entry)
  {
    var path := Paths.Join(localSource, repo.name);
    var present := repo.archived && repo.name !in exclude && isDir(path) && path !in gone;
    && e.name == repo.name
    && (e.decision.NotArchived? <==> !repo.archived)
    && (e.decision.Excluded? <==> repo.archived && repo.name in exclude)
    && (e.decision.NoDirectory? <==> repo.archived && repo.name !in exclude && (!isDir(path) || path in gone))
    && (e.decision.KeptDirty? <==> present && repoAt(path) == Repository(true))
    && (e.decision.WouldDelete? <==> present && repoAt(path) == Repository(false) && dryRun)
    && (e.decision.Deleted? <==> present && repoAt(path) == Repository(false) && !dryRun)
  }

  /** The paths of the entries whose decision is `Deleted`, in order. */
  function DeletedPaths(localSource: string, entries: seq<Entry>): seq<string>
    decreases |entries|
  {
    if entries == [] then []
    else (if entries[0].decision.Deleted? then [Paths.Join(localSource, entries[0].name)] else []) +
         DeletedPaths(localSource, entries[1..])
  }

  lemma StepJustified(localSource: string, exclude: seq<string>, isDir: string -> bool, repoAt: string -> LocalRepo,
                      dryRun: bool, gone: seq<string>, repo: RemoteRepo)
    requires StepFor(localSource, exclude, isDir, repoAt, dryRun, gone, repo).Handled?
    ensures var step := StepFor(localSource, exclude, isDir, repoAt, dryRun, gone, repo);
            && Justified(localSource, exclude, isDir, repoAt, dryRun, gone, repo, Entry(repo.name, step.decision))
            && step.removed == (if step.decision.Deleted? then [Paths.Join(localSource, repo.name)] else [])
            && (step.decision.Deleted? ==> Paths.Join(localSource, repo.name) !in gone)
  {
  }

  lemma DeletedPathsCons(localSource: string, e: Entry, entries: seq<Entry>)
    ensures DeletedPaths(localSource, [e] + entries) ==
            (if e.decision.Deleted? then [Paths.Join(localSource, e.name)] else []) + DeletedPaths(localSource, entries)
  {
    assert ([e] + entries)[1..] == entries;
  }

  /** What is gone before entry `k` of a run that starts with `e`, which removed `removed`. */
  lemma GoneShift(localSource: string, gone: seq<string>, removed: seq<string>, e: Entry, entries: seq<Entry>, k: nat)
    requires 0 < k <= |entries|
    requires removed == (if e.decision.Deleted? then [Paths.Join(localSource, e.name)] else [])
    ensures gone + DeletedPaths(localSource, ([e] + entries)[..k]) == (gone + removed) + DeletedPaths(localSource, entries[..k - 1])
  {
    assert ([e] + entries)[..k] == [e] + entries[..k - 1];
    DeletedPathsCons(localSource, e, entries[..k - 1]);
  }

  /** The run handles the repositories in listing order, all of them unless one failed,
      and entry `k` is justified by repository `k`, with the paths deleted before it gone. */
  lemma {:induction false} ArchivedRunJustified(localSource: string, exclude: seq<string>, isDir: string -> bool,
                                                repoAt: string -> LocalRepo, dryRun: bool, gone: seq<string>, repos: seq<RemoteRepo>)
    ensures var run := ArchivedRun(localSource, exclude, isDir, repoAt, dryRun, gone, repos);
            && |run.entries| <= |repos|
            && (run.failed.None? ==> |run.entries| == |repos|)
            && (forall k :: 0 <= k < |run.entries| ==>
                  Justified(localSource, exclude, isDir, repoAt, dryRun, gone + DeletedPaths(localSource, run.entries[..k]),
                            repos[k], run.entries[k]))
    decreases |repos|
  {
    if repos != [] {
      var step := StepFor(localSource, exclude, isDir, repoAt, dryRun, gone, repos[0]);
      if step.Handled? {
        StepJustified(localSource, exclude, isDir, repoAt, dryRun, gone, repos[0]);
        ArchivedRunJustified(localSource, exclude, isDir, repoAt, dryRun, gone + step.removed, repos[1..]);
        var rest := ArchivedRun(localSource, exclude, isDir, repoAt, dryRun, gone + step.removed, repos[1..]);
        var e := Entry(repos[0].name, step.decision);
        var entries := [e] + rest.entries;
        assert entries[..0] == [];
        forall k | 0 < k < |entries|
          ensures Justified(localSource, exclude, isDir, repoAt, dryRun, gone + DeletedPaths(localSource, entries[..k]),
                            repos[k], entries[k])
        {
          assert entries[k] == rest.entries[k - 1] && repos[k] == repos[1..][k - 1];
          GoneShift(localSource, gone, step.removed, e, rest.entries, k);
        }
      }
    }
  }

  /** Exactly the `Deleted` entries' paths are removed, in order, each once, and none that
      was deleted before. */
  lemma {:induction false} ArchivedRunDeletes(localSource: string, exclude: seq<string>, isDir: string -> bool,
                                              repoAt: string -> LocalRepo, dryRun: bool, gone: seq<string>, repos: seq<RemoteRepo>)
    ensures var run := ArchivedRun(localSource, exclude, isDir, repoAt, dryRun, gone, repos);
            && run.deleted == DeletedPaths(localSource, run.entries)
            && (forall i, j :: 0 <= i < j < |run.deleted| ==> run.deleted[i] != run.deleted[j])
            && (forall p :: p in run.deleted ==> p !in gone)
    decreases |repos|
  {
    if repos != [] {
      var step := StepFor(localSource, exclude, isDir, repoAt, dryRun, gone, repos[0]);
      if step.Handled? {
        StepJustified(localSource, exclude, isDir, repoAt, dryRun, gone, repos[0]);
        ArchivedRunDeletes(localSource, exclude, isDir, repoAt, dryRun, gone + step.removed, repos[1..]);
        var rest := ArchivedRun(localSource, exclude, isDir, repoAt, dryRun, gone + step.removed, repos[1..]);
        var entries := [Entry(repos[0].name, step.decision)] + rest.entries;
        assert entries[1..] == rest.entries;
        assert DeletedPaths(localSource, entries) == step.removed + DeletedPaths(localSource, rest.entries);
        var deleted := step.removed + rest.deleted;
        forall i, j | 0 <= i < j < |deleted|
          ensures deleted[i] != deleted[j]
        {
          if i < |step.removed| {
            assert deleted[j] in rest.deleted;
          }
        }
      }
    }
  }

  /** A run stops only at the first repository it does not handle, which is archived and
      not excluded, and whose directory is there but is not a git repository. */
  lemma {:induction false} ArchivedRunFails(localSource: string, exclude: seq<string>, isDir: string -> bool,
                                            repoAt: string -> LocalRepo, dryRun: bool, gone: seq<string>, repos: seq<RemoteRepo>)
    requires ArchivedRun(localSource, exclude, isDir, repoAt, dryRun, gone, repos).failed.Some?
    ensures var run := ArchivedRun(localSource, exclude, isDir, repoAt, dryRun, gone, repos);
            var k, p := |run.entries|, run.failed.value;
            && k < |repos| && repos[k].archived && repos[k].name !in exclude
            && p == Paths.Join(localSource, repos[k].name) && isDir(p) && repoAt(p).NotARepository?
    decreases |repos|
  {
    var step := StepFor(localSource, exclude, isDir, repoAt, dryRun, gone, repos[0]);
    if step.Handled? {
      ArchivedRunFails(localSource, exclude, isDir, repoAt, dryRun, gone + step.removed, repos[1..]);
      var rest := ArchivedRun(localSource, exclude, isDir, repoAt, dryRun, gone + step.removed, repos[1..]);
      assert repos[|rest.entries| + 1] == repos[1..][|rest.entries|];
    }
  }

  /** A dry run deletes nothing. */
  lemma {:induction false} DryRunDeletesNothing(localSource: string, exclude: seq<string>, isDir: string -> bool,
                                                repoAt: string -> LocalRepo, gone: seq<string>, repos: seq<RemoteRepo>)
    ensures ArchivedRun(localSource, exclude, isDir, repoAt, true, gone, repos).deleted == []
    decreases |repos|
  {
    if repos != [] {
      var step := StepFor(localSource, exclude, isDir, repoAt, true, gone, repos[0]);
      if step.Handled? {
        DryRunDeletesNothing(localSource, exclude, isDir, repoAt, gone + step.removed, repos[1..]);
      }
    }
  }
}
