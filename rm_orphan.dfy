/** `wdk repos rm-orphan`: delete the local clones that no longer match a live
    repository upstream, asking before each deletion. */
module RmOrphan {
  import opened Wrappers
  import opened Repos
  import Paths

  datatype Reason = Orphan | Archived

  /** What happened to one local directory. */
  datatype Decision =
    | KeptRemote              // a live repository upstream
    | Skipped                 // not a git repository
    | KeptDirty
    | WouldDelete(reason: Reason)   // dry run
    | Aborted(reason: Reason)       // the answer was "n"
    | Deleted(reason: Reason)

  datatype Entry = Entry(directory: string, decision: Decision)

  /** The whole run: one entry per directory handled, the paths deleted in order, and
      whether the run was cut short by the end of input at a prompt (`EOFError`). */
  datatype Run = Run(entries: seq<Entry>, deleted: seq<string>, interrupted: bool)

  /** The names of the live and of the archived repositories upstream. */
  function LiveNames(repos: seq<RemoteRepo>): set<string> {
    set r | r in repos && !r.archived :: r.name
  }

  function ArchivedNames(repos: seq<RemoteRepo>): set<string> {
    set r | r in repos && r.archived :: r.name
  }

  /** The first loop of `take_action`: every listed repository goes to the archived set or
      to the remote set according to its flag. */
  method Partition(repos: seq<RemoteRepo>) returns (remote: set<string>, archived: set<string>)
    ensures remote == LiveNames(repos) && archived == ArchivedNames(repos)
    ensures forall i :: 0 <= i < |repos| ==>
              (repos[i].archived ==> repos[i].name in archived) && (!repos[i].archived ==> repos[i].name in remote)
    ensures forall n :: n in remote + archived <==> exists i :: 0 <= i < |repos| && repos[i].name == n
  {
    remote, archived := {}, {};
    for i := 0 to |repos|
      invariant remote == LiveNames(repos[..i]) && archived == ArchivedNames(repos[..i])
    {
      assert repos[..i + 1] == repos[..i] + [repos[i]];
      if repos[i].archived {
        archived := archived + {repos[i].name};
      } else {
        remote := remote + {repos[i].name};
      }
    }
    assert repos[..|repos|] == repos;
    forall n | n in remote + archived
      ensures exists i :: 0 <= i < |repos| && repos[i].name == n
    {
      var r :| r in repos && r.name == n;
      var i :| 0 <= i < |repos| && repos[i] == r;
    }
  }

  /** `str.lower` on the ASCII letters. */
  function Lower(s: string): (r: string)
    ensures |r| == |s|
    ensures forall i :: 0 <= i < |s| ==> r[i] == if 'A' <= s[i] <= 'Z' then (s[i] as int + 32) as char else s[i]
  {
    seq(|s|, i requires 0 <= i < |s| => if 'A' <= s[i] <= 'Z' then (s[i] as int + 32) as char else s[i])
  }

  /** The answers `confirm_delete` accepts are "y", "Y", "n" and "N", and lowering twice is
      lowering once. */
  lemma LowerAnswers(s: string)
    ensures Lower(s) == "y" <==> s == "y" || s == "Y"
    ensures Lower(s) == "n" <==> s == "n" || s == "N"
    ensures Lower(Lower(s)) == Lower(s)
  {
    if |s| == 1 {
      assert Lower(s)[0] == if 'A' <= s[0] <= 'Z' then (s[0] as int + 32) as char else s[0];
      assert s == [s[0]] && Lower(s) == [Lower(s)[0]];
    }
    assert Lower(Lower(s)) == Lower(s);
  }

  predicate Valid(answer: string) {
    Lower(answer) == "y" || Lower(answer) == "n"
  }

  /** `confirm_delete` reading the answers in order: the verdict (nothing when the input
      ends first) and how many answers it read. */
  function Confirm(answers: seq<string>): (r: (Option<bool>, nat))
    ensures r.1 <= |answers|
    decreases |answers|
  {
    if answers == [] then (None, 0)
    else if Lower(answers[0]) == "y" then (Some(true), 1)
    else if Lower(answers[0]) == "n" then (Some(false), 1)
    else
      var (verdict, used) := Confirm(answers[1..]);
      (verdict, used + 1)
  }

  /** `confirm_delete`: prompts until an answer lowercases to "y" or "n"; True exactly for
      "y". Running out of input is `EOFError`, reported as `None`. */
  method ConfirmDelete(path: string, answers: seq<string>) returns (verdict: Option<bool>, used: nat)
    ensures (verdict, used) == Confirm(answers)
    ensures verdict.Some? ==>
              && 1 <= used <= |answers| && Valid(answers[used - 1])
              && (forall j :: 0 <= j < used - 1 ==> !Valid(answers[j]))
              && (verdict.value <==> Lower(answers[used - 1]) == "y")
    ensures verdict.None? ==> used == |answers| && forall j :: 0 <= j < |answers| ==> !Valid(answers[j])
  {
    var i := 0;
    while true
      invariant 0 <= i <= |answers|
      invariant forall j :: 0 <= j < i ==> !Valid(answers[j])
      invariant Confirm(answers) == (Confirm(answers[i..]).0, Confirm(answers[i..]).1 + i)
      decreases |answers| - i
    {
      if i == |answers| {
        return None, i;
      }
      var answer := Lower(answers[i]);
      assert answers[i..][1..] == answers[i + 1..];
      if answer == "y" || answer == "n" {
        return Some(answer != "n"), i + 1;
      }
      i := i + 1;
    }
  }

  function ReasonFor(archived: set<string>, directory: string): (r: Reason)
    ensures r == Archived <==> directory in archived
  {
    if directory in archived then Archived else Orphan
  }

  /** The checks before the prompt, in the order the loop makes them. */
  function Screen(remote: set<string>, archived: set<string>, local: LocalRepo, directory: string, dryRun: bool): Option<Decision> {
    if directory in remote then Some(KeptRemote)
    else if local.NotARepository? then Some(Skipped)
    else if local.dirty then Some(KeptDirty)
    else if dryRun then Some(WouldDelete(ReasonFor(archived, directory)))
    else None
  }

  /** The outcome of one pass of the second loop: the decision, the paths deleted and
      the answers read; or the end of input at the prompt. */
  datatype Step = Handled(decision: Decision, removed: seq<string>, used: nat) | Interrupted

  function StepFor(remote: set<string>, archived: set<string>, localSource: string, directory: string,
                   repoAt: string -> LocalRepo, dryRun: bool, answers: seq<string>): (r: Step)
    ensures r.Handled? ==> r.used <= |answers|
  {
    var path := Paths.Join(localSource, directory);
    match Screen(remote, archived, repoAt(path), directory, dryRun)
    case Some(decision) => Handled(decision, [], 0)
    case None =>
      var (verdict, used) := Confirm(answers);
      if verdict.None? then Interrupted
      else if verdict.value then Handled(Deleted(ReasonFor(archived, directory)), [path], used)
      else Handled(Aborted(ReasonFor(archived, directory)), [], used)
  }

  function Then(first: Run, rest: Run): Run {
    Run(first.entries + rest.entries, first.deleted + rest.deleted, rest.interrupted)
  }

  /** The second loop of `take_action` over the directory listing, from the given answers on. */
  function OrphanRun(remote: set<string>, archived: set<string>, localSource: string, listing: seq<string>,
                     repoAt: string -> LocalRepo, dryRun: bool, answers: seq<string>): Run
    decreases |listing|
  {
    if listing == [] then Run([], [], false)
    else match StepFor(remote, archived, localSource, listing[0], repoAt, dryRun, answers)
      case Interrupted => Run([], [], true)
      case Handled(decision, removed, used) =>
        Then(Run([Entry(listing[0], decision)], removed, false),
             OrphanRun(remote, archived, localSource, listing[1..], repoAt, dryRun, answers[used..]))
  }

  /** One step of `OrphanRun`. */
  lemma OrphanRunUnfold(remote: set<string>, archived: set<string>, localSource: string, listing: seq<string>,
                        repoAt: string -> LocalRepo, dryRun: bool, answers: seq<string>)
    requires listing != []
    ensures var step := StepFor(remote, archived, localSource, listing[0], repoAt, dryRun, answers);
            OrphanRun(remote, archived, localSource, listing, repoAt, dryRun, answers) ==
              if step.Interrupted? then Run([], [], true)
              else Then(Run([Entry(listing[0], step.decision)], step.removed, false),
                        OrphanRun(remote, archived, localSource, listing[1..], repoAt, dryRun, answers[step.used..]))
  {
  }

  lemma ThenAssoc(a: Run, b: Run, c: Run)
    ensures Then(a, Then(b, c)) == Then(Then(a, b), c)
  {
    assert a.entries + (b.entries + c.entries) == (a.entries + b.entries) + c.entries;
    assert a.deleted + (b.deleted + c.deleted) == (a.deleted + b.deleted) + c.deleted;
  }

  /** One pass of the second loop of `take_action`: the checks in the order the code makes
      them, then the prompt. */
  method HandleDirectory(remote: set<string>, archived: set<string>, localSource: string, directory: string,
                         repoAt: string -> LocalRepo, dryRun: bool, answers: seq<string>) returns (step: Step)
    ensures step == StepFor(remote, archived, localSource, directory, repoAt, dryRun, answers)
  {
    if directory in remote {
      return Handled(KeptRemote, [], 0);
    }
    var path := Paths.Join(localSource, directory);
    var local := repoAt(path);
    if local.NotARepository? {
      return Handled(Skipped, [], 0);
    }
    var reason := Orphan;
    if directory in archived {
      reason := Archived;
    }
    if local.dirty {
      return Handled(KeptDirty, [], 0);
    }
    if dryRun {
      return Handled(WouldDelete(reason), [], 0);
    }
    var verdict, used := ConfirmDelete(path, answers);
    if verdict.None? {
      return Interrupted;
    }
    if !verdict.value {
      return Handled(Aborted(reason), [], used);
    }
    return Handled(Deleted(reason), [path], used);
  }

  /** `take_action`, with the upstream listing, the directory listing, `git.Repo` and the
      answers typed at the prompts given. */
  method TakeAction(repos: seq<RemoteRepo>, localSource: string, listing: seq<string>,
                    repoAt: string -> LocalRepo, dryRun: bool, answers: seq<string>) returns (run: Run)
    ensures run == OrphanRun(LiveNames(repos), ArchivedNames(repos), localSource, listing, repoAt, dryRun, answers)
  {
    var remote, archived := Partition(repos);
    ghost var all := OrphanRun(remote, archived, localSource, listing, repoAt, dryRun, answers);
    run := Run([], [], false);
    var pos := 0;
    var i := 0;
    assert RunSoFar(remote, archived, localSource, listing, i, repoAt, dryRun, answers, pos, run, all);
    while i < |listing|
      invariant !run.interrupted
      invariant RunSoFar(remote, archived, localSource, listing, i, repoAt, dryRun, answers, pos, run, all)
      decreases |listing| - i
    {
      var next, used := Advance(remote, archived, localSource, listing, i, repoAt, dryRun, answers, pos, run, all);
      if next.interrupted {
        return next;
      }
      run, pos, i := next, used, i + 1;
    }
    RunEnds(remote, archived, localSource, listing, i, repoAt, dryRun, answers, pos, run, all);
  }

  /** The run so far, followed by the run over the directories from `listing[i]` on with the
      answers from `pos` on, is the whole run `all`. */
  ghost predicate RunSoFar(remote: set<string>, archived: set<string>, localSource: string, listing: seq<string>,
                           i: nat, repoAt: string -> LocalRepo, dryRun: bool, answers: seq<string>, pos: nat,
                           run: Run, all: Run)
  {
    && i <= |listing| && pos <= |answers|
    && Then(run, OrphanRun(remote, archived, localSource, listing[i..], repoAt, dryRun, answers[pos..])) == all
  }

  /** One pass of the second loop of `take_action`, with the run so far: the run with the
      directory `listing[i]` handled and the answers read up to `pos'`, or the whole run when
      the input ends at its prompt. */
  method Advance(remote: set<string>, archived: set<string>, localSource: string, listing: seq<string>, i: nat,
                 repoAt: string -> LocalRepo, dryRun: bool, answers: seq<string>, pos: nat, run: Run, ghost all: Run)
    returns (run': Run, pos': nat)
    requires i < |listing| && !run.interrupted
    requires RunSoFar(remote, archived, localSource, listing, i, repoAt, dryRun, answers, pos, run, all)
    ensures run'.interrupted ==> run' == all
    ensures !run'.interrupted ==> RunSoFar(remote, archived, localSource, listing, i + 1, repoAt, dryRun, answers, pos', run', all)
  {
    var step := HandleDirectory(remote, archived, localSource, listing[i], repoAt, dryRun, answers[pos..]);
    if step.Interrupted? {
      RunInterrupted(remote, archived, localSource, listing, i, repoAt, dryRun, answers, pos, run, all);
      return Run(run.entries, run.deleted, true), pos;
    }
    RunAdvances(remote, archived, localSource, listing, i, repoAt, dryRun, answers, pos, run, all);
    return Run(run.entries + [Entry(listing[i], step.decision)], run.deleted + step.removed, false), pos + step.used;
  }

  /** The loop of `TakeAction` after one more directory has been handled. */
  lemma RunAdvances(remote: set<string>, archived: set<string>, localSource: string, listing: seq<string>, i: nat,
                    repoAt: string -> LocalRepo, dryRun: bool, answers: seq<string>, pos: nat, run: Run, all: Run)
    requires i < |listing| && pos <= |answers|
    requires StepFor(remote, archived, localSource, listing[i], repoAt, dryRun, answers[pos..]).Handled?
    requires RunSoFar(remote, archived, localSource, listing, i, repoAt, dryRun, answers, pos, run, all)
    ensures var step := StepFor(remote, archived, localSource, listing[i], repoAt, dryRun, answers[pos..]);
            RunSoFar(remote, archived, localSource, listing, i + 1, repoAt, dryRun, answers, pos + step.used,
                     Run(run.entries + [Entry(listing[i], step.decision)], run.deleted + step.removed, false), all)
  {
    var step := StepFor(remote, archived, localSource, listing[i], repoAt, dryRun, answers[pos..]);
    assert listing[i..][0] == listing[i] && listing[i..][1..] == listing[i + 1..];
    assert answers[pos..][step.used..] == answers[pos + step.used..];
    OrphanRunUnfold(remote, archived, localSource, listing[i..], repoAt, dryRun, answers[pos..]);
    var rest := OrphanRun(remote, archived, localSource, listing[i + 1..], repoAt, dryRun, answers[pos + step.used..]);
    ThenAssoc(run, Run([Entry(listing[i], step.decision)], step.removed, false), rest);
  }

  /** The loop of `TakeAction` when the input ends at a prompt. */
  lemma RunInterrupted(remote: set<string>, archived: set<string>, localSource: string, listing: seq<string>, i: nat,
                       repoAt: string -> LocalRepo, dryRun: bool, answers: seq<string>, pos: nat, run: Run, all: Run)
    requires i < |listing| && pos <= |answers|
    requires StepFor(remote, archived, localSource, listing[i], repoAt, dryRun, answers[pos..]).Interrupted?
    requires RunSoFar(remote, archived, localSource, listing, i, repoAt, dryRun, answers, pos, run, all)
    ensures Run(run.entries, run.deleted, true) == all
  {
    assert listing[i..][0] == listing[i];
    OrphanRunUnfold(remote, archived, localSource, listing[i..], repoAt, dryRun, answers[pos..]);
    assert run.entries + [] == run.entries && run.deleted + [] == run.deleted;
  }

  /** The loop of `TakeAction` when every directory has been handled. */
  lemma RunEnds(remote: set<string>, archived: set<string>, localSource: string, listing: seq<string>, i: nat,
                repoAt: string -> LocalRepo, dryRun: bool, answers: seq<string>, pos: nat, run: Run, all: Run)
    requires i >= |listing| && !run.interrupted
    requires RunSoFar(remote, archived, localSource, listing, i, repoAt, dryRun, answers, pos, run, all)
    ensures run == all
  {
    assert listing[i..] == [];
    assert run.entries + [] == run.entries && run.deleted + [] == run.deleted;
  }

  // ---------------------------------------------------------------------------
  // Lemmas.

  /** What every entry of a run satisfies: the checks the loop makes, in the order it
      makes them. */
  predicate Justified(remote: set<string>, archived: set<string>, localSource: string,
                      repoAt: string -> LocalRepo, dryRun: bool, e: Entry)
  {
    var local := repoAt(Paths.Join(localSource, e.directory));
    && (e.decision.KeptRemote? <==> e.directory in remote)
    && (e.decision.Skipped? <==> e.directory !in remote && local.NotARepository?)
    && (e.decision.KeptDirty? <==> e.directory !in remote && local == Repository(true))
    && (e.decision.WouldDelete? <==> e.directory !in remote && local == Repository(false) && dryRun)
    && (e.decision.Aborted? || e.decision.Deleted? ==> e.directory !in remote && local == Repository(false) && !dryRun)
    && (e.decision.WouldDelete? || e.decision.Aborted? || e.decision.Deleted? ==>
          (e.decision.reason == Archived <==> e.directory in archived))
  }

  /** The paths of the directories whose decision is `Deleted`, in order. */
  function DeletedPaths(localSource: string, entries: seq<Entry>): seq<string>
    decreases |entries|
  {
    if entries == [] then []
    else (if entries[0].decision.Deleted? then [Paths.Join(localSource, entries[0].directory)] else []) +
         DeletedPaths(localSource, entries[1..])
  }

  /** One pass of the loop: its decision is justified, and it deletes the directory
      exactly when it decides `Deleted`. */
  lemma StepJustified(remote: set<string>, archived: set<string>, localSource: string, directory: string,
                      repoAt: string -> LocalRepo, dryRun: bool, answers: seq<string>)
    requires StepFor(remote, archived, localSource, directory, repoAt, dryRun, answers).Handled?
    ensures var step := StepFor(remote, archived, localSource, directory, repoAt, dryRun, answers);
            && Justified(remote, archived, localSource, repoAt, dryRun, Entry(directory, step.decision))
            && step.removed == (if step.decision.Deleted? then [Paths.Join(localSource, directory)] else [])
            && (step.decision.Deleted? ==> 1 <= step.used <= |answers| && Lower(answers[step.used - 1]) == "y")
  {
    var step := StepFor(remote, archived, localSource, directory, repoAt, dryRun, answers);
    if step.decision.Deleted? {
      ConfirmLast(answers);
    }
  }

  /** The last answer `confirm_delete` reads is the one it accepts. */
  lemma {:induction false} ConfirmLast(answers: seq<string>)
    ensures var (verdict, used) := Confirm(answers);
            verdict.Some? ==> 1 <= used <= |answers| && Valid(answers[used - 1]) &&
                              (verdict.value <==> Lower(answers[used - 1]) == "y")
    decreases |answers|
  {
    if answers != [] && !Valid(answers[0]) {
      ConfirmLast(answers[1..]);
    }
  }

  /** The run handles the directories in listing order, all of them unless input ran out. */
  lemma {:induction false} OrphanRunOrder(remote: set<string>, archived: set<string>, localSource: string, listing: seq<string>,
                                          repoAt: string -> LocalRepo, dryRun: bool, answers: seq<string>)
    ensures var run := OrphanRun(remote, archived, localSource, listing, repoAt, dryRun, answers);
            && |run.entries| <= |listing|
            && (!run.interrupted ==> |run.entries| == |listing|)
            && (forall k :: 0 <= k < |run.entries| ==> run.entries[k].directory == listing[k])
    decreases |listing|
  {
    if listing != [] {
      var step := StepFor(remote, archived, localSource, listing[0], repoAt, dryRun, answers);
      if step.Handled? {
        OrphanRunOrder(remote, archived, localSource, listing[1..], repoAt, dryRun, answers[step.used..]);
      }
    }
  }

  /** The deletion-safety rules: every decision is justified by the checks, and exactly the
      directories marked `Deleted` are removed, at `local_source/<name>`. So a live remote
      repository, a directory that is not a git repository and a dirty repository are never
      deleted, and the reason is "Archived" exactly for archived names. */
  lemma {:induction false} OrphanRunSafe(remote: set<string>, archived: set<string>, localSource: string, listing: seq<string>,
                                         repoAt: string -> LocalRepo, dryRun: bool, answers: seq<string>)
    ensures var run := OrphanRun(remote, archived, localSource, listing, repoAt, dryRun, answers);
            && (forall e :: e in run.entries ==> Justified(remote, archived, localSource, repoAt, dryRun, e))
            && run.deleted == DeletedPaths(localSource, run.entries)
    decreases |listing|
  {
    if listing != [] {
      var step := StepFor(remote, archived, localSource, listing[0], repoAt, dryRun, answers);
      if step.Handled? {
        StepJustified(remote, archived, localSource, listing[0], repoAt, dryRun, answers);
        OrphanRunSafe(remote, archived, localSource, listing[1..], repoAt, dryRun, answers[step.used..]);
        var rest := OrphanRun(remote, archived, localSource, listing[1..], repoAt, dryRun, answers[step.used..]);
        var entries := [Entry(listing[0], step.decision)] + rest.entries;
        assert entries[1..] == rest.entries;
        assert DeletedPaths(localSource, entries) == step.removed + DeletedPaths(localSource, rest.entries);
      }
    }
  }

  /** A dry run deletes nothing and never prompts. */
  lemma {:induction false} DryRunDeletesNothing(remote: set<string>, archived: set<string>, localSource: string, listing: seq<string>,
                                                repoAt: string -> LocalRepo, answers: seq<string>)
    ensures var run := OrphanRun(remote, archived, localSource, listing, repoAt, true, answers);
            run.deleted == [] && !run.interrupted && OrphanRun(remote, archived, localSource, listing, repoAt, true, []) == run
    decreases |listing|
  {
    if listing != [] {
      DryRunDeletesNothing(remote, archived, localSource, listing[1..], repoAt, answers);
      assert answers[0..] == answers;
    }
  }

  /** How many answers lowercase to "y". */
  function Yeses(answers: seq<string>): nat
    decreases |answers|
  {
    if answers == [] then 0 else (if Lower(answers[0]) == "y" then 1 else 0) + Yeses(answers[1..])
  }

  lemma {:induction false} YesesSplit(answers: seq<string>, k: nat)
    requires k <= |answers|
    ensures Yeses(answers) == Yeses(answers[..k]) + Yeses(answers[k..])
    decreases k
  {
    if k > 0 {
      YesesSplit(answers[1..], k - 1);
      assert answers[1..][..k - 1] == answers[..k][1..];
      assert answers[1..][k - 1..] == answers[k..];
    } else {
      assert answers[..0] == [];
      assert answers[0..] == answers;
    }
  }

  /** A "yes" from `confirm_delete` means one of the answers it read was "y". */
  lemma {:induction false} ConfirmYes(answers: seq<string>)
    requires Confirm(answers).0 == Some(true)
    ensures Yeses(answers[..Confirm(answers).1]) >= 1
    decreases |answers|
  {
    var used := Confirm(answers).1;
    if Lower(answers[0]) != "y" {
      ConfirmYes(answers[1..]);
      assert answers[..used][1..] == answers[1..][..used - 1];
    }
  }

  /** `rmtree` only runs after a "y": each deletion uses up an answer "y" of its own. */
  lemma {:induction false} DeletionsNeedYes(remote: set<string>, archived: set<string>, localSource: string, listing: seq<string>,
                                            repoAt: string -> LocalRepo, dryRun: bool, answers: seq<string>)
    ensures |OrphanRun(remote, archived, localSource, listing, repoAt, dryRun, answers).deleted| <= Yeses(answers)
    decreases |listing|
  {
    if listing != [] {
      var step := StepFor(remote, archived, localSource, listing[0], repoAt, dryRun, answers);
      if step.Handled? {
        DeletionsNeedYes(remote, archived, localSource, listing[1..], repoAt, dryRun, answers[step.used..]);
        YesesSplit(answers, step.used);
        if step.removed != [] {
          ConfirmYes(answers);
        }
      }
    }
  }
}
