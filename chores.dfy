/** The `chores` command: which local repositories a chore applies to, which of them
    still need the chore done, and the per-chore statistics. The filesystem queries and
    the `grep` calls behind the chores are oracles given as functions. */
module Chores {
  import opened Wrappers
  import Paths

  /** Repositories that are archived upstream. */
  predicate IsArchive(name: string) {
    name in {
      "sphinx-git",
      "wazo-admin-ui",
      "wazo-admin-ui-call-filter",
      "wazo-admin-ui-call-permission",
      "wazo-admin-ui-cdr",
      "wazo-admin-ui-conference",
      "wazo-admin-ui-context",
      "wazo-admin-ui-device",
      "wazo-admin-ui-entity",
      "wazo-admin-ui-extension",
      "wazo-admin-ui-funckey",
      "wazo-admin-ui-general-settings",
      "wazo-admin-ui-group",
      "wazo-admin-ui-incall",
      "wazo-admin-ui-ivr",
      "wazo-admin-ui-line",
      "wazo-admin-ui-market",
      "wazo-admin-ui-moh",
      "wazo-admin-ui-outcall",
      "wazo-admin-ui-paging",
      "wazo-admin-ui-parking-lot",
      "wazo-admin-ui-schedule",
      "wazo-admin-ui-sound",
      "wazo-admin-ui-switchboard",
      "wazo-admin-ui-trunk",
      "wazo-admin-ui-user",
      "wazo-admin-ui-voicemail",
      "wazo-admin-ui-webhook",
      "wazo-client-qt",
      "wazo-doc",
      "wazo-pbx.github.io",
      "wazo-python-anytree-packaging",
      "xivo-agentd-client",
      "xivo-amid-client",
      "xivo-auth-client",
      "xivo-auth-keys",
      "xivo-blog",
      "xivo-confd-client",
      "xivo-ctid",
      "xivo-ctid-client",
      "xivo-install-cd",
      "xivo-presentations",
      "xivo-provd-client",
      "xivo-python-celery-packaging",
      "xivo-web-interface",
      "xivo-ws"
    }
  }

  /** Repositories the chores never look at. */
  predicate IsIgnored(name: string) {
    name in {
      "nestbox-ui",
      "wazo-cpaas",
      "wazo-c4-router",
      "wazo-c4-sbc",
      "wazo-kamailio-config",
      "wazo-router-confd-poc",
      "wazo-unicom",
      "wazo-nexsis"
    }
  }

  /** A chore class: its name, its two class predicates (over a repository path) and the
      line `print_dirty_details` prints for a dirty repository (given its name). */
  datatype Chore = Chore(
    name: string,
    isApplicable: string -> bool,
    isDirty: string -> bool,
    detail: string -> string)

  /** What the chores ask of the filesystem: `os.path.isfile`, the number of lines
      `grep --ignore-case --count ^FROM` finds in a file, and whether
      `grep --quiet --ignore-case pattern file` succeeds. */
  datatype Oracles = Oracles(
    isFile: string -> bool,
    fromCount: string -> nat,
    mentions: (string, string) -> bool)

  /** The local checkout: its directory, the entries `os.listdir` returns, and
      `os.path.isdir` on paths. */
  datatype Checkout = Checkout(localSource: string, listing: seq<string>, isDir: string -> bool)

  datatype ChoreError = NoSuchChore(choreName: string)

  function DockerfilePath(repo: string): string {
    Paths.Join(repo, "Dockerfile")
  }

  function AuthorsPath(repo: string): string {
    Paths.Join(repo, "AUTHORS")
  }

  /** `DockerChore`: a repository with a Dockerfile needs splitting when that Dockerfile
      has exactly one `FROM` line and mentions `requirements.txt`. */
  function Docker(o: Oracles): Chore {
    Chore(
      "docker",
      repo => o.isFile(DockerfilePath(repo)),
      repo => o.fromCount(DockerfilePath(repo)) == 1 && o.mentions(DockerfilePath(repo), "requirements.txt"),
      name => DockerfilePath(name))
  }

  /** `AuthorsChore`: a repository with an AUTHORS file is dirty when that file does not
      mention Wazo Communication Inc. */
  function Authors(o: Oracles): Chore {
    Chore(
      "authors",
      repo => o.isFile(AuthorsPath(repo)),
      repo => !o.mentions(AuthorsPath(repo), "Wazo Communication Inc."),
      name => AuthorsPath(name))
  }

  /** `Chore.__subclasses__()` with the two chore modules the command imports. */
  function AllChores(o: Oracles): seq<Chore> {
    [Docker(o), Authors(o)]
  }

  function RepoPath(c: Checkout, name: string): string {
    Paths.Join(c.localSource, name)
  }

  /** `active_repos`: the directories of the checkout, each once, minus the archived and
      the ignored ones. Each name goes with the path `RepoPath` gives it. */
  function ActiveRepos(c: Checkout): (r: set<string>)
    ensures forall n :: n in r <==>
              n in c.listing && c.isDir(RepoPath(c, n)) && !Excluded(n)
  {
    set d | d in c.listing && c.isDir(RepoPath(c, d)) && !Excluded(d)
  }

  /** The names `active_repos` subtracts. */
  predicate Excluded(name: string) {
    IsArchive(name) || IsIgnored(name)
  }

  /** The index of the first chore called `name` (a generator and `next`). */
  function FindChore(chores: seq<Chore>, name: string): (r: Result<nat, ChoreError>)
    ensures r.Ok? ==> r.value < |chores| && chores[r.value].name == name
    ensures r.Ok? ==> forall j :: 0 <= j < r.value ==> chores[j].name != name
    ensures r.Err? ==> r.error == NoSuchChore(name) && forall j :: 0 <= j < |chores| ==> chores[j].name != name
    decreases |chores|
  {
    if chores == [] then Err(NoSuchChore(name))
    else if chores[0].name == name then Ok(0)
    else
      var i :- FindChore(chores[1..], name);
      Ok(i + 1)
  }

  /** `get_chore`. */
  function GetChore(chores: seq<Chore>, name: string): (r: Result<Chore, ChoreError>)
    ensures r.Ok? <==> FindChore(chores, name).Ok?
    ensures r.Ok? ==> r.value == chores[FindChore(chores, name).value]
    ensures r.Err? ==> r.error == NoSuchChore(name)
  {
    var i :- FindChore(chores, name);
    Ok(chores[i])
  }

  /** The active repositories the chore applies to. */
  function Applicable(chore: Chore, c: Checkout): set<string> {
    set n | n in ActiveRepos(c) && chore.isApplicable(RepoPath(c, n))
  }

  /** The applicable repositories that are not dirty. */
  function Clean(chore: Chore, c: Checkout): set<string> {
    set n | n in Applicable(chore, c) && !chore.isDirty(RepoPath(c, n))
  }

  /** `list_chore_details`: the repositories it reports... */
  function Dirty(chore: Chore, c: Checkout): (r: set<string>)
    ensures forall n :: n in r <==>
              n in ActiveRepos(c) && chore.isApplicable(RepoPath(c, n)) && chore.isDirty(RepoPath(c, n))
  {
    set n | n in ActiveRepos(c) && chore.isApplicable(RepoPath(c, n)) && chore.isDirty(RepoPath(c, n))
  }

  /** ... and the lines it prints for them. */
  function DetailLines(chore: Chore, c: Checkout): set<string> {
    set n | n in Dirty(chore, c) :: chore.detail(n)
  }

  /** One line of `print_chores_stats`. */
  datatype ChoreStats = ChoreStats(name: string, clean: nat, total: nat) {
    predicate Ok() {
      clean == total
    }
  }

  function StatsOf(chore: Chore, c: Checkout): ChoreStats {
    ChoreStats(chore.name, |Clean(chore, c)|, |Applicable(chore, c)|)
  }

  /** `print_chores_stats`: one line per chore, in chore order. */
  function AllStats(chores: seq<Chore>, c: Checkout): (r: seq<ChoreStats>)
    ensures |r| == |chores|
    ensures forall i :: 0 <= i < |chores| ==> r[i] == StatsOf(chores[i], c)
  {
    seq(|chores|, i requires 0 <= i < |chores| => StatsOf(chores[i], c))
  }

  /** The parsed arguments: `--list` and the optional chore name. */
  datatype Args = Args(list: bool, chore: Option<string>)

  datatype Outcome =
    | Stats(stats: seq<ChoreStats>)
    | NotFound(message: string)
    | Details(lines: set<string>)
    | Silent

  /** `take_action`. */
  function TakeAction(chores: seq<Chore>, c: Checkout, args: Args): Outcome {
    if args.list || args.chore.None? then Stats(AllStats(chores, c))
    else if args.chore.value != "" then
      match GetChore(chores, args.chore.value)
      case Err(NoSuchChore(n)) => NotFound("Chore not found: " + n)
      case Ok(chore) => Details(DetailLines(chore, c))
    else Silent
  }

  // ---------------------------------------------------------------------------
  // Lemmas.

  /** An archived or ignored repository is never reported nor counted, whatever the chore. */
  lemma ExcludedNeverSeen(chore: Chore, c: Checkout, n: string)
    requires IsArchive(n) || IsIgnored(n)
    ensures n !in ActiveRepos(c)
    ensures n !in Applicable(chore, c) && n !in Clean(chore, c) && n !in Dirty(chore, c)
    ensures forall line :: line in DetailLines(chore, c) ==> exists m :: m in Dirty(chore, c) && m != n && line == chore.detail(m)
  {
  }

  /** The dirty repositories are the applicable ones that are not clean. */
  lemma DirtySplit(chore: Chore, c: Checkout)
    ensures Clean(chore, c) <= Applicable(chore, c)
    ensures Dirty(chore, c) == Applicable(chore, c) - Clean(chore, c)
  {
  }

  /** The statistics: the clean count never exceeds the total, the difference is the number
      of repositories `list_chore_details` reports, and "OK" is printed exactly when it
      reports none. */
  lemma StatsCountDirty(chore: Chore, c: Checkout)
    ensures StatsOf(chore, c).clean <= StatsOf(chore, c).total
    ensures StatsOf(chore, c).total - StatsOf(chore, c).clean == |Dirty(chore, c)|
    ensures StatsOf(chore, c).Ok() <==> Dirty(chore, c) == {}
  {
    var a, k := Applicable(chore, c), Clean(chore, c);
    DirtySplit(chore, c);
    assert a * k == k;
    assert |a - k| == |a| - |a * k|;
  }

  /** With `--list`, or with no chore named, `take_action` prints the statistics of every
      chore, in order. */
  lemma TakeActionStats(chores: seq<Chore>, c: Checkout, args: Args)
    requires args.list || args.chore.None?
    ensures TakeAction(chores, c, args).Stats?
    ensures var lines := TakeAction(chores, c, args).stats;
            |lines| == |chores| &&
            forall i :: 0 <= i < |chores| ==>
              lines[i].name == chores[i].name && lines[i] == StatsOf(chores[i], c)
  {
  }

  /** A chore name that no chore carries prints "Chore not found: <name>" and nothing else. */
  lemma TakeActionUnknown(chores: seq<Chore>, c: Checkout, name: string)
    requires name != "" && forall i :: 0 <= i < |chores| ==> chores[i].name != name
    ensures TakeAction(chores, c, Args(false, Some(name))) == NotFound("Chore not found: " + name)
  {
  }

  /** A known chore name prints the details of the first chore with that name: exactly its
      applicable, dirty, active repositories. */
  lemma TakeActionKnown(chores: seq<Chore>, c: Checkout, i: nat)
    requires i < |chores| && chores[i].name != ""
    requires forall j :: 0 <= j < i ==> chores[j].name != chores[i].name
    ensures FindChore(chores, chores[i].name) == Ok(i)
    ensures TakeAction(chores, c, Args(false, Some(chores[i].name))) == Details(DetailLines(chores[i], c))
  {
    var name := chores[i].name;
    FindFirst(chores, name, i);
    assert GetChore(chores, name) == Ok(chores[i]);
  }

  lemma FindFirst(chores: seq<Chore>, name: string, i: nat)
    requires i < |chores| && chores[i].name == name
    requires forall j :: 0 <= j < i ==> chores[j].name != name
    ensures FindChore(chores, name) == Ok(i)
  {
  }

  /** An empty chore name makes `take_action` do nothing. */
  lemma TakeActionEmptyName(chores: seq<Chore>, c: Checkout)
    ensures TakeAction(chores, c, Args(false, Some(""))) == Silent
  {
  }

  /** The chore names the command knows: "docker" and "authors", in that order. */
  lemma KnownChores(o: Oracles, c: Checkout, name: string)
    ensures name == "docker" ==> GetChore(AllChores(o), name) == Ok(Docker(o))
    ensures name == "authors" ==> GetChore(AllChores(o), name) == Ok(Authors(o))
    ensures name != "docker" && name != "authors" ==> GetChore(AllChores(o), name) == Err(NoSuchChore(name))
  {
    var cs := AllChores(o);
    if name == "docker" {
      FindFirst(cs, name, 0);
    } else if name == "authors" {
      FindFirst(cs, name, 1);
    }
  }
}
