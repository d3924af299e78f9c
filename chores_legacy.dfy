/** The older copy of the `chores` command. Its `ChoreList` is the same logic as the newer
    one (the functions of `Chores`); what differs is the chore catalogue: the base class
    `Chore` is defined in the same file, and the docker and authors chores do not override
    `print_dirty_details`, so a dirty repository is reported by its name. */
module ChoresLegacy {
  import opened Wrappers
  import opened Chores

  /** The base class: every repository is applicable and dirty, and is reported by name. */
  function BaseChore(): Chore {
    Chore("undefined", repo => true, repo => true, name => name)
  }

  /** The older `DockerChore`: the same predicates, the base class's report line. */
  function LegacyDocker(o: Oracles): (r: Chore)
    ensures r.name == Docker(o).name && r.isApplicable == Docker(o).isApplicable && r.isDirty == Docker(o).isDirty
    ensures forall n :: r.detail(n) == n
  {
    Docker(o).(detail := BaseChore().detail)
  }

  /** The older `AuthorsChore`: the same predicates, the base class's report line. */
  function LegacyAuthors(o: Oracles): (r: Chore)
    ensures r.name == Authors(o).name && r.isApplicable == Authors(o).isApplicable && r.isDirty == Authors(o).isDirty
    ensures forall n :: r.detail(n) == n
  {
    Authors(o).(detail := BaseChore().detail)
  }

  /** `Chore.__subclasses__()` in the older file. */
  function LegacyChores(o: Oracles): seq<Chore> {
    [LegacyDocker(o), LegacyAuthors(o)]
  }

  /** The base chore's defaults: every active repository counts, none is clean, all are
      reported, so its statistics are 0 out of the number of active repositories, "OK"
      only when there are none. */
  lemma BaseChoreDefaults(c: Checkout)
    ensures Applicable(BaseChore(), c) == ActiveRepos(c)
    ensures Clean(BaseChore(), c) == {}
    ensures Dirty(BaseChore(), c) == ActiveRepos(c)
    ensures DetailLines(BaseChore(), c) == ActiveRepos(c)
    ensures StatsOf(BaseChore(), c) == ChoreStats("undefined", 0, |ActiveRepos(c)|)
    ensures StatsOf(BaseChore(), c).Ok() <==> ActiveRepos(c) == {}
  {
    var d := DetailLines(BaseChore(), c);
    assert forall n :: n in d <==> n in ActiveRepos(c) by {
      forall n
        ensures n in d <==> n in ActiveRepos(c)
      {
        if n in ActiveRepos(c) {
          assert BaseChore().detail(n) == n;
        }
      }
    }
  }

  /** The base class is not a subclass of itself: "undefined" names no chore. */
  lemma BaseChoreNotListed(o: Oracles)
    ensures GetChore(LegacyChores(o), "undefined") == Err(NoSuchChore("undefined"))
  {
  }

  /** A legacy chore reports repositories by name. */
  lemma LegacyDetailsAreNames(chore: Chore, c: Checkout)
    requires forall n :: chore.detail(n) == n
    ensures DetailLines(chore, c) == Dirty(chore, c)
  {
    var d := DetailLines(chore, c);
    forall n | n in Dirty(chore, c)
      ensures n in d
    {
      assert chore.detail(n) == n;
    }
  }

  /** What is counted and reported depends only on a chore's two predicates. */
  lemma SamePredicates(a: Chore, b: Chore, c: Checkout)
    requires a.isApplicable == b.isApplicable && a.isDirty == b.isDirty
    ensures Applicable(a, c) == Applicable(b, c) && Clean(a, c) == Clean(b, c) && Dirty(a, c) == Dirty(b, c)
  {
  }

  lemma SameLookup(o: Oracles, name: string)
    ensures FindChore(LegacyChores(o), name) == FindChore(AllChores(o), name)
  {
    var newer, legacy := AllChores(o), LegacyChores(o);
    assert legacy[1..][1..] == [] && newer[1..][1..] == [];
  }

  /** Both copies print the same statistics. */
  lemma SameStats(o: Oracles, c: Checkout)
    ensures AllStats(LegacyChores(o), c) == AllStats(AllChores(o), c)
  {
    var newer, legacy := AllChores(o), LegacyChores(o);
    SamePredicates(legacy[0], newer[0], c);
    SamePredicates(legacy[1], newer[1], c);
  }

  /** Both copies report the same repositories for a chore they know, the older one by name. */
  lemma SameDetails(o: Oracles, c: Checkout, name: string)
    requires FindChore(AllChores(o), name).Ok?
    ensures GetChore(LegacyChores(o), name).Ok?
    ensures DetailLines(GetChore(LegacyChores(o), name).value, c) == Dirty(GetChore(AllChores(o), name).value, c)
  {
    var newer, legacy := AllChores(o), LegacyChores(o);
    SameLookup(o, name);
    var i := FindChore(newer, name).value;
    SamePredicates(legacy[i], newer[i], c);
    LegacyDetailsAreNames(legacy[i], c);
  }

  /** Both copies of `take_action` agree on everything except the report lines: where
      the newer one prints the Dockerfile or AUTHORS path of each dirty repository, the
      older one prints the repository's name. */
  lemma SameAsNewer(o: Oracles, c: Checkout, args: Args)
    ensures var newer := TakeAction(AllChores(o), c, args);
            var older := TakeAction(LegacyChores(o), c, args);
            if newer.Details? then
              older.Details? && older.lines == Dirty(GetChore(AllChores(o), args.chore.value).value, c)
            else older == newer
  {
    if args.list || args.chore.None? {
      SameStats(o, c);
    } else if args.chore.value != "" {
      var name := args.chore.value;
      SameLookup(o, name);
      if FindChore(AllChores(o), name).Ok? {
        SameDetails(o, c, name);
      }
    }
  }
}
