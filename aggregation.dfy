/** The accumulation done by the main loop: every repository's statistics are
    stored under its slug in its project's table and folded into one running
    overall dictionary; a project is recorded only when it has repositories. */
module Aggregation {
  import opened Dicts
  import opened Catalog
  import opened Linguist

  /** A repository the lister returned, with the detector's answer for its clone. */
  datatype Repository = Repository(slug: Slug, detection: Detection)

  /** A configured project key with the repositories listed for it. A
      listing that fails while paging is the slugs fetched before the
      failure; one that fails at the project lookup is empty. */
  datatype Project = Project(key: ProjectKey, repositories: seq<Repository>)

  /** Every detector answer among `repos` is well formed. */
  predicate ReposWellFormed(repos: seq<Repository>) {
    forall r | r in repos :: WellFormed(r.detection)
  }

  /** Every detector answer of every project is well formed. */
  predicate ProjectsWellFormed(ps: seq<Project>) {
    forall p | p in ps :: ReposWellFormed(p.repositories)
  }

  // ---------------------------------------------------------------------
  // Folding one repository's statistics into the overall dictionary

  /** The overall dictionary after the first `n` languages of a repository's
      statistics are folded into it one by one, in their order. */
  function MergePrefix(overall: Stats, stats: Stats, n: nat): (r: Stats)
    requires stats.Valid() && n <= |stats.keys|
  {
    if n == 0 then overall
    else
      var m := MergePrefix(overall, stats, n - 1);
      var l := stats.keys[n - 1];
      Put(m, l, if l in m.entries then m.entries[l] + stats.entries[l] else stats.entries[l])
  }

  /** `overall` with one repository's statistics folded in. */
  function Merged(overall: Stats, stats: Stats): Stats
    requires stats.Valid()
  {
    MergePrefix(overall, stats, |stats.keys|)
  }

  /** Folding in the first `n` languages: afterwards a language among them
      has its old value plus its percentage, or just its percentage when it
      is new, and every other language keeps its value. */
  lemma {:induction false} MergePrefixAt(overall: Stats, stats: Stats, n: nat, l: Language)
    requires stats.Valid() && n <= |stats.keys|
    ensures var r := MergePrefix(overall, stats, n);
      && (l in r.entries <==> l in overall.entries || l in stats.keys[..n])
      && (l in stats.keys[..n] && l in overall.entries ==> r.entries[l] == overall.entries[l] + stats.entries[l])
      && (l in stats.keys[..n] && l !in overall.entries ==> r.entries[l] == stats.entries[l])
      && (l !in stats.keys[..n] && l in overall.entries ==> r.entries[l] == overall.entries[l])
  {
    if n > 0 {
      var last := stats.keys[n - 1];
      DistinctPrefix(stats.keys, n - 1);
      assert l in stats.keys[..n] <==> l in stats.keys[..n - 1] || l == last;
      MergePrefixAt(overall, stats, n - 1, l);
      MergePrefixAt(overall, stats, n - 1, last);
    }
  }

  /** Folding keeps the languages already present in their order, and keeps
      a well-formed dictionary well formed. */
  lemma {:induction false} MergePrefixValid(overall: Stats, stats: Stats, n: nat)
    requires stats.Valid() && n <= |stats.keys|
    ensures overall.keys <= MergePrefix(overall, stats, n).keys
    ensures overall.Valid() ==> MergePrefix(overall, stats, n).Valid()
  {
    if n > 0 {
      MergePrefixValid(overall, stats, n - 1);
    }
  }

  /** Merging well-formed dictionaries gives a well-formed dictionary. */
  lemma MergedValid(overall: Stats, stats: Stats)
    requires overall.Valid() && stats.Valid()
    ensures Merged(overall, stats).Valid() && overall.keys <= Merged(overall, stats).keys
  {
    MergePrefixValid(overall, stats, |stats.keys|);
  }

  /** Folding in well-formed statistics, language by language. */
  lemma MergedAt(overall: Stats, stats: Stats, l: Language)
    requires stats.Valid()
    ensures var r := Merged(overall, stats);
      && (l in r.entries <==> l in overall.entries || l in stats.entries)
      && (l in stats.entries && l in overall.entries ==> r.entries[l] == overall.entries[l] + stats.entries[l])
      && (l in stats.entries && l !in overall.entries ==> r.entries[l] == stats.entries[l])
      && (l !in stats.entries && l in overall.entries ==> r.entries[l] == overall.entries[l])
      && Percentage(r, l) == Percentage(overall, l) + Percentage(stats, l)
  {
    MergePrefixAt(overall, stats, |stats.keys|, l);
    assert stats.keys[..|stats.keys|] == stats.keys;
  }

  /** Folding in empty statistics (a failed analysis) changes nothing. */
  lemma MergedEmpty(overall: Stats)
    ensures Merged(overall, Empty()) == overall
  {
  }

  /** Lines 136-140: every language of `stats` is added to `overall`, or
      created with its percentage when `overall` lacks it (what that
      amounts to is `MergedSpec`). */
  method Accumulate(overall: Stats, stats: Stats) returns (r: Stats)
    requires overall.Valid() && stats.Valid()
    ensures r == Merged(overall, stats)
  {
    r := overall;
    for i := 0 to |stats.keys|
      invariant r == MergePrefix(overall, stats, i)
    {
      var language := stats.keys[i];
      var percentage := stats.entries[language];
      var value;
      if language in r.entries {
        value := r.entries[language] + percentage;
      } else {
        value := percentage;
      }
      r := Put(r, language, value);
    }
  }

  /** Folding in one repository's statistics: the key set becomes the union,
      shared languages are added, the others keep their value, and the old
      keys keep their order. */
  lemma MergedSpec(overall: Stats, stats: Stats)
    requires overall.Valid() && stats.Valid()
    ensures var r := Merged(overall, stats);
      && r.Valid()
      && r.entries.Keys == overall.entries.Keys + stats.entries.Keys
      && (forall l | l in stats.entries && l in overall.entries ::
            r.entries[l] == overall.entries[l] + stats.entries[l])
      && (forall l | l in stats.entries && l !in overall.entries :: r.entries[l] == stats.entries[l])
      && (forall l | l in overall.entries && l !in stats.entries :: r.entries[l] == overall.entries[l])
      && overall.keys <= r.keys
  {
    var r := Merged(overall, stats);
    forall l ensures
      && (l in r.entries <==> l in overall.entries || l in stats.entries)
      && (l in stats.entries && l in overall.entries ==> r.entries[l] == overall.entries[l] + stats.entries[l])
      && (l in stats.entries && l !in overall.entries ==> r.entries[l] == stats.entries[l])
      && (l !in stats.entries && l in overall.entries ==> r.entries[l] == overall.entries[l])
    {
      MergedAt(overall, stats, l);
    }
    MergedValid(overall, stats);
  }

  // ---------------------------------------------------------------------
  // One project

  /** The (slug, statistics) assignments the repository loop performs, in order. */
  function Recorded(repos: seq<Repository>): (pairs: seq<(Slug, Stats)>) {
    seq(|repos|, j requires 0 <= j < |repos| => (repos[j].slug, Analyze(repos[j].detection)))
  }

  /** `repo_languages` after the repository loop: `repo_languages[slug] = stats` per repository. */
  function RepoTable(repos: seq<Repository>): RepoLanguages {
    FromPairs(Recorded(repos))
  }

  /** `overall_languages` after folding in every repository of `repos`, in order. */
  function FoldRepos(overall: Stats, repos: seq<Repository>): Stats
    requires ReposWellFormed(repos)
    decreases |repos|
  {
    if repos == [] then overall
    else
      Merged(FoldRepos(overall, repos[..|repos| - 1]), Analyze(repos[|repos| - 1].detection))
  }

  /** Folding in one more repository is one more `Merged`. */
  lemma FoldReposStep(overall: Stats, repos: seq<Repository>, j: nat)
    requires ReposWellFormed(repos) && j < |repos|
    ensures ReposWellFormed(repos[..j]) && ReposWellFormed(repos[..j + 1])
    ensures Analyze(repos[j].detection).Valid()
    ensures FoldRepos(overall, repos[..j + 1]) == Merged(FoldRepos(overall, repos[..j]), Analyze(repos[j].detection))
  {
    assert repos[..j + 1][..j] == repos[..j];
    assert repos[j] in repos;
  }

  /** Recording one more repository extends the project table by one assignment. */
  lemma RepoTableStep(repos: seq<Repository>, j: nat)
    requires j < |repos|
    ensures RepoTable(repos[..j + 1]) == Put(RepoTable(repos[..j]), repos[j].slug, Analyze(repos[j].detection))
  {
    assert Recorded(repos[..j + 1])[..j] == Recorded(repos[..j]);
  }

  /** The project table lists the listed slugs; a slug stands for the
      statistics of its last repository. */
  lemma {:induction false} RepoTableEntry(repos: seq<Repository>, j: nat)
    requires j < |repos|
    requires forall m | j < m < |repos| :: repos[m].slug != repos[j].slug
    ensures repos[j].slug in RepoTable(repos).entries
    ensures RepoTable(repos).entries[repos[j].slug] == Analyze(repos[j].detection)
  {
    FromPairsLastWins(Recorded(repos), j);
  }

  /** The project table is well formed, and so is every entry of it. */
  lemma RepoTableValid(repos: seq<Repository>)
    requires ReposWellFormed(repos)
    ensures RepoLanguagesValid(RepoTable(repos))
  {
    var t := RepoTable(repos);
    FromPairsKeys(Recorded(repos));
    forall s | s in t.entries ensures t.entries[s].Valid() {
      var j :| 0 <= j < |repos| && Recorded(repos)[j] == (s, t.entries[s]);
    }
  }

  /** Folding well-formed statistics keeps the overall dictionary well formed. */
  lemma {:induction false} FoldReposValid(overall: Stats, repos: seq<Repository>)
    requires overall.Valid() && ReposWellFormed(repos)
    ensures FoldRepos(overall, repos).Valid()
    decreases |repos|
  {
    if repos != [] {
      var init := repos[..|repos| - 1];
      FoldReposValid(overall, init);
      MergedValid(FoldRepos(overall, init), Analyze(repos[|repos| - 1].detection));
    }
  }

  // ---------------------------------------------------------------------
  // All projects

  /** The two dictionaries the main loop builds. */
  datatype Tally = Tally(projects: ProjectLanguages, overall: Stats)

  /** The main loop's body for one project (lines 117-148). */
  function AfterProject(t: Tally, p: Project): Tally
    requires ReposWellFormed(p.repositories)
  {
    if p.repositories == [] then t
    else Tally(Put(t.projects, p.key, RepoTable(p.repositories)), FoldRepos(t.overall, p.repositories))
  }

  /** Both dictionaries after the main loop has run over `ps`. */
  function Collect(ps: seq<Project>): Tally
    requires ProjectsWellFormed(ps)
    decreases |ps|
  {
    if ps == [] then Tally(Empty(), Empty())
    else AfterProject(Collect(ps[..|ps| - 1]), ps[|ps| - 1])
  }

  /** Every dictionary the main loop builds is well formed. */
  lemma {:induction false} CollectValid(ps: seq<Project>)
    requires ProjectsWellFormed(ps)
    ensures ProjectLanguagesValid(Collect(ps).projects) && Collect(ps).overall.Valid()
    decreases |ps|
  {
    if ps != [] {
      var init := ps[..|ps| - 1];
      var p := ps[|ps| - 1];
      CollectValid(init);
      if p.repositories != [] {
        RepoTableValid(p.repositories);
        FoldReposValid(Collect(init).overall, p.repositories);
      }
    }
  }

  /** A project without repositories changes neither dictionary; any other
      project only touches its own key, so the other projects' tables stay
      as they were (lines 119, 146-148). */
  lemma AfterProjectFrame(t: Tally, p: Project, k: ProjectKey)
    requires ReposWellFormed(p.repositories)
    ensures p.repositories == [] ==> AfterProject(t, p) == t
    ensures k != p.key ==>
      && (k in AfterProject(t, p).projects.entries <==> k in t.projects.entries)
      && (k in t.projects.entries ==> AfterProject(t, p).projects.entries[k] == t.projects.entries[k])
  {
  }

  /** Some project with key `k` listed at least one repository. */
  predicate Listed(ps: seq<Project>, k: ProjectKey) {
    exists i | 0 <= i < |ps| :: ps[i].key == k && ps[i].repositories != []
  }

  /** A key is listed by the projects when it is listed by the earlier ones
      or by the last one. */
  lemma ListedStep(ps: seq<Project>, k: ProjectKey)
    requires ps != []
    ensures Listed(ps, k) <==>
      Listed(ps[..|ps| - 1], k) || (ps[|ps| - 1].key == k && ps[|ps| - 1].repositories != [])
  {
    var init := ps[..|ps| - 1];
    if Listed(init, k) {
      var i :| 0 <= i < |init| && init[i].key == k && init[i].repositories != [];
      assert ps[i] == init[i];
    }
    if Listed(ps, k) {
      var i :| 0 <= i < |ps| && ps[i].key == k && ps[i].repositories != [];
      if i < |init| { assert init[i] == ps[i]; }
    }
  }

  /** A project key gets an entry exactly when some project with that key
      listed at least one repository (lines 119, 146-148). */
  lemma {:induction false} ProjectRecorded(ps: seq<Project>, k: ProjectKey)
    requires ProjectsWellFormed(ps)
    ensures k in Collect(ps).projects.entries <==> Listed(ps, k)
    decreases |ps|
  {
    if ps != [] {
      var init := ps[..|ps| - 1];
      var last := ps[|ps| - 1];
      assert last in ps;
      assert Collect(ps) == AfterProject(Collect(init), last);
      ProjectRecorded(init, k);
      ListedStep(ps, k);
      AfterProjectFrame(Collect(init), last, k);
    }
  }

  /** A recorded project's entry is the table of its last non-empty listing;
      later projects with other keys leave it alone. */
  lemma {:induction false} ProjectEntry(ps: seq<Project>, i: nat)
    requires ProjectsWellFormed(ps)
    requires i < |ps| && ps[i].repositories != []
    requires forall j | i < j < |ps| :: ps[j].key == ps[i].key ==> ps[j].repositories == []
    ensures ps[i].key in Collect(ps).projects.entries
    ensures Collect(ps).projects.entries[ps[i].key] == RepoTable(ps[i].repositories)
    decreases |ps|
  {
    var init := ps[..|ps| - 1];
    var last := ps[|ps| - 1];
    assert last in ps;
    assert Collect(ps) == AfterProject(Collect(init), last);
    if i < |ps| - 1 {
      assert init[i] == ps[i];
      ProjectEntry(init, i);
      AfterProjectFrame(Collect(init), last, ps[i].key);
    }
  }

  // ---------------------------------------------------------------------
  // The overall dictionary as a sum

  /** The percentages of `l` over `repos`, a missing language counting zero. */
  function RepoSum(repos: seq<Repository>, l: Language): real
    decreases |repos|
  {
    if repos == [] then 0.0
    else RepoSum(repos[..|repos| - 1], l) + Percentage(Analyze(repos[|repos| - 1].detection), l)
  }

  /** The percentages of `l` over every repository of every project. */
  function ProjectSum(ps: seq<Project>, l: Language): real
    decreases |ps|
  {
    if ps == [] then 0.0
    else ProjectSum(ps[..|ps| - 1], l) + RepoSum(ps[|ps| - 1].repositories, l)
  }

  /** Some repository of `repos` reports language `l`. */
  predicate Reports(repos: seq<Repository>, l: Language) {
    exists j | 0 <= j < |repos| :: l in Analyze(repos[j].detection).entries
  }

  /** A repository reports `l` when an earlier one does or the last one does. */
  lemma ReportsStep(repos: seq<Repository>, l: Language)
    requires repos != []
    ensures Reports(repos, l)
      <==> Reports(repos[..|repos| - 1], l) || l in Analyze(repos[|repos| - 1].detection).entries
  {
    var n := |repos|;
    var init := repos[..n - 1];
    if Reports(init, l) {
      var j :| 0 <= j < n - 1 && l in Analyze(init[j].detection).entries;
      assert repos[j] == init[j];
      assert Reports(repos, l);
    } else if l in Analyze(repos[n - 1].detection).entries {
      assert Reports(repos, l);
    }
  }

  /** Folding in `repos` adds their percentages of `l` to the running value. */
  lemma {:induction false} FoldReposAt(overall: Stats, repos: seq<Repository>, l: Language)
    requires ReposWellFormed(repos)
    ensures Percentage(FoldRepos(overall, repos), l) == Percentage(overall, l) + RepoSum(repos, l)
    ensures l in FoldRepos(overall, repos).entries <==> l in overall.entries || Reports(repos, l)
    decreases |repos|
  {
    if repos != [] {
      var init := repos[..|repos| - 1];
      var stats := Analyze(repos[|repos| - 1].detection);
      FoldReposAt(overall, init, l);
      MergedAt(FoldRepos(overall, init), stats, l);
      ReportsStep(repos, l);
    }
  }

  /** Some project of `ps` has a repository that reports `l`. */
  predicate AnyReports(ps: seq<Project>, l: Language) {
    exists i | 0 <= i < |ps| :: Reports(ps[i].repositories, l)
  }

  /** A project reports `l` when an earlier one does or the last one does. */
  lemma AnyReportsStep(ps: seq<Project>, l: Language)
    requires ps != []
    ensures AnyReports(ps, l) <==> AnyReports(ps[..|ps| - 1], l) || Reports(ps[|ps| - 1].repositories, l)
  {
    var n := |ps|;
    var init := ps[..n - 1];
    if AnyReports(init, l) {
      var i :| 0 <= i < n - 1 && Reports(init[i].repositories, l);
      assert ps[i] == init[i];
      assert AnyReports(ps, l);
    } else if Reports(ps[n - 1].repositories, l) {
      assert AnyReports(ps, l);
    }
  }

  /** After the main loop, the overall value of a language is the sum of its
      percentages over every repository analysed, and a language is present
      exactly when some repository reported it. */
  lemma {:induction false} OverallIsSum(ps: seq<Project>, l: Language)
    requires ProjectsWellFormed(ps)
    ensures Percentage(Collect(ps).overall, l) == ProjectSum(ps, l)
    ensures l in Collect(ps).overall.entries <==> AnyReports(ps, l)
    decreases |ps|
  {
    if ps != [] {
      var init := ps[..|ps| - 1];
      var p := ps[|ps| - 1];
      OverallIsSum(init, l);
      FoldReposAt(Collect(init).overall, p.repositories, l);
      AnyReportsStep(ps, l);
      if p.repositories == [] {
        assert !Reports(p.repositories, l);
      }
    }
  }
}
