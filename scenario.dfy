/** A worked run: project "ABC" lists two repositories, "api", for which the
    detector answers with the pairs ("Go", go) and ("Python", py), and
    "web", whose analysis failed; project "XYZ" lists none. */
module Scenario {
  import opened Dicts
  import opened Catalog
  import opened Linguist
  import opened Aggregation
  import opened Normalization
  import opened Report
  import opened Pipeline

  function Api(go: real, py: real): Repository {
    Repository("api", Pairs([("Go", go), ("Python", py)]))
  }

  function Web(): Repository {
    Repository("web", Failed)
  }

  function Projects(go: real, py: real): (ps: seq<Project>)
    ensures ProjectsWellFormed(ps)
  {
    [Project("ABC", [Api(go, py), Web()]), Project("XYZ", [])]
  }

  /** The statistics of "api". */
  function ApiStats(go: real, py: real): Stats {
    Dict(["Go", "Python"], map["Go" := go, "Python" := py])
  }

  /** The table of project "ABC". */
  function AbcTable(go: real, py: real): RepoLanguages {
    Dict(["api", "web"], map["api" := ApiStats(go, py), "web" := Empty()])
  }

  /** The project map after the run: only "ABC" is recorded. */
  function ProjectMap(go: real, py: real): (pl: ProjectLanguages)
    ensures ProjectLanguagesValid(pl)
  {
    Dict(["ABC"], map["ABC" := AbcTable(go, py)])
  }

  /** The overall dictionary after normalisation. */
  function Shares(go: real, py: real): (s: Stats)
    requires go + py != 0.0
    ensures s.Valid()
  {
    Dict(["Go", "Python"], map["Go" := go / (go + py) * 100.0, "Python" := py / (go + py) * 100.0])
  }

  // ---------------------------------------------------------------------
  // Two-element unfoldings

  lemma CollectOfTwo(p: Project, q: Project)
    requires ProjectsWellFormed([p, q])
    ensures ReposWellFormed(p.repositories) && ReposWellFormed(q.repositories)
    ensures Collect([p, q]) == AfterProject(AfterProject(Tally(Empty(), Empty()), p), q)
  {
    assert p in [p, q] && q in [p, q];
    assert [p, q][..1] == [p] && [p][..0] == [];
    assert ProjectsWellFormed([p]);
    assert Collect([p, q]) == AfterProject(Collect([p]), q);
    assert Collect([p]) == AfterProject(Collect([]), p);
  }

  lemma FoldOfTwo(overall: Stats, a: Repository, b: Repository)
    requires ReposWellFormed([a, b])
    ensures FoldRepos(overall, [a, b]) == Merged(Merged(overall, Analyze(a.detection)), Analyze(b.detection))
  {
    assert [a, b][..1] == [a] && [a][..0] == [];
    assert ReposWellFormed([a]);
    assert FoldRepos(overall, [a, b]) == Merged(FoldRepos(overall, [a]), Analyze(b.detection));
    assert FoldRepos(overall, [a]) == Merged(FoldRepos(overall, []), Analyze(a.detection));
  }

  lemma TableOfTwo(a: Repository, b: Repository)
    ensures RepoTable([a, b]) == Put(Put(Empty(), a.slug, Analyze(a.detection)), b.slug, Analyze(b.detection))
  {
    var pa := (a.slug, Analyze(a.detection));
    var pb := (b.slug, Analyze(b.detection));
    assert Recorded([a, b]) == [pa, pb];
    PairsOfTwo(pa, pb);
  }

  lemma PairsOfTwo<K, V>(p: (K, V), q: (K, V))
    ensures FromPairs([p, q]) == Put(Put(Empty(), p.0, p.1), q.0, q.1)
  {
    assert [p, q][..1] == [p] && [p][..0] == [];
    assert FromPairs([p]) == Put(Empty(), p.0, p.1);
  }

  // ---------------------------------------------------------------------
  // The run, step by step

  lemma ApiAnalyzed(go: real, py: real)
    ensures Analyze(Api(go, py).detection) == ApiStats(go, py)
  {
    var one: Stats := Put(Empty(), "Go", go);
    assert one == Dict(["Go"], map["Go" := go]);
    assert "Python" !in one.entries;
    assert Put(one, "Python", py) == ApiStats(go, py);
    assert Analyze(Api(go, py).detection) == FromPairs([("Go", go), ("Python", py)]);
    PairsOfTwo(("Go", go), ("Python", py));
  }

  lemma GoMerged(go: real, py: real)
    ensures ApiStats(go, py).Valid()
    ensures MergePrefix(Empty(), ApiStats(go, py), 1) == Dict(["Go"], map["Go" := go])
  {
    var s := ApiStats(go, py);
    var zero: Stats := Empty();
    assert MergePrefix(zero, s, 0) == zero;
    var one := MergePrefix(zero, s, 1);
    assert one == Put(zero, "Go", go);
    assert one.keys == ["Go"];
  }

  lemma ApiMerged(go: real, py: real)
    ensures Merged(Empty(), ApiStats(go, py)) == ApiStats(go, py)
  {
    var s := ApiStats(go, py);
    GoMerged(go, py);
    var one: Stats := Dict(["Go"], map["Go" := go]);
    assert "Python" !in one.entries && s.keys[1] == "Python" && s.entries["Python"] == py;
    var two := Put(one, "Python", py);
    assert MergePrefix(Empty(), s, 2) == two;
    assert two.keys == ["Go"] + ["Python"] == s.keys;
    assert two.entries == s.entries;
  }

  lemma CollectedShape(go: real, py: real)
    ensures Collect(Projects(go, py)) ==
      Tally(Put(Empty(), "ABC", RepoTable([Api(go, py), Web()])), FoldRepos(Empty(), [Api(go, py), Web()]))
  {
    CollectOfTwo(Project("ABC", [Api(go, py), Web()]), Project("XYZ", []));
  }

  lemma OverallFolded(go: real, py: real)
    ensures FoldRepos(Empty(), [Api(go, py), Web()]) == ApiStats(go, py)
  {
    ApiAnalyzed(go, py);
    FoldOfTwo(Empty(), Api(go, py), Web());
    ApiMerged(go, py);
    MergedEmpty(ApiStats(go, py));
  }

  lemma TableRecorded(go: real, py: real)
    ensures RepoTable([Api(go, py), Web()]) == AbcTable(go, py)
  {
    ApiAnalyzed(go, py);
    TableOfTwo(Api(go, py), Web());
  }

  lemma Collected(go: real, py: real)
    ensures Collect(Projects(go, py)) == Tally(ProjectMap(go, py), ApiStats(go, py))
  {
    CollectedShape(go, py);
    OverallFolded(go, py);
    TableRecorded(go, py);
  }

  lemma ApiNormalized(go: real, py: real)
    ensures go + py != 0.0 ==> Normalized(ApiStats(go, py)) == Rescaled(Shares(go, py))
    ensures go + py == 0.0 ==> Normalized(ApiStats(go, py)) == DivisionByZero
  {
    var s := ApiStats(go, py);
    assert s.keys[..1] == ["Go"] && ["Go"][..0] == [];
    assert Total(s) == go + py;
  }

  lemma AbcLanguages(go: real, py: real)
    ensures AbcTable(go, py).Valid()
    ensures Languages(AbcTable(go, py)) == {"Go", "Python"}
  {
    var table := AbcTable(go, py);
    assert table.keys[..1] == ["api"] && ["api"][..0] == [];
  }

  lemma ApiRecord(go: real, py: real)
    ensures RepoRow(ApiStats(go, py), {"Go", "Python"}, "api") ==
      map["Go" := Number(go), "Python" := Number(py), RepositoryColumn := Text("api")]
  {
    var row := RepoRow(ApiStats(go, py), {"Go", "Python"}, "api");
    assert row.Keys == {"Go", "Python", RepositoryColumn};
  }

  lemma ZeroRecord()
    ensures RepoRow(Empty(), {"Go", "Python"}, "web") ==
      map["Go" := Number(0.0), "Python" := Number(0.0), RepositoryColumn := Text("web")]
  {
    var row := RepoRow(Empty(), {"Go", "Python"}, "web");
    assert row.Keys == {"Go", "Python", RepositoryColumn};
  }

  lemma AbcSheet(go: real, py: real)
    ensures AbcTable(go, py).Valid()
    ensures ProjectSheet("ABC", AbcTable(go, py)) == Sheet("ABC", [
      map["Go" := Number(go), "Python" := Number(py), RepositoryColumn := Text("api")],
      map["Go" := Number(0.0), "Python" := Number(0.0), RepositoryColumn := Text("web")]])
  {
    AbcLanguages(go, py);
    ApiRecord(go, py);
    ZeroRecord();
  }

  lemma SavedBook(go: real, py: real)
    requires go + py != 0.0
    ensures var wb := Book(ProjectMap(go, py), Shares(go, py));
      && |wb.sheets| == 1
      && wb.sheets[0].name == "ABC"
      && |wb.sheets[0].rows| == 2
      && wb.sheets[0].rows[0] ==
           map["Go" := Number(go), "Python" := Number(py), RepositoryColumn := Text("api")]
      && wb.sheets[0].rows[1] ==
           map["Go" := Number(0.0), "Python" := Number(0.0), RepositoryColumn := Text("web")]
      && wb.summary == [("Go", go / (go + py) * 100.0), ("Python", py / (go + py) * 100.0)]
  {
    AbcSheet(go, py);
  }

  /** Only "ABC" gets a sheet; "api" has its percentages, "web" (whose
      analysis failed) a record of zeros, and the summary holds the two
      shares. When the two percentages sum to zero the run fails instead. */
  lemma OneProjectWithoutRepositories(go: real, py: real)
    ensures go + py != 0.0 ==>
      Expected(Projects(go, py)) == Saved(Book(ProjectMap(go, py), Shares(go, py)))
    ensures go + py == 0.0 ==> Expected(Projects(go, py)) == ZeroDivision
  {
    Collected(go, py);
    ApiNormalized(go, py);
  }
}
