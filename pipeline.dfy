/** The whole run of the script (lines 101-158): for every configured project
    the listed repositories are analysed and recorded, the overall
    dictionary is normalised, and the workbook is written. The listing of
    repositories and the detector's answers are inputs (see `Project`). */
module Pipeline {
  import opened Dicts
  import opened Catalog
  import opened Linguist
  import opened Aggregation
  import opened Normalization
  import opened Report

  /** How a run ends: the workbook it writes, or the division by zero
      raised when the overall percentages sum to zero. */
  datatype Outcome = Saved(workbook: Workbook) | ZeroDivision

  /** What a run over the projects `ps` ends with. */
  function Expected(ps: seq<Project>): Outcome
    requires ProjectsWellFormed(ps)
  {
    CollectValid(ps);
    var t := Collect(ps);
    NormalizedValid(t.overall);
    match Normalized(t.overall)
    case DivisionByZero => ZeroDivision
    case Rescaled(n) => Saved(Book(t.projects, n))
  }

  /** Lines 120-143: the repository loop of one project, which records each
      repository's statistics under its slug and folds them into the
      overall dictionary. */
  method AnalyzeProject(repositories: seq<Repository>, overall: Stats) returns (repoLanguages: RepoLanguages, overallAfter: Stats)
    requires ReposWellFormed(repositories) && overall.Valid()
    ensures repoLanguages == RepoTable(repositories)
    ensures overallAfter == FoldRepos(overall, repositories)
  {
    repoLanguages := Empty();
    overallAfter := overall;
    for j := 0 to |repositories|
      invariant ReposWellFormed(repositories[..j])
      invariant repoLanguages == RepoTable(repositories[..j])
      invariant overallAfter == FoldRepos(overall, repositories[..j])
    {
      var languageStats := Analyze(repositories[j].detection);
      FoldReposStep(overall, repositories, j);
      RepoTableStep(repositories, j);
      repoLanguages := Put(repoLanguages, repositories[j].slug, languageStats);
      FoldReposValid(overall, repositories[..j]);
      overallAfter := Accumulate(overallAfter, languageStats);
    }
    assert repositories[..|repositories|] == repositories;
  }

  /** Lines 112-148: the project loop; a project without repositories is
      skipped. */
  method AnalyzeAll(ps: seq<Project>) returns (projectLanguages: ProjectLanguages, overallLanguages: Stats)
    requires ProjectsWellFormed(ps)
    ensures Tally(projectLanguages, overallLanguages) == Collect(ps)
  {
    projectLanguages := Empty();
    overallLanguages := Empty();
    for i := 0 to |ps|
      invariant Tally(projectLanguages, overallLanguages) == Collect(ps[..i])
    {
      assert ps[..i + 1][..i] == ps[..i];
      CollectValid(ps[..i]);
      var repositories := ps[i].repositories;
      assert ps[i] in ps;
      if repositories != [] {
        var repoLanguages;
        repoLanguages, overallLanguages := AnalyzeProject(repositories, overallLanguages);
        projectLanguages := Put(projectLanguages, ps[i].key, repoLanguages);
      }
    }
    assert ps[..|ps|] == ps;
  }

  /** Lines 101-158: analyse, normalise, save. The run fails exactly when
      some language was detected and the percentages sum to zero; otherwise
      the workbook has one sheet per project that had repositories. */
  method Run(ps: seq<Project>) returns (out: Outcome)
    requires ProjectsWellFormed(ps)
    ensures out == Expected(ps)
    ensures out.ZeroDivision? <==> Collect(ps).overall.keys != [] && Total(Collect(ps).overall) == 0.0
    ensures out.Saved? ==> |out.workbook.sheets| == |Collect(ps).projects.keys|
  {
    var projectLanguages, overallLanguages := AnalyzeAll(ps);
    CollectValid(ps);
    var normalized := Normalize(overallLanguages);
    NormalizedValid(overallLanguages);
    match normalized
    case DivisionByZero =>
      out := ZeroDivision;
    case Rescaled(n) =>
      var wb := SaveToExcel(projectLanguages, n);
      out := Saved(wb);
  }
}
