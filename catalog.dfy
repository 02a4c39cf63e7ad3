/** The entities the script passes around: language statistics per
    repository, repositories per project. */
module Catalog {
  import opened Dicts

  type Language = string
  type Slug = string
  type ProjectKey = string

  /** A repository's (or the overall) mapping from language to percentage. */
  type Stats = Dict<Language, real>

  /** `repo_languages`: one project's repositories, each with its statistics. */
  type RepoLanguages = Dict<Slug, Stats>

  /** `project_languages`: every recorded project with its repositories. */
  type ProjectLanguages = Dict<ProjectKey, RepoLanguages>

  /** `stats.get(l, 0)`: a language the statistics lack counts as zero. */
  function Percentage(stats: Stats, l: Language): real {
    if l in stats.entries then stats.entries[l] else 0.0
  }

  /** Every dictionary of one project's table is well formed. */
  predicate RepoLanguagesValid(rl: RepoLanguages) {
    rl.Valid() && forall s | s in rl.entries :: rl.entries[s].Valid()
  }

  /** Every dictionary of the project map is well formed. */
  predicate ProjectLanguagesValid(pl: ProjectLanguages) {
    pl.Valid() && forall k | k in pl.entries :: RepoLanguagesValid(pl.entries[k])
  }
}
