# Repository language report — a Dafny model

`repository-languages.py` works through a list of Bitbucket projects. For
each project it lists the repositories, clones each one and runs the
language detector on the clone. It keeps every repository's language
percentages under its slug in a per-project table, and adds them into a
running overall dictionary. At the end it rescales the overall dictionary so
its values are shares of 100. It then writes a workbook:

- one sheet per project, with one record per repository and one column per
  language;
- a summary sheet of (language, share) pairs.

This project models the in-memory part of that run; everything around it is
an input or left out.

- `dicts.dfy` (module `Dicts`): Python's insertion-ordered dictionary.
  - A dictionary is `Dict(keys, entries)`, where `keys` lists each key once,
    oldest first.
  - `Put` is `d[k] = v`.
  - `FromPairs` is the `{k: v for k, v in pairs}` comprehension.
  - `Items` is `list(d.items())`.
- `catalog.dfy` (module `Catalog`): the dictionaries the script builds.
  - `Stats` maps a language to a percentage.
  - `RepoLanguages` maps a slug to its `Stats`.
  - `ProjectLanguages` maps a project key to its `RepoLanguages`.
  - Percentages are exact `real`s.
- `linguist.dfy` (module `Linguist`): the analysis step. The detector's
  answer is an input, `Detection`:
  - a pair list, which becomes a dictionary in which the last pair wins;
  - a mapping, which is returned unchanged;
  - a failure, which yields `{}`.
- `aggregation.dfy` (module `Aggregation`): the main loop, as specification
  functions.
  - `Merged` folds one repository's statistics into the overall dictionary,
    language by language, as `MergePrefix` does for the first `n` of them.
  - `Accumulate` is the loop of lines 136-140 that does the same in place.
  - `RepoTable` is a project's table.
  - `FoldRepos` folds in a project's repositories.
  - `AfterProject` and `Collect` give both dictionaries after one project
    and after all projects.
  - A project with an empty repository list is skipped.
- `normalization.dfy` (module `Normalization`): the rescale.
  - `SumValues` sums the values in a loop.
  - `RescaleAll` rewrites every entry to `value / total * 100`.
  - `Normalize` runs both steps.
  - The outcome is `Rescaled(stats)`, or `DivisionByZero` when the overall
    dictionary is non-empty and its values sum to zero. The code does not
    guard this division: the script crashes there, and the model records
    that outcome as a value.
- `report.dfy` (module `Report`): `save_to_excel`.
  - `LanguageUnion` builds the union of the project's languages.
  - `ProjectTable` builds one record per repository. A record maps a column
    name to a `Cell`: the slug under `Repository`, and otherwise a
    percentage, or 0 for a missing language.
  - `SaveToExcel` builds the workbook: one sheet per project in recording
    order, then the summary, which is `Items` of the overall dictionary.
- `pipeline.dfy` (module `Pipeline`): `main` from line 112 onwards.
  - `AnalyzeProject` is the repository loop of one project.
  - `AnalyzeAll` is the project loop.
  - `Run` normalises and saves, and is proved equal to `Expected`, the
    specification of a whole run.
- `scenario.dfy` (module `Scenario`): a worked run over the two project
  keys hard-coded at line 105. "ABC" lists a repository whose detector
  answers with the pairs ("Go", go) and ("Python", py), and one whose
  analysis failed; "XYZ" lists none. The two percentages are parameters.

Line 82's comment says missing languages are filled with NaN; line 83
fills them with 0, and the model follows the code.

Two further facts about the rescale:

- When no repository produced statistics, the overall dictionary is empty
  and the loop of lines 154-155 performs no division (`Normalize`).
- With exact arithmetic, normalising a second time changes nothing
  (`NormalizeTwice`).

## Model

| member | source | states |
|---|---|---|
| Dicts.Empty | repository-languages.py:112-113 | a new dictionary is well formed and has no keys |
| Dicts.Put | repository-languages.py:133 | `d[k] = v`: `k` gets `v`; every other key keeps its value; an existing key keeps its place in the order, a new key goes last; well-formedness is kept |
| Dicts.FromPairs | repository-languages.py:55 | the comprehension: the pairs put into `{}` one after another, in list order; the result is well formed |
| Dicts.FromPairsKeys | repository-languages.py:55 | the comprehension's keys are exactly the first components of the pairs, and each key's value comes from a pair with that key |
| Dicts.FromPairsLastWins | repository-languages.py:55 | for a repeated key, the value is the one from its last pair |
| Dicts.Items | repository-languages.py:95 | `list(d.items())`: the keys in insertion order, each with its value |
| Dicts.ItemsRoundTrip | repository-languages.py:95 | turning the items back into a dictionary gives the same dictionary, order included, so the summary loses nothing |
| Catalog.Percentage | repository-languages.py:83 | `repo_langs.get(lang, 0)`: the language's percentage, or 0 when the statistics lack it |
| Linguist.Analyze | repository-languages.py:47-60 | a pair list becomes a dictionary of its first components, each with a percentage listed for it; a mapping is returned as it is; a failure gives `{}`; the result is well formed |
| Linguist.RepeatedLanguage | repository-languages.py:55 | a language listed twice keeps the later percentage, not the sum of the two |
| Aggregation.MergePrefix | repository-languages.py:136-140 | the overall dictionary after the first `n` languages of one repository's statistics, in their order, went through the add-or-create step of lines 137-140 |
| Aggregation.Merged | repository-languages.py:136-140 | the same for every language of the repository's statistics |
| Aggregation.MergePrefixAt | repository-languages.py:136-140 | after folding the first `n` languages of a repository: a language is present iff it was present before or is among them; among them and present gives old + new; among them and new gives the new value; any other keeps its value |
| Aggregation.MergePrefixValid | repository-languages.py:136-140 | folding keeps the dictionary well formed, and the old keys stay in front in their order |
| Aggregation.MergedValid | repository-languages.py:136-140 | folding one repository's statistics keeps the overall dictionary well formed, old keys first |
| Aggregation.MergedAt | repository-languages.py:136-140 | folding one repository's statistics: the same cases per language, and the overall percentage (0 when absent) grows by the repository's percentage |
| Aggregation.MergedEmpty | repository-languages.py:136-140 | empty statistics (a failed analysis) leave the overall dictionary unchanged |
| Aggregation.MergedSpec | repository-languages.py:136-140 | the key set becomes the union of both; shared languages are added, new ones copied, others untouched; old keys keep their order |
| Aggregation.Accumulate | repository-languages.py:136-140 | the in-place loop ends with `Merged` of the two dictionaries, whose meaning `MergedSpec` states |
| Aggregation.RepoTable | repository-languages.py:120-133 | `repo_languages`: starting from `{}`, each listed repository's slug is assigned its statistics, in listing order |
| Aggregation.FoldRepos | repository-languages.py:122-140 | the overall dictionary after each listed repository's statistics are merged in, in listing order |
| Aggregation.AfterProject | repository-languages.py:117-148 | one pass of the project loop: nothing changes for an empty listing; otherwise the project's table is stored under its key and its repositories are folded in |
| Aggregation.Collect | repository-languages.py:112-148 | both dictionaries after every project has passed, in order, starting from two empty dictionaries |
| Aggregation.FoldReposStep | repository-languages.py:122-140 | folding in one more repository is one more merge of its statistics |
| Aggregation.RepoTableStep | repository-languages.py:133 | recording one more repository is one `Put` of its slug and statistics |
| Aggregation.RepoTableEntry | repository-languages.py:122-133 | every listed slug is in the project table, with the statistics of its last repository |
| Aggregation.RepoTableValid | repository-languages.py:120-133 | the project table and each of its statistics are well formed |
| Aggregation.FoldReposValid | repository-languages.py:122-140 | folding a project's repositories keeps the overall dictionary well formed |
| Aggregation.CollectValid | repository-languages.py:112-148 | both dictionaries the main loop builds are well formed at every level |
| Aggregation.AfterProjectFrame | repository-languages.py:119-148 | a project without repositories changes nothing; any other project leaves the other keys' tables and presence as they were |
| Aggregation.ListedStep | repository-languages.py:115-119 | a key is listed with repositories by the projects iff by an earlier one or by the last one |
| Aggregation.ProjectRecorded | repository-languages.py:119-148 | a key is in `project_languages` iff some project with that key listed at least one repository |
| Aggregation.ProjectEntry | repository-languages.py:146 | a recorded project's entry is the table of its last non-empty listing |
| Aggregation.ReportsStep | repository-languages.py:122-140 | some repository reports a language iff an earlier one or the last one does |
| Aggregation.AnyReportsStep | repository-languages.py:115-140 | some project reports a language iff an earlier one or the last one does |
| Aggregation.FoldReposAt | repository-languages.py:122-140 | after a project's repositories, a language's overall value is its old value plus its percentages in those repositories, and it is present iff it was present or some repository reports it |
| Aggregation.OverallIsSum | repository-languages.py:115-140 | before normalisation, each language's overall value is the sum of its percentages over every analysed repository, and it is present iff some repository reported it |
| Normalization.Total | repository-languages.py:151-153 | `total_percentage`: the sum of the values in key order |
| Normalization.Scaled | repository-languages.py:154-155 | every value replaced by `value / total * 100`, the keys and their order unchanged |
| Normalization.Normalized | repository-languages.py:151-155 | an empty dictionary stays as it is; a non-empty one with a zero total fails with division by zero; any other is scaled by its total |
| Normalization.SumValues | repository-languages.py:151-153 | the loop computes the sum of the values in key order |
| Normalization.RescaleAll | repository-languages.py:154-155 | no keys: the dictionary is unchanged and nothing is divided; keys and a zero total: division by zero; otherwise every value becomes `value / total * 100` with keys and order unchanged |
| Normalization.Normalize | repository-languages.py:151-155 | the whole step: division by zero iff the dictionary is non-empty and sums to zero; otherwise the keys and their order are unchanged |
| Normalization.NormalizedValid | repository-languages.py:154-155 | the rescaled dictionary is well formed, with the same keys in the same order |
| Normalization.SumOverScaled | repository-languages.py:151-155 | dividing every value by `t` and multiplying by 100 does the same to the sum |
| Normalization.NormalizedSumsTo100 | repository-languages.py:151-155 | with a non-zero total, the rescaled values sum to exactly 100 |
| Normalization.NormalizedPreservesOrder | repository-languages.py:154-155 | with a positive total, the order between any two languages and their ratio are unchanged |
| Normalization.ValueAtMostSum | repository-languages.py:151-153 | with non-negative values, the sum is non-negative and at least each value |
| Normalization.NormalizedWithinBounds | repository-languages.py:151-155 | with non-negative percentages and a positive total, each rescaled value lies between 0 and 100 |
| Normalization.NormalizeTwice | repository-languages.py:151-155 | with exact arithmetic, normalising an already normalised dictionary changes nothing |
| Report.Languages | repository-languages.py:73-75 | `all_languages`: the union of the key sets of a project's statistics |
| Report.UnionOverAt | repository-languages.py:73-75 | a language is in the union built over some slugs iff one of those repositories reports it |
| Report.LanguagesAt | repository-languages.py:73-75 | a language is in `all_languages` iff at least one repository of the project reports it |
| Report.LanguageUnion | repository-languages.py:72-75 | the `set.update` loop builds exactly that union |
| Report.RepoRow | repository-languages.py:83-84 | a record: each language of the union holds `get(lang, 0)`, then `Repository` holds the slug |
| Report.ProjectSheet | repository-languages.py:78-85 | the sheet named by the project key, with one `RepoRow` per slug in table order |
| Report.SheetRecords | repository-languages.py:78-85 | one record per slug, in table order; every record has exactly the union plus `Repository` as columns; `Repository` holds the slug; a reported language holds its percentage; any other column is 0 |
| Report.ProjectTable | repository-languages.py:68-85 | the loop builds the project's sheet, whose records `SheetRecords` describes |
| Report.RowsAligned | repository-languages.py:83-88 | any two records of a sheet have the same columns |
| Report.Book | repository-languages.py:64-97 | the workbook: one `ProjectSheet` per recorded project in recording order, then `Items` of the overall dictionary |
| Report.SaveToExcel | repository-languages.py:64-97 | one sheet per recorded project, in recording order, named by its key, each the project's sheet; the summary turned back into a dictionary is the overall dictionary |
| Report.SummaryListsOverall | repository-languages.py:95 | the summary has one (language, share) pair per overall language, in the dictionary's order |
| Pipeline.Expected | repository-languages.py:101-158 | a whole run: `Collect` the projects, then `Normalized` the overall dictionary; division by zero, or the `Book` of the project map and the shares |
| Pipeline.AnalyzeProject | repository-languages.py:120-143 | the repository loop yields the project table and the overall dictionary folded over the project's repositories |
| Pipeline.AnalyzeAll | repository-languages.py:112-148 | the project loop yields `Collect` of the projects: empty listings are skipped |
| Pipeline.Run | repository-languages.py:101-158 | a run ends in division by zero iff some language was detected and the overall percentages sum to zero; otherwise it saves one sheet per project that had repositories |
| Scenario.ApiAnalyzed | repository-languages.py:54-55 | the pair answer ("Go", go), ("Python", py) becomes the dictionary of those two languages in that order |
| Scenario.ApiMerged | repository-languages.py:136-140 | folding the first statistics into an empty overall dictionary copies them |
| Scenario.TableRecorded | repository-languages.py:120-133 | the table of "ABC" records the pair statistics under "api" and `{}` under "web" |
| Scenario.ApiNormalized | repository-languages.py:151-155 | the overall dictionary rescales to go / (go + py) * 100 and py / (go + py) * 100, or fails when go + py is zero |
| Scenario.ZeroRecord | repository-languages.py:83-84 | a repository without statistics gets 0 in every language column |
| Scenario.SavedBook | repository-languages.py:64-97 | the workbook has one sheet, "ABC", with the record of "api" and a record of zeros for "web", and a summary of the two shares |
| Scenario.OneProjectWithoutRepositories | repository-languages.py:101-158 | the whole run saves that workbook, with no sheet for "XYZ", unless go + py is zero, when it divides by zero |

## Left out

- Authentication and workspace lookup through the Bitbucket client (lines 12-16) are left out: they are network calls into a foreign library.
- The repository listing is left out (lines 20-31). It is an input: each `Project` carries its slugs. A listing that fails while paging is the slugs fetched before the failure (lines 25-31); one that fails at the project lookup (line 24) is empty.
- Cloning (lines 35-43) and the `rm -rf` cleanup (line 143) are left out: they are file-system, network and shell side effects. A failed clone shows up only as the detector's answer.
- The detector call itself is left out (line 51). Its answer is the `Detection` input. An answer that is neither a list nor a dictionary is not one of its shapes.
- pandas and Excel output are left out (lines 66, 88-92, 96-97): the data frame, `set_index`, the writer, the file format and the sheet-name rules of the format. A sheet is the list of records handed to the data frame.
- The column order that comes from iterating over a Python `set` is left out: a record is a map. So is the restriction of Excel sheet names.
- Environment variables and the output file name are left out (lines 103-106). The projects are the input sequence of `Run`; the hard-coded keys appear only in the worked run of `Scenario`.
- Floating point is not modelled (lines 138, 140, 155). Percentages and the division are exact `real`s, and `float()` is the identity.
- Printed diagnostics are left out.
