/** The workbook the run ends with (lines 64-97): one sheet per recorded
    project, in recording order, whose rows are that project's repositories
    in recording order with one column per language any of them uses, and
    an overall summary sheet listing every language with its share. The
    spreadsheet file itself is not modelled: a sheet is the list of records
    the data frame is built from. */
module Report {
  import opened Dicts
  import opened Catalog

  /** A cell of a record: a percentage, or the repository slug. */
  datatype Cell = Number(value: real) | Text(text: string)

  /** One record of a project sheet, keyed by column name. */
  type Record = map<string, Cell>

  /** The column holding the slug, which becomes the sheet's index (line 84, 89). */
  const RepositoryColumn: string := "Repository"


  /** A project sheet: its name and its records, one per repository. */
  datatype Sheet = Sheet(name: ProjectKey, rows: seq<Record>)

  /** The workbook: the project sheets in order, then the (language, share) summary. */
  datatype Workbook = Workbook(sheets: seq<Sheet>, summary: seq<(Language, real)>)

  // ---------------------------------------------------------------------
  // The language union (lines 73-75)

  /** The languages of the statistics of the repositories `ks`, gathered in order. */
  function UnionOver(ks: seq<Slug>, e: map<Slug, Stats>): set<Language>
    requires forall k | k in ks :: k in e
    decreases |ks|
  {
    if ks == [] then {}
    else UnionOver(ks[..|ks| - 1], e) + e[ks[|ks| - 1]].entries.Keys
  }

  /** `all_languages`: every language some repository of the project reports. */
  function Languages(rl: RepoLanguages): set<Language>
    requires rl.Valid()
  {
    UnionOver(rl.keys, rl.entries)
  }

  /** A language is in the union exactly when one of the repositories reports it. */
  lemma {:induction false} UnionOverAt(ks: seq<Slug>, e: map<Slug, Stats>, l: Language)
    requires forall k | k in ks :: k in e
    ensures l in UnionOver(ks, e) <==> exists i | 0 <= i < |ks| :: l in e[ks[i]].entries
    decreases |ks|
  {
    if ks != [] {
      var init := ks[..|ks| - 1];
      UnionOverAt(init, e, l);
      if l in UnionOver(init, e) {
        var i :| 0 <= i < |init| && l in e[init[i]].entries;
        assert ks[i] == init[i];
      }
      if exists i | 0 <= i < |ks| :: l in e[ks[i]].entries {
        var i :| 0 <= i < |ks| && l in e[ks[i]].entries;
        if i < |init| {
          assert init[i] == ks[i];
        }
      }
    }
  }

  /** The union is exactly the languages reported by at least one repository. */
  lemma LanguagesAt(rl: RepoLanguages, l: Language)
    requires rl.Valid()
    ensures l in Languages(rl) <==> exists s | s in rl.entries :: l in rl.entries[s].entries
  {
    UnionOverAt(rl.keys, rl.entries, l);
    if exists s | s in rl.entries :: l in rl.entries[s].entries {
      var s :| s in rl.entries && l in rl.entries[s].entries;
      var i :| 0 <= i < |rl.keys| && rl.keys[i] == s;
      assert l in rl.entries[rl.keys[i]].entries;
    }
  }

  /** Lines 73-75: the union built set by set. */
  method LanguageUnion(rl: RepoLanguages) returns (all: set<Language>)
    requires rl.Valid()
    ensures all == Languages(rl)
    ensures forall l :: l in all <==> exists s | s in rl.entries :: l in rl.entries[s].entries
  {
    var slugs := rl.keys;
    all := {};
    for i := 0 to |slugs|
      invariant all == UnionOver(slugs[..i], rl.entries)
    {
      assert slugs[..i + 1][..i] == slugs[..i];
      all := all + rl.entries[slugs[i]].entries.Keys;
    }
    assert slugs[..|slugs|] == slugs;
    forall l ensures l in all <==> exists s | s in rl.entries :: l in rl.entries[s].entries {
      LanguagesAt(rl, l);
    }
  }

  // ---------------------------------------------------------------------
  // Project sheets (lines 68-92)

  /** Lines 83-84: a column per language of `all`, filled from `stats` or
      with 0, then the slug under "Repository" (which replaces a language
      of that name). */
  function RepoRow(stats: Stats, all: set<Language>, slug: Slug): Record {
    (map l | l in all :: Number(Percentage(stats, l)))[RepositoryColumn := Text(slug)]
  }

  /** The sheet of project `key`: one record per repository, in order. */
  function ProjectSheet(key: ProjectKey, rl: RepoLanguages): Sheet
    requires rl.Valid()
  {
    Sheet(key, seq(|rl.keys|, i requires 0 <= i < |rl.keys| =>
      RepoRow(rl.entries[rl.keys[i]], Languages(rl), rl.keys[i])))
  }

  /** Every record of a project sheet has exactly the union and "Repository"
      as columns and names its repository; a language the repository reports
      holds its percentage, and every other language of the union holds 0. */
  lemma SheetRecords(key: ProjectKey, rl: RepoLanguages)
    requires rl.Valid()
    ensures var sheet := ProjectSheet(key, rl);
      && sheet.name == key && |sheet.rows| == |rl.keys|
      && (forall i | 0 <= i < |sheet.rows| ::
            && sheet.rows[i].Keys == Languages(rl) + {RepositoryColumn}
            && sheet.rows[i][RepositoryColumn] == Text(rl.keys[i]))
      && (forall i, l | 0 <= i < |sheet.rows| && l in rl.entries[rl.keys[i]].entries && l != RepositoryColumn ::
            l in sheet.rows[i] && sheet.rows[i][l] == Number(rl.entries[rl.keys[i]].entries[l]))
      && (forall i, l | 0 <= i < |sheet.rows| && l in Languages(rl) && l !in rl.entries[rl.keys[i]].entries && l != RepositoryColumn ::
            sheet.rows[i][l] == Number(0.0))
  {
    var sheet := ProjectSheet(key, rl);
    forall i, l | 0 <= i < |sheet.rows| && l in rl.entries[rl.keys[i]].entries
      ensures l in Languages(rl)
    {
      LanguagesAt(rl, l);
    }
  }

  /** Lines 70-85: the slugs in order, the language union, then one record
      per slug. */
  method ProjectTable(key: ProjectKey, rl: RepoLanguages) returns (sheet: Sheet)
    requires rl.Valid()
    ensures sheet == ProjectSheet(key, rl)
  {
    var slugs := rl.keys;
    var all := LanguageUnion(rl);
    var projectData: seq<Record> := [];
    for i := 0 to |slugs|
      invariant |projectData| == i
      invariant forall m | 0 <= m < i :: projectData[m] == RepoRow(rl.entries[slugs[m]], all, slugs[m])
    {
      var repoLangs := rl.entries[slugs[i]];
      var row := map l | l in all :: Number(Percentage(repoLangs, l));
      row := row[RepositoryColumn := Text(slugs[i])];
      projectData := projectData + [row];
    }
    sheet := Sheet(key, projectData);
  }

  /** Any two records of a sheet have the same columns, so the data frame
      aligns them without gaps. */
  lemma RowsAligned(key: ProjectKey, rl: RepoLanguages, i: nat, j: nat)
    requires rl.Valid() && i < |rl.keys| && j < |rl.keys|
    ensures ProjectSheet(key, rl).rows[i].Keys == ProjectSheet(key, rl).rows[j].Keys
  {
  }

  // ---------------------------------------------------------------------
  // The workbook (lines 64-97)

  /** The workbook for the recorded projects and the overall shares. */
  function Book(pl: ProjectLanguages, overall: Stats): Workbook
    requires ProjectLanguagesValid(pl) && overall.Valid()
  {
    Workbook(seq(|pl.keys|, i requires 0 <= i < |pl.keys| => ProjectSheet(pl.keys[i], pl.entries[pl.keys[i]])),
             Items(overall))
  }

  /** Lines 64-97: a sheet per project in recording order, named by its key,
      then the summary sheet of (language, share) pairs in the overall
      dictionary's order. */
  method SaveToExcel(pl: ProjectLanguages, overall: Stats) returns (wb: Workbook)
    requires ProjectLanguagesValid(pl) && overall.Valid()
    ensures wb == Book(pl, overall)
    ensures |wb.sheets| == |pl.keys|
    ensures forall i | 0 <= i < |wb.sheets| :: wb.sheets[i].name == pl.keys[i]
    ensures FromPairs(wb.summary) == overall
  {
    var sheets: seq<Sheet> := [];
    for i := 0 to |pl.keys|
      invariant |sheets| == i
      invariant forall m | 0 <= m < i :: sheets[m] == ProjectSheet(pl.keys[m], pl.entries[pl.keys[m]])
    {
      var sheet := ProjectTable(pl.keys[i], pl.entries[pl.keys[i]]);
      sheets := sheets + [sheet];
    }
    wb := Workbook(sheets, Items(overall));
    ItemsRoundTrip(overall);
  }

  /** The summary lists every language once, in the overall dictionary's
      order, next to its share. */
  lemma SummaryListsOverall(pl: ProjectLanguages, overall: Stats, i: nat)
    requires ProjectLanguagesValid(pl) && overall.Valid() && i < |overall.keys|
    ensures |Book(pl, overall).summary| == |overall.keys|
    ensures Book(pl, overall).summary[i] == (overall.keys[i], overall.entries[overall.keys[i]])
  {
  }
}
