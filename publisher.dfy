/** cr/publisher.py: the front matter of the report's title file, the talk
    paths gathered from each language's `md` folder and sorted by file name,
    and the pandoc command line that binds them into one book. The folder
    listings are an input: a map from folder path to the names of its entries,
    in the order the directory yields them. */
module Publisher {
  import opened Wrappers
  import opened Seqs
  import opened PyStr
  import opened PyFormat
  import opened PySort

  // ----- `make_title` -----

  /** `MONTHS` */
  const MONTHS: map<string, string> := map["04" := "April", "10" := "October"]

  /** `str(MONTHS.get(month))`: the month's name, or `None` for another key. */
  function MonthText(month: string): string {
    if month in MONTHS then MONTHS[month] else "None"
  }

  /** `TITLE` */
  const TITLE: Template := Field("month", Lit(" ", Field("year", Lit(" Conference Report", End))))

  /** The lines of `TITLE_TEMPLATE` after the title. */
  const FRONT_MATTER_REST: string := "\nauthor: Greg Reeve\nrights:  Creative Commons Non-Commercial Share Alike 3.0\nlanguage: en-US\n---\n"

  /** `TITLE_TEMPLATE` */
  const TITLE_TEMPLATE: Template := Lit("---\ntitle: ", Field("title", Lit(FRONT_MATTER_REST, End)))

  /** `TITLE_FILE` */
  function TitleFile(year: string, month: string): string {
    year + "/" + month + "/title.md"
  }

  /** The title file `make_title` writes. */
  function MakeTitle(year: string, month: string): File {
    var title := Format(TITLE, map["month" := MonthText(month), "year" := year]);
    var contents := Format(TITLE_TEMPLATE, map["title" := title.value]);
    File(TitleFile(year, month), contents.value)
  }

  /** The report's title: month name, year, `Conference Report`. */
  function ReportTitle(year: string, month: string): string {
    MonthText(month) + " " + year + " Conference Report"
  }

  lemma TitleShape(p1: string, p2: string, m: string, y: string)
    ensures Format(Field("month", Lit(p1, Field("year", Lit(p2, End)))), map["month" := m, "year" := y]) == Ok(m + p1 + y + p2)
  {
    var t := Field("month", Lit(p1, Field("year", Lit(p2, End))));
    var args := map["month" := m, "year" := y];
    calc {
      Format(t, args);
      Emit(t, args, "");
      Emit(t.rest, args, "" + m);
      Emit(t.rest.rest, args, "" + m + p1);
      Emit(t.rest.rest.rest, args, "" + m + p1 + y);
      Emit(t.rest.rest.rest.rest, args, "" + m + p1 + y + p2);
      Ok("" + m + p1 + y + p2);
      { assert "" + m == m; }
      Ok(m + p1 + y + p2);
    }
  }

  lemma FrontMatterShape(p0: string, p1: string, title: string)
    ensures Format(Lit(p0, Field("title", Lit(p1, End))), map["title" := title]) == Ok(p0 + title + p1)
  {
    var t := Lit(p0, Field("title", Lit(p1, End)));
    var args := map["title" := title];
    calc {
      Format(t, args);
      Emit(t, args, "");
      Emit(t.rest, args, "" + p0);
      Emit(t.rest.rest, args, "" + p0 + title);
      Emit(t.rest.rest.rest, args, "" + p0 + title + p1);
      Ok("" + p0 + title + p1);
      { assert "" + p0 == p0; }
      Ok(p0 + title + p1);
    }
  }

  /** The title file is `{year}/{month}/title.md`; its front matter names the
      month, the year and the report, and the rest of the template is kept. */
  lemma MakeTitleText(year: string, month: string)
    ensures MakeTitle(year, month).path == year + "/" + month + "/title.md"
    ensures MakeTitle(year, month).content == "---\ntitle: " + ReportTitle(year, month) + FRONT_MATTER_REST
  {
    TitleShape(" ", " Conference Report", MonthText(month), year);
    FrontMatterShape("---\ntitle: ", FRONT_MATTER_REST, ReportTitle(year, month));
  }

  /** A known month is named in full; any other key gives the title `None`. */
  lemma ReportTitleMonth(year: string, month: string)
    ensures month == "04" ==> ReportTitle(year, month) == "April " + year + " Conference Report"
    ensures month == "10" ==> ReportTitle(year, month) == "October " + year + " Conference Report"
    ensures month !in MONTHS ==> ReportTitle(year, month) == "None " + year + " Conference Report"
  {
  }

  // ----- `gather_talks` -----

  /** `FOLDER_MD` */
  function FolderMd(year: string, month: string, lang: string): string {
    year + "/" + month + "/" + lang + "/md/"
  }

  /** The `path` of each entry `os.scandir(folder)` yields, for a folder whose
      name ends in `/`. */
  function EntryPaths(folder: string, names: seq<string>): seq<string> {
    seq(|names|, k requires 0 <= k < |names| => folder + names[k])
  }

  /** The list the nested loop builds, language by language, or the error of
      the first folder that does not exist. */
  function Collected(year: string, month: string, langs: seq<string>, listing: map<string, seq<string>>): Result<seq<string>> {
    if langs == [] then Ok([])
    else
      match Collected(year, month, langs[..|langs| - 1], listing)
      case Err(e) => Err(e)
      case Ok(talks) =>
        var folder := FolderMd(year, month, langs[|langs| - 1]);
        if folder in listing then Ok(talks + EntryPaths(folder, listing[folder]))
        else Err(FileNotFoundError(folder))
  }

  /** The result of `gather_talks`: the collected paths sorted by basename. */
  function Gathered(year: string, month: string, langs: seq<string>, listing: map<string, seq<string>>): Result<seq<string>> {
    match Collected(year, month, langs, listing)
    case Ok(talks) => Ok(SortBy(Basename, talks))
    case Err(e) => Err(e)
  }

  /** Once a folder is missing, the error stands for the whole list. */
  lemma {:induction false} CollectedErrorStands(year: string, month: string, langs: seq<string>, listing: map<string, seq<string>>, i: nat)
    requires i <= |langs| && Collected(year, month, langs[..i], listing).Err?
    ensures Collected(year, month, langs, listing) == Collected(year, month, langs[..i], listing)
    decreases |langs|
  {
    if i < |langs| {
      var init := langs[..|langs| - 1];
      assert init[..i] == langs[..i];
      CollectedErrorStands(year, month, init, listing, i);
    } else {
      assert langs[..i] == langs;
    }
  }

  /** `gather_talks(year, month, languages)` */
  method GatherTalks(year: string, month: string, languages: seq<string>, listing: map<string, seq<string>>)
    returns (r: Result<seq<string>>)
    ensures r == Gathered(year, month, languages, listing)
  {
    var talks: seq<string> := [];
    for i := 0 to |languages|
      invariant Collected(year, month, languages[..i], listing) == Ok(talks)
    {
      assert languages[..i + 1][..i] == languages[..i];
      var folder := FolderMd(year, month, languages[i]);
      if folder !in listing {
        CollectedErrorStands(year, month, languages, listing, i + 1);
        return Err(FileNotFoundError(folder));
      }
      var names := listing[folder];
      ghost var before := talks;
      for j := 0 to |names|
        invariant talks == before + EntryPaths(folder, names[..j])
      {
        assert EntryPaths(folder, names[..j + 1]) == EntryPaths(folder, names[..j]) + [folder + names[j]];
        talks := talks + [folder + names[j]];
      }
      assert names[..|names|] == names;
    }
    assert languages[..|languages|] == languages;
    talks := SortBy(Basename, talks);
    return Ok(talks);
  }

  /** Gathering fails exactly when a language has no `md` folder, and then
      with the first such folder. */
  lemma {:induction false} CollectedFails(year: string, month: string, langs: seq<string>, listing: map<string, seq<string>>)
    ensures Collected(year, month, langs, listing).Ok? <==> forall i :: 0 <= i < |langs| ==> FolderMd(year, month, langs[i]) in listing
    ensures Collected(year, month, langs, listing).Err? ==>
      exists i :: 0 <= i < |langs| && FolderMd(year, month, langs[i]) !in listing &&
        Collected(year, month, langs, listing).error == FileNotFoundError(FolderMd(year, month, langs[i]))
    decreases |langs|
  {
    if langs != [] {
      var init := langs[..|langs| - 1];
      CollectedFails(year, month, init, listing);
      assert forall i :: 0 <= i < |init| ==> init[i] == langs[i];
      if Collected(year, month, init, listing).Err? {
        var i :| 0 <= i < |init| && FolderMd(year, month, init[i]) !in listing &&
          Collected(year, month, init, listing).error == FileNotFoundError(FolderMd(year, month, init[i]));
        assert langs[i] == init[i];
      }
    }
  }

  /** Every entry of every language's folder is among the collected paths. */
  lemma {:induction false} CollectedHolds(year: string, month: string, langs: seq<string>, listing: map<string, seq<string>>, i: nat, j: nat)
    requires Collected(year, month, langs, listing).Ok? && i < |langs|
    requires FolderMd(year, month, langs[i]) in listing && j < |listing[FolderMd(year, month, langs[i])]|
    ensures FolderMd(year, month, langs[i]) + listing[FolderMd(year, month, langs[i])][j] in Collected(year, month, langs, listing).value
    decreases |langs|
  {
    var init := langs[..|langs| - 1];
    var folder := FolderMd(year, month, langs[|langs| - 1]);
    var talks := Collected(year, month, init, listing).value;
    assert Collected(year, month, langs, listing).value == talks + EntryPaths(folder, listing[folder]);
    if i < |init| {
      assert init[i] == langs[i];
      CollectedHolds(year, month, init, listing, i, j);
    } else {
      assert EntryPaths(folder, listing[folder])[j] == folder + listing[folder][j];
    }
  }

  /** The gathered paths are in order of their last `/`-segment. */
  lemma GatheredSorted(year: string, month: string, langs: seq<string>, listing: map<string, seq<string>>)
    ensures Gathered(year, month, langs, listing).Ok? ==> SortedBy(Basename, Gathered(year, month, langs, listing).value)
  {
    if Collected(year, month, langs, listing).Ok? {
      SortBySorted(Basename, Collected(year, month, langs, listing).value);
    }
  }

  /** Sorting neither loses nor adds a path. */
  lemma GatheredPermutes(year: string, month: string, langs: seq<string>, listing: map<string, seq<string>>)
    ensures Gathered(year, month, langs, listing).Ok? <==> Collected(year, month, langs, listing).Ok?
    ensures Gathered(year, month, langs, listing).Ok? ==>
      multiset(Gathered(year, month, langs, listing).value) == multiset(Collected(year, month, langs, listing).value)
  {
    if Collected(year, month, langs, listing).Ok? {
      SortByPermutes(Basename, Collected(year, month, langs, listing).value);
    }
  }

  /** Paths with the same file name keep the order they were collected in, so
      the same talk in two languages comes in language order. */
  lemma GatheredStable(year: string, month: string, langs: seq<string>, listing: map<string, seq<string>>, name: string)
    ensures Gathered(year, month, langs, listing).Ok? ==>
      WithKey(Basename, name, Gathered(year, month, langs, listing).value) == WithKey(Basename, name, Collected(year, month, langs, listing).value)
  {
    if Collected(year, month, langs, listing).Ok? {
      SortByStable(Basename, name, Collected(year, month, langs, listing).value);
    }
  }

  /** The loop over two languages: the first one's entries, then the second's. */
  lemma CollectedTwo(year: string, month: string, a: string, b: string, listing: map<string, seq<string>>)
    requires FolderMd(year, month, a) in listing && FolderMd(year, month, b) in listing
    ensures Collected(year, month, [a, b], listing)
         == Ok(EntryPaths(FolderMd(year, month, a), listing[FolderMd(year, month, a)])
             + EntryPaths(FolderMd(year, month, b), listing[FolderMd(year, month, b)]))
  {
    assert [a, b][..1] == [a] && [a][..0] == [];
    var first := EntryPaths(FolderMd(year, month, a), listing[FolderMd(year, month, a)]);
    assert Collected(year, month, [a], listing) == Ok([] + first);
    assert [] + first == first;
  }

  /** Two languages whose folders each hold just the file `name`: the first
      language's copy comes first. */
  lemma SameNameInLanguageOrder(year: string, month: string, a: string, b: string, name: string, listing: map<string, seq<string>>)
    requires '/' !in name
    requires FolderMd(year, month, a) in listing && listing[FolderMd(year, month, a)] == [name]
    requires FolderMd(year, month, b) in listing && listing[FolderMd(year, month, b)] == [name]
    ensures Gathered(year, month, [a, b], listing) == Ok([FolderMd(year, month, a) + name, FolderMd(year, month, b) + name])
  {
    var pa, pb := FolderMd(year, month, a) + name, FolderMd(year, month, b) + name;
    CollectedTwo(year, month, a, b, listing);
    assert EntryPaths(FolderMd(year, month, a), [name]) == [pa];
    assert EntryPaths(FolderMd(year, month, b), [name]) == [pb];
    assert [pa] + [pb] == [pa, pb];
    assert pa == (year + "/" + month + "/" + a + "/md") + "/" + name;
    assert pb == (year + "/" + month + "/" + b + "/md") + "/" + name;
    BasenameAfterSlash(year + "/" + month + "/" + a + "/md", name);
    BasenameAfterSlash(year + "/" + month + "/" + b + "/md", name);
    SortPairEqualKeys(Basename, pa, pb);
  }

  // ----- `create_epub_cmd` -----

  /** `PANDOC_CMD` */
  const PANDOC_CMD: Template := Lit("pandoc -o cr_", Field("year", Field("month", Lit(".epub ", Field("title", Lit(" ", Field("talks", End)))))))

  /** What a call prints, line by line, and the value it returns. */
  datatype Call = Call(printed: seq<string>, returned: Option<string>)

  /** `create_epub_cmd(year, month, talks)` */
  function CreateEpubCmd(year: string, month: string, talks: seq<string>): Call {
    var command := Format(PANDOC_CMD, map["year" := year, "month" := month, "title" := TitleFile(year, month), "talks" := Join(" ", talks)]);
    Call([command.value], None)
  }

  lemma PandocShape(p0: string, p1: string, p2: string, year: string, month: string, title: string, talks: string)
    ensures Format(Lit(p0, Field("year", Field("month", Lit(p1, Field("title", Lit(p2, Field("talks", End))))))),
                   map["year" := year, "month" := month, "title" := title, "talks" := talks])
         == Ok(p0 + year + month + p1 + title + p2 + talks)
  {
    var t := Lit(p0, Field("year", Field("month", Lit(p1, Field("title", Lit(p2, Field("talks", End)))))));
    var args := map["year" := year, "month" := month, "title" := title, "talks" := talks];
    calc {
      Format(t, args);
      Emit(t, args, "");
      Emit(t.rest, args, "" + p0);
      Emit(t.rest.rest, args, "" + p0 + year);
      Emit(t.rest.rest.rest, args, "" + p0 + year + month);
      Emit(t.rest.rest.rest.rest, args, "" + p0 + year + month + p1);
      Emit(t.rest.rest.rest.rest.rest, args, "" + p0 + year + month + p1 + title);
      Emit(t.rest.rest.rest.rest.rest.rest, args, "" + p0 + year + month + p1 + title + p2);
      Emit(t.rest.rest.rest.rest.rest.rest.rest, args, "" + p0 + year + month + p1 + title + p2 + talks);
      Ok("" + p0 + year + month + p1 + title + p2 + talks);
      { assert "" + p0 == p0; }
      Ok(p0 + year + month + p1 + title + p2 + talks);
    }
  }

  /** The command writes `cr_{year}{month}.epub` from the title file followed
      by the talks, separated by single spaces; it is printed, and `None` is
      returned. */
  lemma EpubCommandText(year: string, month: string, talks: seq<string>)
    ensures CreateEpubCmd(year, month, talks).returned == None
    ensures CreateEpubCmd(year, month, talks).printed
      == ["pandoc -o cr_" + year + month + ".epub " + TitleFile(year, month) + " " + Join(" ", talks)]
  {
    PandocShape("pandoc -o cr_", ".epub ", " ", year, month, TitleFile(year, month), Join(" ", talks));
  }

  /** Each talk path is named in the command. */
  lemma EpubCommandNamesTalk(year: string, month: string, talks: seq<string>, j: nat)
    requires j < |talks|
    ensures Contains(CreateEpubCmd(year, month, talks).printed[0], talks[j])
  {
    EpubCommandText(year, month, talks);
    JoinContains(" ", talks, j);
    ContainsWithin("pandoc -o cr_" + year + month + ".epub " + TitleFile(year, month) + " ", Join(" ", talks), "", talks[j]);
    assert "pandoc -o cr_" + year + month + ".epub " + TitleFile(year, month) + " " + Join(" ", talks) + ""
      == CreateEpubCmd(year, month, talks).printed[0];
  }
}
