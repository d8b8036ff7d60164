/** gc/extractor.py: the apostles' talks of a conference, read from its table
    of contents as `(session, order, last_name, slug)` records, and the
    Markdown file written for each of them. Pages arrive already parsed (see
    the Toc and TalkPage modules); `fetch` stands for downloading and parsing
    the page of a slug. */
module GcExtractor {
  import opened Wrappers
  import opened Seqs
  import opened PyStr
  import opened Links
  import opened Toc
  import opened TalkPage
  import Ebook

  const APOSTLES: seq<string> := [
    "D. Todd Christofferson", "Dale G. Renlund", "Dallin H. Oaks", "David A. Bednar",
    "Dieter F. Uchtdorf", "Gary E. Stevenson", "Henry B. Eyring", "Jeffrey R. Holland",
    "M. Russell Ballard", "Quentin L. Cook", "Robert D. Hales", "Ronald A. Rasband",
    "Russell M. Nelson", "Thomas S. Monson", "Gerrit W. Gong", "Ulisses Soares"]

  /** Section titles, English and Hungarian, to session codes. */
  const SESSIONS: map<string, string> := map[
    "Saturday Morning Session" := "sat_am",
    "Saturday Afternoon Session" := "sat_pm",
    "General Priesthood Session" := "sat_ps",
    "Sunday Morning Session" := "sun_am",
    "Sunday Afternoon Session" := "sun_pm",
    "Szombat délelőtti ülés" := "sat_am",
    "Szombat délutáni ülés" := "sat_pm",
    "Általános papsági ülés" := "sat_ps",
    "Vasárnap délelőtti ülés" := "sun_am",
    "Vasárnap délutáni ülés" := "sun_pm"]

  const IGNORE_SECTIONS: seq<string> := [
    "Conference Music", "Additional Resources", "About General Conference",
    "General Women's Session", "Általános női ülés"]

  const IGNORE_TITLES: seq<string> := [
    "The Sustaining of Church Officers", "Solemn Assembly",
    "Church Auditing Department Report, 2017", "Ünnepélyes gyülekezet",
    "Az egyházi tisztségviselők támogatása",
    "Az Egyházi Könyvvizsgálói Osztály 2017. évi jelentése"]

  // ----- Session codes -----

  /** A session code: two `_`-free halves of three letters around one `_`. */
  predicate IsCode(c: string) {
    |c| == 6 && c[3] == '_' && '_' !in c[..3] && '_' !in c[4..]
  }

  /** Every code in `SESSIONS` has that shape. */
  lemma SessionCodes()
    ensures forall t :: t in SESSIONS ==> IsCode(SESSIONS[t])
  {
    var codes := ["sat_am", "sat_pm", "sat_ps", "sun_am", "sun_pm"];
    forall k | 0 <= k < |codes|
      ensures IsCode(codes[k])
    {
      CodeShape(codes[k]);
    }
    assert forall t :: t in SESSIONS ==> SESSIONS[t] in codes;
  }

  lemma CodeShape(c: string)
    requires c in ["sat_am", "sat_pm", "sat_ps", "sun_am", "sun_pm"]
    ensures IsCode(c)
  {
  }

  /** An English session title and its Hungarian counterpart share a code. */
  lemma SessionsBilingual()
    ensures SESSIONS["Saturday Morning Session"] == SESSIONS["Szombat délelőtti ülés"]
    ensures SESSIONS["Saturday Afternoon Session"] == SESSIONS["Szombat délutáni ülés"]
    ensures SESSIONS["General Priesthood Session"] == SESSIONS["Általános papsági ülés"]
    ensures SESSIONS["Sunday Morning Session"] == SESSIONS["Vasárnap délelőtti ülés"]
    ensures SESSIONS["Sunday Afternoon Session"] == SESSIONS["Vasárnap délutáni ülés"]
  {
  }

  // ----- Records of `get_slugs` -----

  /** One record: the session code, the tile's position in its section counted
      from 1, the speaker's last name and the slug. */
  datatype SlugInfo = SlugInfo(session: string, order: nat, lastName: string, slug: string)

  /** `speaker.text.split(' ')[-1].lower()` */
  function LastName(speaker: string): (r: string)
    ensures ' ' !in r
  {
    var word := Last(Split(speaker, " "));
    SplitPiecesFree(speaker, " ");
    ContainsChar(word, ' ');
    assert forall k :: 0 <= k < |word| ==> Lower(word)[k] == LowerChar(word[k]);
    Lower(word)
  }

  /** The last name is the last word, lowercased. */
  lemma LastNameOf(first: string, last: string)
    requires ' ' !in last
    ensures LastName(first + " " + last) == Lower(last)
  {
    LastAfter(first, ' ', last);
  }

  /** A speaker name without `_` gives a last name without `_`. */
  lemma LastNameFree(speaker: string)
    requires '_' !in speaker
    ensures '_' !in LastName(speaker)
  {
    var word := Last(Split(speaker, " "));
    SplitLastIsSuffix(speaker, " ");
    assert forall k :: 0 <= k < |word| ==> word[k] == speaker[|speaker| - |word| + k];
    assert forall k :: 0 <= k < |word| ==> Lower(word)[k] == LowerChar(word[k]);
  }

  /** No apostle's name holds `_`. */
  lemma ApostlesFree()
    ensures forall k :: 0 <= k < |APOSTLES| ==> '_' !in APOSTLES[k]
  {
  }

  /** A tile is kept when its speaker is an apostle and its stripped title is
      not ignored (lines 91 and 95). */
  predicate Kept(tile: Tile) {
    tile.speaker in APOSTLES && Strip(tile.heading) !in IGNORE_TITLES
  }

  /** The record of the `index`-th tile of a section with a session code. */
  function Record(title: string, index: nat, tile: Tile): SlugInfo
    requires title in SESSIONS
  {
    SlugInfo(SESSIONS[title], index + 1, LastName(tile.speaker), GcSlug(tile.href))
  }

  /** What one tile adds: nothing, its record, or the KeyError of a section
      title with no session code. The lookup is only made for a kept tile. */
  function SlotInfo(slot: Slot): Result<seq<SlugInfo>> {
    if !Kept(slot.tile) then Ok([])
    else if slot.section !in SESSIONS then Err(KeyError(slot.section))
    else Ok([Record(slot.section, slot.index, slot.tile)])
  }

  /** What one section adds; an ignored section is not looked into. */
  function SectionInfos(section: Section): Result<seq<SlugInfo>> {
    if section.title in IGNORE_SECTIONS then Ok([]) else CollectAll(SlotInfo, Slots(section))
  }

  /** The return value of `get_slugs`, or the exception it raises. */
  function Slugs(sections: seq<Section>): Result<seq<SlugInfo>> {
    CollectAll(SectionInfos, sections)
  }

  /** `get_slugs` over the parsed table of contents. */
  method GetSlugs(sections: seq<Section>) returns (r: Result<seq<SlugInfo>>)
    ensures r == Slugs(sections)
  {
    var data: seq<SlugInfo> := [];
    assert sections[0..] == sections;
    PrependEmpty(Slugs(sections));
    for i := 0 to |sections|
      invariant Slugs(sections) == Prepend(data, CollectAll(SectionInfos, sections[i..]))
    {
      var section := sections[i];
      var after := CollectAll(SectionInfos, sections[i + 1..]);
      assert sections[i..][1..] == sections[i + 1..];
      if section.title !in IGNORE_SECTIONS {
        var speakers := section.tiles;
        ghost var slots := Slots(section);
        assert slots[0..] == slots;
        for index := 0 to |speakers|
          invariant Slugs(sections) == Prepend(data, Then(CollectAll(SlotInfo, slots[index..]), after))
        {
          var speaker := speakers[index];
          assert slots[index..][1..] == slots[index + 1..];
          assert slots[index] == Slot(section.title, index, speaker);
          ghost var rest := Then(CollectAll(SlotInfo, slots[index + 1..]), after);
          ThenAssoc(SlotInfo(slots[index]), CollectAll(SlotInfo, slots[index + 1..]), after);
          if speaker.speaker in APOSTLES {
            var title := Strip(speaker.heading);
            if title !in IGNORE_TITLES {
              var slug := GcSlug(speaker.href);
              if section.title !in SESSIONS {
                return Err(KeyError(section.title));
              }
              var info := SlugInfo(SESSIONS[section.title], index + 1, LastName(speaker.speaker), slug);
              assert info == Record(section.title, index, speaker);
              PrependPrepend(data, [info], rest);
              data := data + [info];
            } else {
              PrependPrepend(data, [], rest);
              assert data + [] == data;
            }
          } else {
            PrependPrepend(data, [], rest);
            assert data + [] == data;
          }
        }
        assert slots[|speakers|..] == [];
      }
      ThenUnit(after);
    }
    assert sections[|sections|..] == [];
    assert data + [] == data;
    return Ok(data);
  }

  /** `get_slugs` returns exactly when every section that is not ignored and
      holds a kept tile has a session code. */
  lemma SlugsFail(sections: seq<Section>)
    ensures Slugs(sections).Ok? <==>
      forall i, j :: (0 <= i < |sections| && sections[i].title !in IGNORE_SECTIONS &&
        0 <= j < |sections[i].tiles| && Kept(sections[i].tiles[j])) ==> sections[i].title in SESSIONS
  {
    CollectAllOk(SectionInfos, sections);
    forall i | 0 <= i < |sections|
      ensures SectionInfos(sections[i]).Ok? <==>
        (sections[i].title !in IGNORE_SECTIONS ==>
          forall j :: 0 <= j < |sections[i].tiles| && Kept(sections[i].tiles[j]) ==> sections[i].title in SESSIONS)
    {
      CollectAllOk(SlotInfo, Slots(sections[i]));
    }
  }

  /** When it raises, it raises the KeyError of a section title without a
      session code. */
  lemma SlugsError(sections: seq<Section>)
    requires Slugs(sections).Err?
    ensures exists i :: (0 <= i < |sections| && sections[i].title !in IGNORE_SECTIONS && sections[i].title !in SESSIONS &&
      Slugs(sections).error == KeyError(sections[i].title))
  {
    CollectAllError(SectionInfos, sections);
    var i :| 0 <= i < |sections| && SectionInfos(sections[i]).Err? && Slugs(sections).error == SectionInfos(sections[i]).error;
    CollectAllError(SlotInfo, Slots(sections[i]));
  }

  /** The records returned are those of the kept tiles of the sections that
      are not ignored, and no others. */
  lemma SlugsMember(sections: seq<Section>, info: SlugInfo)
    requires Slugs(sections).Ok?
    ensures info in Slugs(sections).value <==>
      exists i, j :: 0 <= i < |sections| && sections[i].title !in IGNORE_SECTIONS && 0 <= j < |sections[i].tiles| &&
        Kept(sections[i].tiles[j]) && sections[i].title in SESSIONS &&
        info == Record(sections[i].title, j, sections[i].tiles[j])
  {
    CollectAllMember(SectionInfos, sections, info);
    CollectAllOk(SectionInfos, sections);
    forall i | 0 <= i < |sections| && sections[i].title !in IGNORE_SECTIONS
      ensures info in SectionInfos(sections[i]).value <==>
        exists j :: 0 <= j < |sections[i].tiles| && Kept(sections[i].tiles[j]) && sections[i].title in SESSIONS &&
          info == Record(sections[i].title, j, sections[i].tiles[j])
    {
      CollectAllMember(SlotInfo, Slots(sections[i]), info);
    }
  }

  /** Document order: the records of earlier sections come first. */
  lemma SlugsInOrder(a: seq<Section>, b: seq<Section>)
    ensures Slugs(a + b) == Then(Slugs(a), Slugs(b))
  {
    CollectAllAppend(SectionInfos, a, b);
  }

  /** Within a section the orders are positive, strictly increasing and at
      most the number of tiles: they count every tile, kept or not. */
  lemma SectionOrders(section: Section)
    requires SectionInfos(section).Ok?
    ensures var v := SectionInfos(section).value;
      (forall a :: 0 <= a < |v| ==> 0 < v[a].order <= |section.tiles|) &&
      (forall a, b :: 0 <= a < b < |v| ==> v[a].order < v[b].order)
  {
    if section.title !in IGNORE_SECTIONS {
      SlotOrders(Slots(section), 0);
    }
  }

  lemma {:induction false} SlotOrders(slots: seq<Slot>, base: nat)
    requires forall k :: 0 <= k < |slots| ==> slots[k].index == base + k
    requires CollectAll(SlotInfo, slots).Ok?
    ensures var v := CollectAll(SlotInfo, slots).value;
      (forall a :: 0 <= a < |v| ==> base < v[a].order <= base + |slots|) &&
      (forall a, b :: 0 <= a < b < |v| ==> v[a].order < v[b].order)
  {
    if slots != [] {
      var rest := slots[1..];
      assert forall k :: 0 <= k < |rest| ==> rest[k].index == base + 1 + k by {
        forall k | 0 <= k < |rest|
          ensures rest[k].index == base + 1 + k
        {
          assert rest[k] == slots[k + 1];
        }
      }
      SlotOrders(rest, base + 1);
      var head := SlotInfo(slots[0]).value;
      var tail := CollectAll(SlotInfo, rest).value;
      assert CollectAll(SlotInfo, slots).value == head + tail;
      assert forall a :: 0 <= a < |head| ==> head[a].order == base + 1;
    }
  }

  // ----- File paths and the ebook's file id -----

  /** `FILEPATH` filled in from a record. */
  function FilePath(year: string, month: string, lang: string, info: SlugInfo): string {
    year + "/" + month + "/" + lang + "/gc_" + year + "_" + month + "_" + info.session + "_" +
      NatToString(info.order) + "_" + info.lastName + ".text"
  }

  /** With `_`-free parts, the path splits on `_` into seven fields: the
      directories with `gc`, year, month, the two halves of the session code,
      the order and `{last_name}.text`. */
  lemma FilePathFields(year: string, month: string, lang: string, info: SlugInfo)
    requires '_' !in year && '_' !in month && '_' !in lang && '_' !in info.lastName && IsCode(info.session)
    ensures var fields := [year + "/" + month + "/" + lang + "/gc", year, month, info.session[..3],
                           info.session[4..], NatToString(info.order), info.lastName + ".text"];
      FilePath(year, month, lang, info) == Join("_", fields) &&
      forall k :: 0 <= k < 7 ==> '_' !in fields[k]
  {
    var f0, f1, f2, f3 := year + "/" + month + "/" + lang + "/gc", year, month, info.session[..3];
    var f4, f5, f6 := info.session[4..], NatToString(info.order), info.lastName + ".text";
    var fields := [f0, f1, f2, f3, f4, f5, f6];
    assert info.session == f3 + "_" + f4;
    DigitsFree(f5);
    JoinSeven("_", f0, f1, f2, f3, f4, f5, f6);
  }

  /** A string of digits holds no `_`. */
  lemma DigitsFree(s: string)
    requires AllDigits(s)
    ensures '_' !in s
  {
    assert forall k :: 0 <= k < |s| ==> IsDigit(s[k]);
  }

  lemma JoinSeven(sep: string, a: string, b: string, c: string, d: string, e: string, f: string, g: string)
    ensures Join(sep, [a, b, c, d, e, f, g]) == a + sep + b + sep + c + sep + d + sep + e + sep + f + sep + g
  {
    assert [a, b] == [a] + [b];
    JoinSnoc(sep, [a], b);
    assert [a, b, c] == [a, b] + [c];
    JoinSnoc(sep, [a, b], c);
    assert [a, b, c, d] == [a, b, c] + [d];
    JoinSnoc(sep, [a, b, c], d);
    assert [a, b, c, d, e] == [a, b, c, d] + [e];
    JoinSnoc(sep, [a, b, c, d], e);
    assert [a, b, c, d, e, f] == [a, b, c, d, e] + [f];
    JoinSnoc(sep, [a, b, c, d, e], f);
    assert [a, b, c, d, e, f, g] == [a, b, c, d, e, f] + [g];
    JoinSnoc(sep, [a, b, c, d, e, f], g);
  }

  /** The ebook's file id of such a path keeps the session and the last name
      but drops the order, so two talks in one session by one speaker get the
      same id although their paths differ. */
  lemma FileIdDropsOrder(year: string, month: string, lang: string, bookLang: string, info: SlugInfo, other: nat)
    requires '_' !in year && '_' !in month && '_' !in lang && '_' !in info.lastName && IsCode(info.session)
    ensures Ebook.FileId(bookLang, FilePath(year, month, lang, info))
         == Ok(bookLang + "-" + info.session[..3] + "-" + info.session[4..] + "-" + (info.lastName + ".text"))
    ensures Ebook.FileId(bookLang, FilePath(year, month, lang, info.(order := other)))
         == Ebook.FileId(bookLang, FilePath(year, month, lang, info))
    ensures other != info.order ==> FilePath(year, month, lang, info.(order := other)) != FilePath(year, month, lang, info)
  {
    FilePathFields(year, month, lang, info);
    FilePathFields(year, month, lang, info.(order := other));
    var fields := [year + "/" + month + "/" + lang + "/gc", year, month, info.session[..3],
                   info.session[4..], NatToString(info.order), info.lastName + ".text"];
    assert fields[5 := NatToString(other)] == [year + "/" + month + "/" + lang + "/gc", year, month, info.session[..3],
                   info.session[4..], NatToString(other), info.lastName + ".text"];
    Ebook.FileIdOfFields(bookLang, fields);
    DigitsFree(NatToString(other));
    Ebook.FileIdIgnoresField5(bookLang, fields, NatToString(other));
    if other != info.order {
      NatToStringInjective(other, info.order);
    }
  }

  /** Every record `get_slugs` returns gives a path the ebook can take an id
      from, for a year, month and language without `_`. */
  lemma RecordsHaveIds(sections: seq<Section>, year: string, month: string, lang: string, bookLang: string, k: nat)
    requires Slugs(sections).Ok? && k < |Slugs(sections).value|
    requires '_' !in year && '_' !in month && '_' !in lang
    ensures Ebook.FileId(bookLang, FilePath(year, month, lang, Slugs(sections).value[k])).Ok?
  {
    var info := Slugs(sections).value[k];
    SlugsMember(sections, info);
    var i, j :| 0 <= i < |sections| && sections[i].title !in IGNORE_SECTIONS && 0 <= j < |sections[i].tiles| &&
      Kept(sections[i].tiles[j]) && sections[i].title in SESSIONS &&
      info == Record(sections[i].title, j, sections[i].tiles[j]);
    SessionCodes();
    ApostlesFree();
    LastNameFree(sections[i].tiles[j].speaker);
    FileIdDropsOrder(year, month, lang, bookLang, info, info.order);
  }

  // ----- `write_talks` -----

  /** The tuple `(filename, author, title, lang)` appended to `paths`. */
  datatype PathInfo = PathInfo(filename: string, author: string, title: string, lang: string)

  /** One talk written: the Markdown file and its entry in `paths`. */
  datatype Written = Written(file: File, path: PathInfo)

  /** The talk of one record: its file and entry, or the IndexError of a
      non-English author block without a line break. */
  function TalkWritten(year: string, month: string, lang: string, fetch: string -> Page, info: SlugInfo): Result<Written> {
    var filename := FilePath(year, month, lang, info);
    var page := fetch(info.slug);
    match Author(lang, page)
    case Err(e) => Err(e)
    case Ok(author) =>
      Ok(Written(File(filename, Document(lang, page).value), PathInfo(filename, author, page.title, lang)))
  }

  /** A record whose page has an author gives its file: the document at the
      record's path. */
  lemma TalkWrittenOk(year: string, month: string, lang: string, fetch: string -> Page, info: SlugInfo)
    requires Author(lang, fetch(info.slug)).Ok?
    ensures var page, filename := fetch(info.slug), FilePath(year, month, lang, info);
      var author := Author(lang, page).value;
      TalkWritten(year, month, lang, fetch, info)
        == Ok(Written(File(filename, Join("\n\n", Parts(author, page))), PathInfo(filename, author, page.title, lang)))
  {
  }

  /** `write_talks`: one file per record, in order, until a page raises. When
      none does, it returns `[w.path for w in run.written]`. */
  method WriteTalks(slugs: seq<SlugInfo>, year: string, month: string, lang: string, fetch: string -> Page)
    returns (run: Run<Written>)
    ensures run == RunAll(info => TalkWritten(year, month, lang, fetch, info), slugs)
  {
    var write := info => TalkWritten(year, month, lang, fetch, info);
    var written: seq<Written> := [];
    for i := 0 to |slugs|
      invariant RunAll(write, slugs) == After(written, RunAll(write, slugs[i..]))
    {
      assert slugs[i..][1..] == slugs[i + 1..] && slugs[i..][0] == slugs[i];
      var w := WriteTalk(slugs[i], year, month, lang, fetch);
      if w.Err? {
        AfterStop(write, slugs[i..], written);
        return Run(written, Some(w.error));
      }
      AfterStep(write, slugs[i..], written, w.value);
      written := written + [w.value];
    }
    assert slugs[|slugs|..] == [];
    AfterEnd(write, written);
    return Run(written, None);
  }

  /** The body of the loop of `write_talks`: the document of one record's
      page and the path tuple, or the IndexError of its author block. */
  method WriteTalk(info: SlugInfo, year: string, month: string, lang: string, fetch: string -> Page)
    returns (w: Result<Written>)
    ensures w == TalkWritten(year, month, lang, fetch, info)
  {
    var filename := FilePath(year, month, lang, info);
    var page := fetch(info.slug);
    var author := Author(lang, page);
    if author.Err? {
      return Err(author.error);
    }
    var data := [HeadingLine(author.value, page.title)];
    var path := PathInfo(filename, author.value, page.title, lang);
    data := data + [Speech(page.paragraphs)];
    if page.references.Some? {
      data := data + [Footnotes(page.references.value)];
    }
    assert data == Parts(author.value, page);
    TalkWrittenOk(year, month, lang, fetch, info);
    return Ok(Written(File(filename, Join("\n\n", data)), path));
  }


  /** The `k`-th talk written is the document of the `k`-th record's page,
      saved under that record's path, and its entry names that path, the
      page's author and title and the language. */
  lemma WrittenTalk(slugs: seq<SlugInfo>, year: string, month: string, lang: string, fetch: string -> Page, k: nat)
    requires k < |RunAll(info => TalkWritten(year, month, lang, fetch, info), slugs).written|
    ensures k < |slugs| && Author(lang, fetch(slugs[k].slug)).Ok?
    ensures var page := fetch(slugs[k].slug);
      var filename := FilePath(year, month, lang, slugs[k]);
      RunAll(info => TalkWritten(year, month, lang, fetch, info), slugs).written[k]
        == Written(File(filename, Document(lang, page).value),
                   PathInfo(filename, Author(lang, page).value, page.title, lang))
  {
    RunAllWrites(info => TalkWritten(year, month, lang, fetch, info), slugs, k);
  }

  /** The run stops exactly when some page's author cannot be read, with
      that IndexError; otherwise one file and one entry per record. */
  lemma WriteTalksStops(slugs: seq<SlugInfo>, year: string, month: string, lang: string, fetch: string -> Page)
    ensures var run := RunAll(info => TalkWritten(year, month, lang, fetch, info), slugs);
      (run.error.Some? <==> exists k :: 0 <= k < |slugs| && Author(lang, fetch(slugs[k].slug)).Err?) &&
      (run.error.Some? ==> run.error.value == INDEX_ERROR) &&
      (run.error.None? ==> |run.written| == |slugs|)
  {
    var write := info => TalkWritten(year, month, lang, fetch, info);
    RunAllStops(write, slugs);
    assert forall k :: 0 <= k < |slugs| ==> (write(slugs[k]).Err? <==> Author(lang, fetch(slugs[k].slug)).Err?);
    if RunAll(write, slugs).error.Some? {
      RunAllStopsAt(write, slugs);
      var k :| 0 <= k < |slugs| && write(slugs[k]).Err? && RunAll(write, slugs).error == Some(write(slugs[k]).error);
      AuthorFails(lang, fetch(slugs[k].slug));
    }
  }
}
