/** cr/cr.py: the same download as gc/extractor.py, in class form. A
    `Conference` of one language reads the table of contents into `Talk`
    objects, each holding its Markdown text; a `ConferenceReport` groups the
    conferences of one month. Pages arrive already parsed (see the Toc and
    TalkPage modules); `fetch` stands for downloading and parsing the page of a
    slug. */
module Cr {
  import opened Wrappers
  import opened Seqs
  import opened PyStr
  import opened Links
  import opened Toc
  import opened TalkPage
  import Ebook
  import GcExtractor

  /** `Conference.LANGUAGES` */
  const LANGUAGES: map<string, string> := map["eng" := "English", "hun" := "Hungarian"]

  /** `Conference.SESSIONS`, and `Talk.SESSIONS`, which has the same entries:
      the codes are those of gc/extractor.py with `-` in place of `_`. */
  const SESSIONS: map<string, string> := map[
    "Saturday Morning Session" := "sat-am",
    "Saturday Afternoon Session" := "sat-pm",
    "General Priesthood Session" := "sat-ps",
    "Sunday Morning Session" := "sun-am",
    "Sunday Afternoon Session" := "sun-pm",
    "Szombat délelőtti ülés" := "sat-am",
    "Szombat délutáni ülés" := "sat-pm",
    "Általános papsági ülés" := "sat-ps",
    "Vasárnap délelőtti ülés" := "sun-am",
    "Vasárnap délutáni ülés" := "sun-pm"]

  const APOSTLES: seq<string> := [
    "D. Todd Christofferson", "Dale G. Renlund", "Dallin H. Oaks", "David A. Bednar",
    "Dieter F. Uchtdorf", "Gary E. Stevenson", "Henry B. Eyring", "Jeffrey R. Holland",
    "M. Russell Ballard", "Quentin L. Cook", "Robert D. Hales", "Ronald A. Rasband",
    "Russell M. Nelson", "Thomas S. Monson"]

  const IGNORE_SECTIONS: seq<string> := [
    "Conference Music", "Additional Resources", "About General Conference",
    "General Women's Session", "Általános női ülés"]

  const IGNORE_TITLES: seq<string> := ["The Sustaining of Church Officers"]

  /** `ConferenceReport.MONTHS` */
  const MONTHS: map<string, string> := map["04" := "April", "10" := "October"]

  // ----- Session codes -----

  /** A gc/extractor.py code written with a hyphen. */
  function Hyphenated(code: string): string
    requires |code| == 6
  {
    code[..3] + "-" + code[4..]
  }

  /** Both maps know the same section titles, and each code here is the
      gc/extractor.py code with a hyphen in place of the underscore. */
  lemma SessionsHyphenated()
    ensures forall t :: t in SESSIONS <==> t in GcExtractor.SESSIONS
    ensures forall t :: t in SESSIONS ==> |GcExtractor.SESSIONS[t]| == 6 && SESSIONS[t] == Hyphenated(GcExtractor.SESSIONS[t])
  {
    forall t | t in SESSIONS
      ensures |GcExtractor.SESSIONS[t]| == 6 && SESSIONS[t] == Hyphenated(GcExtractor.SESSIONS[t])
    {
      CodeHyphenated(GcExtractor.SESSIONS[t]);
    }
    assert SESSIONS.Keys == GcExtractor.SESSIONS.Keys;
  }

  /** Each gc/extractor.py code has six characters, and hyphenating it gives
      the code of its section here. */
  lemma CodeHyphenated(code: string)
    requires code in GcExtractor.SESSIONS.Values
    ensures |code| == 6
    ensures forall t :: t in SESSIONS && GcExtractor.SESSIONS[t] == code ==> SESSIONS[t] == Hyphenated(code)
  {
    assert code in {"sat_am", "sat_pm", "sat_ps", "sun_am", "sun_pm"};
    forall t | t in SESSIONS && GcExtractor.SESSIONS[t] == code
      ensures SESSIONS[t] == Hyphenated(code)
    {
      assert t in GcExtractor.SESSIONS;
    }
  }

  /** No code holds `_`. */
  lemma CodesFree()
    ensures forall t :: t in SESSIONS ==> '_' !in SESSIONS[t]
  {
  }

  // ----- File paths -----

  /** `FILEPATH` filled in. `last_name` was bound with a trailing comma, so it
      is a one-element tuple and its rendering `('{name}',)` is what the path
      holds. */
  function FilePath(year: string, month: string, lang: string, sessionAbrv: string, order: nat, lastName: string): string {
    year + "/" + month + "/" + lang + "/gc_" + year + "_" + month + "_" + sessionAbrv + "_" +
      NatToString(order) + "_" + TupleRepr([lastName]) + ".text"
  }

  /** For a name of plain characters the path ends in `_('{name}',).text`,
      not in `_{name}.text`. */
  lemma FilePathTuple(year: string, month: string, lang: string, sessionAbrv: string, order: nat, lastName: string)
    requires forall k :: 0 <= k < |lastName| ==> PyStr.Plain(lastName[k])
    ensures FilePath(year, month, lang, sessionAbrv, order, lastName)
         == year + "/" + month + "/" + lang + "/gc_" + year + "_" + month + "_" + sessionAbrv + "_" +
            NatToString(order) + "_" + ("('" + lastName + "',)") + ".text"
  {
    PlainRepr(lastName);
    assert "(" + ("'" + lastName + "'") + ",)" == "('" + lastName + "',)";
  }

  /** With hyphenated codes the path has only six `_`-separated fields, so the
      file id of gc/ebook.py, which reads field 6, cannot be taken from it. */
  lemma FileIdFails(year: string, month: string, lang: string, sessionAbrv: string, order: nat, lastName: string, bookLang: string)
    requires '_' !in year && '_' !in month && '_' !in lang && '_' !in sessionAbrv && '_' !in lastName
    requires forall k :: 0 <= k < |lastName| ==> PyStr.Plain(lastName[k])
    ensures Ebook.FileId(bookLang, FilePath(year, month, lang, sessionAbrv, order, lastName)) == Err(Ebook.INDEX_ERROR)
  {
    var dirs, ord, tail := year + "/" + month + "/" + lang + "/gc", NatToString(order), TupleTail(lastName);
    FilePathSix(year, month, lang, sessionAbrv, order, lastName);
    GcExtractor.DigitsFree(ord);
    TupleTailFree(lastName);
    assert '_' !in dirs;
    JoinSplitChar('_', [dirs, year, month, sessionAbrv, ord, tail]);
  }

  /** The last field of the path: the rendered tuple and the extension. */
  function TupleTail(lastName: string): string {
    TupleRepr([lastName]) + ".text"
  }

  lemma TupleTailFree(lastName: string)
    requires '_' !in lastName && forall k :: 0 <= k < |lastName| ==> PyStr.Plain(lastName[k])
    ensures '_' !in TupleTail(lastName)
  {
    PlainRepr(lastName);
    var r := StrRepr(lastName);
    assert '_' !in r;
    FreeConcat('_', "(", r);
    FreeConcat('_', "(" + r, ",)");
    FreeConcat('_', "(" + r + ",)", ".text");
  }

  lemma FreeConcat(c: char, a: string, b: string)
    requires c !in a && c !in b
    ensures c !in a + b
  {
  }

  /** The path is six fields joined by `_`. */
  lemma FilePathSix(year: string, month: string, lang: string, sessionAbrv: string, order: nat, lastName: string)
    ensures FilePath(year, month, lang, sessionAbrv, order, lastName)
         == Join("_", [year + "/" + month + "/" + lang + "/gc", year, month, sessionAbrv, NatToString(order), TupleTail(lastName)])
  {
    var dirs := year + "/" + month + "/" + lang;
    var ord, tail := NatToString(order), TupleTail(lastName);
    JoinSix("_", dirs + "/gc", year, month, sessionAbrv, ord, tail);
    assert dirs + "/gc_" == dirs + "/gc" + "_";
  }

  lemma JoinSix(sep: string, a: string, b: string, c: string, d: string, e: string, f: string)
    ensures Join(sep, [a, b, c, d, e, f]) == a + sep + b + sep + c + sep + d + sep + e + sep + f
  {
    assert [a, b] == [a] + [b];
    JoinSnoc(sep, [a], b);
    assert [a, b, c] == [a, b] + [c];
    JoinSnoc(sep, [a, b], c);
    assert [a, b, c, d] == [a, b, c] + [d];
    JoinSnoc(sep, [a, b, c], d);
    assert [a, b, c, d, e] == [a, b, c, d] + [e];
    JoinSnoc(sep, [a, b, c, d], e);
    assert [a, b, c, d, e, f] == [a, b, c, d, e] + [f];
    JoinSnoc(sep, [a, b, c, d, e], f);
  }

  // ----- Talks -----

  /** What a `Talk` holds. */
  datatype TalkFields = TalkFields(author: string, title: string, slug: string, session: string,
                                   sessionAbrv: string, order: nat, filepath: string, fullText: Option<string>)

  class Talk {
    var author: string
    var title: string
    var slug: string
    var session: string
    var sessionAbrv: string
    var order: nat
    var filepath: string
    var fullText: Option<string>

    function Fields(): TalkFields
      reads this
    {
      TalkFields(author, title, slug, session, sessionAbrv, order, filepath, fullText)
    }

    constructor Init(f: TalkFields)
      ensures Fields() == f
    {
      author, title, slug, session := f.author, f.title, f.slug, f.session;
      sessionAbrv, order, filepath, fullText := f.sessionAbrv, f.order, f.filepath, f.fullText;
    }

    /** `Talk(...)`: the session code is looked up, and a session with none
        raises KeyError. */
    static method New(author: string, title: string, slug: string, session: string, order: nat,
                      filepath: string, fullText: Option<string>) returns (r: Result<Talk>)
      ensures r.Err? <==> session !in SESSIONS
      ensures r.Err? ==> r.error == KeyError(session)
      ensures r.Ok? ==> (fresh(r.value) &&
        r.value.Fields() == TalkFields(author, title, slug, session, SESSIONS[session], order, filepath, fullText))
    {
      if session !in SESSIONS {
        return Err(KeyError(session));
      }
      var t := new Talk.Init(TalkFields(author, title, slug, session, SESSIONS[session], order, filepath, fullText));
      return Ok(t);
    }

    /** `Talk.from_url`: the talk is made without text, and then given the
        Markdown document of its page (`download_to_markdown`). */
    static method FromUrl(lang: string, page: Page, author: string, title: string, slug: string,
                          session: string, order: nat, filepath: string) returns (r: Result<Talk>)
      ensures r.Err? <==> session !in SESSIONS || Document(lang, page).Err?
      ensures r.Err? ==> r.error == if session !in SESSIONS then KeyError(session) else Document(lang, page).error
      ensures r.Ok? ==> (fresh(r.value) &&
        r.value.Fields() == TalkFields(author, title, slug, session, SESSIONS[session], order, filepath,
                                       Some(Document(lang, page).value)))
    {
      var made := New(author, title, slug, session, order, filepath, None);
      if made.Err? {
        return Err(made.error);
      }
      var talk := made.value;
      var text := Document(lang, page);
      if text.Err? {
        return Err(text.error);
      }
      talk.fullText := Some(text.value);
      return Ok(talk);
    }
  }

  // ----- What `_parse_sections` yields -----

  /** A tile is kept when its speaker is an apostle and its stripped title is
      not ignored (lines 107 and 111). */
  predicate Kept(tile: Tile) {
    tile.speaker in APOSTLES && Strip(tile.heading) !in IGNORE_TITLES
  }

  /** The talk of the `index`-th tile of a section with a session code, once
      its page has given its text. */
  function TalkOf(year: string, month: string, lang: string, title: string, index: nat, tile: Tile, text: string): TalkFields
    requires title in SESSIONS
  {
    var abrv := SESSIONS[title];
    TalkFields(tile.speaker, Strip(tile.heading), GcSlug(tile.href), title, abrv, index + 1,
               FilePath(year, month, lang, abrv, index + 1, GcExtractor.LastName(tile.speaker)), Some(text))
  }

  /** The fields of each talk of a list, in order. */
  function FieldsOf(ts: seq<Talk>): (r: seq<TalkFields>)
    reads ts
    ensures |r| == |ts| && forall k :: 0 <= k < |ts| ==> r[k] == ts[k].Fields()
  {
    if ts == [] then [] else [ts[0].Fields()] + FieldsOf(ts[1..])
  }

  lemma FieldsOfAppend(a: seq<Talk>, b: seq<Talk>)
    ensures FieldsOf(a + b) == FieldsOf(a) + FieldsOf(b)
  {
  }

  /** The talks of a result, none for an exception. */
  function Talks(r: Result<seq<Talk>>): seq<Talk> {
    if r.Ok? then r.value else []
  }

  /** A list of talk objects, or an exception, is what a specification
      result says: the same exception, or talks with those fields in that
      order. */
  predicate Agrees(r: Result<seq<Talk>>, spec: Result<seq<TalkFields>>)
    reads Talks(r)
  {
    match r
    case Err(e) => spec == Err(e)
    case Ok(ts) => spec == Ok(FieldsOf(ts))
  }

  /** What one tile yields: nothing, its talk, the KeyError of a section
      without a session code, or the IndexError of its page. */
  function SlotTalk(year: string, month: string, lang: string, fetch: string -> Page, slot: Slot): Result<seq<TalkFields>> {
    if !Kept(slot.tile) then Ok([])
    else if slot.section !in SESSIONS then Err(KeyError(slot.section))
    else
      match Document(lang, fetch(GcSlug(slot.tile.href)))
      case Err(e) => Err(e)
      case Ok(text) => Ok([TalkOf(year, month, lang, slot.section, slot.index, slot.tile, text)])
  }

  /** A kept tile of a section with a code, whose page gives a text, yields
      its talk. */
  lemma SlotTalkKept(year: string, month: string, lang: string, fetch: string -> Page, slot: Slot)
    requires Kept(slot.tile) && slot.section in SESSIONS && Document(lang, fetch(GcSlug(slot.tile.href))).Ok?
    ensures SlotTalk(year, month, lang, fetch, slot)
         == Ok([TalkOf(year, month, lang, slot.section, slot.index, slot.tile, Document(lang, fetch(GcSlug(slot.tile.href))).value)])
  {
  }

  function SectionTalks(year: string, month: string, lang: string, fetch: string -> Page, section: Section): Result<seq<TalkFields>> {
    if section.title in IGNORE_SECTIONS then Ok([])
    else CollectAll(slot => SlotTalk(year, month, lang, fetch, slot), Slots(section))
  }

  /** `list(self._parse_sections(sections))`, or the exception it raises. */
  function Parsed(year: string, month: string, lang: string, fetch: string -> Page, sections: seq<Section>): Result<seq<TalkFields>> {
    CollectAll(section => SectionTalks(year, month, lang, fetch, section), sections)
  }

  // ----- Conferences -----

  /** `TITLE.format(language=...)` */
  function ConferenceTitle(language: string): string {
    language + " Conference Addresses"
  }

  class Conference {
    var year: string
    var month: string
    var lang: string
    var language: string
    var talks: seq<Talk>
    var title: string

    constructor Init(year: string, month: string, lang: string, language: string)
      ensures this.year == year && this.month == month && this.lang == lang && this.language == language
      ensures talks == [] && title == ConferenceTitle(language)
    {
      this.year, this.month, this.lang, this.language := year, month, lang, language;
      talks := [];
      title := ConferenceTitle(language);
    }

    /** `Conference(year, month, lang)`: a language without a name raises
        KeyError. */
    static method New(year: string, month: string, lang: string) returns (r: Result<Conference>)
      ensures r.Err? <==> lang !in LANGUAGES
      ensures r.Err? ==> r.error == KeyError(lang)
      ensures r.Ok? ==> (fresh(r.value) && r.value.year == year && r.value.month == month && r.value.lang == lang &&
        r.value.language == LANGUAGES[lang] && r.value.talks == [] && r.value.title == ConferenceTitle(LANGUAGES[lang]))
    {
      if lang !in LANGUAGES {
        return Err(KeyError(lang));
      }
      var c := new Conference.Init(year, month, lang, LANGUAGES[lang]);
      return Ok(c);
    }

    /** `_parse_sections` with `list(...)` around it: a `Talk` (made by `Talk.FromUrl`) per kept
        tile, in document order, or the first exception. The conference itself
        is left as it is; `download_talks` returns this list. */
    method ParseSections(sections: seq<Section>, fetch: string -> Page) returns (r: Result<seq<Talk>>)
      ensures Agrees(r, Parsed(year, month, lang, fetch, sections))
    {
      var y, m, l := year, month, lang;
      var step := section => SectionTalks(y, m, l, fetch, section);
      var found: seq<Talk> := [];
      ghost var fields: seq<TalkFields> := [];
      assert sections[0..] == sections;
      PrependEmpty(Parsed(y, m, l, fetch, sections));
      for i := 0 to |sections|
        invariant Parsed(y, m, l, fetch, sections) == Prepend(fields, CollectAll(step, sections[i..]))
        invariant FieldsOf(found) == fields
      {
        assert sections[i..][1..] == sections[i + 1..] && sections[i..][0] == sections[i];
        var t := ParseSection(sections[i], fetch);
        if t.Err? {
          CollectStop(step, sections[i..], fields);
          return Err(t.error);
        }
        CollectStep(step, sections[i..], fields, FieldsOf(t.value));
        FieldsOfAppend(found, t.value);
        found, fields := found + t.value, fields + FieldsOf(t.value);
      }
      assert sections[|sections|..] == [];
      CollectEnd(step, fields);
      return Ok(found);
    }

    /** The body of the inner loop of `_parse_sections`: the talk of one tile,
        if it is kept. */
    method ParseSlot(slot: Slot, fetch: string -> Page) returns (r: Result<seq<Talk>>)
      ensures Agrees(r, SlotTalk(year, month, lang, fetch, slot))
    {
      var speaker := slot.tile;
      if speaker.speaker !in APOSTLES {
        return Ok([]);
      }
      var talkTitle := Strip(speaker.heading);
      if talkTitle in IGNORE_TITLES {
        return Ok([]);
      }
      var slug := GcSlug(speaker.href);
      var lastName := GcExtractor.LastName(speaker.speaker);
      var order := slot.index + 1;
      if slot.section !in SESSIONS {
        return Err(KeyError(slot.section));
      }
      var filepath := FilePath(year, month, lang, SESSIONS[slot.section], order, lastName);
      var t := Talk.FromUrl(lang, fetch(slug), speaker.speaker, talkTitle, slug, slot.section, order, filepath);
      if t.Err? {
        return Err(t.error);
      }
      SlotTalkKept(year, month, lang, fetch, slot);
      assert FieldsOf([t.value]) == [t.value.Fields()];
      return Ok([t.value]);
    }

    /** The body of the outer loop of `_parse_sections`: the talks of one
        section, none when it is ignored. */
    method ParseSection(section: Section, fetch: string -> Page) returns (r: Result<seq<Talk>>)
      ensures Agrees(r, SectionTalks(year, month, lang, fetch, section))
    {
      var y, m, l := year, month, lang;
      var tileStep := slot => SlotTalk(y, m, l, fetch, slot);
      var found: seq<Talk> := [];
      ghost var fields: seq<TalkFields> := [];
      if section.title in IGNORE_SECTIONS {
        return Ok(found);
      }
      var speakers := section.tiles;
      ghost var slots := Slots(section);
      assert slots[0..] == slots;
      PrependEmpty(CollectAll(tileStep, slots));
      for index := 0 to |speakers|
        invariant SectionTalks(y, m, l, fetch, section) == Prepend(fields, CollectAll(tileStep, slots[index..]))
        invariant FieldsOf(found) == fields
      {
        assert slots[index..][1..] == slots[index + 1..] && slots[index..][0] == slots[index];
        assert slots[index] == Slot(section.title, index, speakers[index]);
        var t := ParseSlot(Slot(section.title, index, speakers[index]), fetch);
        if t.Err? {
          CollectStop(tileStep, slots[index..], fields);
          return Err(t.error);
        }
        CollectStep(tileStep, slots[index..], fields, FieldsOf(t.value));
        FieldsOfAppend(found, t.value);
        found, fields := found + t.value, fields + FieldsOf(t.value);
      }
      assert slots[|speakers|..] == [];
      CollectEnd(tileStep, fields);
      return Ok(found);
    }
  }

  /** The talks are parsed to the end exactly when every kept tile of a section
      that is not ignored has a session code and a page whose author can be
      read. */
  lemma ParsedFails(year: string, month: string, lang: string, fetch: string -> Page, sections: seq<Section>)
    ensures Parsed(year, month, lang, fetch, sections).Ok? <==>
      forall i, j :: (0 <= i < |sections| && sections[i].title !in IGNORE_SECTIONS &&
        0 <= j < |sections[i].tiles| && Kept(sections[i].tiles[j])) ==>
        sections[i].title in SESSIONS && Author(lang, fetch(GcSlug(sections[i].tiles[j].href))).Ok?
  {
    var step := section => SectionTalks(year, month, lang, fetch, section);
    var tileStep := slot => SlotTalk(year, month, lang, fetch, slot);
    CollectAllOk(step, sections);
    forall i | 0 <= i < |sections|
      ensures step(sections[i]).Ok? <==>
        (sections[i].title !in IGNORE_SECTIONS ==>
          forall j :: 0 <= j < |sections[i].tiles| && Kept(sections[i].tiles[j]) ==>
            sections[i].title in SESSIONS && Author(lang, fetch(GcSlug(sections[i].tiles[j].href))).Ok?)
    {
      CollectAllOk(tileStep, Slots(sections[i]));
    }
  }

  /** `t` is the talk of the `j`-th tile of `section`. */
  predicate TalkAt(year: string, month: string, lang: string, fetch: string -> Page, section: Section, j: int, t: TalkFields) {
    0 <= j < |section.tiles| && Kept(section.tiles[j]) && section.title in SESSIONS &&
    Document(lang, fetch(GcSlug(section.tiles[j].href))).Ok? &&
    t == TalkOf(year, month, lang, section.title, j, section.tiles[j],
                Document(lang, fetch(GcSlug(section.tiles[j].href))).value)
  }

  /** The talks yielded are those of the kept tiles of the sections that are
      not ignored, and no others. */
  lemma ParsedMember(year: string, month: string, lang: string, fetch: string -> Page, sections: seq<Section>, t: TalkFields)
    requires Parsed(year, month, lang, fetch, sections).Ok?
    ensures t in Parsed(year, month, lang, fetch, sections).value <==>
      exists i, j :: 0 <= i < |sections| && sections[i].title !in IGNORE_SECTIONS &&
        TalkAt(year, month, lang, fetch, sections[i], j, t)
  {
    var step := section => SectionTalks(year, month, lang, fetch, section);
    CollectAllMember(step, sections, t);
    CollectAllOk(step, sections);
    forall i | 0 <= i < |sections| && sections[i].title !in IGNORE_SECTIONS
      ensures t in step(sections[i]).value <==> exists j :: TalkAt(year, month, lang, fetch, sections[i], j, t)
    {
      SectionMember(year, month, lang, fetch, sections[i], t);
    }
  }

  /** The talks of a section that is not ignored are those of its kept tiles. */
  lemma SectionMember(year: string, month: string, lang: string, fetch: string -> Page, section: Section, t: TalkFields)
    requires section.title !in IGNORE_SECTIONS && SectionTalks(year, month, lang, fetch, section).Ok?
    ensures t in SectionTalks(year, month, lang, fetch, section).value <==>
      exists j :: TalkAt(year, month, lang, fetch, section, j, t)
  {
    var tileStep := slot => SlotTalk(year, month, lang, fetch, slot);
    var slots := Slots(section);
    CollectAllMember(tileStep, slots, t);
    forall j | 0 <= j < |slots|
      ensures (tileStep(slots[j]).Ok? && t in tileStep(slots[j]).value) <==> TalkAt(year, month, lang, fetch, section, j, t)
    {
      SlotMember(year, month, lang, fetch, slots[j], t);
    }
  }

  /** A tile yields `t` exactly when `t` is the talk of that tile. */
  lemma SlotMember(year: string, month: string, lang: string, fetch: string -> Page, slot: Slot, t: TalkFields)
    ensures var r := SlotTalk(year, month, lang, fetch, slot);
      (r.Ok? && t in r.value) <==>
      (Kept(slot.tile) && slot.section in SESSIONS && Document(lang, fetch(GcSlug(slot.tile.href))).Ok? &&
       t == TalkOf(year, month, lang, slot.section, slot.index, slot.tile, Document(lang, fetch(GcSlug(slot.tile.href))).value))
  {
  }

  /** Within a section the orders are positive and strictly increasing. */
  lemma SectionOrders(year: string, month: string, lang: string, fetch: string -> Page, section: Section)
    requires SectionTalks(year, month, lang, fetch, section).Ok?
    ensures var v := SectionTalks(year, month, lang, fetch, section).value;
      (forall a :: 0 <= a < |v| ==> 0 < v[a].order <= |section.tiles|) &&
      (forall a, b :: 0 <= a < b < |v| ==> v[a].order < v[b].order)
  {
    if section.title !in IGNORE_SECTIONS {
      SlotOrders(year, month, lang, fetch, Slots(section), 0);
    }
  }

  lemma {:induction false} SlotOrders(year: string, month: string, lang: string, fetch: string -> Page, slots: seq<Slot>, base: nat)
    requires forall k :: 0 <= k < |slots| ==> slots[k].index == base + k
    requires CollectAll(slot => SlotTalk(year, month, lang, fetch, slot), slots).Ok?
    ensures var v := CollectAll(slot => SlotTalk(year, month, lang, fetch, slot), slots).value;
      (forall a :: 0 <= a < |v| ==> base < v[a].order <= base + |slots|) &&
      (forall a, b :: 0 <= a < b < |v| ==> v[a].order < v[b].order)
  {
    var tileStep := slot => SlotTalk(year, month, lang, fetch, slot);
    if slots != [] {
      var rest := slots[1..];
      assert forall k :: 0 <= k < |rest| ==> rest[k].index == base + 1 + k by {
        forall k | 0 <= k < |rest|
          ensures rest[k].index == base + 1 + k
        {
          assert rest[k] == slots[k + 1];
        }
      }
      SlotOrders(year, month, lang, fetch, rest, base + 1);
      var head := tileStep(slots[0]).value;
      var tail := CollectAll(tileStep, rest).value;
      assert CollectAll(tileStep, slots).value == head + tail;
      assert forall a :: 0 <= a < |head| ==> head[a].order == base + 1;
    }
  }

  // ----- Conference reports -----

  /** `TITLE.format(month=..., year=...)` */
  function ReportTitle(monthName: string, year: string): string {
    monthName + " " + year + " Conference Report"
  }

  class ConferenceReport {
    var year: string
    var month: string
    var monthName: string
    var conferences: seq<Conference>
    var title: string

    constructor Init(year: string, month: string, monthName: string, conferences: seq<Conference>)
      ensures this.year == year && this.month == month && this.monthName == monthName
      ensures this.conferences == conferences && title == ReportTitle(monthName, year)
    {
      this.year, this.month, this.monthName := year, month, monthName;
      this.conferences := conferences;
      title := ReportTitle(monthName, year);
    }

    /** `ConferenceReport(year, month, conferences)`: only `04` and `10` have a
        name; any other month raises KeyError. */
    static method New(year: string, month: string, conferences: seq<Conference>) returns (r: Result<ConferenceReport>)
      ensures r.Err? <==> month !in MONTHS
      ensures r.Err? ==> r.error == KeyError(month)
      ensures r.Ok? ==> (fresh(r.value) && r.value.year == year && r.value.month == month &&
        r.value.monthName == MONTHS[month] && r.value.conferences == conferences &&
        r.value.title == ReportTitle(MONTHS[month], year))
    {
      if month !in MONTHS {
        return Err(KeyError(month));
      }
      var report := new ConferenceReport.Init(year, month, MONTHS[month], conferences);
      return Ok(report);
    }

    /** `create_epub` does nothing and returns `None`. */
    method CreateEpub() returns (r: Option<string>)
      ensures r == None
    {
      return None;
    }
  }
}
