/** cr/extractor.py: from the table of contents of a conference, the slugs of
    the apostles' talks, in document order, and the html files their pages
    are saved in. The table of contents is given already parsed: its sections, each
    with its title and its items, each item with its link and the texts of its
    paragraphs. */
module CrExtractor {
  import opened Wrappers
  import opened Seqs
  import opened PyStr
  import opened Links
  import Converter

  /** An entry of a section: the `href` of its link and the texts of its `<p>`
      elements. */
  datatype Item = Item(link: string, paragraphs: seq<string>)

  /** A section of the table of contents: the text of its first `<p>` and its
      `<li>` entries. */
  datatype Section = Section(title: string, items: seq<Item>)

  const APOSTLES: seq<string> := [
    "Boyd K. Packer", "D. Todd Christofferson", "Dale G. Renlund", "Dallin H. Oaks",
    "David A. Bednar", "Dieter F. Uchtdorf", "Gary E. Stevenson", "Gerrit W. Gong",
    "Gordon B. Hinckley", "Henry B. Eyring", "James E. Faust", "Jeffrey R. Holland",
    "Joseph B. Wirthlin", "L. Tom Perry", "M. Russell Ballard", "Neil L. Andersen",
    "Quentin L. Cook", "Richard G. Scott", "Robert D. Hales", "Ronald A. Rasband",
    "Russell M. Nelson", "Thomas S. Monson", "Ulisses Soares"]

  const IGNORE_SECTIONS: seq<string> := [
    "Conference Music", "Additional Resources", "About General Conference",
    "General Women's Session", "General Women’s Session", "Általános női ülés",
    "Women’s Session", "General Relief Society Meeting"]

  const IGNORE_TITLES: seq<string> := [
    "The Sustaining of Church Officers",
    "Sustaining of General Authorities, Area Seventies, and General Officers of the Church",
    "Sustaining of General Authorities, Area Seventies, and General Officers",
    "Solemn Assembly",
    "Church Auditing Department Report, 2017",
    "Ünnepélyes gyülekezet",
    "Az egyházi tisztségviselők támogatása",
    "Az Egyházi Könyvvizsgálói Osztály 2017. évi jelentése",
    "Az egyház általános felhatalmazottainak, területi hetveneseinek és általános tisztségviselőinek támogatása",
    "Az általános felhatalmazottak, területi hetvenesek és általános tisztségviselők támogatása"]

  // ----- Speaker names -----

  const BISHOP: string := " püspök"
  const ELDER: string := " elder"
  const PRESIDENT: string := " elnök"
  const SUBMITTED_BY: string := "Benyújtotta: "
  const NBSP: char := '\U{A0}'

  /** `if p in s: s = s.replace(p, '')` */
  function Drop(s: string, p: string): string
    requires p != []
  {
    if Contains(s, p) then Replace(s, p, "") else s
  }

  /** The guard changes nothing: removing an absent text is the identity. */
  lemma DropIsReplace(s: string, p: string)
    requires p != []
    ensures Drop(s, p) == Replace(s, p, "")
  {
    if !Contains(s, p) {
      ReplaceAbsent(s, p, "");
    }
  }

  /** The speaker name with the Hungarian titles, the `Submitted by` label and
      the no-break spaces taken out, in the order of lines 94-103. */
  function Normalize(name: string): string {
    var n := Drop(Drop(Drop(Drop(name, BISHOP), ELDER), PRESIDENT), SUBMITTED_BY);
    if Contains(n, [NBSP]) then Replace(n, [NBSP], " ") else n
  }

  /** No no-break space is left. */
  lemma NormalizeNoNbsp(name: string)
    ensures NBSP !in Normalize(name)
  {
    var n := Drop(Drop(Drop(Drop(name, BISHOP), ELDER), PRESIDENT), SUBMITTED_BY);
    ContainsChar(n, NBSP);
    ReplaceCharGone(n, NBSP, " ");
  }

  /** A name free of every mark. */
  predicate Unmarked(n: string) {
    !Contains(n, BISHOP) && !Contains(n, ELDER) && !Contains(n, PRESIDENT) &&
    !Contains(n, SUBMITTED_BY) && NBSP !in n
  }

  /** A plain name followed by one of the titles is the name. */
  lemma NormalizeDropsTitle(n: string, title: string)
    requires title == BISHOP || title == ELDER || title == PRESIDENT
    requires Unmarked(n)
    ensures Normalize(n + title) == n
  {
    TitleFacts();
    var b, e, p := BISHOP, ELDER, PRESIDENT;
    TitleGone(n, title, b, b, e, p);
    var s1 := Drop(n + title, b);
    assert s1 == if title == b then n else n + title;
    if title != b {
      TitleGone(n, title, e, b, e, p);
      if title != e {
        TitleGone(n, title, p, b, e, p);
      }
    }
    var s3 := Drop(Drop(s1, e), p);
    assert s3 == n;
    ReplaceAbsent(n, SUBMITTED_BY, "");
    ContainsChar(n, NBSP);
  }

  /** Three titles each opening with the only space it holds, and each free of
      the other two. */
  predicate Titles(b: string, e: string, p: string) {
    b != [] && e != [] && p != [] && b[0] == ' ' && e[0] == ' ' && p[0] == ' ' &&
    ' ' !in b[1..] && ' ' !in e[1..] && ' ' !in p[1..] &&
    !Contains(e, b) && !Contains(p, b) && !Contains(b, e) &&
    !Contains(p, e) && !Contains(b, p) && !Contains(e, p)
  }

  lemma TitleFacts()
    ensures Titles(BISHOP, ELDER, PRESIDENT)
  {
    FreeOf(ELDER, BISHOP, 1);
    FreeOf(PRESIDENT, BISHOP, 1);
    FreeOf(BISHOP, ELDER, 1);
    FreeOf(PRESIDENT, ELDER, 3);
    FreeOf(BISHOP, PRESIDENT, 1);
    FreeOf(ELDER, PRESIDENT, 3);
  }

  /** Removing the title `q` from `n + title`: it is taken off the end when it
      is `title`, and nothing happens otherwise. */
  lemma TitleGone(n: string, title: string, q: string, b: string, e: string, p: string)
    requires Titles(b, e, p)
    requires title == b || title == e || title == p
    requires q == b || q == e || q == p
    requires !Contains(n, q)
    ensures Drop(n + title, q) == if q == title then n else n + title
  {
    if q == title {
      OnlyAtEnd(n, q);
      ReplaceAtEnd(n, q, "");
      Infix(n, q, "");
      assert n + q + "" == n + q;
      assert n + "" == n;
    } else {
      assert !Contains(title, q);
      ConcatFree(n, title, q);
    }
  }

  /** A text without spaces, followed by one that opens with a space and holds
      no title, holds no title. */
  lemma SpacedFree(t: string, y: string, q: string)
    requires q != [] && q[0] == ' ' && ' ' !in q[1..]
    requires t != [] && ' ' !in t && y != [] && y[0] == ' ' && !Contains(y, q)
    ensures !Contains(t + y, q)
  {
    FreeOf(t, q, 0);
    ConcatFree(t, y, q);
  }

  /** `Submitted by: {n}` is `n`, for a name that holds no title even after a
      space and no other mark. */
  lemma NormalizeDropsSubmitter(n: string)
    requires !Contains(" " + n, BISHOP) && !Contains(" " + n, ELDER) && !Contains(" " + n, PRESIDENT)
    requires !Contains(n, SUBMITTED_BY) && NBSP !in n
    ensures Normalize(SUBMITTED_BY + n) == n
  {
    TitleFacts();
    var tag := SubmitterTag();
    SubmitterDropped(n, tag, SUBMITTED_BY, BISHOP, ELDER, PRESIDENT);
    ContainsChar(n, NBSP);
  }

  /** The label without its trailing space, which holds no other space. */
  function SubmitterTag(): (tag: string)
    ensures tag != [] && ' ' !in tag && SUBMITTED_BY == tag + " "
  {
    SUBMITTED_BY[..|SUBMITTED_BY| - 1]
  }

  /** The label `{tag} ` in front of a name is the only mark removed from it. */
  lemma SubmitterDropped(n: string, tag: string, sb: string, b: string, e: string, p: string)
    requires Titles(b, e, p) && sb == tag + " " && tag != [] && ' ' !in tag
    requires !Contains(" " + n, b) && !Contains(" " + n, e) && !Contains(" " + n, p) && !Contains(n, sb)
    ensures Drop(Drop(Drop(Drop(sb + n, b), e), p), sb) == n
  {
    var s := sb + n;
    assert s == tag + (" " + n);
    SpacedFree(tag, " " + n, b);
    SpacedFree(tag, " " + n, e);
    SpacedFree(tag, " " + n, p);
    assert Drop(Drop(Drop(s, b), e), p) == s;
    ReplaceFront(n, sb, "");
    ReplaceAbsent(n, sb, "");
    Infix("", sb, n);
    assert "" + sb + n == s;
  }

  /** What follows the no-break space in `{n}`, a no-break space and `elnök`
      holds no mark. */
  lemma NbspTailFree(y: string)
    requires y == [NBSP] + "elnök"
    ensures !Contains(y, BISHOP) && !Contains(y, ELDER) && !Contains(y, PRESIDENT) && !Contains(y, SUBMITTED_BY)
    ensures y[0] !in BISHOP[1..] && y[0] !in ELDER[1..] && y[0] !in PRESIDENT[1..] && y[0] !in SUBMITTED_BY[1..]
    ensures NBSP !in y[1..] && " " + y[1..] == PRESIDENT
  {
    FreeOf(y, BISHOP, 0);
    FreeOf(y, ELDER, 0);
    FreeOf(y, PRESIDENT, 0);
    FreeOf(y, SUBMITTED_BY, 0);
  }

  /** The no-break spaces are replaced last, so a title written after one is
      not removed: `{n}`, a no-break space and `elnök` become `{n} elnök`. */
  lemma NormalizeNbspLast(n: string)
    requires Unmarked(n)
    ensures Normalize(n + [NBSP] + "elnök") == n + PRESIDENT
  {
    var y := [NBSP] + "elnök";
    NbspTailFree(y);
    NbspKept(n, y, BISHOP, ELDER, PRESIDENT, SUBMITTED_BY);
    assert n + [NBSP] + "elnök" == n + y;
  }

  /** Marks that only appear across the no-break space stay, and the space is
      then made plain. */
  lemma NbspKept(n: string, y: string, b: string, e: string, p: string, sb: string)
    requires b != [] && e != [] && p != [] && sb != []
    requires !Contains(n, b) && !Contains(n, e) && !Contains(n, p) && !Contains(n, sb) && NBSP !in n
    requires !Contains(y, b) && !Contains(y, e) && !Contains(y, p) && !Contains(y, sb)
    requires y != [] && y[0] == NBSP && y[0] !in b[1..] && y[0] !in e[1..] && y[0] !in p[1..] && y[0] !in sb[1..]
    requires NBSP !in y[1..]
    ensures var d := Drop(Drop(Drop(Drop(n + y, b), e), p), sb);
      d == n + y && Contains(d, [NBSP]) && Replace(d, [NBSP], " ") == n + (" " + y[1..])
  {
    var s := n + y;
    ConcatFree(n, y, b);
    ConcatFree(n, y, e);
    ConcatFree(n, y, p);
    ConcatFree(n, y, sb);
    assert Drop(Drop(Drop(Drop(s, b), e), p), sb) == s;
    ReplaceSkip(n, y, [NBSP], " ");
    assert y == [NBSP] + y[1..];
    ReplaceFront(y[1..], [NBSP], " ");
    ContainsChar(y[1..], NBSP);
    ReplaceAbsent(y[1..], [NBSP], " ");
    ContainsChar(s, NBSP);
    assert s[|n|] == NBSP;
  }

  // ----- `get_slugs` -----

  /** What unpacking the paragraph texts into `title, speaker_name` raises. */
  function UnpackError(n: nat): PyError {
    if n < 2 then ValueError("not enough values to unpack (expected 2, got " + NatToString(n) + ")")
    else ValueError("too many values to unpack (expected 2)")
  }

  /** An item is kept when its title is not ignored and its speaker, once the
      name is normalised, is an apostle. */
  predicate Kept(title: string, speaker: string) {
    title !in IGNORE_TITLES && Normalize(speaker) in APOSTLES
  }

  /** The slugs one item adds: its own or none, or the ValueError of an item
      without exactly two paragraphs. */
  function ItemSlugs(item: Item): Result<seq<string>> {
    if |item.paragraphs| != 2 then Err(UnpackError(|item.paragraphs|))
    else if Kept(item.paragraphs[0], item.paragraphs[1]) then Ok([CrSlug(item.link)])
    else Ok([])
  }

  /** The slugs one section adds; an ignored section is not looked into. */
  function SectionSlugs(section: Section): Result<seq<string>> {
    if section.title in IGNORE_SECTIONS then Ok([]) else CollectAll(ItemSlugs, section.items)
  }

  /** The return value of `get_slugs`, or the exception it raises. */
  function Slugs(sections: seq<Section>): Result<seq<string>> {
    CollectAll(SectionSlugs, sections)
  }

  /** `get_slugs` over the parsed table of contents. */
  method GetSlugs(sections: seq<Section>) returns (r: Result<seq<string>>)
    ensures r == Slugs(sections)
  {
    var slugs: seq<string> := [];
    assert sections[0..] == sections;
    PrependEmpty(Slugs(sections));
    for i := 0 to |sections|
      invariant Slugs(sections) == Prepend(slugs, CollectAll(SectionSlugs, sections[i..]))
    {
      var section := sections[i];
      var after := CollectAll(SectionSlugs, sections[i + 1..]);
      assert sections[i..][1..] == sections[i + 1..];
      if section.title !in IGNORE_SECTIONS {
        var items := section.items;
        assert items[0..] == items;
        for j := 0 to |items|
          invariant Slugs(sections) == Prepend(slugs, Then(CollectAll(ItemSlugs, items[j..]), after))
        {
          var item := items[j];
          assert items[j..][1..] == items[j + 1..];
          ThenAssoc(ItemSlugs(item), CollectAll(ItemSlugs, items[j + 1..]), after);
          var slug := CrSlug(item.link);
          if |item.paragraphs| != 2 {
            return Err(UnpackError(|item.paragraphs|));
          }
          var title, speakerName := item.paragraphs[0], item.paragraphs[1];
          if title !in IGNORE_TITLES {
            speakerName := Normalize(speakerName);
            if speakerName in APOSTLES {
              PrependPrepend(slugs, [slug], Then(CollectAll(ItemSlugs, items[j + 1..]), after));
              slugs := slugs + [slug];
            } else {
              PrependPrepend(slugs, [], Then(CollectAll(ItemSlugs, items[j + 1..]), after));
              assert slugs + [] == slugs;
            }
          } else {
            PrependPrepend(slugs, [], Then(CollectAll(ItemSlugs, items[j + 1..]), after));
            assert slugs + [] == slugs;
          }
        }
        assert items[|items|..] == [];
      }
      ThenUnit(after);
    }
    assert sections[|sections|..] == [];
    assert slugs + [] == slugs;
    return Ok(slugs);
  }

  /** The table of contents is read to the end exactly when every item of a
      section that is not ignored has two paragraphs. */
  lemma SlugsFail(sections: seq<Section>)
    ensures Slugs(sections).Ok? <==>
      forall i, j :: 0 <= i < |sections| && sections[i].title !in IGNORE_SECTIONS && 0 <= j < |sections[i].items| ==>
        |sections[i].items[j].paragraphs| == 2
  {
    CollectAllOk(SectionSlugs, sections);
    forall i | 0 <= i < |sections|
      ensures SectionSlugs(sections[i]).Ok? <==>
        (sections[i].title !in IGNORE_SECTIONS ==>
          forall j :: 0 <= j < |sections[i].items| ==> |sections[i].items[j].paragraphs| == 2)
    {
      CollectAllOk(ItemSlugs, sections[i].items);
    }
  }

  /** The slugs returned are those of the kept items of the sections that are
      not ignored, and no others. */
  lemma SlugsMember(sections: seq<Section>, slug: string)
    requires Slugs(sections).Ok?
    ensures slug in Slugs(sections).value <==>
      exists i, j :: 0 <= i < |sections| && sections[i].title !in IGNORE_SECTIONS && 0 <= j < |sections[i].items| &&
        |sections[i].items[j].paragraphs| == 2 &&
        Kept(sections[i].items[j].paragraphs[0], sections[i].items[j].paragraphs[1]) &&
        CrSlug(sections[i].items[j].link) == slug
  {
    CollectAllMember(SectionSlugs, sections, slug);
    CollectAllOk(SectionSlugs, sections);
    forall i | 0 <= i < |sections| && sections[i].title !in IGNORE_SECTIONS
      ensures slug in SectionSlugs(sections[i]).value <==>
        exists j :: 0 <= j < |sections[i].items| && |sections[i].items[j].paragraphs| == 2 &&
          Kept(sections[i].items[j].paragraphs[0], sections[i].items[j].paragraphs[1]) &&
          CrSlug(sections[i].items[j].link) == slug
    {
      CollectAllMember(ItemSlugs, sections[i].items, slug);
    }
  }

  /** Document order: the slugs of earlier sections come first. */
  lemma SlugsInOrder(a: seq<Section>, b: seq<Section>)
    ensures Slugs(a + b) == Then(Slugs(a), Slugs(b))
  {
    CollectAllAppend(SectionSlugs, a, b);
  }

  /** Within a section, the slugs of earlier items come first. */
  lemma SectionInOrder(title: string, a: seq<Item>, b: seq<Item>)
    requires title !in IGNORE_SECTIONS
    ensures SectionSlugs(Section(title, a + b)) == Then(SectionSlugs(Section(title, a)), SectionSlugs(Section(title, b)))
  {
    CollectAllAppend(ItemSlugs, a, b);
  }

  // ----- `download_talks` -----

  /** `FILEPATH_HTML`: the html folder of the conference and language. */
  function HtmlPath(year: string, month: string, lang: string, slug: string): string {
    year + "/" + month + "/" + lang + "/html/" + slug + ".html"
  }

  /** `download_talks`: each slug's page, saved under its html path, in slug
      order; the result is the list of those paths. `fetch(slug)` stands for
      the page's text as `str(soup)` renders it. */
  method DownloadTalks(slugs: seq<string>, year: string, month: string, lang: string, fetch: string -> string)
    returns (files: seq<File>, paths: seq<string>)
    ensures files == MapSeq(s => File(HtmlPath(year, month, lang, s), fetch(s)), slugs)
    ensures paths == MapSeq(s => HtmlPath(year, month, lang, s), slugs)
    ensures |files| == |paths| == |slugs|
    ensures forall k :: 0 <= k < |slugs| ==>
      paths[k] == HtmlPath(year, month, lang, slugs[k]) &&
      files[k] == File(paths[k], fetch(slugs[k]))
  {
    var path := s => HtmlPath(year, month, lang, s);
    var save := s => File(HtmlPath(year, month, lang, s), fetch(s));
    files, paths := [], [];
    for i := 0 to |slugs|
      invariant files == MapSeq(save, slugs[..i])
      invariant paths == MapSeq(path, slugs[..i])
    {
      assert slugs[..i + 1][..i] == slugs[..i];
      var filename := HtmlPath(year, month, lang, slugs[i]);
      paths := paths + [filename];
      files := files + [File(filename, fetch(slugs[i]))];
    }
    assert slugs[..|slugs|] == slugs;
    MapSeqAt(path, slugs);
    MapSeqAt(save, slugs);
  }

  /** A page saved by `download_talks` is the one cr/converter.py turns into
      `{slug}.md` in the md folder, for a slug without a dot. */
  lemma SavedPageConverts(year: string, month: string, lang: string, link: string)
    requires '.' !in CrSlug(link)
    ensures Converter.MdPath(year, month, lang, HtmlPath(year, month, lang, CrSlug(link)))
         == Converter.MdDir(year, month, lang) + CrSlug(link) + ".md"
  {
    var slug := CrSlug(link);
    assert HtmlPath(year, month, lang, slug) == Converter.HtmlDir(year, month, lang) + slug + ".html";
    Converter.MdPathOfHtml(year, month, lang, slug);
  }
}
