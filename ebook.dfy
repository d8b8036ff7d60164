/** `create` of gc/ebook.py: from a year, a month, a list of language codes and
    a list of `(talk_path, author, title)` talks it writes the files of an EPUB
    (mimetype, container, package document, navigation document, title page and
    one part page per language). File writes are modelled as the list of files
    written, in order, and the exception that ends the run, if any; the fresh
    `uuid4()` and `date.today()` are parameters (their `str` forms). */
module Ebook {
  import opened Wrappers
  import opened Seqs
  import opened PyStr
  import opened Templates

  // ----- Inputs and lookup tables -----

  /** A talk as `create` receives it: `(talk_path, author, title)`. */
  datatype Talk = Talk(path: string, author: string, title: string)

  /** `str(talk)`: Python's rendering of the whole tuple, which is what the
      manifest item receives as `filename`. */
  function TalkStr(t: Talk): string {
    TupleRepr([t.path, t.author, t.title])
  }

  /** `LANGS_FULL` */
  const LANGS_FULL: map<string, string> := map["eng" := "English", "hun" := "Hungarian"]

  /** `MONTHS` */
  const MONTHS: map<string, string> := map["04" := "April", "10" := "October"]

  /** The exception `talk_parts[k]` raises for a missing field. */
  const INDEX_ERROR: PyError := IndexError("list index out of range")

  // ----- Output paths -----

  /** `CR_PATH` filled in: the book's root directory. */
  function CrPath(year: string, month: string): string {
    year + "/" + month + "/cr/"
  }

  function MimetypePath(year: string, month: string): string {
    CrPath(year, month) + "mimetype"
  }

  function ContainerPath(year: string, month: string): string {
    CrPath(year, month) + "META-INF/container.xml"
  }

  function PackagePath(year: string, month: string): string {
    CrPath(year, month) + "EPUB/package.opf"
  }

  function NavPath(year: string, month: string): string {
    CrPath(year, month) + "EPUB/xhtml/nav.xhtml"
  }

  function TitlePath(year: string, month: string): string {
    CrPath(year, month) + "EPUB/xhtml/title.xhtml"
  }

  function LangPath(year: string, month: string, lang: string): string {
    CrPath(year, month) + "EPUB/xhtml/" + lang + ".xhtml"
  }

  // ----- The file id of a talk -----

  /** `talk_path.split('_')` has the fields 3, 4 and 6 that the id reads. */
  predicate HasIdFields(path: string) {
    |Split(path, "_")| >= 7
  }

  /** `'{}-{}-{}-{}'.format(lang, talk_parts[3], talk_parts[4], talk_parts[6])`,
      or the `IndexError` of a path with fewer than seven `_`-separated fields. */
  function FileId(lang: string, path: string): (r: Result<string>)
    ensures r.Ok? <==> HasIdFields(path)
    ensures r.Err? ==> r.error == INDEX_ERROR
    ensures r.Ok? ==> |r.value| > |lang| && r.value[..|lang| + 1] == lang + "-"
  {
    var p := Split(path, "_");
    if |p| < 7 then Err(INDEX_ERROR)
    else
      var id := lang + "-" + p[3] + "-" + p[4] + "-" + p[6];
      assert id == (lang + "-") + (p[3] + "-" + p[4] + "-" + p[6]);
      Ok(id)
  }

  /** Every talk path has the fields the id reads. */
  predicate PathsOk(talks: seq<Talk>) {
    forall k :: 0 <= k < |talks| ==> HasIdFields(talks[k].path)
  }

  /** The id of a talk whose path has its fields. */
  function TalkId(lang: string, t: Talk): string
    requires HasIdFields(t.path)
  {
    FileId(lang, t.path).value
  }

  // ----- Manifest items, spine references and navigation links -----

  /** A manifest item: a language's part page, or one talk in one language. */
  datatype Item = PartItem(lang: string) | TalkItem(lang: string, filename: string, fileid: string)
  {
    /** The `href` the item's snippet declares. */
    function Href(): string {
      match this
      case PartItem(l) => "xhtml/" + l + ".xhtml"
      case TalkItem(l, f, _) => "xhtml/" + l + "/" + f
    }

    /** The `id` the item's snippet declares. */
    function Id(): string {
      match this
      case PartItem(l) => l
      case TalkItem(_, _, id) => id
    }

    /** The snippet appended to `items`. */
    function Xml(): string {
      match this
      case PartItem(l) => PackageItemLangPart(l)
      case TalkItem(l, f, id) => PackageItemLang(l, f, id)
    }
  }

  /** A spine reference: to a language's part page or to one talk. */
  datatype ItemRef = PartRef(lang: string) | TalkRef(fileid: string)
  {
    /** The `idref` the reference's snippet declares. */
    function Idref(): string {
      match this
      case PartRef(l) => l
      case TalkRef(id) => id
    }

    /** The snippet appended to `refs`. */
    function Xml(): string {
      match this
      case PartRef(l) => PackageRefLangPart(l)
      case TalkRef(id) => PackageRefLang(id)
    }
  }

  /** A talk's entry in the table of contents. */
  datatype NavLink = NavLink(lang: string, filename: string, author: string, title: string)
  {
    /** The link target, relative to the navigation document. */
    function Href(): string {
      lang + "/" + filename
    }

    /** The `NAV_TALK` snippet. */
    function Xml(): string {
      NavTalk(lang, filename, author, title)
    }
  }

  /** The link target of a language's entry in the table of contents. */
  function NavLangHref(lang: string): string {
    lang + ".xhtml"
  }

  /** The snippets of the items, in order. */
  function ItemXmls(items: seq<Item>): (r: seq<string>)
    ensures |r| == |items| && forall k :: 0 <= k < |items| ==> r[k] == items[k].Xml()
  {
    var xml := (x: Item) => x.Xml();
    MapSeqAt(xml, items);
    MapSeq(xml, items)
  }

  /** The snippets of the itemrefs, in order. */
  function RefXmls(refs: seq<ItemRef>): (r: seq<string>)
    ensures |r| == |refs| && forall k :: 0 <= k < |refs| ==> r[k] == refs[k].Xml()
  {
    var xml := (x: ItemRef) => x.Xml();
    MapSeqAt(xml, refs);
    MapSeq(xml, refs)
  }

  /** The snippets of the table of contents links, in order. */
  function LinkXmls(links: seq<NavLink>): (r: seq<string>)
    ensures |r| == |links| && forall k :: 0 <= k < |links| ==> r[k] == links[k].Xml()
  {
    var xml := (x: NavLink) => x.Xml();
    MapSeqAt(xml, links);
    MapSeq(xml, links)
  }

  // ----- What the loops build -----

  /** The item of talk `t` in language `lang`. */
  function TalkItemOf(lang: string, t: Talk): Item
    requires HasIdFields(t.path)
  {
    TalkItem(lang, TalkStr(t), TalkId(lang, t))
  }

  /** The items of the talks in language `lang`, in talk order. */
  function TalkItems(lang: string, talks: seq<Talk>): (r: seq<Item>)
    requires PathsOk(talks)
    ensures |r| == |talks| && forall j :: 0 <= j < |talks| ==> r[j] == TalkItemOf(lang, talks[j])
  {
    seq(|talks|, j requires 0 <= j < |talks| => TalkItemOf(lang, talks[j]))
  }

  /** One pass of the outer loop over `items`: the part item, then the talks. */
  function LangItems(lang: string, talks: seq<Talk>): seq<Item>
    requires PathsOk(talks)
  {
    [PartItem(lang)] + TalkItems(lang, talks)
  }

  /** The ids exist: there are no languages, or every path has its fields. */
  predicate IdsDefined(langs: seq<string>, talks: seq<Talk>) {
    langs == [] || PathsOk(talks)
  }

  /** The generated manifest items, language by language. */
  function Manifest(langs: seq<string>, talks: seq<Talk>): seq<Item>
    requires IdsDefined(langs, talks)
  {
    Flatten(seq(|langs|, i requires 0 <= i < |langs| => LangItems(langs[i], talks)))
  }

  /** The two references the inner loop appends for talk `t`. */
  function TalkRefPair(lang: string, t: Talk): seq<ItemRef>
    requires HasIdFields(t.path)
  {
    [PartRef(lang), TalkRef(TalkId(lang, t))]
  }

  /** One pass of the outer loop over `refs`: two references per talk. */
  function LangRefs(lang: string, talks: seq<Talk>): seq<ItemRef>
    requires PathsOk(talks)
  {
    Flatten(seq(|talks|, j requires 0 <= j < |talks| => TalkRefPair(lang, talks[j])))
  }

  /** The generated spine references, language by language. */
  function Spine(langs: seq<string>, talks: seq<Talk>): seq<ItemRef>
    requires IdsDefined(langs, talks)
  {
    Flatten(seq(|langs|, i requires 0 <= i < |langs| => LangRefs(langs[i], talks)))
  }

  /** The navigation entry of talk `t` in language `lang`: its link names the
      last `/`-segment of the talk path. */
  function NavLinkOf(lang: string, t: Talk): NavLink {
    NavLink(lang, Basename(t.path), t.author, t.title)
  }

  /** `nav_talk_items` for language `lang`. */
  function NavLinks(lang: string, talks: seq<Talk>): (r: seq<NavLink>)
    ensures |r| == |talks| && forall j :: 0 <= j < |talks| ==> r[j] == NavLinkOf(lang, talks[j])
  {
    seq(|talks|, j requires 0 <= j < |talks| => NavLinkOf(lang, talks[j]))
  }

  /** Every language has a full name. */
  predicate KnownLangs(langs: seq<string>) {
    forall i :: 0 <= i < |langs| ==> langs[i] in LANGS_FULL
  }

  /** The first language without a full name, which `LANGS_FULL[lang]` fails on. */
  function FirstUnknownLang(langs: seq<string>): Option<string> {
    if langs == [] then None
    else if langs[0] !in LANGS_FULL then Some(langs[0])
    else FirstUnknownLang(langs[1..])
  }

  /** The `NAV_LANG` entry of a language holding its talks' entries. */
  function NavLangXml(lang: string, talks: seq<Talk>): string
    requires lang in LANGS_FULL
  {
    NavLang(lang, LANGS_FULL[lang], Join("", LinkXmls(NavLinks(lang, talks))))
  }

  /** `nav_langs`. */
  function NavLangs(langs: seq<string>, talks: seq<Talk>): (r: seq<string>)
    requires KnownLangs(langs)
    ensures |r| == |langs| && forall i :: 0 <= i < |langs| ==> r[i] == NavLangXml(langs[i], talks)
  {
    seq(|langs|, i requires 0 <= i < |langs| => NavLangXml(langs[i], talks))
  }

  // ----- The files written -----

  /** What a written file holds: the snippet of gc/templates.py it is, with the
      arguments its `str.format` call receives. `Text` renders it. */
  datatype Doc =
    | MimetypeDoc
    | ContainerDoc
    | PackageDoc(uuid: string, month: string, year: string, date: string, items: string, refs: string)
    | NavDoc(monthName: string, year: string, contents: string)
    | TitleDoc(monthName: string, year: string)
    | LangPartDoc(language: string)
  {
    /** The text written. */
    function Text(): string {
      match this
      case MimetypeDoc => MIMETYPE
      case ContainerDoc => CONTAINER
      case PackageDoc(u, m, y, d, i, r) => Package(u, m, y, d, i, r)
      case NavDoc(m, y, c) => Nav(m, y, c)
      case TitleDoc(m, y) => TitlePage(m, y)
      case LangPartDoc(l) => LangPart(l)
    }
  }

  /** A file written by `create`: its path and what it holds. */
  datatype Output = Output(path: string, doc: Doc)

  /** The package document's arguments: `items` and `refs` are the joined
      snippets of the manifest items and spine references. */
  function PackageOf(month: string, year: string, langs: seq<string>, talks: seq<Talk>, uuid: string, today: string): Doc
    requires IdsDefined(langs, talks)
  {
    PackageDoc(uuid, month, year, today, Join("", ItemXmls(Manifest(langs, talks))), Join("", RefXmls(Spine(langs, talks))))
  }

  /** The part pages, one per language, in order. */
  function LangPartFiles(year: string, month: string, langs: seq<string>): (r: seq<Output>)
    requires KnownLangs(langs)
    ensures |r| == |langs|
    ensures forall i :: 0 <= i < |langs| ==> r[i] == Output(LangPath(year, month, langs[i]), LangPartDoc(LANGS_FULL[langs[i]]))
  {
    seq(|langs|, i requires 0 <= i < |langs| => Output(LangPath(year, month, langs[i]), LangPartDoc(LANGS_FULL[langs[i]])))
  }

  /** The mimetype file and the container, written before anything can fail. */
  function FixedFiles(year: string, month: string): seq<Output> {
    [Output(MimetypePath(year, month), MimetypeDoc), Output(ContainerPath(year, month), ContainerDoc)]
  }

  /** The navigation document, the title page and the part pages, written once
      every lookup has succeeded. */
  function LaterFiles(year: string, month: string, langs: seq<string>, talks: seq<Talk>): seq<Output>
    requires KnownLangs(langs) && month in MONTHS
  {
    [Output(NavPath(year, month), NavDoc(MONTHS[month], year, Join("", NavLangs(langs, talks)))),
     Output(TitlePath(year, month), TitleDoc(MONTHS[month], year))]
    + LangPartFiles(year, month, langs)
  }

  /** What lines 90-130 write, and how they end: `KeyError` for the first
      unknown language, then for an unknown month. */
  function NavRun(year: string, month: string, langs: seq<string>, talks: seq<Talk>): Run<Output> {
    match FirstUnknownLang(langs)
    case Some(l) => Run([], Some(KeyError(l)))
    case None =>
      if month !in MONTHS then Run([], Some(KeyError(month)))
      else
        FirstUnknownNone(langs);
        Run(LaterFiles(year, month, langs, talks), None)
  }

  /** What a call `create(year, month, languages, talks)` writes, and how it ends. */
  function CreateRun(year: string, month: string, langs: seq<string>, talks: seq<Talk>, uuid: string, today: string): Run<Output> {
    if !IdsDefined(langs, talks) then Run(FixedFiles(year, month), Some(INDEX_ERROR))
    else
      var later := NavRun(year, month, langs, talks);
      Run(FixedFiles(year, month) + [Output(PackagePath(year, month), PackageOf(month, year, langs, talks, uuid, today))] + later.written, later.error)
  }

  /** `FirstUnknownLang` finds nothing exactly when every language is known. */
  lemma {:induction false} FirstUnknownNone(langs: seq<string>)
    ensures FirstUnknownLang(langs).None? <==> KnownLangs(langs)
  {
    if langs != [] {
      FirstUnknownNone(langs[1..]);
      assert forall i :: 1 <= i < |langs| ==> langs[i] == langs[1..][i - 1];
    }
  }

  // ----- The loops of `create` -----

  /** Lines 62-75: the outer loop over the languages, appending each language's
      part item snippet to `items` and then what the loop over the talks
      appends; `IndexError` for a talk path without the fields of its id. */
  method BuildPackageLists(langs: seq<string>, talks: seq<Talk>) returns (r: Result<(seq<string>, seq<string>)>)
    ensures !IdsDefined(langs, talks) ==> r == Err(INDEX_ERROR)
    ensures IdsDefined(langs, talks) ==> r == Ok((ItemXmls(Manifest(langs, talks)), RefXmls(Spine(langs, talks))))
  {
    var items: seq<string> := [];
    var refs: seq<string> := [];
    for i := 0 to |langs|
      invariant i > 0 ==> PathsOk(talks)
      invariant items == ItemXmls(Manifest(langs[..i], talks))
      invariant refs == RefXmls(Spine(langs[..i], talks))
    {
      var lang := langs[i];
      items := items + [PackageItemLangPart(lang)];
      var appended := BuildTalkLists(lang, talks);
      if appended.Err? {
        return Err(appended.error);
      }
      items := items + appended.value.0;
      refs := refs + appended.value.1;
      ManifestStep(langs, talks, i);
      SpineStep(langs, talks, i);
    }
    assert langs[..|langs|] == langs;
    return Ok((items, refs));
  }

  /** Lines 68-75: the loop over the talks for language `lang`, returning the
      item snippets and the reference snippets it appends to `items` and `refs`. */
  method BuildTalkLists(lang: string, talks: seq<Talk>) returns (r: Result<(seq<string>, seq<string>)>)
    ensures !PathsOk(talks) ==> r == Err(INDEX_ERROR)
    ensures PathsOk(talks) ==> r == Ok((ItemXmls(TalkItems(lang, talks)), RefXmls(LangRefs(lang, talks))))
  {
    var items: seq<string> := [];
    var refs: seq<string> := [];
    for j := 0 to |talks|
      invariant PathsOk(talks[..j])
      invariant items == ItemXmls(TalkItems(lang, talks[..j]))
      invariant refs == RefXmls(LangRefs(lang, talks[..j]))
    {
      var fileid := FileId(lang, talks[j].path);
      if fileid.Err? {
        return Err(fileid.error);
      }
      items := items + [PackageItemLang(lang, TalkStr(talks[j]), fileid.value)];
      refs := refs + [PackageRefLangPart(lang), PackageRefLang(fileid.value)];
      PathsOkStep(talks, j);
      TalkItemsStep(lang, talks, j);
      LangRefsStep(lang, talks, j);
    }
    assert talks[..|talks|] == talks;
    return Ok((items, refs));
  }

  lemma ItemXmlsAppend(a: seq<Item>, b: seq<Item>)
    ensures ItemXmls(a + b) == ItemXmls(a) + ItemXmls(b)
  {
    var r, ra, rb := ItemXmls(a + b), ItemXmls(a), ItemXmls(b);
    forall k | 0 <= k < |a + b|
      ensures r[k] == (ra + rb)[k]
    {
      if k < |a| {
        assert (a + b)[k] == a[k];
      } else {
        assert (a + b)[k] == b[k - |a|];
      }
    }
    assert r == ra + rb;
  }

  lemma RefXmlsAppend(a: seq<ItemRef>, b: seq<ItemRef>)
    ensures RefXmls(a + b) == RefXmls(a) + RefXmls(b)
  {
    var r, ra, rb := RefXmls(a + b), RefXmls(a), RefXmls(b);
    forall k | 0 <= k < |a + b|
      ensures r[k] == (ra + rb)[k]
    {
      if k < |a| {
        assert (a + b)[k] == a[k];
      } else {
        assert (a + b)[k] == b[k - |a|];
      }
    }
    assert r == ra + rb;
  }

  lemma PathsOkStep(talks: seq<Talk>, j: nat)
    requires j < |talks| && PathsOk(talks[..j]) && HasIdFields(talks[j].path)
    ensures PathsOk(talks[..j + 1])
  {
    assert forall k :: 0 <= k < j ==> talks[..j + 1][k] == talks[..j][k];
  }

  /** One more talk appends its item. */
  lemma TalkItemsStep(lang: string, talks: seq<Talk>, j: nat)
    requires j < |talks| && PathsOk(talks[..j]) && HasIdFields(talks[j].path) && PathsOk(talks[..j + 1])
    ensures ItemXmls(TalkItems(lang, talks[..j + 1])) == ItemXmls(TalkItems(lang, talks[..j])) + [PackageItemLang(lang, TalkStr(talks[j]), TalkId(lang, talks[j]))]
  {
    assert talks[..j + 1] == talks[..j] + [talks[j]];
    assert TalkItems(lang, talks[..j + 1]) == TalkItems(lang, talks[..j]) + [TalkItemOf(lang, talks[j])];
    ItemXmlsAppend(TalkItems(lang, talks[..j]), [TalkItemOf(lang, talks[j])]);
  }

  /** One more talk appends its two references. */
  lemma LangRefsStep(lang: string, talks: seq<Talk>, j: nat)
    requires j < |talks| && PathsOk(talks[..j]) && HasIdFields(talks[j].path) && PathsOk(talks[..j + 1])
    ensures RefXmls(LangRefs(lang, talks[..j + 1])) == RefXmls(LangRefs(lang, talks[..j])) + [PackageRefLangPart(lang), PackageRefLang(TalkId(lang, talks[j]))]
  {
    assert talks[..j + 1] == talks[..j] + [talks[j]];
    var pairs := seq(j, k requires 0 <= k < j => TalkRefPair(lang, talks[..j][k]));
    assert seq(j + 1, k requires 0 <= k < j + 1 => TalkRefPair(lang, talks[..j + 1][k])) == pairs + [TalkRefPair(lang, talks[j])];
    FlattenSnoc(pairs, TalkRefPair(lang, talks[j]));
    RefXmlsAppend(LangRefs(lang, talks[..j]), TalkRefPair(lang, talks[j]));
  }

  /** One more language appends its part item and its talk items. */
  lemma ManifestStep(langs: seq<string>, talks: seq<Talk>, i: nat)
    requires i < |langs| && PathsOk(talks)
    ensures ItemXmls(Manifest(langs[..i + 1], talks)) == ItemXmls(Manifest(langs[..i], talks)) + [PackageItemLangPart(langs[i])] + ItemXmls(TalkItems(langs[i], talks))
  {
    var blocks := seq(i, k requires 0 <= k < i => LangItems(langs[..i][k], talks));
    assert seq(i + 1, k requires 0 <= k < i + 1 => LangItems(langs[..i + 1][k], talks)) == blocks + [LangItems(langs[i], talks)];
    FlattenSnoc(blocks, LangItems(langs[i], talks));
    ItemXmlsAppend(Manifest(langs[..i], talks), LangItems(langs[i], talks));
    ItemXmlsAppend([PartItem(langs[i])], TalkItems(langs[i], talks));
  }

  /** One more language appends its references. */
  lemma SpineStep(langs: seq<string>, talks: seq<Talk>, i: nat)
    requires i < |langs| && PathsOk(talks)
    ensures RefXmls(Spine(langs[..i + 1], talks)) == RefXmls(Spine(langs[..i], talks)) + RefXmls(LangRefs(langs[i], talks))
  {
    var blocks := seq(i, k requires 0 <= k < i => LangRefs(langs[..i][k], talks));
    assert seq(i + 1, k requires 0 <= k < i + 1 => LangRefs(langs[..i + 1][k], talks)) == blocks + [LangRefs(langs[i], talks)];
    FlattenSnoc(blocks, LangRefs(langs[i], talks));
    RefXmlsAppend(Spine(langs[..i], talks), LangRefs(langs[i], talks));
  }

  /** Lines 93-107: the loop over the languages building `nav_langs`, each
      entry holding what the loop over the talks builds; `KeyError` for the
      first language `LANGS_FULL` does not know. */
  method BuildNavLangs(langs: seq<string>, talks: seq<Talk>) returns (r: Result<seq<string>>)
    ensures FirstUnknownLang(langs).Some? ==> r == Err(KeyError(FirstUnknownLang(langs).value))
    ensures FirstUnknownLang(langs).None? ==> KnownLangs(langs) && r == Ok(NavLangs(langs, talks))
  {
    var navLangs: seq<string> := [];
    for i := 0 to |langs|
      invariant KnownLangs(langs[..i])
      invariant navLangs == NavLangs(langs[..i], talks)
    {
      var lang := langs[i];
      var navTalkItems := BuildNavTalks(lang, talks);
      if lang !in LANGS_FULL {
        FirstUnknownAt(langs, i);
        return Err(KeyError(lang));
      }
      var langNameFull := LANGS_FULL[lang];
      navLangs := navLangs + [NavLang(lang, langNameFull, Join("", navTalkItems))];
      NavLangsStep(langs, talks, i);
    }
    assert langs[..|langs|] == langs;
    FirstUnknownNone(langs);
    return Ok(navLangs);
  }

  /** Lines 95-105: the loop over the talks building `nav_talk_items` for
      language `lang`. */
  method BuildNavTalks(lang: string, talks: seq<Talk>) returns (navTalkItems: seq<string>)
    ensures navTalkItems == LinkXmls(NavLinks(lang, talks))
  {
    navTalkItems := [];
    for j := 0 to |talks|
      invariant navTalkItems == LinkXmls(NavLinks(lang, talks[..j]))
    {
      var talk := talks[j];
      var filename := Basename(talk.path);
      navTalkItems := navTalkItems + [NavTalk(lang, filename, talk.author, talk.title)];
      NavLinksStep(lang, talks, j);
    }
    assert talks[..|talks|] == talks;
  }

  /** Lines 123-130: the loop writing one part page per language. Every
      language is known by then: the navigation loop has looked each up. */
  method WriteLangParts(year: string, month: string, langs: seq<string>) returns (written: seq<Output>)
    requires KnownLangs(langs)
    ensures written == LangPartFiles(year, month, langs)
  {
    written := [];
    for i := 0 to |langs|
      invariant written == LangPartFiles(year, month, langs[..i])
    {
      var lang := langs[i];
      var langPartPath := LangPath(year, month, lang);
      var langNameFull := LANGS_FULL[lang];
      written := written + [Output(langPartPath, LangPartDoc(langNameFull))];
      assert langs[..i + 1][..i] == langs[..i];
    }
    assert langs[..|langs|] == langs;
  }

  /** `create(year, month, languages, talks)`, lines 45-130, with `uuid` and
      `today` standing for `str(uuid.uuid4())` and `str(date.today())`. */
  method Create(year: string, month: string, langs: seq<string>, talks: seq<Talk>, uuid: string, today: string) returns (r: Run<Output>)
    ensures r == CreateRun(year, month, langs, talks, uuid, today)
  {
    var written := [Output(MimetypePath(year, month), MimetypeDoc)];
    written := written + [Output(ContainerPath(year, month), ContainerDoc)];
    var lists := BuildPackageLists(langs, talks);
    if lists.Err? {
      return Run(written, Some(lists.error));
    }
    var items, refs := lists.value.0, lists.value.1;
    written := written + [Output(PackagePath(year, month), PackageDoc(uuid, month, year, today, Join("", items), Join("", refs)))];
    var later := WriteNavTitleParts(year, month, langs, talks);
    return Run(written + later.written, later.error);
  }

  /** Lines 90-130: the navigation document, the title page and the part pages. */
  method WriteNavTitleParts(year: string, month: string, langs: seq<string>, talks: seq<Talk>) returns (r: Run<Output>)
    ensures r == NavRun(year, month, langs, talks)
  {
    var navLangs := BuildNavLangs(langs, talks);
    if navLangs.Err? {
      return Run([], Some(navLangs.error));
    }
    if month !in MONTHS {
      return Run([], Some(KeyError(month)));
    }
    var written := [Output(NavPath(year, month), NavDoc(MONTHS[month], year, Join("", navLangs.value)))];
    written := written + [Output(TitlePath(year, month), TitleDoc(MONTHS[month], year))];
    var parts := WriteLangParts(year, month, langs);
    return Run(written + parts, None);
  }

  /** The first unknown language is the one after a known prefix. */
  lemma {:induction false} FirstUnknownAt(langs: seq<string>, i: nat)
    requires i < |langs| && KnownLangs(langs[..i]) && langs[i] !in LANGS_FULL
    ensures FirstUnknownLang(langs) == Some(langs[i])
  {
    if i > 0 {
      assert langs[0] == langs[..i][0];
      assert langs[1..][..i - 1] == langs[..i][1..];
      FirstUnknownAt(langs[1..], i - 1);
    }
  }

  lemma NavLangsStep(langs: seq<string>, talks: seq<Talk>, i: nat)
    requires i < |langs| && KnownLangs(langs[..i]) && langs[i] in LANGS_FULL
    ensures KnownLangs(langs[..i + 1])
    ensures NavLangs(langs[..i + 1], talks) == NavLangs(langs[..i], talks) + [NavLangXml(langs[i], talks)]
  {
    assert forall k :: 0 <= k < i ==> langs[..i + 1][k] == langs[..i][k];
  }

  lemma NavLinksStep(lang: string, talks: seq<Talk>, j: nat)
    requires j < |talks|
    ensures LinkXmls(NavLinks(lang, talks[..j + 1])) == LinkXmls(NavLinks(lang, talks[..j])) + [NavTalk(lang, Basename(talks[j].path), talks[j].author, talks[j].title)]
  {
    assert forall k :: 0 <= k < j ==> talks[..j + 1][k] == talks[..j][k];
  }

  // ----- The manifest, the spine and the navigation entries -----

  /** Every language's block of items has the part item and one item per talk. */
  lemma LangItemsUniform(langs: seq<string>, talks: seq<Talk>)
    requires PathsOk(talks)
    ensures forall i :: 0 <= i < |langs| ==> |LangItems(langs[i], talks)| == 1 + |talks|
  {
  }

  /** The manifest has `1 + |talks|` generated items per language. */
  lemma ManifestLength(langs: seq<string>, talks: seq<Talk>)
    requires IdsDefined(langs, talks)
    ensures |Manifest(langs, talks)| == |langs| * (1 + |talks|)
  {
    var blocks := seq(|langs|, i requires 0 <= i < |langs| => LangItems(langs[i], talks));
    if langs != [] {
      LangItemsUniform(langs, talks);
    }
    FlattenUniform(blocks, 1 + |talks|);
  }

  /** Language `i`'s part item opens its block of the manifest. */
  lemma ManifestPart(langs: seq<string>, talks: seq<Talk>, i: nat)
    requires PathsOk(talks) && i < |langs|
    ensures i * (1 + |talks|) < |Manifest(langs, talks)|
    ensures Manifest(langs, talks)[i * (1 + |talks|)] == PartItem(langs[i])
  {
    var blocks := seq(|langs|, i requires 0 <= i < |langs| => LangItems(langs[i], talks));
    LangItemsUniform(langs, talks);
    FlattenUniform(blocks, 1 + |talks|);
    assert blocks[i][0] == PartItem(langs[i]);
  }

  /** Talk `j`'s item in language `i` follows that language's part item at
      offset `1 + j`: talks keep their order, under every language. */
  lemma ManifestTalk(langs: seq<string>, talks: seq<Talk>, i: nat, j: nat)
    requires PathsOk(talks) && i < |langs| && j < |talks|
    ensures i * (1 + |talks|) + 1 + j < |Manifest(langs, talks)|
    ensures Manifest(langs, talks)[i * (1 + |talks|) + 1 + j] == TalkItemOf(langs[i], talks[j])
  {
    var blocks := seq(|langs|, i requires 0 <= i < |langs| => LangItems(langs[i], talks));
    LangItemsUniform(langs, talks);
    FlattenUniform(blocks, 1 + |talks|);
    assert blocks[i][1 + j] == TalkItemOf(langs[i], talks[j]);
  }

  /** A language's references: two per talk, the part reference first. */
  lemma LangRefsShape(lang: string, talks: seq<Talk>)
    requires PathsOk(talks)
    ensures |LangRefs(lang, talks)| == |talks| * 2
    ensures forall j :: 0 <= j < |talks| ==> LangRefs(lang, talks)[j * 2] == PartRef(lang)
    ensures forall j :: 0 <= j < |talks| ==> LangRefs(lang, talks)[j * 2 + 1] == TalkRef(TalkId(lang, talks[j]))
  {
    var pairs := seq(|talks|, j requires 0 <= j < |talks| => TalkRefPair(lang, talks[j]));
    FlattenUniform(pairs, 2);
    forall j | 0 <= j < |talks|
      ensures LangRefs(lang, talks)[j * 2] == PartRef(lang)
      ensures LangRefs(lang, talks)[j * 2 + 1] == TalkRef(TalkId(lang, talks[j]))
    {
      assert pairs[j][0] == PartRef(lang);
      assert pairs[j][1] == TalkRef(TalkId(lang, talks[j]));
    }
  }

  /** The spine has exactly two generated references per (language, talk)
      pair; with no talks it has none, not even the part references. */
  lemma SpineLength(langs: seq<string>, talks: seq<Talk>)
    requires IdsDefined(langs, talks)
    ensures |Spine(langs, talks)| == |langs| * (|talks| * 2)
  {
    var blocks := seq(|langs|, i requires 0 <= i < |langs| => LangRefs(langs[i], talks));
    forall i | 0 <= i < |langs|
      ensures |blocks[i]| == |talks| * 2
    {
      LangRefsShape(langs[i], talks);
    }
    FlattenUniform(blocks, |talks| * 2);
  }

  /** Reference `k` of language `i`'s block sits at `i * (2 * |talks|) + k`. */
  lemma SpineAt(langs: seq<string>, talks: seq<Talk>, i: nat, k: nat)
    requires PathsOk(talks) && i < |langs| && k < |talks| * 2
    ensures |LangRefs(langs[i], talks)| == |talks| * 2
    ensures i * (|talks| * 2) + k < |Spine(langs, talks)|
    ensures Spine(langs, talks)[i * (|talks| * 2) + k] == LangRefs(langs[i], talks)[k]
  {
    var blocks := seq(|langs|, i requires 0 <= i < |langs| => LangRefs(langs[i], talks));
    forall i | 0 <= i < |langs|
      ensures |blocks[i]| == |talks| * 2
    {
      LangRefsShape(langs[i], talks);
    }
    FlattenUniform(blocks, |talks| * 2);
    assert blocks[i][k] == LangRefs(langs[i], talks)[k];
  }

  /** The position of pair `(i, j)`'s first reference. */
  function PairIndex(n: nat, i: nat, j: nat): nat {
    2 * (i * n + j)
  }

  lemma PairIndexSplit(n: nat, i: nat, j: nat)
    ensures PairIndex(n, i, j) == i * (n * 2) + j * 2
  {
  }

  /** Every position below `langs * (n * 2)` is one of pair `(i, j)`'s two. */
  lemma PairOf(n: nat, langs: nat, k: nat)
    requires k < langs * (n * 2)
    ensures n > 0 && k / 2 / n < langs && (k / 2) % n < n
    ensures k == PairIndex(n, k / 2 / n, (k / 2) % n) + k % 2
  {
    var q := k / 2;
    assert k == 2 * q + k % 2;
    assert q < langs * n;
    assert n > 0;
    var i, j := q / n, q % n;
    assert q == i * n + j;
  }

  /** Pair `(i, j)` of the spine: the part reference of language `i`, then
      the reference of talk `j` in that language; the part idref thus repeats
      once per talk. */
  lemma SpinePair(langs: seq<string>, talks: seq<Talk>, i: nat, j: nat)
    requires PathsOk(talks) && i < |langs| && j < |talks|
    ensures PairIndex(|talks|, i, j) + 1 < |Spine(langs, talks)|
    ensures Spine(langs, talks)[PairIndex(|talks|, i, j)] == PartRef(langs[i])
    ensures Spine(langs, talks)[PairIndex(|talks|, i, j) + 1] == TalkRef(TalkId(langs[i], talks[j]))
  {
    PairIndexSplit(|talks|, i, j);
    LangRefsShape(langs[i], talks);
    SpineAt(langs, talks, i, j * 2);
    SpineAt(langs, talks, i, j * 2 + 1);
  }

  /** Reference integrity: each reference of pair `(i, j)` names the id of a
      manifest item of the same iteration, the part item of language `i` and
      the item of talk `j` in it. */
  lemma RefIntegrity(langs: seq<string>, talks: seq<Talk>, i: nat, j: nat)
    requires PathsOk(talks) && i < |langs| && j < |talks|
    ensures PairIndex(|talks|, i, j) + 1 < |Spine(langs, talks)|
    ensures i * (1 + |talks|) + 1 + j < |Manifest(langs, talks)|
    ensures Spine(langs, talks)[PairIndex(|talks|, i, j)].Idref() == Manifest(langs, talks)[i * (1 + |talks|)].Id() == langs[i]
    ensures Spine(langs, talks)[PairIndex(|talks|, i, j) + 1].Idref() == Manifest(langs, talks)[i * (1 + |talks|) + 1 + j].Id()
  {
    SpinePair(langs, talks, i, j);
    ManifestPart(langs, talks, i);
    ManifestTalk(langs, talks, i, j);
  }

  /** The manifest position of the item that spine position `k` refers to:
      the part item of its language, or the item of its talk. */
  function ReferredItem(n: nat, k: nat): nat
    requires n > 0
  {
    var i, j := k / 2 / n, (k / 2) % n;
    if k % 2 == 0 then i * (1 + n) else i * (1 + n) + 1 + j
  }

  /** Every generated spine reference names the id of a generated manifest
      item, the one at position `ReferredItem(|talks|, k)`. */
  lemma SpineResolves(langs: seq<string>, talks: seq<Talk>, k: nat)
    requires IdsDefined(langs, talks) && k < |Spine(langs, talks)|
    ensures |talks| > 0 && ReferredItem(|talks|, k) < |Manifest(langs, talks)|
    ensures Manifest(langs, talks)[ReferredItem(|talks|, k)].Id() == Spine(langs, talks)[k].Idref()
  {
    SpineLength(langs, talks);
    PairOf(|talks|, |langs|, k);
    RefIntegrity(langs, talks, k / 2 / |talks|, (k / 2) % |talks|);
  }

  // ----- Links between the package and the navigation document -----

  /** A talk's manifest item and its navigation link point at different
      files: the item's `href` ends in the repr of the whole talk tuple, the
      link's in the last segment of the talk path, which is shorter. */
  lemma TalkHrefMismatch(lang: string, t: Talk)
    requires HasIdFields(t.path)
    ensures TalkItemOf(lang, t).Href() != "xhtml/" + NavLinkOf(lang, t).Href()
  {
    TripleReprLength(t.path, t.author, t.title);
    var a := TalkItemOf(lang, t).Href();
    var b := "xhtml/" + NavLinkOf(lang, t).Href();
    assert |a| == 6 + |lang| + 1 + |TalkStr(t)|;
    assert |b| == 6 + |lang| + 1 + |Basename(t.path)|;
  }

  /** A language's navigation entry and its part item name the same page. */
  lemma PartHrefAgrees(lang: string)
    ensures PartItem(lang).Href() == "xhtml/" + NavLangHref(lang)
  {
  }

  /** A language's navigation entry lists the link of every talk. */
  lemma NavLangListsTalk(lang: string, talks: seq<Talk>, j: nat)
    requires lang in LANGS_FULL && j < |talks|
    ensures Contains(NavLangXml(lang, talks),
      "<a " + Attr("href", NavLinkOf(lang, talks[j]).Href()) + ">" + talks[j].author + " - " + talks[j].title + "</a>")
  {
    var links := LinkXmls(NavLinks(lang, talks));
    var link := NavLinkOf(lang, talks[j]);
    JoinContains("", links, j);
    NavLangTalks(lang, LANGS_FULL[lang], Join("", links));
    ContainsTrans(NavLangXml(lang, talks), Join("", links), links[j]);
    NavTalkLink(lang, link.filename, link.author, link.title);
    ContainsTrans(NavLangXml(lang, talks), links[j], "<a " + Attr("href", link.Href()) + ">" + link.author + " - " + link.title + "</a>");
  }

  // ----- What create writes -----

  /** The call ends without an exception exactly when every talk path has
      its id fields (or there are no languages), every language has a full
      name, and the month has a name. */
  lemma CreateSucceeds(year: string, month: string, langs: seq<string>, talks: seq<Talk>, uuid: string, today: string)
    ensures CreateRun(year, month, langs, talks, uuid, today).error.None?
        <==> IdsDefined(langs, talks) && KnownLangs(langs) && month in MONTHS
  {
    FirstUnknownNone(langs);
  }

  /** The first failure wins: a path without id fields raises `IndexError`
      before the package is written; otherwise an unknown language raises
      `KeyError` for itself, then an unknown month `KeyError` for the month,
      both after the package is written. */
  lemma CreateFailures(year: string, month: string, langs: seq<string>, talks: seq<Talk>, uuid: string, today: string)
    ensures !IdsDefined(langs, talks) ==>
      CreateRun(year, month, langs, talks, uuid, today) == Run(FixedFiles(year, month), Some(INDEX_ERROR))
    ensures IdsDefined(langs, talks) && FirstUnknownLang(langs).Some? ==>
      CreateRun(year, month, langs, talks, uuid, today)
        == Run(FixedFiles(year, month) + [Output(PackagePath(year, month), PackageOf(month, year, langs, talks, uuid, today))],
               Some(KeyError(FirstUnknownLang(langs).value)))
    ensures IdsDefined(langs, talks) && KnownLangs(langs) && month !in MONTHS ==>
      CreateRun(year, month, langs, talks, uuid, today)
        == Run(FixedFiles(year, month) + [Output(PackagePath(year, month), PackageOf(month, year, langs, talks, uuid, today))],
               Some(KeyError(month)))
  {
    FirstUnknownNone(langs);
  }

  /** Whatever happens, the mimetype file comes first and the container second. */
  lemma CreateStartsFixed(year: string, month: string, langs: seq<string>, talks: seq<Talk>, uuid: string, today: string)
    ensures |CreateRun(year, month, langs, talks, uuid, today).written| >= 2
    ensures CreateRun(year, month, langs, talks, uuid, today).written[0] == Output(MimetypePath(year, month), MimetypeDoc)
    ensures CreateRun(year, month, langs, talks, uuid, today).written[1] == Output(ContainerPath(year, month), ContainerDoc)
  {
  }


  /** A successful call writes the mimetype, the container, the package, the
      navigation document, the title page and one part page per language:
      talk pages are not written. */
  lemma CreateFileCount(year: string, month: string, langs: seq<string>, talks: seq<Talk>, uuid: string, today: string)
    requires CreateRun(year, month, langs, talks, uuid, today).error.None?
    ensures |CreateRun(year, month, langs, talks, uuid, today).written| == 5 + |langs|
  {
    CreateSucceeds(year, month, langs, talks, uuid, today);
  }

  /** The package is written where the container's rootfile says it is. */
  lemma PackageWhereContainerSays(year: string, month: string)
    ensures PackagePath(year, month) == CrPath(year, month) + ROOTFILE_FULL_PATH
  {
  }

  /** The package title gets the month as given (`04`), while the navigation
      document and the title page get its name (`April`), which differs. */
  lemma TitlesUseDifferentMonths(year: string, month: string, langs: seq<string>, talks: seq<Talk>, uuid: string, today: string)
    requires IdsDefined(langs, talks) && KnownLangs(langs) && month in MONTHS
    ensures PackageOf(month, year, langs, talks, uuid, today).month == month
    ensures LaterFiles(year, month, langs, talks)[0].doc.monthName == MONTHS[month] != month
    ensures LaterFiles(year, month, langs, talks)[1].doc.monthName == MONTHS[month]
  {
  }

  /** The navigation document lists every language's entry. */
  lemma NavListsLang(year: string, monthName: string, langs: seq<string>, talks: seq<Talk>, i: nat)
    requires KnownLangs(langs) && i < |langs|
    ensures Contains(Nav(monthName, year, Join("", NavLangs(langs, talks))), NavLangXml(langs[i], talks))
  {
    var xmls := NavLangs(langs, talks);
    JoinContains("", xmls, i);
    NavContents(monthName, year, Join("", xmls));
    ContainsTrans(Nav(monthName, year, Join("", xmls)), Join("", xmls), xmls[i]);
  }

  // ----- What the file id keeps of the path -----

  /** For a path made of seven `_`-free fields joined by `_`, the id keeps the
      language and fields 3, 4 and 6; field 5 is dropped. */
  lemma FileIdOfFields(lang: string, fields: seq<string>)
    requires |fields| == 7
    requires forall k :: 0 <= k < 7 ==> '_' !in fields[k]
    ensures FileId(lang, Join("_", fields)) == Ok(lang + "-" + fields[3] + "-" + fields[4] + "-" + fields[6])
  {
    JoinSplitChar('_', fields);
  }

  /** Two such paths that differ only in field 5 get the same id. */
  lemma FileIdIgnoresField5(lang: string, fields: seq<string>, other: string)
    requires |fields| == 7
    requires forall k :: 0 <= k < 7 ==> '_' !in fields[k]
    requires '_' !in other
    ensures Join("_", fields) != Join("_", fields[5 := other]) <== fields[5] != other
    ensures FileId(lang, Join("_", fields)) == FileId(lang, Join("_", fields[5 := other]))
  {
    FileIdOfFields(lang, fields);
    FileIdOfFields(lang, fields[5 := other]);
    if fields[5] != other {
      JoinSplitChar('_', fields);
      JoinSplitChar('_', fields[5 := other]);
    }
  }
}
