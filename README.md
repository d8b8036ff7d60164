# General Conference talks to EPUB — a Dafny model

This project models the Python scripts that turn the addresses of a General
Conference into Markdown files and an EPUB book:

- the two table-of-contents scrapers, `cr/extractor.py` and `gc/extractor.py`;
- the class-based scraper `cr/cr.py`;
- the Markdown post-processing of `cr/converter.py`;
- the talk gathering and pandoc command of `cr/publisher.py`;
- the XHTML page filler `convert.py`;
- the EPUB package assembly of `gc/ebook.py` with its templates
  `gc/templates.py`.

Web pages come in already parsed. A table of contents is a list of sections
with their items or speaker tiles (modules `Toc`, `CrExtractor`). A talk page
is its heading, author element, paragraphs with footnote markers, and
optional reference list (module `TalkPage`). Downloading a page is a function
parameter `fetch`. The output of `markdownify` and `markdown.markdown` is an
opaque input string. Directory listings are input sequences.

The files a script writes are returned as lists of files. When Python raises
part way, the result also carries the exception
(`Wrappers.Run`/`Wrappers.RunAll`), and the files written before it stay
written. Exceptions are values (`Wrappers.PyError`: `KeyError`,
`IndexError`, `FileNotFoundError`, `ValueError`).

Python's string operations are written out in module `PyStr`:

- `split`, `join`, `replace`, `strip`, `lower`, `repr` of a string, `str` of
  an int;
- `os.path.basename`, `os.path.splitext`, `os.path.join`.

`str.format` over named fields is module `PyFormat`, and `sorted(key=...)`
is module `PySort`. Each template of `gc/templates.py` is kept as the text
between its fields, and a lemma shows that its fill-in function is what
`str.format` returns.

The model follows the code where the code departs from what its authors
evidently meant. Those departures are stated and proved as lemmas:

- `gc/ebook.py` never filters talks by language.
- It emits the part itemref once per talk.
- It formats the manifest href from the whole talk tuple (`TalkHrefMismatch`).
- Its file id drops the order field (`FileIdDropsOrder`, `FileIdIgnoresField5`).
- It titles the package with the numeric month (`TitlesUseDifferentMonths`).
- `cr/cr.py` renders `last_name` as a one-element tuple (`FilePathTuple`).
- `cr/cr.py`'s session codes are hyphenated, so `gc/ebook.py` cannot take a
  file id from its paths (`FileIdFails`).
- The two slug readings part ways on some links (`SlugReadingsDiffer`).
- `cr/converter.py` rewrites note numbers before stripping spaces
  (`IndentedNoteKeepsNumber`).
- `convert.py` fills `{{ title }}` into the body too
  (`TitleMarkInBodyReplaced`).

Methods model the loops of the source. Each one is proved equal to a
specification function, and the properties are lemmas about those functions.

## Model

| member | source | states |
|---|---|---|
| Templates.ContainerRootfile | gc/templates.py:14-19 | the container holds one rootfile element naming `EPUB/package.opf` with media type `application/oebps-package+xml` |
| Templates.PackageManifest | gc/templates.py:36-40 | the package holds the manifest element: the title item (`xhtml/title.xhtml`, id `title`), then the nav item (`properties="nav"`), then the generated items |
| Templates.PackageSpine | gc/templates.py:41-45 | the package holds the spine element: the `title` itemref, then the `nav` itemref with `linear="no"`, then the generated itemrefs |
| Templates.PackageTitle | gc/templates.py:21-35 | the package's `dc:title` is `{month} {year} Conference Report` with the `month` argument as given |
| Templates.PackageIsFormat | gc/templates.py:21-46 | the package function is what `PACKAGE.format(...)` returns for these six arguments |
| Templates.PackageItemLangPartIsFormat | gc/templates.py:48-49 | the part item function is `PACKAGE_ITEM_LANG_PART.format(lang=...)` |
| Templates.PackageItemLangPartHref | gc/templates.py:48-49 | a part item has href `xhtml/{lang}.xhtml` |
| Templates.PackageItemLangPartId | gc/templates.py:48-49 | a part item has id `{lang}` |
| Templates.PackageItemLangIsFormat | gc/templates.py:51-52 | the talk item function is `PACKAGE_ITEM_LANG.format(lang=..., filename=..., fileid=...)` |
| Templates.PackageItemLangHref | gc/templates.py:51-52 | a talk item has href `xhtml/{lang}/{filename}` |
| Templates.PackageItemLangId | gc/templates.py:51-52 | a talk item has id `{fileid}` |
| Templates.PackageRefLangPartIsFormat | gc/templates.py:54-55 | the part itemref function is `PACKAGE_REF_LANG_PART.format(lang=...)` |
| Templates.PackageRefLangPartIdref | gc/templates.py:54-55 | a part itemref refers to `{lang}`, the part item's id |
| Templates.PackageRefLangIsFormat | gc/templates.py:57-58 | the talk itemref function is `PACKAGE_REF_LANG.format(fileid=...)` |
| Templates.PackageRefLangIdref | gc/templates.py:57-58 | a talk itemref refers to `{fileid}`, the talk item's id |
| Templates.PackageRefsAgree | gc/templates.py:54-58 | the two itemref templates give the same text for the same value |
| Templates.LangPartIsFormat | gc/templates.py:60-71 | the part page function is `LANG_PART.format(language=...)` |
| Templates.LangPartTitle | gc/templates.py:60-71 | a part page is titled `{language} Conference Addresses` |
| Templates.LangPartHeading | gc/templates.py:60-71 | a part page is headed `{language} Conference Addresses` |
| Templates.TitlePageIsFormat | gc/templates.py:73-85 | the title page function is `TITLE.format(month=..., year=...)` |
| Templates.TitlePageTitle | gc/templates.py:73-85 | the title page is titled `{month} {year} Conference Report` |
| Templates.TitlePageHeading | gc/templates.py:73-85 | the title page's `titlepage` heading is `{month} {year} Conference Report` |
| Templates.NavIsFormat | gc/templates.py:87-102 | the navigation function is `NAV.format(month=..., year=..., contents=...)` |
| Templates.NavTitle | gc/templates.py:87-102 | the navigation document is titled `{month} {year} Conference Report - Table of Contents` |
| Templates.NavContents | gc/templates.py:87-102 | the navigation document holds the contents unchanged |
| Templates.NavLangIsFormat | gc/templates.py:104-109 | the language entry function is `NAV_LANG.format(lang=..., language=..., talks=...)` |
| Templates.NavLangLink | gc/templates.py:104-109 | a language entry links `{lang}.xhtml` with text `{language} Conference Addresses` |
| Templates.NavLangTalks | gc/templates.py:104-109 | a language entry holds its talk entries unchanged |
| Templates.NavTalkIsFormat | gc/templates.py:111-112 | the talk entry function is `NAV_TALK.format(lang=..., filename=..., author=..., title=...)` |
| Templates.NavTalkLink | gc/templates.py:111-112 | a talk entry links `{lang}/{filename}` with text `{author} - {title}` |
| Templates.TalkPageIsFormat | gc/templates.py:114-125 | the talk page function is `TALK.format(title=..., body=...)` |
| Templates.TalkPageTitle | gc/templates.py:114-125 | the title goes into `<title>` verbatim, without escaping |
| Templates.TalkPageSection | gc/templates.py:114-125 | the title goes into the section's `title` attribute verbatim |
| Templates.TalkPageBody | gc/templates.py:114-125 | the body goes into the section verbatim |
| PyFormat.FormatIgnoresOtherKeys | gc/templates.py:21-125 | `str.format` with named fields depends only on the arguments of the template's own fields |
| Ebook.FileId | gc/ebook.py:69-71 | the id exists exactly when the path has at least seven `_` fields (otherwise `IndexError`), and then starts with `{lang}-` |
| Ebook.FileIdOfFields | gc/ebook.py:70-71 | for seven `_`-free fields joined by `_`, the id is `lang-f3-f4-f6` |
| Ebook.FileIdIgnoresField5 | gc/ebook.py:70-71 | two paths differing only in field 5 (the order) are different paths with the same id |
| Ebook.BuildTalkLists | gc/ebook.py:68-75 | the inner loop returns the talk items and the references of one language, or `IndexError` for a path without id fields |
| Ebook.BuildPackageLists | gc/ebook.py:62-75 | the nested loops return the snippets of the manifest and spine functions, or `IndexError` |
| Ebook.ManifestLength | gc/ebook.py:65-73 | the manifest has `|langs| * (1 + |talks|)` generated items |
| Ebook.ManifestPart | gc/ebook.py:65-67 | language `i`'s part item sits at `i * (1 + |talks|)` |
| Ebook.ManifestTalk | gc/ebook.py:65-73 | talk `j` follows language `i`'s part item at offset `1 + j`, under every language: talks are not filtered by language |
| Ebook.LangRefsShape | gc/ebook.py:68-75 | a language adds two references per talk: the part ref, then the talk's ref |
| Ebook.SpineLength | gc/ebook.py:65-75 | the spine has `|langs| * (2 * |talks|)` generated references, none at all when there are no talks |
| Ebook.SpineAt | gc/ebook.py:65-75 | reference `k` of language `i` sits at `i * (2 * |talks|) + k` |
| Ebook.SpinePair | gc/ebook.py:74-75 | pair `(i, j)` is the part ref of language `i`, then talk `j`'s ref, so the part idref repeats once per talk |
| Ebook.RefIntegrity | gc/ebook.py:66-75 | each reference of pair `(i, j)` names the id of the item appended in the same iteration: `lang` for the part, the file id for the talk |
| Ebook.SpineResolves | gc/ebook.py:65-75 | every generated spine idref is the id of a generated manifest item |
| Ebook.TalkHrefMismatch | gc/ebook.py:72 | a talk's manifest href and its nav link resolved against `xhtml/` differ: the item names the tuple's repr, the link the path's basename |
| Ebook.PartHrefAgrees | gc/ebook.py:66-67 | a language's nav link resolved against `xhtml/` is its part item's href |
| Ebook.BuildNavTalks | gc/ebook.py:95-105 | the inner nav loop returns one entry per talk, linking the basename of its path |
| Ebook.BuildNavLangs | gc/ebook.py:93-107 | the nav loop returns one entry per language, or `KeyError` for the first language without a full name |
| Ebook.FirstUnknownNone | gc/ebook.py:106 | the first unknown language is absent exactly when every language has a full name |
| Ebook.NavLangListsTalk | gc/ebook.py:94-107 | a language's nav entry holds the link of every talk with text `author - title` |
| Ebook.NavListsLang | gc/ebook.py:108-112 | the navigation document holds every language's entry |
| Ebook.WriteLangParts | gc/ebook.py:123-130 | one part page per language, in order, at `EPUB/xhtml/{lang}.xhtml` |
| Ebook.WriteNavTitleParts | gc/ebook.py:90-130 | the navigation document, the title page and the part pages, or the `KeyError` of the first failing lookup |
| Ebook.Create | gc/ebook.py:45-130 | `create` writes exactly what the specification function `CreateRun` says, and raises what it says |
| Ebook.CreateSucceeds | gc/ebook.py:65-130 | `create` raises nothing exactly when every path has its id fields (or there are no languages), every language has a full name and the month has a name |
| Ebook.CreateFailures | gc/ebook.py:70-71 | `IndexError` comes before the package is written; an unknown language, then an unknown month, raise `KeyError` after it (lines 106, 109, 120, 128) |
| Ebook.CreateStartsFixed | gc/ebook.py:49-57 | the mimetype file (`application/epub+zip`) and the container are always written first |
| Ebook.CreateFileCount | gc/ebook.py:45-130 | a successful call writes `5 + |langs|` files and no talk pages |
| Ebook.PackageWhereContainerSays | gc/ebook.py:27 | the package is written where the container's rootfile points |
| Ebook.TitlesUseDifferentMonths | gc/ebook.py:77-84 | the package gets the month as given (`04`), while the nav and title page get its name (lines 109, 120) |
| Links.CrSlug | cr/extractor.py:91 | the slug holds no `/` and no `?` |
| Links.CrSlugOf | cr/extractor.py:91 | `{prefix}/{slug}?{query}` gives `slug` when the query has no `/` |
| Links.CrSlugPlain | cr/extractor.py:91 | `{prefix}/{slug}` gives `slug` |
| Links.GcSlug | gc/extractor.py:97 | the slug holds no `/` and no `?` |
| Links.GcSlugOf | gc/extractor.py:97 | `{prefix}/{slug}?{query}` gives `slug` whatever the query holds |
| Links.GcSlugPlain | cr/cr.py:113 | without a query both readings give the same slug |
| Links.SlugReadingsDiffer | cr/extractor.py:91 | with a `/` in the query, the reading of gc/extractor.py:97 keeps the slug and this one returns the query's tail |
| CrExtractor.DropIsReplace | cr/extractor.py:94-103 | each `if x in name` guard changes nothing: removing an absent text is the identity |
| CrExtractor.NormalizeNoNbsp | cr/extractor.py:102-103 | no no-break space is left in a normalised name |
| CrExtractor.NormalizeDropsTitle | cr/extractor.py:94-99 | a name followed by ` püspök`, ` elder` or ` elnök` normalises to the name |
| CrExtractor.TitleGone | cr/extractor.py:94-99 | removing one title from `name + title` drops it when it is that title and changes nothing otherwise |
| CrExtractor.NormalizeDropsSubmitter | cr/extractor.py:100-101 | `Benyújtotta: {n}` normalises to `n` |
| CrExtractor.SubmitterDropped | cr/extractor.py:94-101 | the label is the only mark the four removals take out of `label + n` |
| CrExtractor.NormalizeNbspLast | cr/extractor.py:98-103 | the no-break space is replaced last, so `n` + NBSP + `elnök` becomes `n elnök`: the title stays |
| CrExtractor.NbspKept | cr/extractor.py:94-103 | marks that only appear across a no-break space survive the removals, and the space then becomes plain |
| CrExtractor.GetSlugs | cr/extractor.py:79-108 | the loop returns the specification `Slugs`: the slugs, or the `ValueError` of an item without two paragraphs |
| CrExtractor.SlugsFail | cr/extractor.py:92 | `get_slugs` returns exactly when every item of every section that is not ignored has two paragraphs |
| CrExtractor.SlugsMember | cr/extractor.py:88-106 | a slug is returned exactly when it is the slug of an item of a section that is not ignored, whose title is not ignored and whose normalised speaker is an apostle |
| CrExtractor.SlugsInOrder | cr/extractor.py:86-108 | the slugs of earlier sections come first |
| CrExtractor.SectionInOrder | cr/extractor.py:89-106 | within a section, the slugs of earlier items come first |
| CrExtractor.DownloadTalks | cr/extractor.py:111-139 | one saved file per slug, in slug order: the page text `fetch(slug)` at `{year}/{month}/{lang}/html/{slug}.html`, and those paths as the result |
| CrExtractor.SavedPageConverts | cr/extractor.py:75-76 | the saved page of a slug without a dot is the one cr/converter.py turns into `{slug}.md` |
| GcExtractor.SessionCodes | gc/extractor.py:43-54 | every session code is two three-letter halves around one `_` |
| GcExtractor.SessionsBilingual | gc/extractor.py:43-54 | each English session title and its Hungarian counterpart share a code |
| GcExtractor.LastName | gc/extractor.py:101 | the last name holds no space |
| GcExtractor.LastNameOf | gc/extractor.py:101 | the last name is the last space-separated word, lowercased |
| GcExtractor.LastNameFree | gc/extractor.py:101 | a speaker without `_` gives a last name without `_` |
| GcExtractor.ApostlesFree | gc/extractor.py:24-41 | no apostle's name holds `_` |
| GcExtractor.GetSlugs | gc/extractor.py:76-104 | the loop returns the specification `Slugs`: the records, or the `KeyError` of a section without a code |
| GcExtractor.SlugsFail | gc/extractor.py:99 | `get_slugs` returns exactly when every section with a kept tile that is not ignored has a session code |
| GcExtractor.SlugsError | gc/extractor.py:99 | the exception raised is the `KeyError` of such a section's title |
| GcExtractor.SlugsMember | gc/extractor.py:88-103 | a record is returned exactly when it is the record of a kept tile (apostle, title not ignored) of a section that is not ignored |
| GcExtractor.SlugsInOrder | gc/extractor.py:83-104 | the records of earlier sections come first |
| GcExtractor.SectionOrders | gc/extractor.py:90-100 | within a section the orders are positive, strictly increasing and at most the number of tiles |
| GcExtractor.FilePathFields | gc/extractor.py:73 | the path splits on `_` into seven fields: directories with `gc`, year, month, the session's two halves, order, `{last_name}.text` |
| GcExtractor.FileIdDropsOrder | gc/extractor.py:73 | the ebook's id of such a path is `lang-half1-half2-{last_name}.text`; changing the order changes the path but not the id |
| GcExtractor.RecordsHaveIds | gc/extractor.py:98-103 | every record returned gives a path the ebook can take an id from |
| GcExtractor.TalkWrittenOk | gc/extractor.py:111-174 | a record whose page has an author gives the document at the record's path |
| GcExtractor.WriteTalk | gc/extractor.py:110-174 | one record's file and `(filename, author, title, lang)` tuple, or the `IndexError` of its author block |
| GcExtractor.WriteTalks | gc/extractor.py:107-176 | the loop writes what `RunAll` over the records says: one file per record, in order, until a page raises |
| GcExtractor.WrittenTalk | gc/extractor.py:111-174 | the `k`-th file is the `k`-th record's document at its `FILEPATH`, and its tuple names that path, the author, the title and the language |
| GcExtractor.WriteTalksStops | gc/extractor.py:138-141 | the run stops exactly when some page's author cannot be read, with `IndexError`; otherwise one file per record |
| TalkPage.AuthorFails | gc/extractor.py:138-141 | the author fails exactly for a non-English author block without a line break, with `IndexError` |
| TalkPage.AuthorEnglish | gc/extractor.py:139 | an English link `By {name}` gives `name` |
| TalkPage.AuthorOther | gc/extractor.py:141 | elsewhere the author is the stripped line after the first line break |
| TalkPage.PieceShown | gc/extractor.py:153-159 | every piece of a paragraph appears in its text |
| TalkPage.MarkerShown | gc/extractor.py:157 | every footnote marker `m` appears in its paragraph as `[^m]` |
| TalkPage.SpeechHasParagraph | gc/extractor.py:159 | each paragraph's text is part of the speech |
| TalkPage.NoteLineDropsDot | gc/extractor.py:169 | a note marked `12.` is written `[^12]: text`; the key holds no dot |
| TalkPage.FootnoteLines | gc/extractor.py:170 | notes without line breaks come out one line each, in order |
| TalkPage.DocumentText | gc/extractor.py:143-174 | the document is the heading `# {author} <br />{title}`, a blank line and the speech, then a blank line and the footnotes when there are references |
| Converter.MdPathOfHtml | cr/converter.py:72-80 | the html file `{slug}.html` becomes `{year}/{month}/{lang}/md/{slug}.md` |
| Converter.MapLinesLines | cr/converter.py:30-32 | a line-wise rewrite that keeps lines free of newlines maps the lines one for one |
| Converter.StripLineSpacesLines | cr/converter.py:59 | each line loses exactly its opening spaces |
| Converter.NoLineStartsWithSpace | cr/converter.py:59 | after the rewrite no line opens with a space |
| Converter.StripLineSpacesIdempotent | cr/converter.py:59 | a second application changes nothing |
| Converter.DigitPrefix | cr/converter.py:28-31 | the greedy `\d+` of a `str` pattern: Unicode decimal digits (category Nd), a prefix, and followed by no such digit |
| Converter.NumberLineChanges | cr/converter.py:64 | a notes line changes exactly when it opens with decimal digits and a dot |
| Converter.NumberLineArabicIndic | cr/converter.py:28-31 | `\d` is not ASCII-only: `٣.Note` becomes `[^٣]: Note` |
| Converter.NumberLineRewrites | cr/converter.py:64 | `{digits}.{text}` becomes `[^{digits}]: {text}` |
| Converter.LinkMatchOf | cr/converter.py:29 | `[n](/#notem)` at the front matches, with the first number `n` |
| Converter.RewriteNoteLink | cr/converter.py:60 | `[n](/#notem)` becomes `[^n]`, and the scan continues after it |
| Converter.RewriteNoteLinkArabicIndic | cr/converter.py:29-31 | a link numbered with non-ASCII decimal digits is rewritten too: `[٣](/#note٣)` becomes `[^٣]`, and the scan goes on after it |
| Converter.RewriteDigitLink | cr/converter.py:29-31 | a link whose two numbers are one decimal digit `c` becomes `[^c]`, and the scan goes on after it |
| Converter.RewriteLinksPlain | cr/converter.py:60 | text without `[` passes through unchanged |
| Converter.NewlineCollapseOnePass | cr/converter.py:63 | the blank-line rule is one non-overlapping pass: three newlines become two |
| Converter.OneLineNoBlank | cr/converter.py:63 | a one-line note is left alone by the blank-line rule |
| Converter.OneLineNote | cr/converter.py:62-65 | a one-line note whose numbered form opens with no space comes out of the notes pipeline as that numbered form |
| Converter.IndentedLine | cr/converter.py:62-65 | a one-line note indented by one space is not numbered and only loses its indent |
| Converter.NumberedNote | cr/converter.py:62-65 | a one-line note `{digits}.{text}` becomes `[^{digits}]: {text}` |
| Converter.IndentedNoteKeepsNumber | cr/converter.py:64-65 | spaces are stripped after the number rewrite, so ` {digits}.{text}` only loses its space |
| Converter.ContentFormat | cr/converter.py:34 | the template gives `body + "\n\n## References\n\n" + notes` |
| Converter.ContentIsFormat | cr/converter.py:67-70 | the content is the template filled with the stripped body and the stripped notes |
| Converter.ConvertTalks | cr/converter.py:37-85 | a missing html folder raises `FileNotFoundError` naming it, with nothing written; otherwise one Markdown file per html file of the listing, in listing order, and no error |
| Converter.ConvertListed | cr/converter.py:44-85 | the loop writes the converted Markdown file of each listed html file, one for one and in order |
| Publisher.MakeTitleText | cr/publisher.py:39-48 | `{year}/{month}/title.md` holds the front matter with only `title` filled in |
| Publisher.ReportTitleMonth | cr/publisher.py:43-44 | `04` and `10` give `April`/`October {year} Conference Report`; another month gives `None {year} Conference Report` |
| Publisher.GatherTalks | cr/publisher.py:51-61 | the loop returns the collected paths sorted by basename, or `FileNotFoundError` |
| Publisher.CollectedErrorStands | cr/publisher.py:54-58 | once a folder is missing, the error stands |
| Publisher.CollectedFails | cr/publisher.py:54-58 | gathering fails exactly when a language has no `md` folder, with that folder's error |
| Publisher.CollectedHolds | cr/publisher.py:54-58 | every entry of every language folder is collected |
| Publisher.CollectedTwo | cr/publisher.py:54-58 | for two languages, the first one's paths come before the second's |
| Publisher.GatheredSorted | cr/publisher.py:60 | the result is sorted by last `/`-segment |
| Publisher.GatheredPermutes | cr/publisher.py:60 | the result is a permutation of the collected paths |
| Publisher.GatheredStable | cr/publisher.py:55-60 | paths with the same basename keep their collected order |
| Publisher.SameNameInLanguageOrder | cr/publisher.py:55-60 | the same file in two languages comes in language order |
| Publisher.EpubCommandText | cr/publisher.py:64-76 | the printed command is `pandoc -o cr_{year}{month}.epub {year}/{month}/title.md` and the talks joined by spaces; the return value is `None` |
| Publisher.EpubCommandNamesTalk | cr/publisher.py:64-74 | every talk path appears in the command |
| PySort.SortBySorted | cr/publisher.py:60 | `sorted(key=...)` orders by key |
| PySort.SortByPermutes | cr/publisher.py:60 | `sorted` keeps every element as often |
| PySort.SortByStable | cr/publisher.py:60 | `sorted` keeps the order of elements with equal keys |
| Convert.TextEntriesMember | convert.py:14 | a file is converted exactly when its name contains `.text` |
| Convert.OutputPathOfText | convert.py:19-20 | `{stem}.text` in directory `d` is written to `d/{stem}.xhtml` |
| Convert.TitleFails | convert.py:26-27 | a title exists exactly when the first line, without `</h1>`, holds `<br />` |
| Convert.TitleOf | convert.py:26-27 | `<h1>{author}<br />{title}</h1>` gives `title` |
| Convert.PageFills | convert.py:28-30 | the three placeholders get the body, the title and `chapter` |
| Convert.TitleMarkInBodyReplaced | convert.py:28-29 | a `{{ title }}` inside the body is replaced too |
| Convert.ConvertDirectory | convert.py:12-31 | `main` lists the folder, then reads the template, then converts: it equals `MainRun`, a `FileNotFoundError` for a missing folder or template and otherwise the loop over the `.text` files |
| Convert.ConvertFiles | convert.py:18-31 | the loop writes what `RunAll` over the `.text` files says, up to the first error |
| Convert.MainMissing | convert.py:13-16 | the run fails with a `FileNotFoundError` exactly when the folder or the template is missing, naming the folder first, and then nothing is written |
| Convert.ConvertedPage | convert.py:14-31 | the `k`-th page written is the filled template for the `k`-th `.text` file, next to it as `.xhtml` |
| Convert.ConvertStops | convert.py:26-27 | the run stops exactly when some file's first line has no `<br />`, with that `IndexError`; otherwise every file is written |
| Cr.SessionsHyphenated | cr/cr.py:34-45 | the session map knows the titles of gc/extractor.py, and each code is that one with `-` in place of `_` |
| Cr.CodeHyphenated | cr/cr.py:34-45 | each gc/extractor.py code has six characters, and every title mapped to it here is mapped to its hyphenated form |
| Cr.CodesFree | cr/cr.py:149-160 | no session code holds `_` |
| Cr.FilePathTuple | cr/cr.py:115-126 | the path ends in `_('{name}',).text`, the repr of a one-element tuple |
| Cr.FileIdFails | cr/cr.py:119-126 | such a path has six `_` fields, so gc/ebook.py's file id raises `IndexError` on it |
| Cr.FilePathSix | cr/cr.py:76 | the path is six fields joined by `_` |
| Cr.Talk.Init | cr/cr.py:162-170 | the talk holds the given fields |
| Cr.Talk.New | cr/cr.py:162-170 | `Talk(...)` looks up the session code (line 167), raising `KeyError` for an unknown session |
| Cr.Talk.FromUrl | cr/cr.py:172-192 | a new talk with the page's document as its text, or the `KeyError` of the session, or the `IndexError` of the page |
| Cr.Conference.Init | cr/cr.py:78-84 | the conference holds the given fields, no talks and the title `{language} Conference Addresses` |
| Cr.Conference.New | cr/cr.py:78-84 | a language without a name raises `KeyError`; otherwise a new conference titled `{Language} Conference Addresses` |
| Cr.Conference.ParseSlot | cr/cr.py:106-144 | one tile's talk objects agree with `SlotTalk` |
| Cr.Conference.ParseSection | cr/cr.py:99-144 | one section's talk objects agree with `SectionTalks` |
| Cr.Conference.ParseSections | cr/cr.py:93-144 | the talk objects agree with the specification `Parsed`: same fields in the same order, or the same exception |
| Cr.SlotTalkKept | cr/cr.py:107-144 | a kept tile of a section with a code, whose page gives a text, yields its talk |
| Cr.ParsedFails | cr/cr.py:98-144 | parsing ends normally exactly when every kept tile of a section that is not ignored has a session code and a readable author |
| Cr.ParsedMember | cr/cr.py:104-111 | a talk is yielded exactly when it is the talk of a kept tile of a section that is not ignored |
| Cr.SectionMember | cr/cr.py:105-111 | a section's talks are those of its kept tiles |
| Cr.SlotMember | cr/cr.py:107-111 | a tile yields `t` exactly when it is kept, has a code and a text, and `t` is its talk |
| Cr.SectionOrders | cr/cr.py:106-116 | within a section the orders are positive and strictly increasing |
| Cr.ConferenceReport.Init | cr/cr.py:253-261 | the report holds the given fields and the title `{month name} {year} Conference Report` |
| Cr.ConferenceReport.New | cr/cr.py:246-261 | a month other than `04`/`10` raises `KeyError`; otherwise a new report with the month's name in its title |
| Cr.ConferenceReport.CreateEpub | cr/cr.py:263-264 | `create_epub` returns `None` |

## Left out

- HTTP requests and BeautifulSoup navigation: pages come in parsed (`Toc`, `TalkPage`, `CrExtractor.Section`), and a download is the parameter `fetch`.
- The `find_all(...)[0]` and `[1]` lookups that find a page's section, title, body block, notes panel, a note's first paragraph or a section's header title: the model assumes these elements are present, so their `IndexError`s are not modelled.
- Footnote markers are rewritten as the paragraph is read (`TalkPage.PieceText`); the tree mutation itself is not modelled.
- `if references:` is modelled as whether the page has a `toggledReferences` element.
- File writes are returned file lists (`File` values of path and text); `ensure_path_exists`, `os.makedirs` and file reading are out.
- `os.scandir`/`os.listdir` order is an input sequence; a folder that does not exist is a listing of `None`.
- `uuid.uuid4()` and `date.today()` are parameters holding their string forms.
- The output of `markdownify` and `markdown.markdown` is an opaque input string.
- The note and link rewrites of cr/converter.py are hand-written line functions; there is no general regex engine.
- Argument parsing, `main` functions and logging are out; so are `download_talks`/`parse_response` of cr/cr.py beyond parsing, and `Conference.talks`, which only `main` assigns.
- `str.lower` covers ASCII and Latin-1 only. `\d` follows the Nd category of Unicode 15.0; other Unicode versions are not modelled. `repr` is exact for ASCII; non-ASCII printability is approximated (0x80-0xa0 and 0xad are escaped).
- `TALK_URL` of cr/cr.py is not modelled: the page is fetched by slug. The URL ignores the language, which has no effect in the model.
- `Talk.SESSIONS` has the same entries as `Conference.SESSIONS`, so it is modelled once as `Cr.SESSIONS`.
- The `TALK` template is modelled as a template only: no talk pages are written by `create`.
- No EPUB zip archive is produced by the code, so none is modelled.
- gc/cr.py (not valid Python), extractor.py, models.py, cr/core.py and gc/core.py are not part of this model.
- Cr.Conference.ParseSections: does not state that the talks are new objects (`Cr.Talk.FromUrl` does), because tracking freshness through the loops was too costly to verify.
- Cr.Conference.ParseSection: does not state that the talks are new objects, for the same reason.
- Cr.Conference.ParseSlot: does not state that the talk is a new object, for the same reason.
- Converter.MdPathOfHtml: stated only for slugs without `.` and `/`; the source removes every `.html` from the basename.
- CrExtractor.NormalizeDropsTitle: stated for names free of every mark; names holding several marks are covered only case by case (`TitleGone`, `NbspKept`).
