/** The Markdown text written for one talk, from the parts of its page that the
    code reads (gc/extractor.py `write_talks` and cr/cr.py
    `Talk.download_to_markdown` do the same thing). The page is given already
    parsed: its heading, the author element of each layout, the paragraphs of
    the body with their footnote markers, and the reference list if the page
    has one. */
module TalkPage {
  import opened Wrappers
  import opened Seqs
  import opened PyStr

  /** A run of a paragraph: plain text, or a `<sup class="marker">` holding the
      footnote marker. */
  datatype Piece = Text(text: string) | Marker(mark: string)

  /** An entry of the reference list: its `data-marker` attribute and the text
      of its first paragraph. */
  datatype Note = Note(marker: string, text: string)

  /** What the code reads of a talk page. `authorLink` is the text of the
      `article-author__name` link (English pages), `authorBlock` the text of
      the `article-author` block (other languages); `references` is `None`
      when the page has no `toggledReferences` element. */
  datatype Page = Page(title: string, authorLink: string, authorBlock: string,
                       paragraphs: seq<seq<Piece>>, references: Option<seq<Note>>)

  const INDEX_ERROR: PyError := IndexError("list index out of range")

  /** The author: on English pages the link text without `By `, elsewhere the
      second line of the author block, stripped. */
  function Author(lang: string, page: Page): Result<string> {
    if lang == "eng" then Ok(Replace(page.authorLink, "By ", ""))
    else
      var lines := Split(page.authorBlock, "\n")[1..];
      if lines == [] then Err(INDEX_ERROR) else Ok(Strip(lines[0]))
  }

  /** Only a non-English author block without a line break fails. */
  lemma AuthorFails(lang: string, page: Page)
    ensures Author(lang, page).Err? <==> lang != "eng" && !Contains(page.authorBlock, "\n")
    ensures Author(lang, page).Err? ==> Author(lang, page).error == INDEX_ERROR
  {
    var b := page.authorBlock;
    match Find(b, "\n")
    case None =>
    case Some(i) =>
      SplitSome(b, "\n", i);
  }

  /** An English link `By {name}` gives the name. */
  lemma AuthorEnglish(page: Page, name: string)
    requires page.authorLink == "By " + name && !Contains(name, "By ")
    ensures Author("eng", page) == Ok(name)
  {
    ReplaceFront(name, "By ", "");
    ReplaceAbsent(name, "By ", "");
    assert Replace(page.authorLink, "By ", "") == "" + name;
    assert "" + name == name;
  }

  /** Elsewhere the name is the line after the first line break. */
  lemma AuthorOther(lang: string, page: Page, first: string, name: string, rest: string)
    requires lang != "eng" && '\n' !in first && '\n' !in name
    requires page.authorBlock == first + "\n" + name + "\n" + rest
    ensures Author(lang, page) == Ok(Strip(name))
  {
    SplitAtFirst(first, '\n', name + "\n" + rest);
    SplitAtFirst(name, '\n', rest);
    assert first + "\n" + name + "\n" + rest == first + "\n" + (name + "\n" + rest);
  }

  /** A marker is shown as the footnote reference `[^m]`. */
  function PieceText(p: Piece): string {
    match p
    case Text(t) => t
    case Marker(m) => "[^" + m + "]"
  }

  /** `p.text` once its markers have been rewritten. */
  function ParagraphText(pieces: seq<Piece>): string {
    if pieces == [] then "" else PieceText(pieces[0]) + ParagraphText(pieces[1..])
  }

  /** Every piece of a paragraph shows up in its text. */
  lemma {:induction false} PieceShown(pieces: seq<Piece>, j: nat)
    requires j < |pieces|
    ensures Contains(ParagraphText(pieces), PieceText(pieces[j]))
  {
    var head := PieceText(pieces[0]);
    var tail := ParagraphText(pieces[1..]);
    assert ParagraphText(pieces) == head + tail;
    if j == 0 {
      Infix("", head, tail);
      assert "" + head + tail == head + tail;
    } else {
      PieceShown(pieces[1..], j - 1);
      assert pieces[1..][j - 1] == pieces[j];
      ContainsWithin(head, tail, "", PieceText(pieces[j]));
      assert head + tail + "" == head + tail;
    }
  }

  /** Every marker of a paragraph shows up in its text as `[^m]`. */
  lemma MarkerShown(pieces: seq<Piece>, j: nat)
    requires j < |pieces| && pieces[j].Marker?
    ensures Contains(ParagraphText(pieces), "[^" + pieces[j].mark + "]")
  {
    PieceShown(pieces, j);
  }

  /** The speech: the paragraph texts separated by blank lines. */
  function Speech(paragraphs: seq<seq<Piece>>): string {
    Join("\n\n", MapSeq(ParagraphText, paragraphs))
  }

  /** Each paragraph's text is part of the speech. */
  lemma SpeechHasParagraph(paragraphs: seq<seq<Piece>>, j: nat)
    requires j < |paragraphs|
    ensures Contains(Speech(paragraphs), ParagraphText(paragraphs[j]))
  {
    MapSeqAt(ParagraphText, paragraphs);
    JoinContains("\n\n", MapSeq(ParagraphText, paragraphs), j);
  }

  /** `'[^{}]: {}'.format(n['data-marker'].replace('.', ''), note.text)` */
  function NoteLine(n: Note): string {
    "[^" + Replace(n.marker, ".", "") + "]: " + n.text
  }

  /** A marker written `12.` is cited as `[^12]`; the key never holds a dot. */
  lemma NoteLineDropsDot(n: Note, key: string)
    requires n.marker == key + "." && '.' !in key
    ensures NoteLine(n) == "[^" + key + "]: " + n.text
    ensures '.' !in Replace(n.marker, ".", "")
  {
    ReplaceCharGone(n.marker, '.', "");
    ContainsFirst(key, ".");
    ReplaceSkip(key, ".", ".", "");
    ReplaceFront("", ".", "");
    assert "." + "" == ".";
    assert key + "" == key;
  }

  /** The reference list, one line per note. */
  function Footnotes(notes: seq<Note>): string {
    Join("\n", MapSeq(NoteLine, notes))
  }

  /** Notes without line breaks come out one per line, in order. */
  lemma FootnoteLines(notes: seq<Note>)
    requires notes != []
    requires forall k :: 0 <= k < |notes| ==> '\n' !in notes[k].marker && '\n' !in notes[k].text
    ensures Split(Footnotes(notes), "\n") == MapSeq(NoteLine, notes)
  {
    var lines := MapSeq(NoteLine, notes);
    MapSeqAt(NoteLine, notes);
    forall k | 0 <= k < |lines|
      ensures '\n' !in lines[k]
    {
      NoteLineFree(notes[k]);
    }
    JoinSplitChar('\n', lines);
  }

  lemma NoteLineFree(n: Note)
    requires '\n' !in n.marker && '\n' !in n.text
    ensures '\n' !in NoteLine(n)
  {
    ReplaceFree(n.marker, ".", "", '\n');
  }

  /** `'# {} <br />{}'.format(author, title)` */
  function HeadingLine(author: string, title: string): string {
    "# " + author + " <br />" + title
  }

  /** The parts of the document: heading, speech, and the footnotes if the page
      has references. */
  function Parts(author: string, page: Page): seq<string> {
    [HeadingLine(author, page.title), Speech(page.paragraphs)]
      + (if page.references.Some? then [Footnotes(page.references.value)] else [])
  }

  /** `'\n\n'.join(data)`, or the IndexError of a non-English author block
      without a line break. */
  function Document(lang: string, page: Page): Result<string> {
    match Author(lang, page)
    case Err(e) => Err(e)
    case Ok(author) => Ok(Join("\n\n", Parts(author, page)))
  }

  /** The document is the heading line, a blank line, the speech, and, when the
      page has references, another blank line and the footnotes. */
  lemma DocumentText(lang: string, page: Page)
    requires Author(lang, page).Ok?
    ensures var author := Author(lang, page).value;
      var front := HeadingLine(author, page.title) + "\n\n" + Speech(page.paragraphs);
      Document(lang, page) == Ok(if page.references.Some? then front + "\n\n" + Footnotes(page.references.value) else front)
  {
    var author := Author(lang, page).value;
    var h, s := HeadingLine(author, page.title), Speech(page.paragraphs);
    if page.references.Some? {
      var f := Footnotes(page.references.value);
      assert Parts(author, page) == [h, s, f];
      JoinThree("\n\n", h, s, f);
    } else {
      assert Parts(author, page) == [h, s];
      assert [h, s] == [h] + [s];
      JoinCons("\n\n", h, [s]);
    }
  }

  lemma JoinThree(sep: string, a: string, b: string, c: string)
    ensures Join(sep, [a, b, c]) == a + sep + b + sep + c
  {
    assert [a, b, c] == [a] + [b, c] && [b, c] == [b] + [c];
    JoinCons(sep, b, [c]);
    JoinCons(sep, a, [b, c]);
    assert a + sep + (b + sep + c) == a + sep + b + sep + c;
  }
}
