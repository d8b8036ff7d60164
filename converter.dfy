/** The text rules of cr/converter.py: after markdownify has turned a talk's
    article and its notes panel into Markdown, the body loses the spaces that
    open its lines and its inline note links become footnote markers; the notes
    lose their blank lines, get footnote labels for their numbers and lose their
    opening spaces; the two are put together by `CONTENT_TEMPLATE`, and the
    result goes to the `md` folder under the html file's name without `.html`.
    The three regular expressions are written out as hand-made scans. */
module Converter {
  import opened Wrappers
  import opened Seqs
  import opened PyStr
  import opened PyFormat

  // ----- Paths -----

  /** `FOLDER_HTML` */
  function HtmlDir(year: string, month: string, lang: string): string {
    year + "/" + month + "/" + lang + "/html/"
  }

  /** `FOLDER_MD` */
  function MdDir(year: string, month: string, lang: string): string {
    year + "/" + month + "/" + lang + "/md/"
  }

  /** The tail of `os.path.split(filepath)` with every `.html` removed. */
  function Slug(filepath: string): string {
    Replace(Basename(filepath), ".html", "")
  }

  /** `FILEPATH_MD` for the html file at `filepath`. */
  function MdPath(year: string, month: string, lang: string, filepath: string): string {
    MdDir(year, month, lang) + Slug(filepath) + ".md"
  }

  /** The html file `{slug}.html` listed in the html folder is converted to
      `{slug}.md` in the md folder, for a slug without `/` or `.`. */
  lemma MdPathOfHtml(year: string, month: string, lang: string, slug: string)
    requires '/' !in slug && '.' !in slug
    ensures MdPath(year, month, lang, HtmlDir(year, month, lang) + slug + ".html") == MdDir(year, month, lang) + slug + ".md"
  {
    var dir := year + "/" + month + "/" + lang + "/html";
    assert HtmlDir(year, month, lang) + slug + ".html" == dir + "/" + (slug + ".html");
    BasenameAfterSlash(dir, slug + ".html");
    ReplaceSkip(slug, ".html", ".html", "");
    ReplaceFront("", ".html", "");
    assert ".html" + "" == ".html";
  }

  // ----- Line-wise rewriting (`re.MULTILINE`, where `^` starts each line) -----

  /** The lines of `s`: its pieces between newlines. */
  function Lines(s: string): seq<string> {
    Split(s, "\n")
  }

  /** No line holds a newline. */
  lemma LinesFree(s: string)
    ensures forall k :: 0 <= k < |Lines(s)| ==> '\n' !in Lines(s)[k]
  {
    SplitPiecesFree(s, "\n");
    forall k | 0 <= k < |Lines(s)|
      ensures '\n' !in Lines(s)[k]
    {
      ContainsChar(Lines(s)[k], '\n');
    }
  }

  /** `f` applied to each of the lines `ls`. */
  function MapAll(f: string -> string, ls: seq<string>): seq<string> {
    seq(|ls|, k requires 0 <= k < |ls| => f(ls[k]))
  }

  /** `s` with `f` applied to each of its lines. */
  function MapLines(f: string -> string, s: string): string {
    Join("\n", MapAll(f, Lines(s)))
  }

  /** When `f` keeps lines free of newlines, the lines of the result are the
      images of the lines of `s`, one for one. */
  lemma MapLinesLines(f: string -> string, s: string)
    requires forall k :: 0 <= k < |Lines(s)| ==> '\n' !in f(Lines(s)[k])
    ensures |Lines(MapLines(f, s))| == |Lines(s)|
    ensures forall k :: 0 <= k < |Lines(s)| ==> Lines(MapLines(f, s))[k] == f(Lines(s)[k])
  {
    JoinSplitChar('\n', MapAll(f, Lines(s)));
  }

  // ----- `SPACES_REGEX`: `^ +` replaced by nothing -----

  /** A line without the spaces that open it. */
  function DropSpaces(line: string): (r: string)
    ensures r == [] || r[0] != ' '
    ensures IsSuffix(r, line)
    ensures forall k :: 0 <= k < |line| - |r| ==> line[k] == ' '
  {
    if line != [] && line[0] == ' ' then
      var r := DropSpaces(line[1..]);
      DropIsSuffix(line, 1);
      SuffixTrans(r, line[1..], line);
      r
    else
      DropIsSuffix(line, 0);
      line
  }

  /** `re.sub(SPACES_REGEX, '', s)` */
  function StripLineSpaces(s: string): string {
    MapLines(DropSpaces, s)
  }

  lemma {:induction false} DropSpacesKeepsFree(x: string)
    ensures '\n' !in x ==> '\n' !in DropSpaces(x)
  {
    if x != [] && x[0] == ' ' {
      DropSpacesKeepsFree(x[1..]);
    }
  }

  /** The lines of `s` lose their opening spaces and stay lines. */
  lemma StripLineSpacesLines(s: string)
    ensures |Lines(StripLineSpaces(s))| == |Lines(s)|
    ensures forall k :: 0 <= k < |Lines(s)| ==> Lines(StripLineSpaces(s))[k] == DropSpaces(Lines(s)[k])
  {
    forall k | 0 <= k < |Lines(s)|
      ensures '\n' !in DropSpaces(Lines(s)[k])
    {
      LinesFree(s);
      DropSpacesKeepsFree(Lines(s)[k]);
    }
    MapLinesLines(DropSpaces, s);
  }

  /** After the rewrite no line begins with a space. */
  lemma NoLineStartsWithSpace(s: string)
    ensures forall k :: 0 <= k < |Lines(StripLineSpaces(s))| ==>
      Lines(StripLineSpaces(s))[k] == [] || Lines(StripLineSpaces(s))[k][0] != ' '
  {
    StripLineSpacesLines(s);
  }

  lemma DropSpacesIdempotent(x: string)
    ensures DropSpaces(DropSpaces(x)) == DropSpaces(x)
  {
  }

  /** Applying the rewrite a second time changes nothing. */
  lemma StripLineSpacesIdempotent(s: string)
    ensures StripLineSpaces(StripLineSpaces(s)) == StripLineSpaces(s)
  {
    var t := StripLineSpaces(s);
    StripLineSpacesLines(s);
    var ls, lt := Lines(s), Lines(t);
    var once, twice := MapAll(DropSpaces, ls), MapAll(DropSpaces, lt);
    forall k | 0 <= k < |once|
      ensures twice[k] == once[k]
    {
      DropSpacesIdempotent(ls[k]);
    }
    assert twice == once;
  }

  // ----- `NOTES_REGEX`: `^(\d+)\.` replaced by `[^\1]: ` -----

  /** The decimal digits that open `s` (the greedy `\d+`). */
  function DigitPrefix(s: string): (r: string)
    ensures AllDecimal(r)
    ensures IsPrefix(r, s)
    ensures |r| < |s| ==> !IsDecimal(s[|r|])
  {
    if s != [] && IsDecimal(s[0]) then [s[0]] + DigitPrefix(s[1..]) else []
  }

  /** The digits of `d + rest` are `d` when `rest` does not open with one. */
  lemma {:induction false} DigitPrefixOf(d: string, rest: string)
    requires AllDecimal(d)
    requires rest == [] || !IsDecimal(rest[0])
    ensures DigitPrefix(d + rest) == d
  {
    if d != [] {
      assert (d + rest)[1..] == d[1..] + rest;
      DigitPrefixOf(d[1..], rest);
      assert d == [d[0]] + d[1..];
    } else {
      assert d + rest == rest;
    }
  }

  /** The line opens with digits followed by a dot. */
  predicate NumberedLine(line: string) {
    var d := DigitPrefix(line);
    d != [] && |d| < |line| && line[|d|] == '.'
  }

  /** `NOTES_REGEX` on one line. */
  function NumberLine(line: string): string {
    var d := DigitPrefix(line);
    if d != [] && |d| < |line| && line[|d|] == '.' then "[^" + d + "]: " + line[|d| + 1..] else line
  }

  /** A line changes exactly when it opens with digits and a dot. */
  lemma NumberLineChanges(line: string)
    ensures NumberLine(line) != line <==> NumberedLine(line)
  {
    if NumberedLine(line) {
      assert NumberLine(line)[0] == '[';
      assert IsDecimal(line[0]);
    }
  }

  /** `{digits}.{text}` becomes `[^{digits}]: {text}`. */
  lemma NumberLineRewrites(d: string, text: string)
    requires d != [] && AllDecimal(d)
    ensures NumberLine(d + "." + text) == "[^" + d + "]: " + text
  {
    DigitPrefixOf(d, "." + text);
    assert d + "." + text == d + ("." + text);
    assert (d + "." + text)[|d| + 1..] == text;
  }

  /** `\d` is not only ASCII: a line opening with an Arabic-Indic three is
      numbered too. */
  lemma NumberLineArabicIndic()
    ensures NumberLine("\U{663}.Note") == "[^\U{663}]: Note"
  {
    NumberLineRewrites("\U{663}", "Note");
  }

  /** `re.sub(NOTES_REGEX, '[^\\1]: ', s)` */
  function NumberLines(s: string): string {
    MapLines(NumberLine, s)
  }

  // ----- `NOTES_REGEX2`: `\[(\d+)\]\(/#note\d+\)` replaced by `[^\1]` -----

  /** The part of an inline note link between its two numbers. */
  const LINK_MIDDLE: string := "](/#note"

  /** A match of `NOTE_NUMBER2` at the front of `s`: the first number and the
      length of the match. */
  function LinkMatch(s: string): (r: Option<(string, nat)>)
    ensures r.Some? ==> 0 < r.value.1 <= |s|
  {
    if s == [] || s[0] != '[' then None
    else
      var d1 := DigitPrefix(s[1..]);
      var afterD1 := 1 + |d1|;
      if d1 == [] || !OccursAt(s, LINK_MIDDLE, afterD1) then None
      else
        var d2 := DigitPrefix(s[afterD1 + |LINK_MIDDLE|..]);
        var close := afterD1 + |LINK_MIDDLE| + |d2|;
        if d2 == [] || close >= |s| || s[close] != ')' then None
        else Some((d1, close + 1))
  }

  /** `re.sub(NOTES_REGEX2, '[^\\1]', s)`: matches are looked for left to
      right, each replaced by its first number as a footnote marker. */
  function RewriteLinks(s: string): string
    decreases |s|
  {
    if s == [] then ""
    else match LinkMatch(s)
      case Some((d, n)) => "[^" + d + "]" + RewriteLinks(s[n..])
      case None => [s[0]] + RewriteLinks(s[1..])
  }

  /** The inline link `[{n}](/#note{m})`. */
  function NoteLink(n: string, m: string): string {
    "[" + n + LINK_MIDDLE + m + ")"
  }

  /** A note link at the front is matched, with its first number. */
  lemma LinkMatchOf(n: string, m: string, rest: string)
    requires n != [] && AllDecimal(n) && m != [] && AllDecimal(m)
    ensures LinkMatch(NoteLink(n, m) + rest) == Some((n, |NoteLink(n, m)|))
  {
    var s := NoteLink(n, m) + rest;
    var tail := LINK_MIDDLE + m + ")" + rest;
    LinkParts(n, LINK_MIDDLE, m, rest);
    assert tail[0] == ']';
    DigitPrefixOf(n, tail);
    DigitPrefixOf(m, ")" + rest);
    LinkMatchAt(s, n, m);
  }

  /** Where the pieces of a link sit in it. */
  lemma LinkParts(n: string, mid: string, m: string, rest: string)
    ensures var s := "[" + n + mid + m + ")" + rest;
      s[0] == '[' && s[1..] == n + (mid + m + ")" + rest) &&
      s[1 + |n|..1 + |n| + |mid|] == mid && s[1 + |n| + |mid|..] == m + (")" + rest) &&
      1 + |n| + |mid| + |m| < |s| && s[1 + |n| + |mid| + |m|] == ')'
  {
    var s := "[" + n + mid + m + ")" + rest;
    assert s == "[" + (n + (mid + (m + (")" + rest))));
  }

  /** The scan of `LinkMatch`, given what it finds at each step. */
  lemma LinkMatchAt(s: string, n: string, m: string)
    requires s != [] && s[0] == '['
    requires n != [] && DigitPrefix(s[1..]) == n
    requires OccursAt(s, LINK_MIDDLE, 1 + |n|)
    requires m != [] && DigitPrefix(s[1 + |n| + |LINK_MIDDLE|..]) == m
    requires 1 + |n| + |LINK_MIDDLE| + |m| < |s| && s[1 + |n| + |LINK_MIDDLE| + |m|] == ')'
    ensures LinkMatch(s) == Some((n, 1 + |n| + |LINK_MIDDLE| + |m| + 1))
  {
  }

  /** `[{n}](/#note{m})` becomes `[^{n}]`, keeping the first number; the
      scan goes on after the link. */
  lemma RewriteNoteLink(n: string, m: string, rest: string)
    requires n != [] && AllDecimal(n) && m != [] && AllDecimal(m)
    ensures RewriteLinks(NoteLink(n, m) + rest) == "[^" + n + "]" + RewriteLinks(rest)
  {
    LinkMatchOf(n, m, rest);
    assert (NoteLink(n, m) + rest)[|NoteLink(n, m)|..] == rest;
  }

  /** The numbers of an inline note link may be any decimal digits too. */
  lemma RewriteNoteLinkArabicIndic(rest: string)
    ensures RewriteLinks(NoteLink("\U{663}", "\U{663}") + rest) == "[^\U{663}]" + RewriteLinks(rest)
  {
    RewriteDigitLink('\U{663}', rest);
  }

  /** A link numbered with one decimal digit `c` becomes `[^c]`. */
  lemma RewriteDigitLink(c: char, rest: string)
    requires IsDecimal(c)
    ensures RewriteLinks(NoteLink([c], [c]) + rest) == "[^" + [c] + "]" + RewriteLinks(rest)
  {
    RewriteNoteLink([c], [c], rest);
  }

  /** Text without `[` passes through unchanged. */
  lemma {:induction false} RewriteLinksPlain(x: string, y: string)
    requires '[' !in x
    ensures RewriteLinks(x + y) == x + RewriteLinks(y)
    decreases |x|
  {
    if x != [] {
      assert (x + y)[0] == x[0];
      assert (x + y)[1..] == x[1..] + y;
      RewriteLinksPlain(x[1..], y);
      assert x == [x[0]] + x[1..];
    } else {
      assert x + y == y;
    }
  }

  // ----- The body, the notes and the content -----

  /** The body after lines 59-60: spaces first, then the links. */
  function BodyText(body: string): string {
    RewriteLinks(StripLineSpaces(body))
  }

  /** The notes after lines 63-65: blank lines, then numbers, then spaces. */
  function NotesText(notes: string): string {
    StripLineSpaces(NumberLines(Replace(notes, "\n\n", "\n")))
  }

  /** The text between the body and the notes. */
  const REFERENCES: string := "\n\n## References\n\n"

  /** `'{body}\n\n## References\n\n{notes}'` */
  const CONTENT_TEMPLATE: Template := Field("body", Lit(REFERENCES, Field("notes", End)))

  /** The template puts the body, the heading and the notes in a row. */
  lemma ContentFormat(body: string, notes: string)
    ensures Format(CONTENT_TEMPLATE, map["body" := body, "notes" := notes]) == Ok(body + REFERENCES + notes)
  {
    var args := map["body" := body, "notes" := notes];
    var tail := Field("notes", End);
    assert Fields(CONTENT_TEMPLATE) == {"body", "notes"};
    assert Fill(tail, args) == notes + Fill(End, args) == notes;
    assert Fill(Lit(REFERENCES, tail), args) == REFERENCES + notes;
    assert Fill(CONTENT_TEMPLATE, args) == body + (REFERENCES + notes);
    ConcatAssoc(body, REFERENCES, notes);
  }

  /** What is written for a talk: the template filled with both parts stripped. */
  function Content(body: string, notes: string): string {
    Strip(BodyText(body)) + REFERENCES + Strip(NotesText(notes))
  }

  /** The content is `CONTENT_TEMPLATE` formatted with the stripped body and
      the stripped notes. */
  lemma ContentIsFormat(body: string, notes: string)
    ensures Format(CONTENT_TEMPLATE, map["body" := Strip(BodyText(body)), "notes" := Strip(NotesText(notes))]) == Ok(Content(body, notes))
  {
    ContentFormat(Strip(BodyText(body)), Strip(NotesText(notes)));
  }

  /** The newline rule is one left-to-right pass without overlap: three
      newlines become two, which still make a blank line. */
  lemma NewlineCollapseOnePass()
    ensures Replace("\n\n\n", "\n\n", "\n") == "\n\n"
  {
    ReplaceFront("\n", "\n\n", "\n");
    assert "\n\n" + "\n" == "\n\n\n";
  }

  /** A one-line note without a newline is its own only line. */
  lemma OneLine(s: string, f: string -> string)
    requires '\n' !in s
    ensures MapLines(f, s) == f(s)
  {
    ContainsChar(s, '\n');
    assert Lines(s) == [s];
  }

  /** A one-line note holds no blank line. */
  lemma OneLineNoBlank(s: string)
    requires '\n' !in s
    ensures Replace(s, "\n\n", "\n") == s
  {
    ContainsFirst(s, "\n\n");
    ReplaceAbsent(s, "\n\n", "\n");
  }

  /** A one-line note whose number rewrite gives a line `r` that opens
      with no space comes out as `r`. */
  lemma OneLineNote(s: string, r: string)
    requires '\n' !in s && '\n' !in r && NumberLine(s) == r
    requires r == [] || r[0] != ' '
    ensures NotesText(s) == r
  {
    OneLineNoBlank(s);
    OneLine(s, NumberLine);
    OneLine(r, DropSpaces);
  }

  /** A one-line note `{digits}.{text}` gets its footnote label. */
  lemma NumberedNote(d: string, text: string)
    requires d != [] && AllDecimal(d) && '\n' !in text
    ensures NotesText(d + "." + text) == "[^" + d + "]: " + text
  {
    DecimalsLack(d, '\n');
    NumberLineRewrites(d, text);
    OneLineNote(d + "." + text, "[^" + d + "]: " + text);
  }

  /** An indented one-line note `x` that does not open with a space loses
      only its indent: a line opening with a space is not numbered. */
  lemma IndentedLine(x: string)
    requires '\n' !in x && (x == [] || x[0] != ' ')
    ensures NotesText(" " + x) == x
  {
    var s := " " + x;
    OneLineNoBlank(s);
    OneLine(s, NumberLine);
    assert NumberLine(s) == s by {
      assert DigitPrefix(s) == [];
    }
    OneLine(s, DropSpaces);
    assert s[1..] == x;
    assert DropSpaces(x) == x;
  }

  /** The spaces are stripped after the numbers are rewritten, so an indented
      numbered note line keeps its number as it is. */
  lemma IndentedNoteKeepsNumber(d: string, text: string)
    requires d != [] && AllDecimal(d) && '\n' !in text
    ensures NotesText(" " + d + "." + text) == d + "." + text
  {
    DecimalsLack(d, '\n');
    DecimalsLack(d, ' ');
    assert d[0] in d;
    Regroup3(" ", d, ".", text);
    IndentedLine(d + "." + text);
  }

  // ----- `convert_talks` -----

  /** An html file of the folder, as the loop sees it: its name, and the
      Markdown that markdownify makes of its article and of its notes panel. */
  datatype HtmlTalk = HtmlTalk(name: string, article: string, notesPanel: string)

  /** The file written for one html file. */
  function Converted(year: string, month: string, lang: string, h: HtmlTalk): File {
    File(MdPath(year, month, lang, HtmlDir(year, month, lang) + h.name), Content(h.article, h.notesPanel))
  }

  /** `convert_talks`: `listing` is what `os.scandir(html_dir)` gives, `None`
      when the html folder does not exist. One Markdown file per html file,
      in listing order; a missing folder raises `FileNotFoundError` before
      anything is written. */
  method ConvertTalks(year: string, month: string, lang: string, listing: Option<seq<HtmlTalk>>) returns (run: Run<File>)
    ensures listing.None? ==> run == Run([], Some(FileNotFoundError(HtmlDir(year, month, lang))))
    ensures listing.Some? ==> run == Run(MapSeq(h => Converted(year, month, lang, h), listing.value), None)
    ensures run.error.Some? <==> listing.None?
    ensures listing.Some? ==> (|run.written| == |listing.value| &&
      forall k :: 0 <= k < |listing.value| ==> run.written[k] == Converted(year, month, lang, listing.value[k]))
  {
    if listing.None? {
      return Run([], Some(FileNotFoundError(HtmlDir(year, month, lang))));
    }
    var written := ConvertListed(year, month, lang, listing.value);
    return Run(written, None);
  }

  /** The loop of `convert_talks` over the listed html files. */
  method ConvertListed(year: string, month: string, lang: string, talks: seq<HtmlTalk>) returns (written: seq<File>)
    ensures written == MapSeq(h => Converted(year, month, lang, h), talks)
    ensures |written| == |talks|
    ensures forall k :: 0 <= k < |talks| ==> written[k] == Converted(year, month, lang, talks[k])
  {
    var convert := h => Converted(year, month, lang, h);
    written := [];
    for i := 0 to |talks|
      invariant written == MapSeq(convert, talks[..i])
    {
      assert talks[..i + 1][..i] == talks[..i];
      written := written + [convert(talks[i])];
    }
    assert talks[..|talks|] == talks;
    MapSeqAt(convert, talks);
  }
}
