/** convert.py: every file of a directory whose name holds `.text` is turned
    into an xhtml page. The page is the template with `{{ body }}` replaced by
    the rendered Markdown, then `{{ title }}` by the title read off the body's
    first line, then `{{ type }}` by `chapter`; it is written next to the Markdown
    file under the same name with the extension `.xhtml`. The directory listing is
    an input, and each listed file comes with the XHTML that the `markdown`
    package renders from its text. */
module Convert {
  import opened Wrappers
  import opened Seqs
  import opened PyStr

  /** A listed file: its name and the rendering of its text. */
  datatype Entry = Entry(name: string, body: string)

  // ----- The input filter -----

  /** `[x for x in file_names if ".text" in x]` */
  function TextEntries(entries: seq<Entry>): seq<Entry> {
    if entries == [] then []
    else (if Contains(entries[0].name, ".text") then [entries[0]] else []) + TextEntries(entries[1..])
  }

  /** A file is converted exactly when its name contains `.text`. */
  lemma {:induction false} TextEntriesMember(entries: seq<Entry>, e: Entry)
    ensures e in TextEntries(entries) <==> e in entries && Contains(e.name, ".text")
  {
    if entries != [] {
      TextEntriesMember(entries[1..], e);
      assert entries == [entries[0]] + entries[1..];
    }
  }

  // ----- The output name -----

  /** `os.path.join(directory, name + ".xhtml")` with `name` from `splitext`. */
  function OutputPath(directory: string, fileName: string): string {
    PathJoin(directory, SplitExt(fileName).0 + ".xhtml")
  }

  /** `splitext` takes `.text` off a plain stem. */
  lemma SplitTextExt(stem: string)
    requires stem != [] && '.' !in stem && '/' !in stem
    ensures SplitExt(stem + ".text") == (stem, ".text")
  {
    var p := stem + ".text";
    assert '/' !in p;
    assert RFind(p, '/') == -1;
    assert p[|stem|] == '.';
    assert forall k :: |stem| < k < |p| ==> p[k] != '.';
    assert RFind(p, '.') == |stem|;
    assert p[0] != '.';
    assert p[..|stem|] == stem && p[|stem|..] == ".text";
  }

  /** The file `{stem}.text` of the directory `d` becomes `d/{stem}.xhtml`. */
  lemma OutputPathOfText(d: string, stem: string)
    requires d != [] && d[|d| - 1] != '/'
    requires stem != [] && '.' !in stem && '/' !in stem
    ensures OutputPath(d, stem + ".text") == d + "/" + stem + ".xhtml"
  {
    SplitTextExt(stem);
    assert (stem + ".xhtml")[0] == stem[0];
  }

  // ----- The title -----

  /** The separator in the first line, between the author and the title. */
  const BR: string := "<br />"

  /** The heading's closing tag, removed before the split. */
  const H1_END: string := "</h1>"

  /** `first_line.replace("</h1>", "")` of the body. */
  function Heading(body: string): string {
    Replace(Split(body, "\n")[0], H1_END, "")
  }

  /** `body.split('\n')[0].replace("</h1>", "").split("<br />")[1]`, or the
      IndexError of a first line without `<br />`. */
  function Title(body: string): Result<string> {
    var parts := Split(Heading(body), BR);
    if |parts| < 2 then Err(IndexError("list index out of range")) else Ok(parts[1])
  }

  /** The title is found exactly when the first line holds `<br />`. */
  lemma TitleFails(body: string)
    ensures Title(body).Ok? <==> Contains(Heading(body), BR)
  {
    var h := Heading(body);
    match Find(h, BR)
    case None =>
    case Some(i) =>
      SplitSome(h, BR, i);
  }

  /** No `c0` in `x` is followed by `c1`, and none ends `x`: no two-character
      pattern opening `c0 c1` can start inside `x`. */
  predicate NoStartIn(x: string, c0: char, c1: char) {
    forall i :: 0 <= i < |x| ==> x[i] != c0 || (i + 1 < |x| && x[i + 1] != c1)
  }

  lemma NoStartConcat(a: string, b: string, c0: char, c1: char)
    requires NoStartIn(a, c0, c1) && NoStartIn(b, c0, c1)
    ensures NoStartIn(a + b, c0, c1)
  {
    var s := a + b;
    forall i | 0 <= i < |s|
      ensures s[i] != c0 || (i + 1 < |s| && s[i + 1] != c1)
    {
      if i < |a| {
        assert s[i] == a[i];
        assert a[i] != c0 || (i + 1 < |a| && a[i + 1] != c1);
        if i + 1 < |a| {
          assert s[i + 1] == a[i + 1];
        }
      } else {
        assert s[i] == b[i - |a|];
        assert b[i - |a|] != c0 || (i - |a| + 1 < |b| && b[i - |a| + 1] != c1);
        if i + 1 < |s| {
          assert s[i + 1] == b[i + 1 - |a|];
        }
      }
    }
  }

  /** A pattern opening `c0 c1` occurs nowhere inside `x`. */
  lemma NoStartNoOccurrence(x: string, pat: string, y: string)
    requires |pat| >= 2 && NoStartIn(x, pat[0], pat[1])
    ensures forall i: nat :: i < |x| ==> !OccursAt(x + pat + y, pat, i)
  {
    var s := x + pat + y;
    forall i: nat | i < |x|
      ensures !OccursAt(s, pat, i)
    {
      assert s[i] == x[i];
      assert x[i] != pat[0] || (i + 1 < |x| && x[i + 1] != pat[1]);
      if i + 1 < |x| {
        assert s[i + 1] == x[i + 1];
      }
      if s[i] != pat[0] {
        Mismatch(s, pat, i, 0);
      } else {
        Mismatch(s, pat, i, 1);
      }
    }
  }

  /** `<h1>` and an author without `<`: only `<h` starts there. */
  lemma OpeningNoStart(author: string, c1: char)
    requires '<' !in author && c1 != 'h'
    ensures NoStartIn("<h1>" + author, '<', c1)
  {
    assert NoStartIn("<h1>", '<', c1) by {
      assert "<h1>"[1] == 'h';
    }
    NoStartConcat("<h1>", author, '<', c1);
  }

  /** The heading line without `<` in the author and the title. */
  lemma HeadingNoStart(author: string, title: string, c1: char)
    requires '<' !in author && '<' !in title && c1 != 'h' && c1 != 'b'
    ensures NoStartIn("<h1>" + author + BR + title, '<', c1)
  {
    OpeningNoStart(author, c1);
    assert NoStartIn(BR, '<', c1) by {
      assert BR[1] == 'b';
    }
    NoStartConcat("<h1>" + author, BR, '<', c1);
    NoStartConcat("<h1>" + author + BR, title, '<', c1);
  }

  /** The heading line `<h1>{author}<br />{title}</h1>` loses its closing tag. */
  lemma HeadingOfLine(author: string, title: string)
    requires '<' !in author && '<' !in title
    ensures Replace("<h1>" + author + BR + title + H1_END, H1_END, "") == "<h1>" + author + BR + title
  {
    var x := "<h1>" + author + BR + title;
    HeadingNoStart(author, title, '/');
    NoStartNoOccurrence(x, H1_END, "");
    ReplaceAtEnd(x, H1_END, "");
    assert x + "" == x;
  }

  /** From such a heading the title is the part after `<br />`. */
  lemma TitleOfHeading(author: string, title: string)
    requires '<' !in author && '<' !in title
    ensures Split("<h1>" + author + BR + title, BR) == ["<h1>" + author, title]
  {
    OpeningNoStart(author, 'b');
    NoStartNoOccurrence("<h1>" + author, BR, title);
    SplitAfter("<h1>" + author, BR, title);
    ContainsFirst(title, BR);
    FindSpec(title, BR);
    assert Split(title, BR) == [title];
  }

  /** The first line `<h1>{author}<br />{title}</h1>` gives the title, whatever
      follows it. */
  lemma TitleOf(author: string, title: string, rest: string)
    requires '<' !in author && '<' !in title && '\n' !in author && '\n' !in title
    ensures Title("<h1>" + author + BR + title + H1_END + "\n" + rest) == Ok(title)
  {
    var line := "<h1>" + author + BR + title + H1_END;
    assert '\n' !in line;
    SplitAtFirst(line, '\n', rest);
    HeadingOfLine(author, title);
    TitleOfHeading(author, title);
  }

  // ----- The page -----

  const BODY_MARK: string := "{{ body }}"
  const TITLE_MARK: string := "{{ title }}"
  const TYPE_MARK: string := "{{ type }}"

  /** The three replacements, in the order of lines 28-30. */
  function Page(template: string, body: string, title: string): string {
    Replace(Replace(Replace(template, BODY_MARK, body), TITLE_MARK, title), TYPE_MARK, "chapter")
  }

  /** A character that cannot start `p` is passed over by the replacement. */
  lemma ReplaceOver(s: string, p: string, rep: string)
    requires p != [] && s != [] && !OccursAt(s, p, 0)
    ensures Replace(s, p, rep) == [s[0]] + Replace(s[1..], p, rep)
  {
  }

  /** A prefix without `{` is copied, then the mark is replaced. */
  lemma ReplaceAt(x: string, mark: string, rep: string, y: string)
    requires mark != [] && mark[0] !in x
    ensures Replace(x + mark + y, mark, rep) == x + rep + Replace(y, mark, rep)
  {
    calc {
      Replace(x + mark + y, mark, rep);
      { assert x + mark + y == x + (mark + y); }
      Replace(x + (mark + y), mark, rep);
      { ReplaceSkip(x, mark + y, mark, rep); }
      x + Replace(mark + y, mark, rep);
      { ReplaceFront(y, mark, rep); }
      x + (rep + Replace(y, mark, rep));
    }
  }

  /** Text without `{` is left alone by a replacement of a mark. */
  lemma Plain(s: string, mark: string, rep: string)
    requires mark != [] && mark[0] == '{' && '{' !in s
    ensures Replace(s, mark, rep) == s
  {
    ContainsFirst(s, mark);
    ReplaceAbsent(s, mark, rep);
  }

  /** A placeholder: it opens `{{` and holds no other `{`. */
  predicate IsMark(m: string) {
    |m| >= 3 && m[0] == '{' && m[1] == '{' && '{' !in m[2..]
  }

  lemma Marks()
    ensures IsMark(BODY_MARK) && IsMark(TITLE_MARK) && IsMark(TYPE_MARK)
    ensures TITLE_MARK[3] != BODY_MARK[3] && TYPE_MARK[4] != BODY_MARK[4] && TYPE_MARK[4] != TITLE_MARK[4]
  {
  }

  /** Another mark is copied by a replacement of `pat`, from which it differs at `k`. */
  lemma OtherMark(m: string, pat: string, rep: string, y: string, k: nat)
    requires IsMark(m) && IsMark(pat) && k < |m| && k < |pat| && m[k] != pat[k]
    ensures Replace(m + y, pat, rep) == m + Replace(y, pat, rep)
  {
    var s := m + y;
    assert s[k] == m[k];
    Mismatch(s, pat, 0, k);
    ReplaceOver(s, pat, rep);
    var t := s[1..];
    assert t == m[1..] + y;
    assert t[1] == m[2] != '{';
    Mismatch(t, pat, 0, 1);
    ReplaceOver(t, pat, rep);
    assert t[1..] == m[2..] + y;
    ReplaceSkip(m[2..], y, pat, rep);
    assert m == [m[0]] + ([m[1]] + m[2..]);
  }

  /** Text without `{` and then another mark are copied by a replacement of `pat`. */
  lemma PassMark(x: string, m: string, y: string, pat: string, rep: string, k: nat)
    requires '{' !in x && IsMark(m) && IsMark(pat) && k < |m| && k < |pat| && m[k] != pat[k]
    ensures Replace(x + (m + y), pat, rep) == x + (m + Replace(y, pat, rep))
  {
    ReplaceSkip(x, m + y, pat, rep);
    OtherMark(m, pat, rep, y, k);
  }

  /** Replacing the first of three marks in text without `{`. */
  lemma FirstOfThree(p: string, m: string, q: string, n: string, r: string, o: string, s: string,
                     rep: string, kn: nat, ko: nat)
    requires '{' !in p && '{' !in q && '{' !in r && '{' !in s
    requires IsMark(m) && IsMark(n) && IsMark(o)
    requires kn < |n| && kn < |m| && n[kn] != m[kn] && ko < |o| && ko < |m| && o[ko] != m[ko]
    ensures Replace(p + m + (q + (n + (r + (o + s)))), m, rep) == p + rep + (q + (n + (r + (o + s))))
  {
    var v := r + (o + s);
    var w := q + (n + v);
    ReplaceAt(p, m, rep, w);
    PassMark(q, n, v, m, rep, kn);
    PassMark(r, o, s, m, rep, ko);
    Plain(s, m, rep);
  }

  /** Replacing `{{ body }}`: text without `{` around the other two marks stays. */
  lemma BodyStage(p: string, q: string, r: string, s: string, body: string)
    requires '{' !in p && '{' !in q && '{' !in r && '{' !in s
    ensures Replace(p + BODY_MARK + (q + (TITLE_MARK + (r + (TYPE_MARK + s)))), BODY_MARK, body)
         == p + body + (q + (TITLE_MARK + (r + (TYPE_MARK + s))))
  {
    Marks();
    FirstOfThree(p, BODY_MARK, q, TITLE_MARK, r, TYPE_MARK, s, body, 3, 4);
  }

  /** Replacing `{{ title }}` after the body has gone in. */
  lemma TitleStage(x: string, r: string, s: string, title: string)
    requires '{' !in x && '{' !in r && '{' !in s
    ensures Replace(x + TITLE_MARK + (r + (TYPE_MARK + s)), TITLE_MARK, title)
         == x + title + (r + (TYPE_MARK + s))
  {
    Marks();
    ReplaceAt(x, TITLE_MARK, title, r + (TYPE_MARK + s));
    PassMark(r, TYPE_MARK, s, TITLE_MARK, title, 4);
    Plain(s, TITLE_MARK, title);
  }

  /** Replacing `{{ type }}` by `chapter` last. */
  lemma TypeStage(x: string, s: string)
    requires '{' !in x && '{' !in s
    ensures Replace(x + TYPE_MARK + s, TYPE_MARK, "chapter") == x + "chapter" + s
  {
    ReplaceAt(x, TYPE_MARK, "chapter", s);
    Plain(s, TYPE_MARK, "chapter");
  }

  /** Each placeholder of the template is filled: a template
      `p{{ body }}q{{ title }}r{{ type }}s` becomes `p body q title r chapter s`. */
  lemma PageFills(p: string, q: string, r: string, s: string, body: string, title: string)
    requires '{' !in p && '{' !in q && '{' !in r && '{' !in s && '{' !in body && '{' !in title
    ensures Page(p + BODY_MARK + q + TITLE_MARK + r + TYPE_MARK + s, body, title)
         == p + body + q + title + r + "chapter" + s
  {
    var t := p + BODY_MARK + q + TITLE_MARK + r + TYPE_MARK + s;
    assert t == p + BODY_MARK + (q + (TITLE_MARK + (r + (TYPE_MARK + s))));
    BodyStage(p, q, r, s, body);
    var x := p + body + q;
    assert '{' !in x;
    assert p + body + (q + (TITLE_MARK + (r + (TYPE_MARK + s)))) == x + TITLE_MARK + (r + (TYPE_MARK + s));
    TitleStage(x, r, s, title);
    var z := x + title + r;
    assert '{' !in z;
    assert x + title + (r + (TYPE_MARK + s)) == z + TYPE_MARK + s;
    TypeStage(z, s);
  }

  /** The body goes in first, so a `{{ title }}` it holds is replaced too. */
  lemma TitleMarkInBodyReplaced(x: string, y: string, title: string)
    requires '{' !in x && '{' !in y && '{' !in title
    ensures Page(BODY_MARK, x + TITLE_MARK + y, title) == x + title + y
  {
    ReplaceFront("", BODY_MARK, x + TITLE_MARK + y);
    assert BODY_MARK + "" == BODY_MARK;
    assert (x + TITLE_MARK + y) + "" == x + TITLE_MARK + y;
    ReplaceAt(x, TITLE_MARK, title, y);
    Plain(y, TITLE_MARK, title);
    assert '{' !in x + title + y;
    Plain(x + title + y, TYPE_MARK, "chapter");
  }

  // ----- `main` -----

  /** The page written for one file, or the error its title raises. */
  function Converted(directory: string, template: string, e: Entry): Result<File> {
    match Title(e.body)
    case Err(err) => Err(err)
    case Ok(title) => Ok(File(OutputPath(directory, e.name), Page(template, e.body, title)))
  }

  /** `main(args)`: `listing` is what `os.listdir(directory)` gives and
      `template` the text of the file at `templatePath`, each `None` when it
      does not exist. The folder is listed first, then the template read, then
      one page written per `.text` file, up to the first error. */
  function MainRun(directory: string, templatePath: string, listing: Option<seq<Entry>>, template: Option<string>): Run<File> {
    if listing.None? then Run([], Some(FileNotFoundError(directory)))
    else if template.None? then Run([], Some(FileNotFoundError(templatePath)))
    else RunAll(e => Converted(directory, template.value, e), TextEntries(listing.value))
  }

  method ConvertDirectory(directory: string, templatePath: string, listing: Option<seq<Entry>>, template: Option<string>)
    returns (run: Run<File>)
    ensures run == MainRun(directory, templatePath, listing, template)
  {
    if listing.None? {
      return Run([], Some(FileNotFoundError(directory)));
    }
    if template.None? {
      return Run([], Some(FileNotFoundError(templatePath)));
    }
    run := ConvertFiles(directory, template.value, TextEntries(listing.value));
  }

  /** The loop of `main(args)` over the `.text` files. */
  method ConvertFiles(directory: string, template: string, files: seq<Entry>) returns (run: Run<File>)
    ensures run == RunAll(e => Converted(directory, template, e), files)
  {
    var convert := e => Converted(directory, template, e);
    var written: seq<File> := [];
    for i := 0 to |files|
      invariant RunAll(convert, files) == After(written, RunAll(convert, files[i..]))
    {
      assert files[i..][1..] == files[i + 1..] && files[i..][0] == files[i];
      var e := files[i];
      var title := Title(e.body);
      if title.Err? {
        AfterStop(convert, files[i..], written);
        return Run(written, Some(title.error));
      }
      var page := Page(template, e.body, title.value);
      AfterStep(convert, files[i..], written, File(OutputPath(directory, e.name), page));
      written := written + [File(OutputPath(directory, e.name), page)];
    }
    assert files[|files|..] == [];
    AfterEnd(convert, written);
    return Run(written, None);
  }

  /** A missing folder or template is a `FileNotFoundError` naming it, before
      any page is written; no other error of the run is one. */
  lemma MainMissing(directory: string, templatePath: string, listing: Option<seq<Entry>>, template: Option<string>)
    ensures var run := MainRun(directory, templatePath, listing, template);
      (run.error.Some? && run.error.value.FileNotFoundError?) <==> (listing.None? || template.None?)
    ensures var run := MainRun(directory, templatePath, listing, template);
      (listing.None? ==> run == Run([], Some(FileNotFoundError(directory)))) &&
      (listing.Some? && template.None? ==> run == Run([], Some(FileNotFoundError(templatePath))))
  {
    if listing.Some? && template.Some? {
      ConvertStops(directory, template.value, listing.value);
    }
  }

  /** Each page written is the template filled for one `.text` file of the
      listing, saved next to it as `.xhtml`. */
  lemma ConvertedPage(directory: string, template: string, listing: seq<Entry>, k: nat)
    requires k < |RunAll(e => Converted(directory, template, e), TextEntries(listing)).written|
    ensures var files := TextEntries(listing);
      k < |files| && files[k] in listing && Contains(files[k].name, ".text") &&
      Title(files[k].body).Ok? &&
      RunAll(e => Converted(directory, template, e), files).written[k]
        == File(OutputPath(directory, files[k].name), Page(template, files[k].body, Title(files[k].body).value))
  {
    var files := TextEntries(listing);
    RunAllWrites(e => Converted(directory, template, e), files, k);
    assert files[k] in files;
    TextEntriesMember(listing, files[k]);
  }

  /** The run stops exactly when some `.text` file's first line lacks `<br />`,
      with the IndexError of the first such file; otherwise every file is written. */
  lemma ConvertStops(directory: string, template: string, listing: seq<Entry>)
    ensures var files := TextEntries(listing);
      var run := RunAll(e => Converted(directory, template, e), files);
      (run.error.Some? <==> exists k :: 0 <= k < |files| && !Contains(Heading(files[k].body), BR)) &&
      (run.error.None? ==> |run.written| == |files|) &&
      (run.error.Some? ==> |run.written| < |files| && !Contains(Heading(files[|run.written|].body), BR) &&
                           run.error == Some(IndexError("list index out of range")))
  {
    var f := e => Converted(directory, template, e);
    var files := TextEntries(listing);
    RunAllStops(f, files);
    RunAllStopsAt(f, files);
    forall k | 0 <= k < |files|
      ensures f(files[k]).Err? <==> !Contains(Heading(files[k].body), BR)
    {
      TitleFails(files[k].body);
    }
  }
}
