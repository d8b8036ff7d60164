/** The EPUB snippets of gc/templates.py. Each template is kept as the text
    between its fields, the `Template` that Python's `str.format` reads, and a
    function that fills it in; a lemma shows that the function is what
    `str.format` returns for those arguments, and further lemmas say which
    elements and attributes the filled-in text holds. */
module Templates {
  import opened Wrappers
  import opened PyFormat
  import opened PyStr
  import opened Seqs

  /** An XML attribute as the snippets write it, with a double-quoted value. */
  function Attr(name: string, value: string): string {
    name + "=\"" + value + "\""
  }

  /** `MIMETYPE` (gc/templates.py:12): the content of the `mimetype` file, written as it is. */
  const MIMETYPE: string := "application/epub+zip"

  /** The media type of every XHTML item. */
  const XHTML_MEDIA_TYPE: string := "application/xhtml+xml"
  /** Where the container says the package document is. */
  const ROOTFILE_FULL_PATH: string := "EPUB/package.opf"
  /** The media type of the package document. */
  const ROOTFILE_MEDIA_TYPE: string := "application/oebps-package+xml"
  /** The container's one rootfile element. */
  const CONTAINER_ROOTFILE: string := "<rootfile " + Attr("full-path", ROOTFILE_FULL_PATH) + " " + Attr("media-type", ROOTFILE_MEDIA_TYPE) + "/>"
  /** The manifest item of the title page. */
  const MANIFEST_TITLE_ITEM: string := "<item " + Attr("href", "xhtml/title.xhtml") + " " + Attr("id", "title") + " " + Attr("media-type", XHTML_MEDIA_TYPE) + "/>"
  /** The manifest item of the navigation document. */
  const MANIFEST_NAV_ITEM: string := "<item " + Attr("href", "xhtml/nav.xhtml") + " " + Attr("id", "nav") + " " + Attr("media-type", XHTML_MEDIA_TYPE) + " " + Attr("properties", "nav") + "/>"
  /** The spine itemref of the title page. */
  const SPINE_TITLE_REF: string := "<itemref " + Attr("idref", "title") + "/>"
  /** The spine itemref of the navigation document, outside the reading order. */
  const SPINE_NAV_REF: string := "<itemref " + Attr("idref", "nav") + " " + Attr("linear", "no") + "/>"

  /** The manifest element: the title item, then the nav item, then the generated items. */
  function ManifestElement(items: string): string {
    @"<manifest>
    " + MANIFEST_TITLE_ITEM + @"
    " + MANIFEST_NAV_ITEM + @"
    " + items + @"
</manifest>"
  }

  /** The spine element: the title itemref, then the nav itemref, then the generated itemrefs. */
  function SpineElement(refs: string): string {
    @"<spine>
    " + SPINE_TITLE_REF + @"
    " + SPINE_NAV_REF + @"
    " + refs + @"
</spine>"
  }

  // The text of `CONTAINER` (gc/templates.py:14-19) around its rootfile element.
  const CONTAINER_HEAD: string := @"<?xml version=""1.0"" encoding=""utf-8"" standalone=""no""?>
<container xmlns=""urn:oasis:names:tc:opendocument:xmlns:container"" version=""1.0"">
    <rootfiles>
        "
  const CONTAINER_TAIL: string := @"
    </rootfiles>
</container>"

  /** `CONTAINER`: `META-INF/container.xml`, written as it is. */
  const CONTAINER: string := CONTAINER_HEAD + CONTAINER_ROOTFILE + CONTAINER_TAIL

  /** The container holds the one rootfile element, which names the package
      document at `EPUB/package.opf` with the OPF media type. */
  lemma ContainerRootfile()
    ensures Contains(CONTAINER, "<rootfile " + Attr("full-path", "EPUB/package.opf") + " " + Attr("media-type", "application/oebps-package+xml") + "/>")
  {
    Infix(CONTAINER_HEAD, CONTAINER_ROOTFILE, CONTAINER_TAIL);
  }

  // The literal text of `PACKAGE_ITEM_LANG_PART` (gc/templates.py:48-49), between its fields.
  const PACKAGE_ITEM_LANG_PART_0: string := @"
    <item " + "href" + "=\"" + "xhtml/"
  const PACKAGE_ITEM_LANG_PART_1: string := ".xhtml" + "\"" + " " + "id" + "=\""
  const PACKAGE_ITEM_LANG_PART_2: string := "\"" + " " + Attr("media-type", XHTML_MEDIA_TYPE) + " />"

  /** `PACKAGE_ITEM_LANG_PART`, as `str.format` reads it. */
  const PACKAGE_ITEM_LANG_PART: Template :=
    Lit(PACKAGE_ITEM_LANG_PART_0, Field("lang", Lit(PACKAGE_ITEM_LANG_PART_1, Field("lang", Lit(PACKAGE_ITEM_LANG_PART_2, End)))))

  /** The manifest item of a language's part page. */
  function PackageItemLangPart(lang: string): string {
    @"
    <item " + Attr("href", "xhtml/" + lang + ".xhtml") + " " + Attr("id", lang) + " " + Attr("media-type", XHTML_MEDIA_TYPE) + " />"
  }

  lemma PackageItemLangPartShape(p0: string, p1: string, p2: string, lang: string)
    ensures Format(Lit(p0, Field("lang", Lit(p1, Field("lang", Lit(p2, End))))), map["lang" := lang]) == Ok(p0 + lang + p1 + lang + p2)
  {
    var t := Lit(p0, Field("lang", Lit(p1, Field("lang", Lit(p2, End)))));
    var args := map["lang" := lang];
    calc {
      Format(t, args);
      Emit(t, args, "");
      Emit(t.rest, args, "" + p0);
      Emit(t.rest.rest, args, "" + p0 + lang);
      Emit(t.rest.rest.rest, args, "" + p0 + lang + p1);
      Emit(t.rest.rest.rest.rest, args, "" + p0 + lang + p1 + lang);
      Emit(t.rest.rest.rest.rest.rest, args, "" + p0 + lang + p1 + lang + p2);
      Ok("" + p0 + lang + p1 + lang + p2);
      { assert "" + p0 == p0; }
      Ok(p0 + lang + p1 + lang + p2);
    }
  }

  lemma PackageItemLangPartPieces(t0: string, t1: string, t2: string, t3: string, t4: string, t5: string, t6: string, t7: string, t8: string, t9: string, lang: string)
    ensures (t0 + t1 + t2 + t3) + lang + (t4 + t5 + t6 + t7 + t2) + lang + (t5 + t6 + t8 + t9)
         == t0 + (t1 + t2 + (t3 + lang + t4) + t5) + t6 + (t7 + t2 + lang + t5) + t6 + t8 + t9
  {
    Regroup5(t0 + t1 + t2 + t3 + lang, t4, t5, t6, t7, t2);
    Regroup4(t0 + t1 + t2 + t3 + lang + t4 + t5 + t6 + t7 + t2 + lang, t5, t6, t8, t9);
    Regroup3(t1 + t2, t3, lang, t4);
    Regroup6(t0, t1, t2, t3, lang, t4, t5);
    Regroup4(t0 + t1 + t2 + t3 + lang + t4 + t5 + t6, t7, t2, lang, t5);
  }

  /** `PackageItemLangPart` is what Python's `PACKAGE_ITEM_LANG_PART.format(...)` returns for these arguments. */
  lemma PackageItemLangPartIsFormat(lang: string)
    ensures Format(PACKAGE_ITEM_LANG_PART, map["lang" := lang]) == Ok(PackageItemLangPart(lang))
  {
    PackageItemLangPartShape(PACKAGE_ITEM_LANG_PART_0, PACKAGE_ITEM_LANG_PART_1, PACKAGE_ITEM_LANG_PART_2, lang);
    PackageItemLangPartPieces(@"
    <item ", "href", "=\"", "xhtml/", ".xhtml", "\"", " ", "id", Attr("media-type", XHTML_MEDIA_TYPE), " />", lang);
  }

  /** A part item has href `xhtml/{lang}.xhtml`. */
  lemma PackageItemLangPartHref(lang: string)
    ensures Contains(PackageItemLangPart(lang), Attr("href", "xhtml/" + lang + ".xhtml"))
  {
    PackageItemLangPartHrefParts(@"
    <item ", "href", "=\"", "xhtml/", ".xhtml", "\"", " ", "id", Attr("media-type", XHTML_MEDIA_TYPE), " />", lang);
  }

  lemma PackageItemLangPartHrefParts(t0: string, t1: string, t2: string, t3: string, t4: string, t5: string, t6: string, t7: string, t8: string, t9: string, lang: string)
    ensures Contains(t0 + (t1 + t2 + (t3 + lang + t4) + t5) + t6 + (t7 + t2 + lang + t5) + t6 + t8 + t9, t1 + t2 + (t3 + lang + t4) + t5)
  {
    Regroup3(t1 + t2, t3, lang, t4);
    Regroup6(t0, t1, t2, t3, lang, t4, t5);
    Regroup4(t0 + t1 + t2 + t3 + lang + t4 + t5 + t6, t7, t2, lang, t5);
    Regroup8(t0 + t1 + t2 + t3 + lang + t4 + t5, t6, t7, t2, lang, t5, t6, t8, t9);
    Infix(t0, t1 + t2 + (t3 + lang + t4) + t5, t6 + t7 + t2 + lang + t5 + t6 + t8 + t9);
  }

  /** A part item has id `{lang}`. */
  lemma PackageItemLangPartId(lang: string)
    ensures Contains(PackageItemLangPart(lang), Attr("id", lang))
  {
    PackageItemLangPartIdParts(@"
    <item ", "href", "=\"", "xhtml/", ".xhtml", "\"", " ", "id", Attr("media-type", XHTML_MEDIA_TYPE), " />", lang);
  }

  lemma PackageItemLangPartIdParts(t0: string, t1: string, t2: string, t3: string, t4: string, t5: string, t6: string, t7: string, t8: string, t9: string, lang: string)
    ensures Contains(t0 + (t1 + t2 + (t3 + lang + t4) + t5) + t6 + (t7 + t2 + lang + t5) + t6 + t8 + t9, t7 + t2 + lang + t5)
  {
    Regroup3(t1 + t2, t3, lang, t4);
    Regroup6(t0, t1, t2, t3, lang, t4, t5);
    Regroup4(t0 + t1 + t2 + t3 + lang + t4 + t5 + t6, t7, t2, lang, t5);
    Regroup3(t0 + t1 + t2 + t3 + lang + t4 + t5 + t6 + t7 + t2 + lang + t5, t6, t8, t9);
    Infix(t0 + t1 + t2 + t3 + lang + t4 + t5 + t6, t7 + t2 + lang + t5, t6 + t8 + t9);
  }

  // The literal text of `PACKAGE_ITEM_LANG` (gc/templates.py:51-52), between its fields.
  const PACKAGE_ITEM_LANG_0: string := @"
    <item " + "href" + "=\"" + "xhtml/"
  const PACKAGE_ITEM_LANG_1: string := "/"
  const PACKAGE_ITEM_LANG_2: string := "\"" + " " + "id" + "=\""
  const PACKAGE_ITEM_LANG_3: string := "\"" + " " + Attr("media-type", XHTML_MEDIA_TYPE) + "/>"

  /** `PACKAGE_ITEM_LANG`, as `str.format` reads it. */
  const PACKAGE_ITEM_LANG: Template :=
    Lit(PACKAGE_ITEM_LANG_0, Field("lang", Lit(PACKAGE_ITEM_LANG_1, Field("filename", Lit(PACKAGE_ITEM_LANG_2, Field("fileid", Lit(PACKAGE_ITEM_LANG_3, End)))))))

  /** The manifest item of one talk in one language. */
  function PackageItemLang(lang: string, filename: string, fileid: string): string {
    @"
    <item " + Attr("href", "xhtml/" + lang + "/" + filename) + " " + Attr("id", fileid) + " " + Attr("media-type", XHTML_MEDIA_TYPE) + "/>"
  }

  lemma PackageItemLangShape(p0: string, p1: string, p2: string, p3: string, lang: string, filename: string, fileid: string)
    ensures Format(Lit(p0, Field("lang", Lit(p1, Field("filename", Lit(p2, Field("fileid", Lit(p3, End))))))), map["lang" := lang, "filename" := filename, "fileid" := fileid]) == Ok(p0 + lang + p1 + filename + p2 + fileid + p3)
  {
    var t := Lit(p0, Field("lang", Lit(p1, Field("filename", Lit(p2, Field("fileid", Lit(p3, End)))))));
    var args := map["lang" := lang, "filename" := filename, "fileid" := fileid];
    calc {
      Format(t, args);
      Emit(t, args, "");
      Emit(t.rest, args, "" + p0);
      Emit(t.rest.rest, args, "" + p0 + lang);
      Emit(t.rest.rest.rest, args, "" + p0 + lang + p1);
      Emit(t.rest.rest.rest.rest, args, "" + p0 + lang + p1 + filename);
      Emit(t.rest.rest.rest.rest.rest, args, "" + p0 + lang + p1 + filename + p2);
      Emit(t.rest.rest.rest.rest.rest.rest, args, "" + p0 + lang + p1 + filename + p2 + fileid);
      Emit(t.rest.rest.rest.rest.rest.rest.rest, args, "" + p0 + lang + p1 + filename + p2 + fileid + p3);
      Ok("" + p0 + lang + p1 + filename + p2 + fileid + p3);
      { assert "" + p0 == p0; }
      Ok(p0 + lang + p1 + filename + p2 + fileid + p3);
    }
  }

  lemma PackageItemLangPieces(t0: string, t1: string, t2: string, t3: string, t4: string, t5: string, t6: string, t7: string, t8: string, t9: string, lang: string, filename: string, fileid: string)
    ensures (t0 + t1 + t2 + t3) + lang + t4 + filename + (t5 + t6 + t7 + t2) + fileid + (t5 + t6 + t8 + t9)
         == t0 + (t1 + t2 + (t3 + lang + t4 + filename) + t5) + t6 + (t7 + t2 + fileid + t5) + t6 + t8 + t9
  {
    Regroup4(t0 + t1 + t2 + t3 + lang + t4 + filename, t5, t6, t7, t2);
    Regroup4(t0 + t1 + t2 + t3 + lang + t4 + filename + t5 + t6 + t7 + t2 + fileid, t5, t6, t8, t9);
    Regroup4(t1 + t2, t3, lang, t4, filename);
    Regroup7(t0, t1, t2, t3, lang, t4, filename, t5);
    Regroup4(t0 + t1 + t2 + t3 + lang + t4 + filename + t5 + t6, t7, t2, fileid, t5);
  }

  /** `PackageItemLang` is what Python's `PACKAGE_ITEM_LANG.format(...)` returns for these arguments. */
  lemma PackageItemLangIsFormat(lang: string, filename: string, fileid: string)
    ensures Format(PACKAGE_ITEM_LANG, map["lang" := lang, "filename" := filename, "fileid" := fileid]) == Ok(PackageItemLang(lang, filename, fileid))
  {
    PackageItemLangShape(PACKAGE_ITEM_LANG_0, PACKAGE_ITEM_LANG_1, PACKAGE_ITEM_LANG_2, PACKAGE_ITEM_LANG_3, lang, filename, fileid);
    PackageItemLangPieces(@"
    <item ", "href", "=\"", "xhtml/", "/", "\"", " ", "id", Attr("media-type", XHTML_MEDIA_TYPE), "/>", lang, filename, fileid);
  }

  /** A talk item has href `xhtml/{lang}/{filename}`. */
  lemma PackageItemLangHref(lang: string, filename: string, fileid: string)
    ensures Contains(PackageItemLang(lang, filename, fileid), Attr("href", "xhtml/" + lang + "/" + filename))
  {
    PackageItemLangHrefParts(@"
    <item ", "href", "=\"", "xhtml/", "/", "\"", " ", "id", Attr("media-type", XHTML_MEDIA_TYPE), "/>", lang, filename, fileid);
  }

  lemma PackageItemLangHrefParts(t0: string, t1: string, t2: string, t3: string, t4: string, t5: string, t6: string, t7: string, t8: string, t9: string, lang: string, filename: string, fileid: string)
    ensures Contains(t0 + (t1 + t2 + (t3 + lang + t4 + filename) + t5) + t6 + (t7 + t2 + fileid + t5) + t6 + t8 + t9, t1 + t2 + (t3 + lang + t4 + filename) + t5)
  {
    Regroup4(t1 + t2, t3, lang, t4, filename);
    Regroup7(t0, t1, t2, t3, lang, t4, filename, t5);
    Regroup4(t0 + t1 + t2 + t3 + lang + t4 + filename + t5 + t6, t7, t2, fileid, t5);
    Regroup8(t0 + t1 + t2 + t3 + lang + t4 + filename + t5, t6, t7, t2, fileid, t5, t6, t8, t9);
    Infix(t0, t1 + t2 + (t3 + lang + t4 + filename) + t5, t6 + t7 + t2 + fileid + t5 + t6 + t8 + t9);
  }

  /** A talk item has id `{fileid}`. */
  lemma PackageItemLangId(lang: string, filename: string, fileid: string)
    ensures Contains(PackageItemLang(lang, filename, fileid), Attr("id", fileid))
  {
    PackageItemLangIdParts(@"
    <item ", "href", "=\"", "xhtml/", "/", "\"", " ", "id", Attr("media-type", XHTML_MEDIA_TYPE), "/>", lang, filename, fileid);
  }

  lemma PackageItemLangIdParts(t0: string, t1: string, t2: string, t3: string, t4: string, t5: string, t6: string, t7: string, t8: string, t9: string, lang: string, filename: string, fileid: string)
    ensures Contains(t0 + (t1 + t2 + (t3 + lang + t4 + filename) + t5) + t6 + (t7 + t2 + fileid + t5) + t6 + t8 + t9, t7 + t2 + fileid + t5)
  {
    Regroup4(t1 + t2, t3, lang, t4, filename);
    Regroup7(t0, t1, t2, t3, lang, t4, filename, t5);
    Regroup4(t0 + t1 + t2 + t3 + lang + t4 + filename + t5 + t6, t7, t2, fileid, t5);
    Regroup3(t0 + t1 + t2 + t3 + lang + t4 + filename + t5 + t6 + t7 + t2 + fileid + t5, t6, t8, t9);
    Infix(t0 + t1 + t2 + t3 + lang + t4 + filename + t5 + t6, t7 + t2 + fileid + t5, t6 + t8 + t9);
  }

  // The literal text of `PACKAGE_REF_LANG_PART` (gc/templates.py:54-55), between its fields.
  const PACKAGE_REF_LANG_PART_0: string := @"
    <itemref " + "idref" + "=\""
  const PACKAGE_REF_LANG_PART_1: string := "\"" + " />"

  /** `PACKAGE_REF_LANG_PART`, as `str.format` reads it. */
  const PACKAGE_REF_LANG_PART: Template :=
    Lit(PACKAGE_REF_LANG_PART_0, Field("lang", Lit(PACKAGE_REF_LANG_PART_1, End)))

  /** The spine itemref of a language's part page. */
  function PackageRefLangPart(lang: string): string {
    @"
    <itemref " + Attr("idref", lang) + " />"
  }

  lemma PackageRefLangPartShape(p0: string, p1: string, lang: string)
    ensures Format(Lit(p0, Field("lang", Lit(p1, End))), map["lang" := lang]) == Ok(p0 + lang + p1)
  {
    var t := Lit(p0, Field("lang", Lit(p1, End)));
    var args := map["lang" := lang];
    calc {
      Format(t, args);
      Emit(t, args, "");
      Emit(t.rest, args, "" + p0);
      Emit(t.rest.rest, args, "" + p0 + lang);
      Emit(t.rest.rest.rest, args, "" + p0 + lang + p1);
      Ok("" + p0 + lang + p1);
      { assert "" + p0 == p0; }
      Ok(p0 + lang + p1);
    }
  }

  lemma PackageRefLangPartPieces(t0: string, t1: string, t2: string, t3: string, t4: string, lang: string)
    ensures (t0 + t1 + t2) + lang + (t3 + t4)
         == t0 + (t1 + t2 + lang + t3) + t4
  {
    ConcatAssoc(t0 + t1 + t2 + lang, t3, t4);
    Regroup4(t0, t1, t2, lang, t3);
  }

  /** `PackageRefLangPart` is what Python's `PACKAGE_REF_LANG_PART.format(...)` returns for these arguments. */
  lemma PackageRefLangPartIsFormat(lang: string)
    ensures Format(PACKAGE_REF_LANG_PART, map["lang" := lang]) == Ok(PackageRefLangPart(lang))
  {
    PackageRefLangPartShape(PACKAGE_REF_LANG_PART_0, PACKAGE_REF_LANG_PART_1, lang);
    PackageRefLangPartPieces(@"
    <itemref ", "idref", "=\"", "\"", " />", lang);
  }

  /** A part itemref refers to `{lang}`, the id of the part item. */
  lemma PackageRefLangPartIdref(lang: string)
    ensures Contains(PackageRefLangPart(lang), Attr("idref", lang))
  {
    PackageRefLangPartIdrefParts(@"
    <itemref ", "idref", "=\"", "\"", " />", lang);
  }

  lemma PackageRefLangPartIdrefParts(t0: string, t1: string, t2: string, t3: string, t4: string, lang: string)
    ensures Contains(t0 + (t1 + t2 + lang + t3) + t4, t1 + t2 + lang + t3)
  {
    Regroup4(t0, t1, t2, lang, t3);
    Infix(t0, t1 + t2 + lang + t3, t4);
  }

  // The literal text of `PACKAGE_REF_LANG` (gc/templates.py:57-58), between its fields.
  const PACKAGE_REF_LANG_0: string := @"
    <itemref " + "idref" + "=\""
  const PACKAGE_REF_LANG_1: string := "\"" + " />"

  /** `PACKAGE_REF_LANG`, as `str.format` reads it. */
  const PACKAGE_REF_LANG: Template :=
    Lit(PACKAGE_REF_LANG_0, Field("fileid", Lit(PACKAGE_REF_LANG_1, End)))

  /** The spine itemref of one talk. */
  function PackageRefLang(fileid: string): string {
    @"
    <itemref " + Attr("idref", fileid) + " />"
  }

  lemma PackageRefLangShape(p0: string, p1: string, fileid: string)
    ensures Format(Lit(p0, Field("fileid", Lit(p1, End))), map["fileid" := fileid]) == Ok(p0 + fileid + p1)
  {
    var t := Lit(p0, Field("fileid", Lit(p1, End)));
    var args := map["fileid" := fileid];
    calc {
      Format(t, args);
      Emit(t, args, "");
      Emit(t.rest, args, "" + p0);
      Emit(t.rest.rest, args, "" + p0 + fileid);
      Emit(t.rest.rest.rest, args, "" + p0 + fileid + p1);
      Ok("" + p0 + fileid + p1);
      { assert "" + p0 == p0; }
      Ok(p0 + fileid + p1);
    }
  }

  lemma PackageRefLangPieces(t0: string, t1: string, t2: string, t3: string, t4: string, fileid: string)
    ensures (t0 + t1 + t2) + fileid + (t3 + t4)
         == t0 + (t1 + t2 + fileid + t3) + t4
  {
    ConcatAssoc(t0 + t1 + t2 + fileid, t3, t4);
    Regroup4(t0, t1, t2, fileid, t3);
  }

  /** `PackageRefLang` is what Python's `PACKAGE_REF_LANG.format(...)` returns for these arguments. */
  lemma PackageRefLangIsFormat(fileid: string)
    ensures Format(PACKAGE_REF_LANG, map["fileid" := fileid]) == Ok(PackageRefLang(fileid))
  {
    PackageRefLangShape(PACKAGE_REF_LANG_0, PACKAGE_REF_LANG_1, fileid);
    PackageRefLangPieces(@"
    <itemref ", "idref", "=\"", "\"", " />", fileid);
  }

  /** A talk itemref refers to `{fileid}`, the id of the talk item. */
  lemma PackageRefLangIdref(fileid: string)
    ensures Contains(PackageRefLang(fileid), Attr("idref", fileid))
  {
    PackageRefLangIdrefParts(@"
    <itemref ", "idref", "=\"", "\"", " />", fileid);
  }

  lemma PackageRefLangIdrefParts(t0: string, t1: string, t2: string, t3: string, t4: string, fileid: string)
    ensures Contains(t0 + (t1 + t2 + fileid + t3) + t4, t1 + t2 + fileid + t3)
  {
    Regroup4(t0, t1, t2, fileid, t3);
    Infix(t0, t1 + t2 + fileid + t3, t4);
  }

  // Longer stretches of fixed text in `NAV_TALK` (gc/templates.py:111-112).
  const NAV_TALK_TEXT0: string := @"
                        <li>"

  // The literal text of `NAV_TALK` (gc/templates.py:111-112), between its fields.
  const NAV_TALK_0: string := NAV_TALK_TEXT0 + "<a " + "href" + "=\""
  const NAV_TALK_1: string := "/"
  const NAV_TALK_2: string := "\"" + ">"
  const NAV_TALK_3: string := " - "
  const NAV_TALK_4: string := "</a>" + "</li>"

  /** `NAV_TALK`, as `str.format` reads it. */
  const NAV_TALK: Template :=
    Lit(NAV_TALK_0, Field("lang", Lit(NAV_TALK_1, Field("filename", Lit(NAV_TALK_2, Field("author", Lit(NAV_TALK_3, Field("title", Lit(NAV_TALK_4, End)))))))))

  /** One talk's entry in the table of contents. */
  function NavTalk(lang: string, filename: string, author: string, title: string): string {
    NAV_TALK_TEXT0 + ("<a " + Attr("href", lang + "/" + filename) + ">" + author + " - " + title + "</a>") + "</li>"
  }

  lemma NavTalkShape(p0: string, p1: string, p2: string, p3: string, p4: string, lang: string, filename: string, author: string, title: string)
    ensures Format(Lit(p0, Field("lang", Lit(p1, Field("filename", Lit(p2, Field("author", Lit(p3, Field("title", Lit(p4, End))))))))), map["lang" := lang, "filename" := filename, "author" := author, "title" := title]) == Ok(p0 + lang + p1 + filename + p2 + author + p3 + title + p4)
  {
    var t := Lit(p0, Field("lang", Lit(p1, Field("filename", Lit(p2, Field("author", Lit(p3, Field("title", Lit(p4, End)))))))));
    var args := map["lang" := lang, "filename" := filename, "author" := author, "title" := title];
    calc {
      Format(t, args);
      Emit(t, args, "");
      Emit(t.rest, args, "" + p0);
      Emit(t.rest.rest, args, "" + p0 + lang);
      Emit(t.rest.rest.rest, args, "" + p0 + lang + p1);
      Emit(t.rest.rest.rest.rest, args, "" + p0 + lang + p1 + filename);
      Emit(t.rest.rest.rest.rest.rest, args, "" + p0 + lang + p1 + filename + p2);
      Emit(t.rest.rest.rest.rest.rest.rest, args, "" + p0 + lang + p1 + filename + p2 + author);
      Emit(t.rest.rest.rest.rest.rest.rest.rest, args, "" + p0 + lang + p1 + filename + p2 + author + p3);
      Emit(t.rest.rest.rest.rest.rest.rest.rest.rest, args, "" + p0 + lang + p1 + filename + p2 + author + p3 + title);
      Emit(t.rest.rest.rest.rest.rest.rest.rest.rest.rest, args, "" + p0 + lang + p1 + filename + p2 + author + p3 + title + p4);
      Ok("" + p0 + lang + p1 + filename + p2 + author + p3 + title + p4);
      { assert "" + p0 == p0; }
      Ok(p0 + lang + p1 + filename + p2 + author + p3 + title + p4);
    }
  }

  lemma NavTalkPieces(t0: string, t1: string, t2: string, t3: string, t4: string, t5: string, t6: string, t7: string, t8: string, t9: string, lang: string, filename: string, author: string, title: string)
    ensures (t0 + t1 + t2 + t3) + lang + t4 + filename + (t5 + t6) + author + t7 + title + (t8 + t9)
         == t0 + (t1 + (t2 + t3 + (lang + t4 + filename) + t5) + t6 + author + t7 + title + t8) + t9
  {
    ConcatAssoc(t0 + t1 + t2 + t3 + lang + t4 + filename, t5, t6);
    ConcatAssoc(t0 + t1 + t2 + t3 + lang + t4 + filename + t5 + t6 + author + t7 + title, t8, t9);
    Regroup3(t2 + t3, lang, t4, filename);
    Regroup6(t1, t2, t3, lang, t4, filename, t5);
    Regroup12(t0, t1, t2, t3, lang, t4, filename, t5, t6, author, t7, title, t8);
  }

  /** `NavTalk` is what Python's `NAV_TALK.format(...)` returns for these arguments. */
  lemma NavTalkIsFormat(lang: string, filename: string, author: string, title: string)
    ensures Format(NAV_TALK, map["lang" := lang, "filename" := filename, "author" := author, "title" := title]) == Ok(NavTalk(lang, filename, author, title))
  {
    NavTalkShape(NAV_TALK_0, NAV_TALK_1, NAV_TALK_2, NAV_TALK_3, NAV_TALK_4, lang, filename, author, title);
    NavTalkPieces(NAV_TALK_TEXT0, "<a ", "href", "=\"", "/", "\"", ">", " - ", "</a>", "</li>", lang, filename, author, title);
  }

  /** A talk's entry links `{lang}/{filename}` with the text `{author} - {title}`. */
  lemma NavTalkLink(lang: string, filename: string, author: string, title: string)
    ensures Contains(NavTalk(lang, filename, author, title), "<a " + Attr("href", lang + "/" + filename) + ">" + author + " - " + title + "</a>")
  {
    NavTalkLinkParts(NAV_TALK_TEXT0, "<a ", "href", "=\"", "/", "\"", ">", " - ", "</a>", "</li>", lang, filename, author, title);
  }

  lemma NavTalkLinkParts(t0: string, t1: string, t2: string, t3: string, t4: string, t5: string, t6: string, t7: string, t8: string, t9: string, lang: string, filename: string, author: string, title: string)
    ensures Contains(t0 + (t1 + (t2 + t3 + (lang + t4 + filename) + t5) + t6 + author + t7 + title + t8) + t9, t1 + (t2 + t3 + (lang + t4 + filename) + t5) + t6 + author + t7 + title + t8)
  {
    Regroup3(t2 + t3, lang, t4, filename);
    Regroup6(t1, t2, t3, lang, t4, filename, t5);
    Regroup12(t0, t1, t2, t3, lang, t4, filename, t5, t6, author, t7, title, t8);
    Infix(t0, t1 + (t2 + t3 + (lang + t4 + filename) + t5) + t6 + author + t7 + title + t8, t9);
  }

  // Longer stretches of fixed text in `NAV_LANG` (gc/templates.py:104-109).
  const NAV_LANG_TEXT0: string := @"
                    <ol>
                        "
  const NAV_LANG_TEXT1: string := @"
                    </ol>
                </li>"

  // The literal text of `NAV_LANG` (gc/templates.py:104-109), between its fields.
  const NAV_LANG_0: string := @"
                <li>" + "<a " + "href" + "=\""
  const NAV_LANG_1: string := ".xhtml" + "\"" + ">"
  const NAV_LANG_2: string := " Conference Addresses</a>" + NAV_LANG_TEXT0
  const NAV_LANG_3: string := NAV_LANG_TEXT1

  /** `NAV_LANG`, as `str.format` reads it. */
  const NAV_LANG: Template :=
    Lit(NAV_LANG_0, Field("lang", Lit(NAV_LANG_1, Field("language", Lit(NAV_LANG_2, Field("talks", Lit(NAV_LANG_3, End)))))))

  /** One language's entry in the table of contents, holding its talk entries. */
  function NavLang(lang: string, language: string, talks: string): string {
    @"
                <li>" + ("<a " + Attr("href", lang + ".xhtml") + ">" + language + " Conference Addresses</a>") + NAV_LANG_TEXT0 + talks + NAV_LANG_TEXT1
  }

  lemma NavLangShape(p0: string, p1: string, p2: string, p3: string, lang: string, language: string, talks: string)
    ensures Format(Lit(p0, Field("lang", Lit(p1, Field("language", Lit(p2, Field("talks", Lit(p3, End))))))), map["lang" := lang, "language" := language, "talks" := talks]) == Ok(p0 + lang + p1 + language + p2 + talks + p3)
  {
    var t := Lit(p0, Field("lang", Lit(p1, Field("language", Lit(p2, Field("talks", Lit(p3, End)))))));
    var args := map["lang" := lang, "language" := language, "talks" := talks];
    calc {
      Format(t, args);
      Emit(t, args, "");
      Emit(t.rest, args, "" + p0);
      Emit(t.rest.rest, args, "" + p0 + lang);
      Emit(t.rest.rest.rest, args, "" + p0 + lang + p1);
      Emit(t.rest.rest.rest.rest, args, "" + p0 + lang + p1 + language);
      Emit(t.rest.rest.rest.rest.rest, args, "" + p0 + lang + p1 + language + p2);
      Emit(t.rest.rest.rest.rest.rest.rest, args, "" + p0 + lang + p1 + language + p2 + talks);
      Emit(t.rest.rest.rest.rest.rest.rest.rest, args, "" + p0 + lang + p1 + language + p2 + talks + p3);
      Ok("" + p0 + lang + p1 + language + p2 + talks + p3);
      { assert "" + p0 == p0; }
      Ok(p0 + lang + p1 + language + p2 + talks + p3);
    }
  }

  lemma NavLangPieces(t0: string, t1: string, t2: string, t3: string, t4: string, t5: string, t6: string, t7: string, t8: string, t9: string, lang: string, language: string, talks: string)
    ensures (t0 + t1 + t2 + t3) + lang + (t4 + t5 + t6) + language + (t7 + t8) + talks + t9
         == t0 + (t1 + (t2 + t3 + (lang + t4) + t5) + t6 + language + t7) + t8 + talks + t9
  {
    Regroup3(t0 + t1 + t2 + t3 + lang, t4, t5, t6);
    ConcatAssoc(t0 + t1 + t2 + t3 + lang + t4 + t5 + t6 + language, t7, t8);
    ConcatAssoc(t2 + t3, lang, t4);
    Regroup5(t1, t2, t3, lang, t4, t5);
    Regroup9(t0, t1, t2, t3, lang, t4, t5, t6, language, t7);
  }

  /** `NavLang` is what Python's `NAV_LANG.format(...)` returns for these arguments. */
  lemma NavLangIsFormat(lang: string, language: string, talks: string)
    ensures Format(NAV_LANG, map["lang" := lang, "language" := language, "talks" := talks]) == Ok(NavLang(lang, language, talks))
  {
    NavLangShape(NAV_LANG_0, NAV_LANG_1, NAV_LANG_2, NAV_LANG_3, lang, language, talks);
    NavLangPieces(@"
                <li>", "<a ", "href", "=\"", ".xhtml", "\"", ">", " Conference Addresses</a>", NAV_LANG_TEXT0, NAV_LANG_TEXT1, lang, language, talks);
  }

  /** A language's entry links `{lang}.xhtml` with the text `{language} Conference Addresses`. */
  lemma NavLangLink(lang: string, language: string, talks: string)
    ensures Contains(NavLang(lang, language, talks), "<a " + Attr("href", lang + ".xhtml") + ">" + language + " Conference Addresses</a>")
  {
    NavLangLinkParts(@"
                <li>", "<a ", "href", "=\"", ".xhtml", "\"", ">", " Conference Addresses</a>", NAV_LANG_TEXT0, NAV_LANG_TEXT1, lang, language, talks);
  }

  lemma NavLangLinkParts(t0: string, t1: string, t2: string, t3: string, t4: string, t5: string, t6: string, t7: string, t8: string, t9: string, lang: string, language: string, talks: string)
    ensures Contains(t0 + (t1 + (t2 + t3 + (lang + t4) + t5) + t6 + language + t7) + t8 + talks + t9, t1 + (t2 + t3 + (lang + t4) + t5) + t6 + language + t7)
  {
    ConcatAssoc(t2 + t3, lang, t4);
    Regroup5(t1, t2, t3, lang, t4, t5);
    Regroup9(t0, t1, t2, t3, lang, t4, t5, t6, language, t7);
    Regroup3(t0 + t1 + t2 + t3 + lang + t4 + t5 + t6 + language + t7, t8, talks, t9);
    Infix(t0, t1 + (t2 + t3 + (lang + t4) + t5) + t6 + language + t7, t8 + talks + t9);
  }

  /** A language's entry holds its talk entries as they are. */
  lemma NavLangTalks(lang: string, language: string, talks: string)
    ensures Contains(NavLang(lang, language, talks), talks)
  {
    NavLangTalksParts(@"
                <li>", "<a ", "href", "=\"", ".xhtml", "\"", ">", " Conference Addresses</a>", NAV_LANG_TEXT0, NAV_LANG_TEXT1, lang, language, talks);
  }

  lemma NavLangTalksParts(t0: string, t1: string, t2: string, t3: string, t4: string, t5: string, t6: string, t7: string, t8: string, t9: string, lang: string, language: string, talks: string)
    ensures Contains(t0 + (t1 + (t2 + t3 + (lang + t4) + t5) + t6 + language + t7) + t8 + talks + t9, talks)
  {
    ConcatAssoc(t2 + t3, lang, t4);
    Regroup5(t1, t2, t3, lang, t4, t5);
    Regroup9(t0, t1, t2, t3, lang, t4, t5, t6, language, t7);
    Infix(t0 + t1 + t2 + t3 + lang + t4 + t5 + t6 + language + t7 + t8, talks, t9);
  }

  // Longer stretches of fixed text in `LANG_PART` (gc/templates.py:60-71).
  const LANG_PART_TEXT0: string := @"<?xml version=""1.0"" encoding=""utf-8""?>
<html xmlns=""http://www.w3.org/1999/xhtml"" xmlns:epub=""http://www.idpf.org/2007/ops"">
    <head>
        <meta charset=""utf-8"" />
        "
  const LANG_PART_TEXT1: string := @"
    </head>
    <body>
        <section class=""part"" "
  const LANG_PART_TEXT2: string := @" epub:type=""part"">
            "
  const LANG_PART_TEXT3: string := @"
        </section>
    </body>
</html>"

  // The literal text of `LANG_PART` (gc/templates.py:60-71), between its fields.
  const LANG_PART_0: string := LANG_PART_TEXT0 + "<title>"
  const LANG_PART_1: string := " Conference Addresses</title>" + LANG_PART_TEXT1 + "title" + "=\""
  const LANG_PART_2: string := " Conference Addresses" + "\"" + LANG_PART_TEXT2 + "<h1>"
  const LANG_PART_3: string := " Conference Addresses</h1>" + LANG_PART_TEXT3

  /** `LANG_PART`, as `str.format` reads it. */
  const LANG_PART: Template :=
    Lit(LANG_PART_0, Field("language", Lit(LANG_PART_1, Field("language", Lit(LANG_PART_2, Field("language", Lit(LANG_PART_3, End)))))))

  /** A language's part page. */
  function LangPart(language: string): string {
    LANG_PART_TEXT0 + ("<title>" + language + " Conference Addresses</title>") + LANG_PART_TEXT1 + Attr("title", language + " Conference Addresses") + LANG_PART_TEXT2 + ("<h1>" + language + " Conference Addresses</h1>") + LANG_PART_TEXT3
  }

  lemma LangPartShape(p0: string, p1: string, p2: string, p3: string, language: string)
    ensures Format(Lit(p0, Field("language", Lit(p1, Field("language", Lit(p2, Field("language", Lit(p3, End))))))), map["language" := language]) == Ok(p0 + language + p1 + language + p2 + language + p3)
  {
    var t := Lit(p0, Field("language", Lit(p1, Field("language", Lit(p2, Field("language", Lit(p3, End)))))));
    var args := map["language" := language];
    calc {
      Format(t, args);
      Emit(t, args, "");
      Emit(t.rest, args, "" + p0);
      Emit(t.rest.rest, args, "" + p0 + language);
      Emit(t.rest.rest.rest, args, "" + p0 + language + p1);
      Emit(t.rest.rest.rest.rest, args, "" + p0 + language + p1 + language);
      Emit(t.rest.rest.rest.rest.rest, args, "" + p0 + language + p1 + language + p2);
      Emit(t.rest.rest.rest.rest.rest.rest, args, "" + p0 + language + p1 + language + p2 + language);
      Emit(t.rest.rest.rest.rest.rest.rest.rest, args, "" + p0 + language + p1 + language + p2 + language + p3);
      Ok("" + p0 + language + p1 + language + p2 + language + p3);
      { assert "" + p0 == p0; }
      Ok(p0 + language + p1 + language + p2 + language + p3);
    }
  }

  lemma LangPartPieces(t0: string, t1: string, t2: string, t3: string, t4: string, t5: string, t6: string, t7: string, t8: string, t9: string, t10: string, t11: string, language: string)
    ensures (t0 + t1) + language + (t2 + t3 + t4 + t5) + language + (t6 + t7 + t8 + t9) + language + (t10 + t11)
         == t0 + (t1 + language + t2) + t3 + (t4 + t5 + (language + t6) + t7) + t8 + (t9 + language + t10) + t11
  {
    Regroup4(t0 + t1 + language, t2, t3, t4, t5);
    Regroup4(t0 + t1 + language + t2 + t3 + t4 + t5 + language, t6, t7, t8, t9);
    ConcatAssoc(t0 + t1 + language + t2 + t3 + t4 + t5 + language + t6 + t7 + t8 + t9 + language, t10, t11);
    Regroup3(t0, t1, language, t2);
    ConcatAssoc(t4 + t5, language, t6);
    Regroup5(t0 + t1 + language + t2 + t3, t4, t5, language, t6, t7);
    Regroup3(t0 + t1 + language + t2 + t3 + t4 + t5 + language + t6 + t7 + t8, t9, language, t10);
  }

  /** `LangPart` is what Python's `LANG_PART.format(...)` returns for these arguments. */
  lemma LangPartIsFormat(language: string)
    ensures Format(LANG_PART, map["language" := language]) == Ok(LangPart(language))
  {
    LangPartShape(LANG_PART_0, LANG_PART_1, LANG_PART_2, LANG_PART_3, language);
    LangPartPieces(LANG_PART_TEXT0, "<title>", " Conference Addresses</title>", LANG_PART_TEXT1, "title", "=\"", " Conference Addresses", "\"", LANG_PART_TEXT2, "<h1>", " Conference Addresses</h1>", LANG_PART_TEXT3, language);
  }

  /** A part page is titled `{language} Conference Addresses`. */
  lemma LangPartTitle(language: string)
    ensures Contains(LangPart(language), "<title>" + language + " Conference Addresses</title>")
  {
    LangPartTitleParts(LANG_PART_TEXT0, "<title>", " Conference Addresses</title>", LANG_PART_TEXT1, "title", "=\"", " Conference Addresses", "\"", LANG_PART_TEXT2, "<h1>", " Conference Addresses</h1>", LANG_PART_TEXT3, language);
  }

  lemma LangPartTitleParts(t0: string, t1: string, t2: string, t3: string, t4: string, t5: string, t6: string, t7: string, t8: string, t9: string, t10: string, t11: string, language: string)
    ensures Contains(t0 + (t1 + language + t2) + t3 + (t4 + t5 + (language + t6) + t7) + t8 + (t9 + language + t10) + t11, t1 + language + t2)
  {
    Regroup3(t0, t1, language, t2);
    ConcatAssoc(t4 + t5, language, t6);
    Regroup5(t0 + t1 + language + t2 + t3, t4, t5, language, t6, t7);
    Regroup3(t0 + t1 + language + t2 + t3 + t4 + t5 + language + t6 + t7 + t8, t9, language, t10);
    Regroup11(t0 + t1 + language + t2, t3, t4, t5, language, t6, t7, t8, t9, language, t10, t11);
    Infix(t0, t1 + language + t2, t3 + t4 + t5 + language + t6 + t7 + t8 + t9 + language + t10 + t11);
  }

  /** A part page is headed `{language} Conference Addresses`. */
  lemma LangPartHeading(language: string)
    ensures Contains(LangPart(language), "<h1>" + language + " Conference Addresses</h1>")
  {
    LangPartHeadingParts(LANG_PART_TEXT0, "<title>", " Conference Addresses</title>", LANG_PART_TEXT1, "title", "=\"", " Conference Addresses", "\"", LANG_PART_TEXT2, "<h1>", " Conference Addresses</h1>", LANG_PART_TEXT3, language);
  }

  lemma LangPartHeadingParts(t0: string, t1: string, t2: string, t3: string, t4: string, t5: string, t6: string, t7: string, t8: string, t9: string, t10: string, t11: string, language: string)
    ensures Contains(t0 + (t1 + language + t2) + t3 + (t4 + t5 + (language + t6) + t7) + t8 + (t9 + language + t10) + t11, t9 + language + t10)
  {
    Regroup3(t0, t1, language, t2);
    ConcatAssoc(t4 + t5, language, t6);
    Regroup5(t0 + t1 + language + t2 + t3, t4, t5, language, t6, t7);
    Regroup3(t0 + t1 + language + t2 + t3 + t4 + t5 + language + t6 + t7 + t8, t9, language, t10);
    Infix(t0 + t1 + language + t2 + t3 + t4 + t5 + language + t6 + t7 + t8, t9 + language + t10, t11);
  }

  // Longer stretches of fixed text in `TITLE` (gc/templates.py:73-85).
  const TITLE_TEXT0: string := @"<?xml version=""1.0"" encoding=""utf-8""?>
<html xmlns=""http://www.w3.org/1999/xhtml"">
    <head>
        <meta charset=""utf-8""/>
        "
  const TITLE_TEXT1: string := @"
    </head>
    <body>
        "
  const TITLE_TEXT2: string := @"
        <div class=""legalnotice"">
            <p>This edition is not affiliated with The Church of Jesus Christ of Latter-day Saints in any way. Any errors in this edition are the responsibility of the author.</p>
        </div>
    </body>
</html>"

  // The literal text of `TITLE` (gc/templates.py:73-85), between its fields.
  const TITLE_0: string := TITLE_TEXT0 + "<title>"
  const TITLE_1: string := " "
  const TITLE_2: string := " Conference Report</title>" + TITLE_TEXT1 + "<h1 class=\"titlepage\">"
  const TITLE_3: string := " "
  const TITLE_4: string := " Conference Report</h1>" + TITLE_TEXT2

  /** `TITLE`, as `str.format` reads it. */
  const TITLE: Template :=
    Lit(TITLE_0, Field("month", Lit(TITLE_1, Field("year", Lit(TITLE_2, Field("month", Lit(TITLE_3, Field("year", Lit(TITLE_4, End)))))))))

  /** The title page. */
  function TitlePage(month: string, year: string): string {
    TITLE_TEXT0 + ("<title>" + month + " " + year + " Conference Report</title>") + TITLE_TEXT1 + ("<h1 class=\"titlepage\">" + month + " " + year + " Conference Report</h1>") + TITLE_TEXT2
  }

  lemma TitlePageShape(p0: string, p1: string, p2: string, p3: string, p4: string, month: string, year: string)
    ensures Format(Lit(p0, Field("month", Lit(p1, Field("year", Lit(p2, Field("month", Lit(p3, Field("year", Lit(p4, End))))))))), map["month" := month, "year" := year]) == Ok(p0 + month + p1 + year + p2 + month + p3 + year + p4)
  {
    var t := Lit(p0, Field("month", Lit(p1, Field("year", Lit(p2, Field("month", Lit(p3, Field("year", Lit(p4, End)))))))));
    var args := map["month" := month, "year" := year];
    calc {
      Format(t, args);
      Emit(t, args, "");
      Emit(t.rest, args, "" + p0);
      Emit(t.rest.rest, args, "" + p0 + month);
      Emit(t.rest.rest.rest, args, "" + p0 + month + p1);
      Emit(t.rest.rest.rest.rest, args, "" + p0 + month + p1 + year);
      Emit(t.rest.rest.rest.rest.rest, args, "" + p0 + month + p1 + year + p2);
      Emit(t.rest.rest.rest.rest.rest.rest, args, "" + p0 + month + p1 + year + p2 + month);
      Emit(t.rest.rest.rest.rest.rest.rest.rest, args, "" + p0 + month + p1 + year + p2 + month + p3);
      Emit(t.rest.rest.rest.rest.rest.rest.rest.rest, args, "" + p0 + month + p1 + year + p2 + month + p3 + year);
      Emit(t.rest.rest.rest.rest.rest.rest.rest.rest.rest, args, "" + p0 + month + p1 + year + p2 + month + p3 + year + p4);
      Ok("" + p0 + month + p1 + year + p2 + month + p3 + year + p4);
      { assert "" + p0 == p0; }
      Ok(p0 + month + p1 + year + p2 + month + p3 + year + p4);
    }
  }

  lemma TitlePagePieces(t0: string, t1: string, t2: string, t3: string, t4: string, t5: string, t6: string, t7: string, month: string, year: string)
    ensures (t0 + t1) + month + t2 + year + (t3 + t4 + t5) + month + t2 + year + (t6 + t7)
         == t0 + (t1 + month + t2 + year + t3) + t4 + (t5 + month + t2 + year + t6) + t7
  {
    Regroup3(t0 + t1 + month + t2 + year, t3, t4, t5);
    ConcatAssoc(t0 + t1 + month + t2 + year + t3 + t4 + t5 + month + t2 + year, t6, t7);
    Regroup5(t0, t1, month, t2, year, t3);
    Regroup5(t0 + t1 + month + t2 + year + t3 + t4, t5, month, t2, year, t6);
  }

  /** `TitlePage` is what Python's `TITLE.format(...)` returns for these arguments. */
  lemma TitlePageIsFormat(month: string, year: string)
    ensures Format(TITLE, map["month" := month, "year" := year]) == Ok(TitlePage(month, year))
  {
    TitlePageShape(TITLE_0, TITLE_1, TITLE_2, TITLE_3, TITLE_4, month, year);
    TitlePagePieces(TITLE_TEXT0, "<title>", " ", " Conference Report</title>", TITLE_TEXT1, "<h1 class=\"titlepage\">", " Conference Report</h1>", TITLE_TEXT2, month, year);
  }

  /** The title page is titled `{month} {year} Conference Report`. */
  lemma TitlePageTitle(month: string, year: string)
    ensures Contains(TitlePage(month, year), "<title>" + month + " " + year + " Conference Report</title>")
  {
    TitlePageTitleParts(TITLE_TEXT0, "<title>", " ", " Conference Report</title>", TITLE_TEXT1, "<h1 class=\"titlepage\">", " Conference Report</h1>", TITLE_TEXT2, month, year);
  }

  lemma TitlePageTitleParts(t0: string, t1: string, t2: string, t3: string, t4: string, t5: string, t6: string, t7: string, month: string, year: string)
    ensures Contains(t0 + (t1 + month + t2 + year + t3) + t4 + (t5 + month + t2 + year + t6) + t7, t1 + month + t2 + year + t3)
  {
    Regroup5(t0, t1, month, t2, year, t3);
    Regroup5(t0 + t1 + month + t2 + year + t3 + t4, t5, month, t2, year, t6);
    Regroup7(t0 + t1 + month + t2 + year + t3, t4, t5, month, t2, year, t6, t7);
    Infix(t0, t1 + month + t2 + year + t3, t4 + t5 + month + t2 + year + t6 + t7);
  }

  /** The title page is headed `{month} {year} Conference Report`. */
  lemma TitlePageHeading(month: string, year: string)
    ensures Contains(TitlePage(month, year), "<h1 class=\"titlepage\">" + month + " " + year + " Conference Report</h1>")
  {
    TitlePageHeadingParts(TITLE_TEXT0, "<title>", " ", " Conference Report</title>", TITLE_TEXT1, "<h1 class=\"titlepage\">", " Conference Report</h1>", TITLE_TEXT2, month, year);
  }

  lemma TitlePageHeadingParts(t0: string, t1: string, t2: string, t3: string, t4: string, t5: string, t6: string, t7: string, month: string, year: string)
    ensures Contains(t0 + (t1 + month + t2 + year + t3) + t4 + (t5 + month + t2 + year + t6) + t7, t5 + month + t2 + year + t6)
  {
    Regroup5(t0, t1, month, t2, year, t3);
    Regroup5(t0 + t1 + month + t2 + year + t3 + t4, t5, month, t2, year, t6);
    Infix(t0 + t1 + month + t2 + year + t3 + t4, t5 + month + t2 + year + t6, t7);
  }

  // Longer stretches of fixed text in `NAV` (gc/templates.py:87-102).
  const NAV_TEXT0: string := @"
<?xml version=""1.0"" encoding=""utf-8""?>
<html xmlns=""http://www.w3.org/1999/xhtml"" xmlns:epub=""http://www.idpf.org/2007/ops"">
    <head>
        <meta charset=""utf-8"" />
        "
  const NAV_TEXT1: string := @"
    </head>
    <body>
        <nav epub:type=""toc"" id=""toc"">
            <h1 class=""title"">Table of Contents</h1>
            <ol>
                "
  const NAV_TEXT2: string := @"
            </ol>
        </nav>
    </body>
</html>"

  // The literal text of `NAV` (gc/templates.py:87-102), between its fields.
  const NAV_0: string := NAV_TEXT0 + "<title>"
  const NAV_1: string := " "
  const NAV_2: string := " Conference Report - Table of Contents</title>" + NAV_TEXT1
  const NAV_3: string := NAV_TEXT2

  /** `NAV`, as `str.format` reads it. */
  const NAV: Template :=
    Lit(NAV_0, Field("month", Lit(NAV_1, Field("year", Lit(NAV_2, Field("contents", Lit(NAV_3, End)))))))

  /** The navigation document. */
  function Nav(month: string, year: string, contents: string): string {
    NAV_TEXT0 + ("<title>" + month + " " + year + " Conference Report - Table of Contents</title>") + NAV_TEXT1 + contents + NAV_TEXT2
  }

  lemma NavShape(p0: string, p1: string, p2: string, p3: string, month: string, year: string, contents: string)
    ensures Format(Lit(p0, Field("month", Lit(p1, Field("year", Lit(p2, Field("contents", Lit(p3, End))))))), map["month" := month, "year" := year, "contents" := contents]) == Ok(p0 + month + p1 + year + p2 + contents + p3)
  {
    var t := Lit(p0, Field("month", Lit(p1, Field("year", Lit(p2, Field("contents", Lit(p3, End)))))));
    var args := map["month" := month, "year" := year, "contents" := contents];
    calc {
      Format(t, args);
      Emit(t, args, "");
      Emit(t.rest, args, "" + p0);
      Emit(t.rest.rest, args, "" + p0 + month);
      Emit(t.rest.rest.rest, args, "" + p0 + month + p1);
      Emit(t.rest.rest.rest.rest, args, "" + p0 + month + p1 + year);
      Emit(t.rest.rest.rest.rest.rest, args, "" + p0 + month + p1 + year + p2);
      Emit(t.rest.rest.rest.rest.rest.rest, args, "" + p0 + month + p1 + year + p2 + contents);
      Emit(t.rest.rest.rest.rest.rest.rest.rest, args, "" + p0 + month + p1 + year + p2 + contents + p3);
      Ok("" + p0 + month + p1 + year + p2 + contents + p3);
      { assert "" + p0 == p0; }
      Ok(p0 + month + p1 + year + p2 + contents + p3);
    }
  }

  lemma NavPieces(t0: string, t1: string, t2: string, t3: string, t4: string, t5: string, month: string, year: string, contents: string)
    ensures (t0 + t1) + month + t2 + year + (t3 + t4) + contents + t5
         == t0 + (t1 + month + t2 + year + t3) + t4 + contents + t5
  {
    ConcatAssoc(t0 + t1 + month + t2 + year, t3, t4);
    Regroup5(t0, t1, month, t2, year, t3);
  }

  /** `Nav` is what Python's `NAV.format(...)` returns for these arguments. */
  lemma NavIsFormat(month: string, year: string, contents: string)
    ensures Format(NAV, map["month" := month, "year" := year, "contents" := contents]) == Ok(Nav(month, year, contents))
  {
    NavShape(NAV_0, NAV_1, NAV_2, NAV_3, month, year, contents);
    NavPieces(NAV_TEXT0, "<title>", " ", " Conference Report - Table of Contents</title>", NAV_TEXT1, NAV_TEXT2, month, year, contents);
  }

  /** The navigation document is titled after `{month} {year}`. */
  lemma NavTitle(month: string, year: string, contents: string)
    ensures Contains(Nav(month, year, contents), "<title>" + month + " " + year + " Conference Report - Table of Contents</title>")
  {
    NavTitleParts(NAV_TEXT0, "<title>", " ", " Conference Report - Table of Contents</title>", NAV_TEXT1, NAV_TEXT2, month, year, contents);
  }

  lemma NavTitleParts(t0: string, t1: string, t2: string, t3: string, t4: string, t5: string, month: string, year: string, contents: string)
    ensures Contains(t0 + (t1 + month + t2 + year + t3) + t4 + contents + t5, t1 + month + t2 + year + t3)
  {
    Regroup5(t0, t1, month, t2, year, t3);
    Regroup3(t0 + t1 + month + t2 + year + t3, t4, contents, t5);
    Infix(t0, t1 + month + t2 + year + t3, t4 + contents + t5);
  }

  /** The navigation document holds the language entries as they are. */
  lemma NavContents(month: string, year: string, contents: string)
    ensures Contains(Nav(month, year, contents), contents)
  {
    NavContentsParts(NAV_TEXT0, "<title>", " ", " Conference Report - Table of Contents</title>", NAV_TEXT1, NAV_TEXT2, month, year, contents);
  }

  lemma NavContentsParts(t0: string, t1: string, t2: string, t3: string, t4: string, t5: string, month: string, year: string, contents: string)
    ensures Contains(t0 + (t1 + month + t2 + year + t3) + t4 + contents + t5, contents)
  {
    Regroup5(t0, t1, month, t2, year, t3);
    Infix(t0 + t1 + month + t2 + year + t3 + t4, contents, t5);
  }

  // Longer stretches of fixed text in `TALK` (gc/templates.py:114-125).
  const TALK_TEXT0: string := @"<?xml version=""1.0"" encoding=""utf-8""?>
<html xmlns=""http://www.w3.org/1999/xhtml"" xmlns:epub=""http://www.idpf.org/2007/ops"">
    <head>
        <meta charset=""utf-8"" />
        "
  const TALK_TEXT1: string := @"
    </head>
    <body>
        "
  const TALK_TEXT2: string := @"
        </section>
    </body>
</html>"

  // The literal text of `TALK` (gc/templates.py:114-125), between its fields.
  const TALK_0: string := TALK_TEXT0 + "<title>"
  const TALK_1: string := "</title>" + TALK_TEXT1 + "<section class=\"chapter\" " + "title" + "=\""
  const TALK_2: string := "\"" + " epub:type=\"chapter\">" + @"
            "
  const TALK_3: string := TALK_TEXT2

  /** `TALK`, as `str.format` reads it. */
  const TALK: Template :=
    Lit(TALK_0, Field("title", Lit(TALK_1, Field("title", Lit(TALK_2, Field("body", Lit(TALK_3, End)))))))

  /** A talk page. */
  function TalkPage(title: string, body: string): string {
    TALK_TEXT0 + ("<title>" + title + "</title>") + TALK_TEXT1 + ("<section class=\"chapter\" " + Attr("title", title) + " epub:type=\"chapter\">") + @"
            " + body + TALK_TEXT2
  }

  lemma TalkPageShape(p0: string, p1: string, p2: string, p3: string, title: string, body: string)
    ensures Format(Lit(p0, Field("title", Lit(p1, Field("title", Lit(p2, Field("body", Lit(p3, End))))))), map["title" := title, "body" := body]) == Ok(p0 + title + p1 + title + p2 + body + p3)
  {
    var t := Lit(p0, Field("title", Lit(p1, Field("title", Lit(p2, Field("body", Lit(p3, End)))))));
    var args := map["title" := title, "body" := body];
    calc {
      Format(t, args);
      Emit(t, args, "");
      Emit(t.rest, args, "" + p0);
      Emit(t.rest.rest, args, "" + p0 + title);
      Emit(t.rest.rest.rest, args, "" + p0 + title + p1);
      Emit(t.rest.rest.rest.rest, args, "" + p0 + title + p1 + title);
      Emit(t.rest.rest.rest.rest.rest, args, "" + p0 + title + p1 + title + p2);
      Emit(t.rest.rest.rest.rest.rest.rest, args, "" + p0 + title + p1 + title + p2 + body);
      Emit(t.rest.rest.rest.rest.rest.rest.rest, args, "" + p0 + title + p1 + title + p2 + body + p3);
      Ok("" + p0 + title + p1 + title + p2 + body + p3);
      { assert "" + p0 == p0; }
      Ok(p0 + title + p1 + title + p2 + body + p3);
    }
  }

  lemma TalkPagePieces(t0: string, t1: string, t2: string, t3: string, t4: string, t5: string, t6: string, t7: string, t8: string, t9: string, t10: string, title: string, body: string)
    ensures (t0 + t1) + title + (t2 + t3 + t4 + t5 + t6) + title + (t7 + t8 + t9) + body + t10
         == t0 + (t1 + title + t2) + t3 + (t4 + (t5 + t6 + title + t7) + t8) + t9 + body + t10
  {
    Regroup5(t0 + t1 + title, t2, t3, t4, t5, t6);
    Regroup3(t0 + t1 + title + t2 + t3 + t4 + t5 + t6 + title, t7, t8, t9);
    Regroup3(t0, t1, title, t2);
    Regroup4(t4, t5, t6, title, t7);
    Regroup6(t0 + t1 + title + t2 + t3, t4, t5, t6, title, t7, t8);
  }

  /** `TalkPage` is what Python's `TALK.format(...)` returns for these arguments. */
  lemma TalkPageIsFormat(title: string, body: string)
    ensures Format(TALK, map["title" := title, "body" := body]) == Ok(TalkPage(title, body))
  {
    TalkPageShape(TALK_0, TALK_1, TALK_2, TALK_3, title, body);
    TalkPagePieces(TALK_TEXT0, "<title>", "</title>", TALK_TEXT1, "<section class=\"chapter\" ", "title", "=\"", "\"", " epub:type=\"chapter\">", @"
            ", TALK_TEXT2, title, body);
  }

  /** A talk page puts `title` into its `<title>` element without escaping. */
  lemma TalkPageTitle(title: string, body: string)
    ensures Contains(TalkPage(title, body), "<title>" + title + "</title>")
  {
    TalkPageTitleParts(TALK_TEXT0, "<title>", "</title>", TALK_TEXT1, "<section class=\"chapter\" ", "title", "=\"", "\"", " epub:type=\"chapter\">", @"
            ", TALK_TEXT2, title, body);
  }

  lemma TalkPageTitleParts(t0: string, t1: string, t2: string, t3: string, t4: string, t5: string, t6: string, t7: string, t8: string, t9: string, t10: string, title: string, body: string)
    ensures Contains(t0 + (t1 + title + t2) + t3 + (t4 + (t5 + t6 + title + t7) + t8) + t9 + body + t10, t1 + title + t2)
  {
    Regroup3(t0, t1, title, t2);
    Regroup4(t4, t5, t6, title, t7);
    Regroup6(t0 + t1 + title + t2 + t3, t4, t5, t6, title, t7, t8);
    Regroup10(t0 + t1 + title + t2, t3, t4, t5, t6, title, t7, t8, t9, body, t10);
    Infix(t0, t1 + title + t2, t3 + t4 + t5 + t6 + title + t7 + t8 + t9 + body + t10);
  }

  /** A talk page puts `title` into its section's `title` attribute without escaping. */
  lemma TalkPageSection(title: string, body: string)
    ensures Contains(TalkPage(title, body), "<section class=\"chapter\" " + Attr("title", title) + " epub:type=\"chapter\">")
  {
    TalkPageSectionParts(TALK_TEXT0, "<title>", "</title>", TALK_TEXT1, "<section class=\"chapter\" ", "title", "=\"", "\"", " epub:type=\"chapter\">", @"
            ", TALK_TEXT2, title, body);
  }

  lemma TalkPageSectionParts(t0: string, t1: string, t2: string, t3: string, t4: string, t5: string, t6: string, t7: string, t8: string, t9: string, t10: string, title: string, body: string)
    ensures Contains(t0 + (t1 + title + t2) + t3 + (t4 + (t5 + t6 + title + t7) + t8) + t9 + body + t10, t4 + (t5 + t6 + title + t7) + t8)
  {
    Regroup3(t0, t1, title, t2);
    Regroup4(t4, t5, t6, title, t7);
    Regroup6(t0 + t1 + title + t2 + t3, t4, t5, t6, title, t7, t8);
    Regroup3(t0 + t1 + title + t2 + t3 + t4 + t5 + t6 + title + t7 + t8, t9, body, t10);
    Infix(t0 + t1 + title + t2 + t3, t4 + (t5 + t6 + title + t7) + t8, t9 + body + t10);
  }

  /** A talk page puts `body` into its section without escaping. */
  lemma TalkPageBody(title: string, body: string)
    ensures Contains(TalkPage(title, body), body)
  {
    TalkPageBodyParts(TALK_TEXT0, "<title>", "</title>", TALK_TEXT1, "<section class=\"chapter\" ", "title", "=\"", "\"", " epub:type=\"chapter\">", @"
            ", TALK_TEXT2, title, body);
  }

  lemma TalkPageBodyParts(t0: string, t1: string, t2: string, t3: string, t4: string, t5: string, t6: string, t7: string, t8: string, t9: string, t10: string, title: string, body: string)
    ensures Contains(t0 + (t1 + title + t2) + t3 + (t4 + (t5 + t6 + title + t7) + t8) + t9 + body + t10, body)
  {
    Regroup3(t0, t1, title, t2);
    Regroup4(t4, t5, t6, title, t7);
    Regroup6(t0 + t1 + title + t2 + t3, t4, t5, t6, title, t7, t8);
    Infix(t0 + t1 + title + t2 + t3 + t4 + t5 + t6 + title + t7 + t8 + t9, body, t10);
  }

  // Longer stretches of fixed text in `PACKAGE` (gc/templates.py:21-46).
  const PACKAGE_TEXT0: string := @"<?xm version=""1.0"" encoding=""utf-8"" standalone=""no""?>
<package xmlns=""http://www.idpf.org/2007/opf"" xmlns:dc=""http://purl.org/dc/elements/1.1/""
xmlns:dcterms=""http://purl.org/dc/terms/"" version=""3.0"" xml:lang=""en""
unique-identifier=""bookid"">
<metadata>
    <dc:identifier id=""bookid"">urn:uuid:"
  const PACKAGE_TEXT1: string := @"
    <dc:language id=""pub-language"">en</dc:language>
    <dc:date>"
  const PACKAGE_TEXT2: string := @"</dc:date> <!-- yyyy-mm-dd -->
    <meta property=""dcterms:modified"">"
  const PACKAGE_TEXT3: string := @"T15:30:00Z</meta>
    <dc:creator id=""pub-creator12"">Greg Reeve</dc:creator>
    <dc:contributor>The Church of Jesus Christ of Latter-day Saints</dc:contributor>
    <dc:publisher>The Church of Jesus Christ of Latter-day Saints</dc:publisher>
    <dc:rights>Copyright © "
  const PACKAGE_TEXT4: string := @" The Church of Jesus Christ of Latter-day Saints</dc:rights>
</metadata>
"

  // The literal text of `PACKAGE` (gc/templates.py:21-46), between its fields.
  const PACKAGE_0: string := PACKAGE_TEXT0
  const PACKAGE_1: string := @"</dc:identifier>
    " + "<dc:title id=\"pub-title\">"
  const PACKAGE_2: string := " "
  const PACKAGE_3: string := " Conference Report</dc:title>" + PACKAGE_TEXT1
  const PACKAGE_4: string := PACKAGE_TEXT2
  const PACKAGE_5: string := PACKAGE_TEXT3
  const PACKAGE_6: string := PACKAGE_TEXT4 + @"<manifest>
    " + MANIFEST_TITLE_ITEM + @"
    " + MANIFEST_NAV_ITEM + @"
    "
  const PACKAGE_7: string := @"
</manifest>" + @"
" + @"<spine>
    " + SPINE_TITLE_REF + @"
    " + SPINE_NAV_REF + @"
    "
  const PACKAGE_8: string := @"
</spine>" + @"
</package>"

  /** `PACKAGE`, as `str.format` reads it. */
  const PACKAGE: Template :=
    Lit(PACKAGE_0, Field("uuid", Lit(PACKAGE_1, Field("month", Lit(PACKAGE_2, Field("year", Lit(PACKAGE_3, Field("date", Lit(PACKAGE_4, Field("date", Lit(PACKAGE_5, Field("year", Lit(PACKAGE_6, Field("items", Lit(PACKAGE_7, Field("refs", Lit(PACKAGE_8, End)))))))))))))))))

  /** The package document. */
  function Package(uuid: string, month: string, year: string, date: string, items: string, refs: string): string {
    PACKAGE_TEXT0 + uuid + @"</dc:identifier>
    " + ("<dc:title id=\"pub-title\">" + month + " " + year + " Conference Report</dc:title>") + PACKAGE_TEXT1 + date + PACKAGE_TEXT2 + date + PACKAGE_TEXT3 + year + PACKAGE_TEXT4 + ManifestElement(items) + @"
" + SpineElement(refs) + @"
</package>"
  }

  lemma PackageShape(p0: string, p1: string, p2: string, p3: string, p4: string, p5: string, p6: string, p7: string, p8: string, uuid: string, month: string, year: string, date: string, items: string, refs: string)
    ensures Format(Lit(p0, Field("uuid", Lit(p1, Field("month", Lit(p2, Field("year", Lit(p3, Field("date", Lit(p4, Field("date", Lit(p5, Field("year", Lit(p6, Field("items", Lit(p7, Field("refs", Lit(p8, End))))))))))))))))), map["uuid" := uuid, "month" := month, "year" := year, "date" := date, "items" := items, "refs" := refs]) == Ok(p0 + uuid + p1 + month + p2 + year + p3 + date + p4 + date + p5 + year + p6 + items + p7 + refs + p8)
  {
    var t := Lit(p0, Field("uuid", Lit(p1, Field("month", Lit(p2, Field("year", Lit(p3, Field("date", Lit(p4, Field("date", Lit(p5, Field("year", Lit(p6, Field("items", Lit(p7, Field("refs", Lit(p8, End)))))))))))))))));
    var args := map["uuid" := uuid, "month" := month, "year" := year, "date" := date, "items" := items, "refs" := refs];
    calc {
      Format(t, args);
      Emit(t, args, "");
      Emit(t.rest, args, "" + p0);
      Emit(t.rest.rest, args, "" + p0 + uuid);
      Emit(t.rest.rest.rest, args, "" + p0 + uuid + p1);
      Emit(t.rest.rest.rest.rest, args, "" + p0 + uuid + p1 + month);
      Emit(t.rest.rest.rest.rest.rest, args, "" + p0 + uuid + p1 + month + p2);
      Emit(t.rest.rest.rest.rest.rest.rest, args, "" + p0 + uuid + p1 + month + p2 + year);
      Emit(t.rest.rest.rest.rest.rest.rest.rest, args, "" + p0 + uuid + p1 + month + p2 + year + p3);
      Emit(t.rest.rest.rest.rest.rest.rest.rest.rest, args, "" + p0 + uuid + p1 + month + p2 + year + p3 + date);
      Emit(t.rest.rest.rest.rest.rest.rest.rest.rest.rest, args, "" + p0 + uuid + p1 + month + p2 + year + p3 + date + p4);
      Emit(t.rest.rest.rest.rest.rest.rest.rest.rest.rest.rest, args, "" + p0 + uuid + p1 + month + p2 + year + p3 + date + p4 + date);
      Emit(t.rest.rest.rest.rest.rest.rest.rest.rest.rest.rest.rest, args, "" + p0 + uuid + p1 + month + p2 + year + p3 + date + p4 + date + p5);
      Emit(t.rest.rest.rest.rest.rest.rest.rest.rest.rest.rest.rest.rest, args, "" + p0 + uuid + p1 + month + p2 + year + p3 + date + p4 + date + p5 + year);
      Emit(t.rest.rest.rest.rest.rest.rest.rest.rest.rest.rest.rest.rest.rest, args, "" + p0 + uuid + p1 + month + p2 + year + p3 + date + p4 + date + p5 + year + p6);
      Emit(t.rest.rest.rest.rest.rest.rest.rest.rest.rest.rest.rest.rest.rest.rest, args, "" + p0 + uuid + p1 + month + p2 + year + p3 + date + p4 + date + p5 + year + p6 + items);
      Emit(t.rest.rest.rest.rest.rest.rest.rest.rest.rest.rest.rest.rest.rest.rest.rest, args, "" + p0 + uuid + p1 + month + p2 + year + p3 + date + p4 + date + p5 + year + p6 + items + p7);
      Emit(t.rest.rest.rest.rest.rest.rest.rest.rest.rest.rest.rest.rest.rest.rest.rest.rest, args, "" + p0 + uuid + p1 + month + p2 + year + p3 + date + p4 + date + p5 + year + p6 + items + p7 + refs);
      Emit(t.rest.rest.rest.rest.rest.rest.rest.rest.rest.rest.rest.rest.rest.rest.rest.rest.rest, args, "" + p0 + uuid + p1 + month + p2 + year + p3 + date + p4 + date + p5 + year + p6 + items + p7 + refs + p8);
      Ok("" + p0 + uuid + p1 + month + p2 + year + p3 + date + p4 + date + p5 + year + p6 + items + p7 + refs + p8);
      { assert "" + p0 == p0; }
      Ok(p0 + uuid + p1 + month + p2 + year + p3 + date + p4 + date + p5 + year + p6 + items + p7 + refs + p8);
    }
  }

  lemma PackagePieces(t0: string, t1: string, t2: string, t3: string, t4: string, t5: string, t6: string, t7: string, t8: string, t9: string, t10: string, t11: string, t12: string, t13: string, t14: string, t15: string, t16: string, t17: string, t18: string, t19: string, uuid: string, month: string, year: string, date: string, items: string, refs: string)
    ensures t0 + uuid + (t1 + t2) + month + t3 + year + (t4 + t5) + date + t6 + date + t7 + year + (t8 + t9 + t10 + t11 + t12 + t11) + items + (t13 + t14 + t15 + t16 + t11 + t17 + t11) + refs + (t18 + t19)
         == t0 + uuid + t1 + (t2 + month + t3 + year + t4) + t5 + date + t6 + date + t7 + year + t8 + (t9 + t10 + t11 + t12 + t11 + items + t13) + t14 + (t15 + t16 + t11 + t17 + t11 + refs + t18) + t19
  {
    ConcatAssoc(t0 + uuid, t1, t2);
    ConcatAssoc(t0 + uuid + t1 + t2 + month + t3 + year, t4, t5);
    Regroup6(t0 + uuid + t1 + t2 + month + t3 + year + t4 + t5 + date + t6 + date + t7 + year, t8, t9, t10, t11, t12, t11);
    Regroup7(t0 + uuid + t1 + t2 + month + t3 + year + t4 + t5 + date + t6 + date + t7 + year + t8 + t9 + t10 + t11 + t12 + t11 + items, t13, t14, t15, t16, t11, t17, t11);
    ConcatAssoc(t0 + uuid + t1 + t2 + month + t3 + year + t4 + t5 + date + t6 + date + t7 + year + t8 + t9 + t10 + t11 + t12 + t11 + items + t13 + t14 + t15 + t16 + t11 + t17 + t11 + refs, t18, t19);
    Regroup5(t0 + uuid + t1, t2, month, t3, year, t4);
    Regroup7(t0 + uuid + t1 + t2 + month + t3 + year + t4 + t5 + date + t6 + date + t7 + year + t8, t9, t10, t11, t12, t11, items, t13);
    Regroup7(t0 + uuid + t1 + t2 + month + t3 + year + t4 + t5 + date + t6 + date + t7 + year + t8 + t9 + t10 + t11 + t12 + t11 + items + t13 + t14, t15, t16, t11, t17, t11, refs, t18);
  }

  /** `Package` is what Python's `PACKAGE.format(...)` returns for these arguments. */
  lemma PackageIsFormat(uuid: string, month: string, year: string, date: string, items: string, refs: string)
    ensures Format(PACKAGE, map["uuid" := uuid, "month" := month, "year" := year, "date" := date, "items" := items, "refs" := refs]) == Ok(Package(uuid, month, year, date, items, refs))
  {
    PackageShape(PACKAGE_0, PACKAGE_1, PACKAGE_2, PACKAGE_3, PACKAGE_4, PACKAGE_5, PACKAGE_6, PACKAGE_7, PACKAGE_8, uuid, month, year, date, items, refs);
    PackagePieces(PACKAGE_TEXT0, @"</dc:identifier>
    ", "<dc:title id=\"pub-title\">", " ", " Conference Report</dc:title>", PACKAGE_TEXT1, PACKAGE_TEXT2, PACKAGE_TEXT3, PACKAGE_TEXT4, @"<manifest>
    ", MANIFEST_TITLE_ITEM, @"
    ", MANIFEST_NAV_ITEM, @"
</manifest>", @"
", @"<spine>
    ", SPINE_TITLE_REF, SPINE_NAV_REF, @"
</spine>", @"
</package>", uuid, month, year, date, items, refs);
  }

  /** The package document holds the manifest element with the generated items. */
  lemma PackageManifest(uuid: string, month: string, year: string, date: string, items: string, refs: string)
    ensures Contains(Package(uuid, month, year, date, items, refs), ManifestElement(items))
  {
    PackageManifestParts(PACKAGE_TEXT0, @"</dc:identifier>
    ", "<dc:title id=\"pub-title\">", " ", " Conference Report</dc:title>", PACKAGE_TEXT1, PACKAGE_TEXT2, PACKAGE_TEXT3, PACKAGE_TEXT4, ManifestElement(items), @"
", SpineElement(refs), @"
</package>", uuid, month, year, date, items, refs);
  }

  lemma PackageManifestParts(t0: string, t1: string, t2: string, t3: string, t4: string, t5: string, t6: string, t7: string, t8: string, t9: string, t10: string, t11: string, t12: string, uuid: string, month: string, year: string, date: string, items: string, refs: string)
    ensures Contains(t0 + uuid + t1 + (t2 + month + t3 + year + t4) + t5 + date + t6 + date + t7 + year + t8 + t9 + t10 + t11 + t12, t9)
  {
    Regroup5(t0 + uuid + t1, t2, month, t3, year, t4);
    Regroup3(t0 + uuid + t1 + t2 + month + t3 + year + t4 + t5 + date + t6 + date + t7 + year + t8 + t9, t10, t11, t12);
    Infix(t0 + uuid + t1 + t2 + month + t3 + year + t4 + t5 + date + t6 + date + t7 + year + t8, t9, t10 + t11 + t12);
  }

  /** The package document holds the spine element with the generated itemrefs. */
  lemma PackageSpine(uuid: string, month: string, year: string, date: string, items: string, refs: string)
    ensures Contains(Package(uuid, month, year, date, items, refs), SpineElement(refs))
  {
    PackageSpineParts(PACKAGE_TEXT0, @"</dc:identifier>
    ", "<dc:title id=\"pub-title\">", " ", " Conference Report</dc:title>", PACKAGE_TEXT1, PACKAGE_TEXT2, PACKAGE_TEXT3, PACKAGE_TEXT4, ManifestElement(items), @"
", SpineElement(refs), @"
</package>", uuid, month, year, date, items, refs);
  }

  lemma PackageSpineParts(t0: string, t1: string, t2: string, t3: string, t4: string, t5: string, t6: string, t7: string, t8: string, t9: string, t10: string, t11: string, t12: string, uuid: string, month: string, year: string, date: string, items: string, refs: string)
    ensures Contains(t0 + uuid + t1 + (t2 + month + t3 + year + t4) + t5 + date + t6 + date + t7 + year + t8 + t9 + t10 + t11 + t12, t11)
  {
    Regroup5(t0 + uuid + t1, t2, month, t3, year, t4);
    Infix(t0 + uuid + t1 + t2 + month + t3 + year + t4 + t5 + date + t6 + date + t7 + year + t8 + t9 + t10, t11, t12);
  }

  /** The package document's title uses the `month` argument as it is. */
  lemma PackageTitle(uuid: string, month: string, year: string, date: string, items: string, refs: string)
    ensures Contains(Package(uuid, month, year, date, items, refs), "<dc:title id=\"pub-title\">" + month + " " + year + " Conference Report</dc:title>")
  {
    PackageTitleParts(PACKAGE_TEXT0, @"</dc:identifier>
    ", "<dc:title id=\"pub-title\">", " ", " Conference Report</dc:title>", PACKAGE_TEXT1, PACKAGE_TEXT2, PACKAGE_TEXT3, PACKAGE_TEXT4, ManifestElement(items), @"
", SpineElement(refs), @"
</package>", uuid, month, year, date, items, refs);
  }

  lemma PackageTitleParts(t0: string, t1: string, t2: string, t3: string, t4: string, t5: string, t6: string, t7: string, t8: string, t9: string, t10: string, t11: string, t12: string, uuid: string, month: string, year: string, date: string, items: string, refs: string)
    ensures Contains(t0 + uuid + t1 + (t2 + month + t3 + year + t4) + t5 + date + t6 + date + t7 + year + t8 + t9 + t10 + t11 + t12, t2 + month + t3 + year + t4)
  {
    Regroup5(t0 + uuid + t1, t2, month, t3, year, t4);
    Regroup11(t0 + uuid + t1 + t2 + month + t3 + year + t4, t5, date, t6, date, t7, year, t8, t9, t10, t11, t12);
    Infix(t0 + uuid + t1, t2 + month + t3 + year + t4, t5 + date + t6 + date + t7 + year + t8 + t9 + t10 + t11 + t12);
  }

  /** The two itemref snippets are the same text with differently named fields. */
  lemma PackageRefsAgree(id: string)
    ensures PackageRefLang(id) == PackageRefLangPart(id)
  {
  }
}
