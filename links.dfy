/** The slug of a talk, read off the link of its tile in a table of contents.
    The two extractors cut the link in different orders: cr/extractor.py takes
    the last `/`-segment and then drops the `?query`, gc/extractor.py and
    cr/cr.py drop the `?query` first and then take the last `/`-segment. */
module Links {
  import opened Seqs
  import opened PyStr

  /** `link.split('/')[-1].split('?')[0]` */
  function CrSlug(link: string): (r: string)
    ensures '/' !in r && '?' !in r
  {
    var b := Basename(link);
    SplitPiecesFree(b, "?");
    ContainsChar(Split(b, "?")[0], '?');
    SplitFirstIsPrefix(b, "?");
    assert forall k :: 0 <= k < |Split(b, "?")[0]| ==> Split(b, "?")[0][k] == b[k];
    Split(b, "?")[0]
  }

  /** `href.split('?')[:1][0].split('/')[-1]` */
  function GcSlug(href: string): (r: string)
    ensures '/' !in r && '?' !in r
  {
    var h := Split(href, "?")[0];
    SplitPiecesFree(href, "?");
    ContainsChar(h, '?');
    var r := Basename(h);
    assert forall k :: 0 <= k < |r| ==> r[k] == h[|h| - |r| + k];
    r
  }

  /** A link `{prefix}/{slug}?{query}` with no `/` in the query has that slug. */
  lemma CrSlugOf(prefix: string, slug: string, query: string)
    requires '/' !in slug && '?' !in slug && '/' !in query
    ensures CrSlug(prefix + "/" + slug + "?" + query) == slug
  {
    var tail := slug + "?" + query;
    assert '/' !in tail;
    BasenameAfterSlash(prefix, tail);
    assert prefix + "/" + slug + "?" + query == prefix + "/" + tail;
    SplitAtFirst(slug, '?', query);
  }

  /** A link `{prefix}/{slug}` without a query has that slug. */
  lemma CrSlugPlain(prefix: string, slug: string)
    requires '/' !in slug && '?' !in slug
    ensures CrSlug(prefix + "/" + slug) == slug
  {
    BasenameAfterSlash(prefix, slug);
    ContainsChar(slug, '?');
  }

  /** A link `{prefix}/{slug}?{query}` has that slug whatever the query holds. */
  lemma GcSlugOf(prefix: string, slug: string, query: string)
    requires '?' !in prefix && '/' !in slug && '?' !in slug
    ensures GcSlug(prefix + "/" + slug + "?" + query) == slug
  {
    var head := prefix + "/" + slug;
    assert '?' !in head;
    SplitAtFirst(head, '?', query);
    BasenameAfterSlash(prefix, slug);
  }

  /** A link without a query has the same slug under both readings. */
  lemma GcSlugPlain(prefix: string, slug: string)
    requires '?' !in prefix && '/' !in slug && '?' !in slug
    ensures GcSlug(prefix + "/" + slug) == slug == CrSlug(prefix + "/" + slug)
  {
    var head := prefix + "/" + slug;
    assert '?' !in head;
    ContainsChar(head, '?');
    BasenameAfterSlash(prefix, slug);
    CrSlugPlain(prefix, slug);
  }

  /** The two readings part ways when the query holds a `/`: for
      `talks/faith?x=a/b` the extractor of cr/extractor.py reads `b`, the one of
      gc/extractor.py and cr/cr.py reads `faith`. */
  lemma SlugReadingsDiffer(prefix: string, slug: string, q1: string, q2: string)
    requires '?' !in prefix && '/' !in slug && '?' !in slug && '/' !in q2 && '?' !in q2
    ensures GcSlug(prefix + "/" + slug + "?" + q1 + "/" + q2) == slug
    ensures CrSlug(prefix + "/" + slug + "?" + q1 + "/" + q2) == q2
  {
    GcSlugOf(prefix, slug, q1 + "/" + q2);
    assert prefix + "/" + slug + "?" + q1 + "/" + q2 == prefix + "/" + slug + "?" + (q1 + "/" + q2);
    CrSlugPlain(prefix + "/" + slug + "?" + q1, q2);
  }
}
