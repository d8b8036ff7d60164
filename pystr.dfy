/** The operations of Python's `str` (and of `os.path` on POSIX) that the scripts
    use, with Python's semantics, on Dafny strings (sequences of Unicode scalar
    values). Each one carries the law that pins its meaning: a split joins back to
    its input, a replacement is a split joined with the replacement, a strip
    leaves a trimmed infix, a decimal rendering reads back to its number. */
module PyStr {
  import opened Wrappers
  import opened Seqs

  /** `p` occurs in `s` starting at index `i`. */
  predicate OccursAt(s: string, p: string, i: nat) {
    i + |p| <= |s| && s[i..i + |p|] == p
  }

  lemma OccursAtShift(s: string, p: string)
    requires s != []
    ensures forall j: nat {:trigger OccursAt(s, p, j)} :: j >= 1 ==> (OccursAt(s, p, j) <==> OccursAt(s[1..], p, j - 1))
  {
    forall j: nat | j >= 1
      ensures OccursAt(s, p, j) <==> OccursAt(s[1..], p, j - 1)
    {
      if j + |p| <= |s| {
        assert s[1..][j - 1..j - 1 + |p|] == s[j..j + |p|];
      }
    }
  }

  /** `s.find(p)` when it is not -1: the index at which `p` first occurs. */
  function Find(s: string, p: string): Option<nat>
    decreases |s|
  {
    if OccursAt(s, p, 0) then Some(0)
    else if s == [] then None
    else match Find(s[1..], p)
      case None => None
      case Some(i) => Some(i + 1)
  }

  /** An occurrence found lies within the string. */
  lemma FindBound(s: string, p: string)
    ensures Find(s, p).Some? ==> Find(s, p).value + |p| <= |s|
  {
    FindSpec(s, p);
  }

  /** `Find` returns the first occurrence, and `None` exactly when there is none. */
  lemma {:induction false} FindSpec(s: string, p: string)
    ensures Find(s, p).Some? ==> OccursAt(s, p, Find(s, p).value)
    ensures Find(s, p).Some? ==> forall i: nat :: i < Find(s, p).value ==> !OccursAt(s, p, i)
    ensures Find(s, p).None? ==> forall i: nat :: !OccursAt(s, p, i)
    decreases |s|
  {
    if !OccursAt(s, p, 0) && s != [] {
      FindSpec(s[1..], p);
      OccursAtShift(s, p);
    }
  }

  /** `p in s` for two strings. */
  predicate Contains(s: string, p: string) {
    Find(s, p).Some?
  }

  /** A string contains each of its infixes. */
  lemma Infix(a: string, b: string, c: string)
    ensures Contains(a + b + c, b)
  {
    var s := a + b + c;
    assert s[|a|..|a| + |b|] == b;
    assert OccursAt(s, b, |a|);
    FindSpec(s, b);
  }

  /** What an infix contains, the whole string contains. */
  lemma ContainsTrans(a: string, b: string, c: string)
    requires Contains(a, b) && Contains(b, c)
    ensures Contains(a, c)
  {
    FindSpec(a, b);
    FindSpec(b, c);
    var i, j := Find(a, b).value, Find(b, c).value;
    assert a[i + j..i + j + |c|] == a[i..i + |b|][j..j + |c|];
    assert OccursAt(a, c, i + j);
    FindSpec(a, c);
  }

  lemma ContainsWithin(a: string, b: string, c: string, p: string)
    requires Contains(b, p)
    ensures Contains(a + b + c, p)
  {
    Infix(a, b, c);
    ContainsTrans(a + b + c, b, p);
  }

  /** A joined string contains each of its parts. */
  lemma {:induction false} JoinContains(sep: string, parts: seq<string>, j: nat)
    requires j < |parts|
    ensures Contains(Join(sep, parts), parts[j])
  {
    if |parts| == 1 {
      Infix("", parts[0], "");
      assert "" + parts[0] + "" == parts[0];
    } else if j == 0 {
      Infix("", parts[0], sep + Join(sep, parts[1..]));
      assert "" + parts[0] + (sep + Join(sep, parts[1..])) == Join(sep, parts);
    } else {
      JoinContains(sep, parts[1..], j - 1);
      ContainsWithin(parts[0] + sep, Join(sep, parts[1..]), "", parts[j]);
      assert parts[0] + sep + Join(sep, parts[1..]) + "" == Join(sep, parts);
    }
  }

  /** A string containing `p` holds the first character of `p`. */
  lemma ContainsFirst(s: string, p: string)
    requires p != []
    ensures Contains(s, p) ==> p[0] in s
  {
    FindSpec(s, p);
    if Contains(s, p) {
      var i := Find(s, p).value;
      assert s[i] == s[i..i + |p|][0];
    }
  }

  lemma ContainsChar(s: string, c: char)
    ensures Contains(s, [c]) <==> c in s
  {
    if c in s {
      var i :| 0 <= i < |s| && s[i] == c;
      assert OccursAt(s, [c], i);
    }
    FindSpec(s, [c]);
    if Contains(s, [c]) {
      var i := Find(s, [c]).value;
      assert s[i..i + 1] == [c];
      assert s[i] == c;
    }
  }

  lemma NoOccurrenceInPrefix(s: string, p: string, i: nat)
    requires p != [] && i <= |s|
    requires forall j: nat :: j < i ==> !OccursAt(s, p, j)
    ensures !Contains(s[..i], p)
  {
    FindSpec(s[..i], p);
    forall j: nat | OccursAt(s[..i], p, j)
      ensures false
    {
      assert s[..i][j..j + |p|] == s[j..j + |p|];
      assert OccursAt(s, p, j);
    }
  }

  /** `s.split(sep)` for a non-empty separator: the pieces between the
      occurrences of `sep`, found left to right without overlap. */
  function Split(s: string, sep: string): (r: seq<string>)
    requires sep != []
    ensures |r| >= 1
    decreases |s|
  {
    match Find(s, sep)
    case None => [s]
    case Some(i) =>
      FindSpec(s, sep);
      [s[..i]] + Split(s[i + |sep|..], sep)
  }

  /** No piece of a split contains the separator. */
  lemma {:induction false} SplitPiecesFree(s: string, sep: string)
    requires sep != []
    ensures forall k :: 0 <= k < |Split(s, sep)| ==> !Contains(Split(s, sep)[k], sep)
    decreases |s|
  {
    match Find(s, sep)
    case None =>
    case Some(i) =>
      FindSpec(s, sep);
      NoOccurrenceInPrefix(s, sep, i);
      SplitPiecesFree(s[i + |sep|..], sep);
  }

  /** The first piece of a split is a prefix of the string. */
  lemma SplitFirstIsPrefix(s: string, sep: string)
    requires sep != []
    ensures IsPrefix(Split(s, sep)[0], s)
  {
    match Find(s, sep)
    case None =>
    case Some(i) =>
      FindSpec(s, sep);
      TakeIsPrefix(s, i);
  }

  /** `sep.join(parts)` */
  function Join(sep: string, parts: seq<string>): string {
    if |parts| == 0 then ""
    else if |parts| == 1 then parts[0]
    else parts[0] + sep + Join(sep, parts[1..])
  }

  /** `xs[-1]` */
  function Last<T>(xs: seq<T>): T
    requires xs != []
  {
    xs[|xs| - 1]
  }

  lemma JoinCons(sep: string, first: string, rest: seq<string>)
    requires rest != []
    ensures Join(sep, [first] + rest) == first + sep + Join(sep, rest)
  {
    assert ([first] + rest)[1..] == rest;
  }

  /** Joining one more part at the end appends the separator and the part. */
  lemma {:induction false} JoinSnoc(sep: string, parts: seq<string>, last: string)
    requires parts != []
    ensures Join(sep, parts + [last]) == Join(sep, parts) + sep + last
  {
    if |parts| == 1 {
      assert parts + [last] == [parts[0], last];
    } else {
      var head, tail := parts[0], parts[1..];
      assert (parts + [last])[1..] == tail + [last];
      JoinSnoc(sep, tail, last);
      calc {
        Join(sep, parts + [last]);
        head + sep + Join(sep, tail + [last]);
        head + sep + (Join(sep, tail) + sep + last);
        { ConcatAssoc(head + sep, Join(sep, tail) + sep, last); ConcatAssoc(head + sep, Join(sep, tail), sep); }
        head + sep + Join(sep, tail) + sep + last;
      }
    }
  }

  lemma SplitSome(s: string, sep: string, i: nat)
    requires sep != [] && Find(s, sep) == Some(i)
    ensures i + |sep| <= |s|
    ensures Split(s, sep) == [s[..i]] + Split(s[i + |sep|..], sep)
    ensures s == s[..i] + sep + s[i + |sep|..]
  {
    FindSpec(s, sep);
    assert OccursAt(s, sep, i);
    SliceAround(s, sep, i);
  }

  lemma SliceAround(s: string, p: string, i: nat)
    requires OccursAt(s, p, i)
    ensures s == s[..i] + p + s[i + |p|..]
  {
    assert s[..i + |p|] == s[..i] + s[i..i + |p|];
    assert s == s[..i + |p|] + s[i + |p|..];
  }

  /** Joining the pieces of a split with the separator gives back the string. */
  lemma {:induction false} SplitJoin(s: string, sep: string)
    requires sep != []
    ensures Join(sep, Split(s, sep)) == s
    decreases |s|
  {
    match Find(s, sep)
    case None =>
    case Some(i) =>
      SplitSome(s, sep, i);
      var rest := s[i + |sep|..];
      SplitJoin(rest, sep);
      JoinCons(sep, s[..i], Split(rest, sep));
  }

  lemma FindCharAfter(x: string, c: char, y: string)
    requires c !in x
    ensures Find(x + [c] + y, [c]) == Some(|x|)
  {
    var s := x + [c] + y;
    FindSpec(s, [c]);
    assert s[|x|..|x| + 1] == [c];
    assert OccursAt(s, [c], |x|);
    forall j: nat | j < |x|
      ensures !OccursAt(s, [c], j)
    {
      assert s[j] == x[j];
    }
  }

  /** Splitting on a single character undoes joining with it, provided no part
      contains that character: the parts of a joined command line come back. */
  lemma {:induction false} JoinSplitChar(c: char, parts: seq<string>)
    requires parts != []
    requires forall k :: 0 <= k < |parts| ==> c !in parts[k]
    ensures Split(Join([c], parts), [c]) == parts
  {
    if |parts| == 1 {
      ContainsChar(parts[0], c);
    } else {
      var j := Join([c], parts[1..]);
      JoinSplitChar(c, parts[1..]);
      FindCharAfter(parts[0], c, j);
      var s := parts[0] + [c] + j;
      assert s[..|parts[0]|] == parts[0];
      assert s[|parts[0]| + 1..] == j;
      assert parts == [parts[0]] + parts[1..];
    }
  }

  /** `s.replace(pat, rep)`: every occurrence of `pat`, found left to right
      without overlap, is replaced by `rep`. */
  function Replace(s: string, pat: string, rep: string): string
    requires pat != []
    decreases |s|
  {
    if OccursAt(s, pat, 0) then rep + Replace(s[|pat|..], pat, rep)
    else if s == [] then ""
    else [s[0]] + Replace(s[1..], pat, rep)
  }

  /** Replacing a character by text without it leaves none of it. */
  lemma {:induction false} ReplaceCharGone(s: string, c: char, rep: string)
    requires c !in rep
    ensures c !in Replace(s, [c], rep)
    decreases |s|
  {
    if OccursAt(s, [c], 0) {
      ReplaceCharGone(s[1..], c, rep);
    } else if s != [] {
      assert s[0..1] == [s[0]];
      ReplaceCharGone(s[1..], c, rep);
    }
  }

  /** Removing `pat` creates no character that was not there. */
  lemma {:induction false} ReplaceFree(s: string, pat: string, rep: string, c: char)
    requires pat != [] && c !in s && c !in rep
    ensures c !in Replace(s, pat, rep)
    decreases |s|
  {
    if OccursAt(s, pat, 0) {
      ReplaceFree(s[|pat|..], pat, rep, c);
    } else if s != [] {
      ReplaceFree(s[1..], pat, rep, c);
    }
  }

  /** A pattern does not occur where one of its characters is missing. */
  lemma Mismatch(s: string, pat: string, i: nat, k: nat)
    requires k < |pat| && (i + k >= |s| || s[i + k] != pat[k])
    ensures !OccursAt(s, pat, i)
  {
    if i + |pat| <= |s| {
      assert s[i..i + |pat|][k] == s[i + k];
    }
  }

  /** `x + sep + y` splits at the `sep` after `x` when no earlier `sep` starts. */
  lemma SplitAfter(x: string, sep: string, y: string)
    requires sep != []
    requires forall i: nat :: i < |x| ==> !OccursAt(x + sep + y, sep, i)
    ensures Split(x + sep + y, sep) == [x] + Split(y, sep)
  {
    var s := x + sep + y;
    assert s[|x|..|x| + |sep|] == sep;
    assert OccursAt(s, sep, |x|);
    FindSpec(s, sep);
    SplitSome(s, sep, |x|);
    assert s[..|x|] == x && s[|x| + |sep|..] == y;
  }

  /** A pattern that occurs only at the end is replaced there. */
  lemma ReplaceAtEnd(x: string, pat: string, rep: string)
    requires pat != []
    requires forall i: nat :: i < |x| ==> !OccursAt(x + pat + "", pat, i)
    ensures Replace(x + pat, pat, rep) == x + rep
  {
    SplitAfter(x, pat, "");
    assert x + pat + "" == x + pat;
    ReplaceIsSplitJoin(x + pat, pat, rep);
    assert Split("", pat) == [""];
    assert Join(rep, [x, ""]) == x + rep + "";
    assert [x] + [""] == [x, ""];
  }

  /** No occurrence anywhere means `p not in s`. */
  lemma NotContains(s: string, p: string)
    requires forall i: nat :: !OccursAt(s, p, i)
    ensures !Contains(s, p)
  {
    FindSpec(s, p);
  }

  /** An occurrence of `p` that starts inside `x` and runs into `y` would put
      `y[0]` at a later place of `p`. */
  lemma Straddle(x: string, y: string, p: string, i: nat)
    requires y != [] && i < |x| < i + |p| && y[0] !in p[1..]
    ensures !OccursAt(x + y, p, i)
  {
    var k := |x| - i;
    assert (x + y)[i + k] == y[0];
    assert p[1..][k - 1] == p[k];
    Mismatch(x + y, p, i, k);
  }

  /** `p` is in `x + y` only inside `x`, inside `y`, or across the cut; the
      last is ruled out when `y[0]` is not a later character of `p`. */
  lemma ConcatFree(x: string, y: string, p: string)
    requires p != [] && y != [] && y[0] !in p[1..]
    requires !Contains(x, p) && !Contains(y, p)
    ensures !Contains(x + y, p)
  {
    var s := x + y;
    FindSpec(x, p);
    FindSpec(y, p);
    forall i: nat
      ensures !OccursAt(s, p, i)
    {
      if i + |p| <= |x| {
        assert s[i..i + |p|] == x[i..i + |p|];
        assert !OccursAt(x, p, i);
      } else if i < |x| {
        Straddle(x, y, p, i);
      } else if i + |p| <= |s| {
        assert s[i..i + |p|] == y[i - |x|..i - |x| + |p|];
        assert !OccursAt(y, p, i - |x|);
      }
    }
    NotContains(s, p);
  }

  /** A string whose later characters differ from `p[0]` holds `p` only at its
      start; a mismatch at `k` rules that out too. */
  lemma FreeOf(t: string, p: string, k: nat)
    requires p != [] && t != [] && p[0] !in t[1..] && k < |p| && (k >= |t| || t[k] != p[k])
    ensures !Contains(t, p)
  {
    forall i: nat
      ensures !OccursAt(t, p, i)
    {
      if i == 0 {
        Mismatch(t, p, 0, k);
      } else if i < |t| {
        assert t[1..][i - 1] == t[i];
        Mismatch(t, p, i, 0);
      } else {
        Mismatch(t, p, i, 0);
      }
    }
    NotContains(t, p);
  }

  /** A pattern whose first character does not recur in it, appended to text
      that lacks it, occurs only at the end. */
  lemma OnlyAtEnd(x: string, p: string)
    requires p != [] && p[0] !in p[1..] && !Contains(x, p)
    ensures forall i: nat :: i < |x| ==> !OccursAt(x + p + "", p, i)
  {
    FindSpec(x, p);
    assert x + p + "" == x + p;
    forall i: nat | i < |x|
      ensures !OccursAt(x + p, p, i)
    {
      if i + |p| <= |x| {
        assert (x + p)[i..i + |p|] == x[i..i + |p|];
        assert !OccursAt(x, p, i);
      } else {
        Straddle(x, p, p, i);
      }
    }
  }

  lemma FindTail(s: string, p: string)
    requires s != [] && !OccursAt(s, p, 0)
    ensures Find(s, p) == match Find(s[1..], p) case None => None case Some(i) => Some(i + 1)
  {
  }

  lemma ReplaceStep(s: string, pat: string, rep: string, i: nat)
    requires pat != [] && s != []
    requires Find(s[1..], pat) == Some(i) && Find(s, pat) == Some(i + 1)
    ensures Join(rep, Split(s, pat)) == [s[0]] + Join(rep, Split(s[1..], pat))
  {
    var t := s[1..];
    SplitSome(t, pat, i);
    SplitSome(s, pat, i + 1);
    var rest := s[i + 1 + |pat|..];
    assert t[i + |pat|..] == rest;
    var head := t[..i];
    assert s[..i + 1] == [s[0]] + head;
    var tail := Split(rest, pat);
    var j := Join(rep, tail);
    assert Split(s, pat) == [[s[0]] + head] + tail;
    assert Split(t, pat) == [head] + tail;
    JoinCons(rep, [s[0]] + head, tail);
    JoinCons(rep, head, tail);
    ConcatAssoc([s[0]], head + rep, j);
    ConcatAssoc([s[0]], head, rep);
  }

  /** An occurrence at the front: both sides start with `rep`. */
  lemma ReplaceAtFront(s: string, pat: string, rep: string)
    requires pat != [] && OccursAt(s, pat, 0)
    requires Replace(s[|pat|..], pat, rep) == Join(rep, Split(s[|pat|..], pat))
    ensures Replace(s, pat, rep) == Join(rep, Split(s, pat))
  {
    var rest := s[|pat|..];
    SplitSome(s, pat, 0);
    assert Split(s, pat) == [""] + Split(rest, pat);
    JoinCons(rep, "", Split(rest, pat));
    assert "" + rep == rep;
  }

  /** No occurrence at all: both sides are `s`. */
  lemma ReplaceNowhere(s: string, pat: string, rep: string)
    requires pat != [] && s != [] && !OccursAt(s, pat, 0)
    requires Find(s[1..], pat).None?
    requires Replace(s[1..], pat, rep) == Join(rep, Split(s[1..], pat))
    ensures Replace(s, pat, rep) == Join(rep, Split(s, pat))
  {
    FindTail(s, pat);
    assert Split(s, pat) == [s];
    assert Split(s[1..], pat) == [s[1..]];
    assert s == [s[0]] + s[1..];
  }

  /** The replacement agrees with Python's identity
      `s.replace(pat, rep) == rep.join(s.split(pat))`. */
  lemma {:induction false} ReplaceIsSplitJoin(s: string, pat: string, rep: string)
    requires pat != []
    ensures Replace(s, pat, rep) == Join(rep, Split(s, pat))
    decreases |s|
  {
    if OccursAt(s, pat, 0) {
      ReplaceIsSplitJoin(s[|pat|..], pat, rep);
      ReplaceAtFront(s, pat, rep);
    } else if s == [] {
    } else {
      ReplaceIsSplitJoin(s[1..], pat, rep);
      FindTail(s, pat);
      match Find(s[1..], pat)
      case None =>
        ReplaceNowhere(s, pat, rep);
      case Some(i) =>
        ReplaceStep(s, pat, rep, i);
        assert Replace(s, pat, rep) == [s[0]] + Replace(s[1..], pat, rep);
    }
  }

  /** A string without the pattern is left as it is. */
  lemma ReplaceAbsent(s: string, pat: string, rep: string)
    requires pat != [] && !Contains(s, pat)
    ensures Replace(s, pat, rep) == s
  {
    ReplaceIsSplitJoin(s, pat, rep);
  }

  /** A prefix that cannot start the pattern passes through unchanged. */
  lemma {:induction false} ReplaceSkip(x: string, y: string, pat: string, rep: string)
    requires pat != [] && pat[0] !in x
    ensures Replace(x + y, pat, rep) == x + Replace(y, pat, rep)
    decreases |x|
  {
    if x != [] {
      var s := x + y;
      assert s[0] == x[0] != pat[0];
      assert !OccursAt(s, pat, 0);
      assert s[1..] == x[1..] + y;
      ReplaceSkip(x[1..], y, pat, rep);
      assert x == [x[0]] + x[1..];
    } else {
      assert x + y == y;
    }
  }

  /** An occurrence at the front is replaced and the scan goes on after it. */
  lemma ReplaceFront(y: string, pat: string, rep: string)
    requires pat != []
    ensures Replace(pat + y, pat, rep) == rep + Replace(y, pat, rep)
  {
    var s := pat + y;
    assert s[0..|pat|] == pat;
    assert s[|pat|..] == y;
  }

  /** `c.isspace()`: exactly the characters `str.strip()` removes by default. */
  predicate IsSpace(c: char) {
    || c == ' '
    || ('\t' <= c <= '\r')
    || ('\U{1C}' <= c <= '\U{1F}')
    || c == '\U{85}' || c == '\U{A0}' || c == '\U{1680}'
    || ('\U{2000}' <= c <= '\U{200A}')
    || c == '\U{2028}' || c == '\U{2029}' || c == '\U{202F}' || c == '\U{205F}' || c == '\U{3000}'
  }

  predicate AllSpace(s: string) {
    forall k :: 0 <= k < |s| ==> IsSpace(s[k])
  }

  /** `s.lstrip()` */
  function LStrip(s: string): (r: string)
    ensures IsSuffix(r, s)
    decreases |s|
  {
    if s != [] && IsSpace(s[0]) then
      var r := LStrip(s[1..]);
      DropIsSuffix(s, 1);
      SuffixTrans(r, s[1..], s);
      r
    else
      DropIsSuffix(s, 0);
      s
  }

  /** What `lstrip` leaves does not start with whitespace. */
  lemma {:induction false} LStripFront(s: string)
    ensures LStrip(s) != [] ==> !IsSpace(LStrip(s)[0])
    decreases |s|
  {
    if s != [] && IsSpace(s[0]) {
      LStripFront(s[1..]);
    }
  }

  /** Everything `lstrip` removes is whitespace. */
  lemma {:induction false} LStripRemovesSpace(s: string)
    ensures AllSpace(s[..|s| - |LStrip(s)|])
    decreases |s|
  {
    if s != [] && IsSpace(s[0]) {
      LStripRemovesSpace(s[1..]);
      var k := |s| - |LStrip(s)|;
      forall j | 0 <= j < k
        ensures IsSpace(s[..k][j])
      {
        if j > 0 {
          assert s[..k][j] == s[1..][..k - 1][j - 1];
        }
      }
    }
  }

  /** `s.rstrip()` */
  function RStrip(s: string): (r: string)
    ensures IsPrefix(r, s)
    decreases |s|
  {
    if s != [] && IsSpace(s[|s| - 1]) then
      var r := RStrip(s[..|s| - 1]);
      TakeIsPrefix(s, |s| - 1);
      PrefixTrans(r, s[..|s| - 1], s);
      r
    else
      TakeIsPrefix(s, |s|);
      s
  }

  /** What `rstrip` leaves does not end with whitespace. */
  lemma {:induction false} RStripBack(s: string)
    ensures RStrip(s) != [] ==> !IsSpace(RStrip(s)[|RStrip(s)| - 1])
    decreases |s|
  {
    if s != [] && IsSpace(s[|s| - 1]) {
      RStripBack(s[..|s| - 1]);
    }
  }

  /** Everything `rstrip` removes is whitespace. */
  lemma {:induction false} RStripRemovesSpace(s: string)
    ensures AllSpace(s[|RStrip(s)|..])
    decreases |s|
  {
    if s != [] && IsSpace(s[|s| - 1]) {
      var t := s[..|s| - 1];
      RStripRemovesSpace(t);
      var k := |RStrip(s)|;
      forall j | 0 <= j < |s| - k
        ensures IsSpace(s[k..][j])
      {
        if k + j < |s| - 1 {
          assert s[k..][j] == t[k..][j];
        }
      }
    }
  }

  /** `s.strip()`: `s` without the whitespace at either end. */
  function Strip(s: string): string {
    RStrip(LStrip(s))
  }

  /** What `strip` leaves neither starts nor ends with whitespace. */
  lemma StripEnds(s: string)
    ensures Strip(s) != [] ==> !IsSpace(Strip(s)[0]) && !IsSpace(Strip(s)[|Strip(s)| - 1])
  {
    var l := LStrip(s);
    LStripFront(s);
    RStripBack(l);
    if Strip(s) != [] {
      assert Strip(s)[0] == l[0];
    }
  }

  /** The whitespace `strip` removes from the front of `s`. */
  function LeadingSpace(s: string): string {
    s[..|s| - |LStrip(s)|]
  }

  /** The whitespace `strip` removes from the back, once the front is gone. */
  function TrailingSpace(s: string): string {
    LStrip(s)[|Strip(s)|..]
  }

  /** `strip` cuts `s` into leading whitespace, the result and trailing
      whitespace. */
  lemma StripParts(s: string)
    ensures s == LeadingSpace(s) + Strip(s) + TrailingSpace(s)
  {
    LStripSplit(s);
    RStripSplit(LStrip(s));
    ConcatAssoc(LeadingSpace(s), Strip(s), TrailingSpace(s));
  }

  lemma LStripSplit(s: string)
    ensures s == LeadingSpace(s) + LStrip(s)
  {
    SuffixSplit(s, LStrip(s));
  }

  lemma RStripSplit(l: string)
    ensures l == RStrip(l) + l[|RStrip(l)|..]
  {
    PrefixSplit(l, RStrip(l));
  }

  /** What `strip` cuts away at either end is whitespace. */
  lemma StripRemovesSpace(s: string)
    ensures AllSpace(LeadingSpace(s))
    ensures AllSpace(TrailingSpace(s))
  {
    LStripRemovesSpace(s);
    RStripRemovesSpace(LStrip(s));
  }

  /** Stripping twice is stripping once. */
  lemma StripIdempotent(s: string)
    ensures Strip(Strip(s)) == Strip(s)
  {
    var r := Strip(s);
    StripEnds(s);
    if r != [] {
      assert LStrip(r) == r;
      assert RStrip(r) == r;
    }
  }

  /** `c.lower()` for the ASCII and Latin-1 letters. */
  function LowerChar(c: char): char {
    if 'A' <= c <= 'Z' || ('\U{C0}' <= c <= '\U{DE}' && c != '\U{D7}') then (c as int + 32) as char else c
  }

  /** `s.lower()` (ASCII and Latin-1 letters; other characters unchanged) */
  function Lower(s: string): (r: string)
    ensures |r| == |s|
  {
    seq(|s|, k requires 0 <= k < |s| => LowerChar(s[k]))
  }

  /** Lowering a lowered string changes nothing more. */
  lemma LowerIdempotent(s: string)
    ensures Lower(Lower(s)) == Lower(s)
  {
  }

  predicate IsDigit(c: char) {
    '0' <= c <= '9'
  }

  predicate AllDigits(s: string) {
    forall k :: 0 <= k < |s| ==> IsDigit(s[k])
  }

  /** A decimal digit in the sense of a `\d` of a `str` regular expression
      without `re.ASCII`: a character of Unicode category Nd (Unicode 15.0),
      ASCII `0`-`9` among them. */
  predicate IsDecimal(c: char) {
    '0' <= c <= '9' || '\U{660}' <= c <= '\U{669}' || '\U{6F0}' <= c <= '\U{6F9}'
    || '\U{7C0}' <= c <= '\U{7C9}' || '\U{966}' <= c <= '\U{96F}' || '\U{9E6}' <= c <= '\U{9EF}'
    || '\U{A66}' <= c <= '\U{A6F}' || '\U{AE6}' <= c <= '\U{AEF}' || '\U{B66}' <= c <= '\U{B6F}'
    || '\U{BE6}' <= c <= '\U{BEF}' || '\U{C66}' <= c <= '\U{C6F}' || '\U{CE6}' <= c <= '\U{CEF}'
    || '\U{D66}' <= c <= '\U{D6F}' || '\U{DE6}' <= c <= '\U{DEF}' || '\U{E50}' <= c <= '\U{E59}'
    || '\U{ED0}' <= c <= '\U{ED9}' || '\U{F20}' <= c <= '\U{F29}' || '\U{1040}' <= c <= '\U{1049}'
    || '\U{1090}' <= c <= '\U{1099}' || '\U{17E0}' <= c <= '\U{17E9}' || '\U{1810}' <= c <= '\U{1819}'
    || '\U{1946}' <= c <= '\U{194F}' || '\U{19D0}' <= c <= '\U{19D9}' || '\U{1A80}' <= c <= '\U{1A89}'
    || '\U{1A90}' <= c <= '\U{1A99}' || '\U{1B50}' <= c <= '\U{1B59}' || '\U{1BB0}' <= c <= '\U{1BB9}'
    || '\U{1C40}' <= c <= '\U{1C49}' || '\U{1C50}' <= c <= '\U{1C59}' || '\U{A620}' <= c <= '\U{A629}'
    || '\U{A8D0}' <= c <= '\U{A8D9}' || '\U{A900}' <= c <= '\U{A909}' || '\U{A9D0}' <= c <= '\U{A9D9}'
    || '\U{A9F0}' <= c <= '\U{A9F9}' || '\U{AA50}' <= c <= '\U{AA59}' || '\U{ABF0}' <= c <= '\U{ABF9}'
    || '\U{FF10}' <= c <= '\U{FF19}' || '\U{104A0}' <= c <= '\U{104A9}' || '\U{10D30}' <= c <= '\U{10D39}'
    || '\U{11066}' <= c <= '\U{1106F}' || '\U{110F0}' <= c <= '\U{110F9}' || '\U{11136}' <= c <= '\U{1113F}'
    || '\U{111D0}' <= c <= '\U{111D9}' || '\U{112F0}' <= c <= '\U{112F9}' || '\U{11450}' <= c <= '\U{11459}'
    || '\U{114D0}' <= c <= '\U{114D9}' || '\U{11650}' <= c <= '\U{11659}' || '\U{116C0}' <= c <= '\U{116C9}'
    || '\U{11730}' <= c <= '\U{11739}' || '\U{118E0}' <= c <= '\U{118E9}' || '\U{11950}' <= c <= '\U{11959}'
    || '\U{11C50}' <= c <= '\U{11C59}' || '\U{11D50}' <= c <= '\U{11D59}' || '\U{11DA0}' <= c <= '\U{11DA9}'
    || '\U{11F50}' <= c <= '\U{11F59}' || '\U{16A60}' <= c <= '\U{16A69}' || '\U{16AC0}' <= c <= '\U{16AC9}'
    || '\U{16B50}' <= c <= '\U{16B59}' || '\U{1D7CE}' <= c <= '\U{1D7FF}' || '\U{1E140}' <= c <= '\U{1E149}'
    || '\U{1E2F0}' <= c <= '\U{1E2F9}' || '\U{1E4F0}' <= c <= '\U{1E4F9}' || '\U{1E950}' <= c <= '\U{1E959}'
    || '\U{1FBF0}' <= c <= '\U{1FBF9}'
  }

  predicate AllDecimal(s: string) {
    forall k :: 0 <= k < |s| ==> IsDecimal(s[k])
  }

  /** A string of decimal digits holds no character that is not one. */
  lemma DecimalsLack(s: string, c: char)
    requires AllDecimal(s) && !IsDecimal(c)
    ensures c !in s
  {
  }

  function DigitChar(d: nat): (c: char)
    requires d < 10
    ensures IsDigit(c)
  {
    ('0' as int + d) as char
  }

  /** `str(n)` for a non-negative integer: its decimal digits, without a
      leading zero. */
  function NatToString(n: nat): (r: string)
    ensures r != [] && AllDigits(r)
    ensures r[0] == '0' <==> n == 0
    ensures n == 0 ==> r == "0"
  {
    if n < 10 then [DigitChar(n)] else NatToString(n / 10) + [DigitChar(n % 10)]
  }

  /** The number a string of decimal digits denotes (`int(s)`). */
  function DecimalValue(s: string): nat
    requires AllDigits(s)
  {
    if s == [] then 0 else DecimalValue(s[..|s| - 1]) * 10 + (s[|s| - 1] as int - '0' as int)
  }

  /** `int(str(n)) == n` */
  lemma {:induction false} DecimalRoundTrip(n: nat)
    ensures DecimalValue(NatToString(n)) == n
  {
    if n >= 10 {
      DecimalRoundTrip(n / 10);
      var s := NatToString(n);
      assert s[..|s| - 1] == NatToString(n / 10);
    }
  }

  /** The digit strings of two numbers differ when the numbers do. */
  lemma NatToStringInjective(m: nat, n: nat)
    requires m != n
    ensures NatToString(m) != NatToString(n)
  {
    DecimalRoundTrip(m);
    DecimalRoundTrip(n);
  }

  function HexDigit(d: nat): (c: char)
    requires d < 16
  {
    if d < 10 then DigitChar(d) else ('a' as int + d - 10) as char
  }

  /** The characters `repr` writes as `\xHH`: the C0 controls, DEL, the C1
      controls, NO-BREAK SPACE and SOFT HYPHEN. */
  predicate NeedsHexEscape(c: char) {
    c < ' ' || c == '\U{7F}' || ('\U{80}' <= c <= '\U{A0}') || c == '\U{AD}'
  }

  /** How `repr` writes one character inside a literal quoted with `quote`. */
  function EscapeChar(c: char, quote: char): (r: string)
    ensures |r| >= 1
  {
    if c == quote || c == '\\' then ['\\', c]
    else if c == '\t' then "\\t"
    else if c == '\n' then "\\n"
    else if c == '\r' then "\\r"
    else if NeedsHexEscape(c) then "\\x" + [HexDigit(c as int / 16), HexDigit(c as int % 16)]
    else [c]
  }

  function Escape(s: string, quote: char): (r: string)
    ensures |r| >= |s|
  {
    if s == [] then "" else EscapeChar(s[0], quote) + Escape(s[1..], quote)
  }

  /** `repr` quotes with `"` only when the string holds `'` and no `"`. */
  function QuoteFor(s: string): char {
    if '\'' in s && '"' !in s then '"' else '\''
  }

  /** `repr(s)`, which is also how `str()` renders a string inside a tuple. */
  function StrRepr(s: string): (r: string)
    ensures |r| >= |s| + 2
    ensures r[0] == QuoteFor(s) && r[|r| - 1] == QuoteFor(s)
  {
    [QuoteFor(s)] + Escape(s, QuoteFor(s)) + [QuoteFor(s)]
  }

  /** A character that `repr` copies as it is whichever quote it uses. */
  predicate Plain(c: char) {
    c != '\'' && c != '"' && c != '\\' && !NeedsHexEscape(c)
  }

  lemma {:induction false} EscapePlain(s: string, quote: char)
    requires forall k :: 0 <= k < |s| ==> Plain(s[k])
    requires quote == '\'' || quote == '"'
    ensures Escape(s, quote) == s
  {
    if s != [] {
      EscapePlain(s[1..], quote);
      assert s == [s[0]] + s[1..];
    }
  }

  /** A string of plain characters is rendered between single quotes. */
  lemma PlainRepr(s: string)
    requires forall k :: 0 <= k < |s| ==> Plain(s[k])
    ensures StrRepr(s) == "'" + s + "'"
  {
    assert '\'' !in s;
    EscapePlain(s, '\'');
  }

  /** The reprs of the elements, in order. */
  function Reprs(xs: seq<string>): (r: seq<string>)
    ensures |r| == |xs|
  {
    if xs == [] then [] else [StrRepr(xs[0])] + Reprs(xs[1..])
  }

  /** `str(t)` for a tuple of strings: the element reprs between parentheses,
      separated by `, `, with a trailing comma for a one-element tuple. */
  function TupleRepr(xs: seq<string>): string {
    if |xs| == 1 then "(" + StrRepr(xs[0]) + ",)"
    else "(" + Join(", ", Reprs(xs)) + ")"
  }

  /** A three-element tuple renders as `(r0, r1, r2)`. */
  lemma TripleRepr(a: string, b: string, c: string)
    ensures TupleRepr([a, b, c]) == "(" + StrRepr(a) + ", " + StrRepr(b) + ", " + StrRepr(c) + ")"
  {
    var ra, rb, rc := StrRepr(a), StrRepr(b), StrRepr(c);
    assert Reprs([b, c]) == [rb, rc] by {
      assert [b, c][1..] == [c];
    }
    assert Reprs([a, b, c]) == [ra, rb, rc] by {
      assert [a, b, c][1..] == [b, c];
    }
    assert Join(", ", [rb, rc]) == rb + ", " + rc by {
      assert [rb, rc][1..] == [rc];
    }
    assert Join(", ", [ra, rb, rc]) == ra + ", " + (rb + ", " + rc) by {
      assert [ra, rb, rc][1..] == [rb, rc];
    }
    TripleShape("(", ra, ", ", rb, rc, ")");
  }

  lemma TripleShape(open: string, ra: string, sep: string, rb: string, rc: string, close: string)
    ensures open + (ra + sep + (rb + sep + rc)) + close == open + ra + sep + rb + sep + rc + close
  {
  }

  /** The rendering of a triple is longer than its elements together, by at
      least the quotes, the parentheses and the separators. */
  lemma TripleReprLength(a: string, b: string, c: string)
    ensures |TupleRepr([a, b, c])| >= |a| + |b| + |c| + 12
  {
    TripleRepr(a, b, c);
    var ra, rb, rc := StrRepr(a), StrRepr(b), StrRepr(c);
    assert |"(" + ra + ", " + rb + ", " + rc + ")"| == |ra| + |rb| + |rc| + 6;
  }

  /** The last piece of a split is a suffix of the string. */
  lemma {:induction false} SplitLastIsSuffix(s: string, sep: string)
    requires sep != []
    ensures IsSuffix(Last(Split(s, sep)), s)
    decreases |s|
  {
    match Find(s, sep)
    case None =>
      assert Split(s, sep) == [s];
      DropIsSuffix(s, 0);
    case Some(i) =>
      FindBound(s, sep);
      var rest := s[i + |sep|..];
      var pieces := Split(rest, sep);
      SplitLastIsSuffix(rest, sep);
      assert Split(s, sep) == [s[..i]] + pieces;
      LastCons(s[..i], pieces);
      assert Last(Split(s, sep)) == Last(pieces);
      DropIsSuffix(s, i + |sep|);
      SuffixTrans(Last(pieces), rest, s);
  }

  /** `p.split('/')[-1]`, which is also the tail of `os.path.split(p)`: the part
      of the path after its last `/`, itself free of `/` and a suffix of `p`. */
  function Basename(p: string): (r: string)
    ensures '/' !in r
    ensures IsSuffix(r, p)
  {
    var parts := Split(p, "/");
    SplitPiecesFree(p, "/");
    ContainsChar(Last(parts), '/');
    SplitLastIsSuffix(p, "/");
    Last(parts)
  }

  /** Splitting at a character cuts at its first occurrence. */
  lemma SplitAtFirst(x: string, c: char, rest: string)
    requires c !in x
    ensures Split(x + [c] + rest, [c]) == [x] + Split(rest, [c])
  {
    var p := x + [c] + rest;
    FindCharAfter(x, c, rest);
    assert p[|x| + 1..] == rest;
    assert p[..|x|] == x;
  }

  /** A string holding `c` is cut by its first `c`. */
  lemma FirstOccurrence(s: string, c: char) returns (x: string, y: string)
    requires c in s
    ensures s == x + [c] + y && c !in x
  {
    var i :| 0 <= i < |s| && s[i] == c;
    while c in s[..i]
      invariant 0 <= i < |s| && s[i] == c
      decreases i
    {
      var j :| 0 <= j < i && s[..i][j] == c;
      i := j;
    }
    x, y := s[..i], s[i + 1..];
    assert s == s[..i] + [s[i]] + s[i + 1..];
  }

  /** The text after the last `/` of `s + "/" + b` is `b`, when `b` has no `/`. */
  lemma BasenameAfterSlash(s: string, b: string)
    requires '/' !in b
    ensures Basename(s + "/" + b) == b
  {
    LastAfter(s, '/', b);
  }

  /** The last piece of a split on `c` is what follows the last `c`. */
  lemma {:induction false} LastAfter(s: string, c: char, b: string)
    requires c !in b
    ensures Last(Split(s + [c] + b, [c])) == b
    decreases |s|
  {
    ContainsChar(b, c);
    assert Split(b, [c]) == [b];
    if c !in s {
      SplitAtFirst(s, c, b);
    } else {
      var x, y := FirstOccurrence(s, c);
      var rest := y + [c] + b;
      assert s + [c] + b == x + [c] + rest;
      SplitAtFirst(x, c, rest);
      LastAfter(y, c, b);
      LastCons(x, Split(rest, [c]));
    }
  }

  /** `s.rfind(c)`: the last index holding `c`, or -1. */
  function RFind(s: string, c: char): (r: int)
    ensures -1 <= r < |s|
    ensures r >= 0 ==> s[r] == c
    ensures forall k :: r < k < |s| ==> s[k] != c
  {
    if s == [] then -1 else if s[|s| - 1] == c then |s| - 1 else RFind(s[..|s| - 1], c)
  }

  /** `os.path.splitext(p)` on POSIX: the extension starts at the last `.` of the
      last path component unless only dots precede it in that component. */
  function SplitExt(p: string): (r: (string, string))
    ensures r.0 + r.1 == p
    ensures r.1 == "" || (r.1[0] == '.' && '.' !in r.1[1..] && '/' !in r.1)
    ensures r.1 != "" ==> exists k :: 0 <= k < |r.0| && r.0[k] != '.' && '/' !in r.0[k..]
  {
    var sepIndex := RFind(p, '/');
    var dotIndex := RFind(p, '.');
    if dotIndex > sepIndex && exists k :: sepIndex < k < dotIndex && p[k] != '.' then
      assert forall k :: dotIndex < k < |p| ==> p[k] != '.' && p[k] != '/';
      assert forall k :: sepIndex < k < |p| ==> p[k] != '/';
      (p[..dotIndex], p[dotIndex..])
    else
      (p, "")
  }

  /** `os.path.join(a, b)` on POSIX for two components. */
  function PathJoin(a: string, b: string): (r: string)
    ensures b != [] && b[0] == '/' ==> r == b
    ensures (b == [] || b[0] != '/') ==> r == a + (if a == [] || a[|a| - 1] == '/' then "" else "/") + b
  {
    if b != [] && b[0] == '/' then b
    else if a == [] || a[|a| - 1] == '/' then a + b
    else a + "/" + b
  }
}
