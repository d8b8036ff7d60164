/** Python's `list.sort(key=...)` on a list whose keys are strings: strings are
    ordered by `<`, code point by code point with a proper prefix first, and the
    sort is stable. Any stable sort gives the same list, so sorting is defined
    here as insertion of each element, from the first to the last, after every
    element whose key it is not smaller than. */
module PySort {

  /** Python's `a < b` on strings. */
  predicate Less(a: string, b: string)
    decreases |a|
  {
    b != [] && (a == [] || a[0] < b[0] || (a[0] == b[0] && Less(a[1..], b[1..])))
  }

  lemma {:induction false} LessIrreflexive(a: string)
    ensures !Less(a, a)
    decreases |a|
  {
    if a != [] {
      LessIrreflexive(a[1..]);
    }
  }

  lemma {:induction false} LessTransitive(a: string, b: string, c: string)
    requires Less(a, b) && Less(b, c)
    ensures Less(a, c)
    decreases |a|
  {
    if a != [] && a[0] == b[0] && b[0] == c[0] {
      LessTransitive(a[1..], b[1..], c[1..]);
    }
  }

  /** Any two strings compare one way, the other, or are equal. */
  lemma {:induction false} LessTrichotomy(a: string, b: string)
    ensures Less(a, b) || a == b || Less(b, a)
    decreases |a|
  {
    if a != [] && b != [] && a[0] == b[0] {
      LessTrichotomy(a[1..], b[1..]);
      if a[1..] == b[1..] {
        assert a == [a[0]] + a[1..] && b == [b[0]] + b[1..];
      }
    }
  }

  /** No later element's key is smaller than the one before it. */
  predicate SortedBy<T>(key: T -> string, s: seq<T>) {
    forall i :: 0 < i < |s| ==> !Less(key(s[i]), key(s[i - 1]))
  }

  /** `x` put into the sorted list `s` before the first element whose key is
      larger than its own. */
  function Insert<T>(key: T -> string, x: T, s: seq<T>): seq<T> {
    if s == [] then [x]
    else if Less(key(x), key(s[0])) then [x] + s
    else [s[0]] + Insert(key, x, s[1..])
  }

  /** `sorted(xs, key=key)` */
  function SortBy<T>(key: T -> string, xs: seq<T>): seq<T> {
    if xs == [] then [] else Insert(key, xs[|xs| - 1], SortBy(key, xs[..|xs| - 1]))
  }

  /** The elements of `s` whose key is `k`, in order. */
  function WithKey<T>(key: T -> string, k: string, s: seq<T>): seq<T> {
    if s == [] then []
    else (if key(s[0]) == k then [s[0]] else []) + WithKey(key, k, s[1..])
  }

  lemma {:induction false} WithKeyAppend<T>(key: T -> string, k: string, a: seq<T>, b: seq<T>)
    ensures WithKey(key, k, a + b) == WithKey(key, k, a) + WithKey(key, k, b)
    decreases |a|
  {
    if a != [] {
      assert (a + b)[1..] == a[1..] + b;
      WithKeyAppend(key, k, a[1..], b);
    } else {
      assert a + b == b;
    }
  }

  lemma {:induction false} InsertFront<T>(key: T -> string, x: T, s: seq<T>)
    ensures |Insert(key, x, s)| == |s| + 1
    ensures Insert(key, x, s)[0] == x || (s != [] && Insert(key, x, s)[0] == s[0])
  {
    if s != [] && !Less(key(x), key(s[0])) {
      InsertFront(key, x, s[1..]);
    }
  }

  lemma {:induction false} InsertSorted<T>(key: T -> string, x: T, s: seq<T>)
    requires SortedBy(key, s)
    ensures SortedBy(key, Insert(key, x, s))
  {
    if s == [] {
    } else if Less(key(x), key(s[0])) {
      if Less(key(s[0]), key(x)) {
        LessTransitive(key(x), key(s[0]), key(x));
        LessIrreflexive(key(x));
      }
    } else {
      var t := s[1..];
      SortedTail(key, s);
      InsertSorted(key, x, t);
      InsertFront(key, x, t);
      var r := Insert(key, x, s);
      assert r == [s[0]] + Insert(key, x, t);
      forall i | 0 < i < |r|
        ensures !Less(key(r[i]), key(r[i - 1]))
      {
        if i > 1 {
          assert r[i] == Insert(key, x, t)[i - 1] && r[i - 1] == Insert(key, x, t)[i - 2];
        } else if Insert(key, x, t)[0] != x {
          assert t != [] && r[1] == t[0] == s[1];
        }
      }
    }
  }

  /** Inserting keeps every element and adds `x`. */
  lemma {:induction false} InsertPermutes<T>(key: T -> string, x: T, s: seq<T>)
    ensures multiset(Insert(key, x, s)) == multiset(s) + multiset{x}
  {
    if s != [] {
      assert s == [s[0]] + s[1..];
      if !Less(key(x), key(s[0])) {
        InsertPermutes(key, x, s[1..]);
      }
    }
  }

  /** In a sorted list, nothing after an element has a key below that element's. */
  lemma {:induction false} SortedAbove<T>(key: T -> string, s: seq<T>, j: nat)
    requires SortedBy(key, s) && s != [] && j < |s|
    ensures !Less(key(s[j]), key(s[0]))
  {
    if j > 0 {
      SortedAbove(key, s, j - 1);
      LessTrichotomy(key(s[j - 1]), key(s[0]));
      LessTrichotomy(key(s[j]), key(s[j - 1]));
      if Less(key(s[j]), key(s[0])) {
        if key(s[j - 1]) == key(s[0]) {
        } else {
          LessTransitive(key(s[0]), key(s[j - 1]), key(s[j]));
          LessTransitive(key(s[0]), key(s[j]), key(s[0]));
          LessIrreflexive(key(s[0]));
        }
      }
    } else {
      LessIrreflexive(key(s[0]));
    }
  }

  /** A sorted list holds no element of key `k` when its first key is above `k`. */
  lemma NoKeyBelowFront<T>(key: T -> string, k: string, s: seq<T>)
    requires SortedBy(key, s) && s != [] && Less(k, key(s[0]))
    ensures WithKey(key, k, s) == []
  {
    assert forall j :: 0 <= j < |s| ==> key(s[j]) != k by {
      forall j | 0 <= j < |s|
        ensures key(s[j]) != k
      {
        SortedAbove(key, s, j);
      }
    }
    NoKey(key, k, s);
  }

  lemma {:induction false} NoKey<T>(key: T -> string, k: string, s: seq<T>)
    requires forall j :: 0 <= j < |s| ==> key(s[j]) != k
    ensures WithKey(key, k, s) == []
  {
    if s != [] {
      assert key(s[0]) != k;
      NoKey(key, k, s[1..]);
    }
  }

  lemma SortedTail<T>(key: T -> string, s: seq<T>)
    requires SortedBy(key, s) && s != []
    ensures SortedBy(key, s[1..])
  {
    var t := s[1..];
    forall i | 0 < i < |t|
      ensures !Less(key(t[i]), key(t[i - 1]))
    {
      assert t[i] == s[i + 1] && t[i - 1] == s[i];
    }
  }

  lemma WithKeyOne<T>(key: T -> string, k: string, x: T)
    ensures WithKey(key, k, [x]) == if key(x) == k then [x] else []
  {
    assert [x][1..] == [] && [x][0] == x;
  }

  /** `x` put in front of a sorted list whose first key is above its own. */
  lemma InsertWithKeyFront<T>(key: T -> string, k: string, x: T, s: seq<T>)
    requires SortedBy(key, s) && s != [] && Less(key(x), key(s[0]))
    ensures WithKey(key, k, Insert(key, x, s)) == WithKey(key, k, s) + WithKey(key, k, [x])
  {
    WithKeyOne(key, k, x);
    WithKeyAppend(key, k, [x], s);
    if key(x) == k {
      NoKeyBelowFront(key, k, s);
    }
  }

  /** Inserting into a sorted list puts `x` after each element of the same key. */
  lemma {:induction false} InsertWithKey<T>(key: T -> string, k: string, x: T, s: seq<T>)
    requires SortedBy(key, s)
    ensures WithKey(key, k, Insert(key, x, s)) == WithKey(key, k, s) + WithKey(key, k, [x])
  {
    if s == [] {
      WithKeyOne(key, k, x);
    } else if Less(key(x), key(s[0])) {
      InsertWithKeyFront(key, k, x, s);
    } else {
      var t := s[1..];
      SortedTail(key, s);
      var head := WithKey(key, k, [s[0]]);
      calc {
        WithKey(key, k, Insert(key, x, s));
        WithKey(key, k, [s[0]] + Insert(key, x, t));
        { WithKeyAppend(key, k, [s[0]], Insert(key, x, t)); }
        head + WithKey(key, k, Insert(key, x, t));
        { InsertWithKey(key, k, x, t); }
        head + (WithKey(key, k, t) + WithKey(key, k, [x]));
        head + WithKey(key, k, t) + WithKey(key, k, [x]);
        { WithKeyAppend(key, k, [s[0]], t); assert [s[0]] + t == s; }
        WithKey(key, k, s) + WithKey(key, k, [x]);
      }
    }
  }

  /** The sorted list is ordered by key. */
  lemma {:induction false} SortBySorted<T>(key: T -> string, xs: seq<T>)
    ensures SortedBy(key, SortBy(key, xs))
  {
    if xs != [] {
      SortBySorted(key, xs[..|xs| - 1]);
      InsertSorted(key, xs[|xs| - 1], SortBy(key, xs[..|xs| - 1]));
    }
  }

  /** The sorted list holds the same elements, as often. */
  lemma {:induction false} SortByPermutes<T>(key: T -> string, xs: seq<T>)
    ensures multiset(SortBy(key, xs)) == multiset(xs)
  {
    if xs != [] {
      var init, x := xs[..|xs| - 1], xs[|xs| - 1];
      SortByPermutes(key, init);
      InsertPermutes(key, x, SortBy(key, init));
      assert xs == init + [x];
    }
  }

  /** The sort is stable: the elements of any one key keep their order. */
  lemma {:induction false} SortByStable<T>(key: T -> string, k: string, xs: seq<T>)
    ensures WithKey(key, k, SortBy(key, xs)) == WithKey(key, k, xs)
  {
    if xs != [] {
      var init, x := xs[..|xs| - 1], xs[|xs| - 1];
      SortByStable(key, k, init);
      SortBySorted(key, init);
      InsertWithKey(key, k, x, SortBy(key, init));
      assert xs == init + [x];
      WithKeyAppend(key, k, init, [x]);
    }
  }

  /** Two elements of the same key stay as they are. */
  lemma SortPairEqualKeys<T>(key: T -> string, x: T, y: T)
    requires key(x) == key(y)
    ensures SortBy(key, [x, y]) == [x, y]
  {
    LessIrreflexive(key(y));
    assert [x, y][..1] == [x] && [x][..0] == [];
    assert SortBy(key, [x]) == Insert(key, x, []) == [x];
    assert SortBy(key, [x, y]) == Insert(key, y, [x]);
    assert Insert(key, y, [x]) == [x] + Insert(key, y, []);
  }
}
