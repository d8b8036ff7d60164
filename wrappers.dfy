/** Value types shared by every module: optional values, Python's exceptions as
    error values, and the files a run writes. */
module Wrappers {

  datatype Option<+T> = None | Some(value: T)

  /** The Python exceptions that the modelled code can raise. */
  datatype PyError =
    | KeyError(key: string)          // a dictionary lookup with a missing key
    | IndexError(what: string)       // a list index out of range
    | ValueError(what: string)       // a tuple unpacking of the wrong length
    | FileNotFoundError(path: string) // a directory or file that does not exist

  /** The value of a Python expression that either returns or raises. */
  datatype Result<+T> = Ok(value: T) | Err(error: PyError)

  /** A file written by the program: where, and its whole text. */
  datatype File = File(path: string, content: string)

  /** What a step-by-step writing routine leaves behind: the files it wrote, in
      order, and the exception that stopped it, if one did. Files written before
      the exception stay written. `F` describes one written file. */
  datatype Run<F> = Run(written: seq<F>, error: Option<PyError>)

  /** A loop that writes `f(e)` for each `e` in turn and stops at the first
      exception. */
  function RunAll<E, F>(f: E -> Result<F>, es: seq<E>): Run<F> {
    if es == [] then Run([], None)
    else
      match f(es[0])
      case Err(err) => Run([], Some(err))
      case Ok(x) =>
        var r := RunAll(f, es[1..]);
        Run([x] + r.written, r.error)
  }

  /** `written` followed by what `r` writes. */
  function After<F>(written: seq<F>, r: Run<F>): Run<F> {
    Run(written + r.written, r.error)
  }

  /** One more element that succeeds moves its value into what is written. */
  lemma AfterStep<E, F>(f: E -> Result<F>, es: seq<E>, written: seq<F>, x: F)
    requires es != [] && f(es[0]) == Ok(x)
    ensures After(written, RunAll(f, es)) == After(written + [x], RunAll(f, es[1..]))
  {
    var r := RunAll(f, es[1..]);
    assert written + ([x] + r.written) == written + [x] + r.written;
  }

  /** An element that fails stops the run with what is written so far. */
  lemma AfterStop<E, F>(f: E -> Result<F>, es: seq<E>, written: seq<F>)
    requires es != [] && f(es[0]).Err?
    ensures After(written, RunAll(f, es)) == Run(written, Some(f(es[0]).error))
  {
    assert written + [] == written;
  }

  /** At the end of the elements nothing more is written. */
  lemma AfterEnd<E, F>(f: E -> Result<F>, written: seq<F>)
    ensures After(written, RunAll(f, [])) == Run(written, None)
  {
    assert written + [] == written;
  }

  /** The `k`-th file written is the one for the `k`-th element. */
  lemma {:induction false} RunAllWrites<E, F>(f: E -> Result<F>, es: seq<E>, k: nat)
    requires k < |RunAll(f, es).written|
    ensures k < |es| && f(es[k]).Ok? && RunAll(f, es).written[k] == f(es[k]).value
  {
    if k > 0 {
      RunAllWrites(f, es[1..], k - 1);
    }
  }

  /** The loop stops exactly when some element raises; with no error, one file
      is written per element. */
  lemma {:induction false} RunAllStops<E, F>(f: E -> Result<F>, es: seq<E>)
    ensures RunAll(f, es).error.Some? <==> exists k :: 0 <= k < |es| && f(es[k]).Err?
    ensures RunAll(f, es).error.None? ==> |RunAll(f, es).written| == |es|
  {
    if es != [] {
      RunAllStops(f, es[1..]);
      if exists k :: 0 <= k < |es[1..]| && f(es[1..][k]).Err? {
        var k :| 0 <= k < |es[1..]| && f(es[1..][k]).Err?;
        assert es[k + 1] == es[1..][k];
      }
      if exists k :: 0 <= k < |es| && f(es[k]).Err? {
        var k :| 0 <= k < |es| && f(es[k]).Err?;
        if k > 0 {
          assert es[1..][k - 1] == es[k];
        }
      }
    }
  }

  /** What is written up to the error: the files of the elements before it. */
  lemma {:induction false} RunAllStopsAt<E, F>(f: E -> Result<F>, es: seq<E>)
    ensures RunAll(f, es).error.Some? ==>
      |RunAll(f, es).written| < |es| && f(es[|RunAll(f, es).written|]).Err? &&
      RunAll(f, es).error == Some(f(es[|RunAll(f, es).written|]).error)
  {
    if es != [] && f(es[0]).Ok? {
      RunAllStopsAt(f, es[1..]);
    }
  }

  /** `xs` in front of the list `r` holds, or the exception `r` raised. */
  function Prepend<F>(xs: seq<F>, r: Result<seq<F>>): Result<seq<F>> {
    match r
    case Err(e) => Err(e)
    case Ok(ys) => Ok(xs + ys)
  }

  /** Evaluate `a`, then `b`, and append their lists; the first exception wins. */
  function Then<F>(a: Result<seq<F>>, b: Result<seq<F>>): Result<seq<F>> {
    match a
    case Err(e) => Err(e)
    case Ok(xs) => Prepend(xs, b)
  }

  /** A loop that appends the elements `f(e)` yields for each `e` in turn; the
      first exception ends it, and then nothing is returned. */
  function CollectAll<E, F>(f: E -> Result<seq<F>>, es: seq<E>): Result<seq<F>> {
    if es == [] then Ok([]) else Then(f(es[0]), CollectAll(f, es[1..]))
  }

  lemma PrependPrepend<F>(xs: seq<F>, ys: seq<F>, r: Result<seq<F>>)
    ensures Prepend(xs, Prepend(ys, r)) == Prepend(xs + ys, r)
  {
    if r.Ok? {
      assert xs + (ys + r.value) == xs + ys + r.value;
    }
  }

  /** One more element whose values are `xs` moves them to the front. */
  lemma CollectStep<E, F>(f: E -> Result<seq<F>>, es: seq<E>, done: seq<F>, xs: seq<F>)
    requires es != [] && f(es[0]) == Ok(xs)
    ensures Prepend(done, CollectAll(f, es)) == Prepend(done + xs, CollectAll(f, es[1..]))
  {
    PrependPrepend(done, xs, CollectAll(f, es[1..]));
  }

  /** An element that raises ends the loop with its exception. */
  lemma CollectStop<E, F>(f: E -> Result<seq<F>>, es: seq<E>, done: seq<F>)
    requires es != [] && f(es[0]).Err?
    ensures Prepend(done, CollectAll(f, es)) == Err(f(es[0]).error)
  {
  }

  /** At the end of the elements the list is what has been collected. */
  lemma CollectEnd<E, F>(f: E -> Result<seq<F>>, done: seq<F>)
    ensures Prepend(done, CollectAll(f, [])) == Ok(done)
  {
    assert done + [] == done;
  }

  /** Nothing in front changes nothing. */
  lemma PrependEmpty<F>(r: Result<seq<F>>)
    ensures Prepend([], r) == r
  {
    if r.Ok? {
      assert [] + r.value == r.value;
    }
  }

  /** A step that adds nothing and raises nothing leaves the rest as it is. */
  lemma ThenUnit<F>(r: Result<seq<F>>)
    ensures Then(Ok([]), r) == r
  {
    PrependEmpty(r);
  }

  lemma ThenAssoc<F>(a: Result<seq<F>>, b: Result<seq<F>>, c: Result<seq<F>>)
    ensures Then(Then(a, b), c) == Then(a, Then(b, c))
  {
    if a.Ok? && b.Ok? {
      PrependPrepend(a.value, b.value, c);
    }
  }

  /** The loop runs to the end exactly when no element raises. */
  lemma {:induction false} CollectAllOk<E, F>(f: E -> Result<seq<F>>, es: seq<E>)
    ensures CollectAll(f, es).Ok? <==> forall k :: 0 <= k < |es| ==> f(es[k]).Ok?
  {
    if es != [] {
      CollectAllOk(f, es[1..]);
      assert forall k :: 1 <= k < |es| ==> es[k] == es[1..][k - 1];
    }
  }

  /** When it stops, it is with the exception of the first element that raises. */
  lemma {:induction false} CollectAllError<E, F>(f: E -> Result<seq<F>>, es: seq<E>)
    requires CollectAll(f, es).Err?
    ensures exists k :: 0 <= k < |es| && f(es[k]).Err? && CollectAll(f, es).error == f(es[k]).error &&
                        forall j :: 0 <= j < k ==> f(es[j]).Ok?
  {
    if f(es[0]).Err? {
      assert f(es[0]).Err? && CollectAll(f, es).error == f(es[0]).error;
    } else {
      CollectAllError(f, es[1..]);
      var k :| 0 <= k < |es[1..]| && f(es[1..][k]).Err? && CollectAll(f, es[1..]).error == f(es[1..][k]).error &&
               forall j :: 0 <= j < k ==> f(es[1..][j]).Ok?;
      assert forall j :: 1 <= j < k + 1 ==> es[j] == es[1..][j - 1];
      assert es[k + 1] == es[1..][k];
    }
  }

  /** What the finished loop returns is what some element yields. */
  lemma {:induction false} CollectAllMember<E, F>(f: E -> Result<seq<F>>, es: seq<E>, x: F)
    requires CollectAll(f, es).Ok?
    ensures x in CollectAll(f, es).value <==> exists k :: 0 <= k < |es| && f(es[k]).Ok? && x in f(es[k]).value
  {
    if es != [] {
      CollectAllMember(f, es[1..], x);
      assert forall k :: 1 <= k < |es| ==> es[k] == es[1..][k - 1];
      if exists k :: 0 <= k < |es[1..]| && f(es[1..][k]).Ok? && x in f(es[1..][k]).value {
        var k :| 0 <= k < |es[1..]| && f(es[1..][k]).Ok? && x in f(es[1..][k]).value;
        assert es[k + 1] == es[1..][k];
      }
    }
  }

  /** Running over `a + b` runs over `a`, then over `b`. */
  lemma {:induction false} CollectAllAppend<E, F>(f: E -> Result<seq<F>>, a: seq<E>, b: seq<E>)
    ensures CollectAll(f, a + b) == Then(CollectAll(f, a), CollectAll(f, b))
  {
    if a == [] {
      assert a + b == b;
      assert Then(Ok([]), CollectAll(f, b)) == CollectAll(f, b) by {
        if CollectAll(f, b).Ok? {
          assert [] + CollectAll(f, b).value == CollectAll(f, b).value;
        }
      }
    } else {
      assert (a + b)[1..] == a[1..] + b;
      CollectAllAppend(f, a[1..], b);
      ThenAssoc(f(a[0]), CollectAll(f, a[1..]), CollectAll(f, b));
    }
  }
}
