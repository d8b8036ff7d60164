/** Python's `str.format` with keyword arguments. A template is kept the way
    Python reads the template string: a chain of literal pieces and `{name}`
    fields. Arguments are given already converted by `str`. */
module PyFormat {
  import opened Wrappers
  import opened Seqs

  datatype Template =
    | End
    | Lit(text: string, rest: Template)    // literal text, copied as it is
    | Field(name: string, rest: Template)  // `{name}`, replaced by an argument

  /** The names of the fields the template refers to. */
  function Fields(t: Template): set<string> {
    match t
    case End => {}
    case Lit(_, rest) => Fields(rest)
    case Field(n, rest) => {n} + Fields(rest)
  }

  /** `t.format(**args)`: the fields are replaced by their arguments from left
      to right; a field without an argument raises KeyError; arguments the
      template does not name are ignored. */
  function Format(t: Template, args: map<string, string>): (r: Result<string>)
    ensures r.Ok? <==> Fields(t) <= args.Keys
    ensures r.Err? ==> r.error.KeyError? && r.error.key in Fields(t) && r.error.key !in args
    ensures r.Ok? ==> r.value == Fill(t, args)
  {
    Emit(t, args, "")
  }

  /** The formatter at work: `done` is the text produced so far, and the rest of
      the template is appended to it piece by piece. */
  function Emit(t: Template, args: map<string, string>, done: string): (r: Result<string>)
    ensures r.Ok? <==> Fields(t) <= args.Keys
    ensures r.Err? ==> r.error.KeyError? && r.error.key in Fields(t) && r.error.key !in args
    ensures r.Ok? ==> r.value == done + Fill(t, args)
  {
    match t
    case End => Ok(done)
    case Lit(s, rest) =>
      var r := Emit(rest, args, done + s);
      if r.Ok? then ConcatAssoc(done, s, Fill(rest, args)); r else r
    case Field(n, rest) =>
      if n !in args then Err(KeyError(n))
      else
        var r := Emit(rest, args, done + args[n]);
        if r.Ok? then ConcatAssoc(done, args[n], Fill(rest, args)); r else r
  }

  /** The text of a template whose every field has an argument. */
  function Fill(t: Template, args: map<string, string>): string
    requires Fields(t) <= args.Keys
  {
    match t
    case End => ""
    case Lit(s, rest) => s + Fill(rest, args)
    case Field(n, rest) => args[n] + Fill(rest, args)
  }

  /** The template `a + b` of two template strings. */
  function Append(a: Template, b: Template): (r: Template)
    ensures Fields(r) == Fields(a) + Fields(b)
  {
    match a
    case End => b
    case Lit(s, rest) => Lit(s, Append(rest, b))
    case Field(n, rest) => Field(n, Append(rest, b))
  }

  /** Formatting a concatenated template string formats each part in turn. */
  lemma {:induction false} FillAppend(a: Template, b: Template, args: map<string, string>)
    requires Fields(a) <= args.Keys && Fields(b) <= args.Keys
    ensures Fields(Append(a, b)) <= args.Keys
    ensures Fill(Append(a, b), args) == Fill(a, args) + Fill(b, args)
  {
    match a
    case End =>
      assert Fill(a, args) + Fill(b, args) == Fill(b, args);
    case Lit(s, rest) =>
      FillAppend(rest, b, args);
      ConcatAssoc(s, Fill(rest, args), Fill(b, args));
    case Field(n, rest) =>
      FillAppend(rest, b, args);
      ConcatAssoc(args[n], Fill(rest, args), Fill(b, args));
  }

  /** Only the arguments for the template's own fields matter. */
  lemma FormatIgnoresOtherKeys(t: Template, a: map<string, string>, b: map<string, string>)
    requires forall n :: n in Fields(t) ==> (n in a <==> n in b) && (n in a ==> a[n] == b[n])
    ensures Format(t, a) == Format(t, b)
  {
    EmitIgnoresOtherKeys(t, a, b, "");
  }

  lemma {:induction false} EmitIgnoresOtherKeys(t: Template, a: map<string, string>, b: map<string, string>, done: string)
    requires forall n :: n in Fields(t) ==> (n in a <==> n in b) && (n in a ==> a[n] == b[n])
    ensures Emit(t, a, done) == Emit(t, b, done)
  {
    match t
    case End =>
    case Lit(s, rest) => EmitIgnoresOtherKeys(rest, a, b, done + s);
    case Field(n, rest) =>
      if n in a {
        EmitIgnoresOtherKeys(rest, a, b, done + a[n]);
      }
  }
}
