/** The value handle `scm` of scm.hpp: the raw runtime value it wraps, the
    presence test that turns an argument into an optional, and the two
    variadic conventions (`list` and calling an `scm` as a procedure) that
    end their argument vector with the `SCM_UNDEFINED` terminator. */
module GuileScm {

  /** `std::optional`: present with a value, or absent. */
  datatype Option<T> = None | Some(value: T)

  /** A raw runtime value, `SCM`. The runtime owns it; this model only
      distinguishes the two constants the adapters compare against or use as
      a terminator. Every other value is an opaque object, and a runtime
      list is represented by its elements. */
  datatype Handle = Unspecified | Undefined | Object(id: nat) | ListOf(items: seq<Handle>)

  /** The C++ struct `scm`, whose one field `obj` holds the handle. */
  datatype Scm = Scm(obj: Handle)

  /** The converting constructor `scm(SCM obj)`. */
  function FromHandle(h: Handle): Scm
  {
    Scm(h)
  }

  /** The conversion `operator SCM()`. */
  function ToHandle(s: Scm): Handle
  {
    s.obj
  }

  /** Wrapping a handle and converting back gives the same handle, and the
      other way round. */
  lemma HandleRoundTrip(h: Handle, s: Scm)
    ensures ToHandle(FromHandle(h)) == h
    ensures FromHandle(ToHandle(s)) == s
  {
  }

  /** `scm::toOpt`: absent exactly when the value is `SCM_UNSPECIFIED`,
      otherwise present and carrying the very same value. */
  function ToOpt(x: Scm): (r: Option<Scm>)
    ensures r.None? <==> ToHandle(x) == Unspecified
    ensures r.Some? ==> r.value == x
  {
    if ToHandle(x) == Unspecified then None else Some(x)
  }

  /** The partner of `ToOpt`: an absent optional read back as the value
      `ToOpt` takes for absence. */
  function FromOpt(o: Option<Scm>): Scm
  {
    match o
    case None => FromHandle(Unspecified)
    case Some(v) => v
  }

  /** `ToOpt` loses nothing: every value is recovered from its optional. */
  lemma ToOptRoundTrip(x: Scm)
    ensures FromOpt(ToOpt(x)) == x
  {
  }

  /** The other direction holds for every optional except one: a present
      `SCM_UNSPECIFIED` turns into an absent optional, so "no argument" and
      "the unspecified value as argument" cannot be told apart. */
  lemma FromOptRoundTrip(o: Option<Scm>)
    ensures ToOpt(FromOpt(o)) == o <==> o != Some(FromHandle(Unspecified))
  {
  }

  /** The presence test applied to each element of a group of arguments. */
  function ToOpts(xs: seq<Scm>): (r: seq<Option<Scm>>)
    ensures |r| == |xs|
    ensures forall i :: 0 <= i < |xs| ==> (r[i].None? <==> ToHandle(xs[i]) == Unspecified)
  {
    seq(|xs|, i requires 0 <= i < |xs| => ToOpt(xs[i]))
  }

  /** `FromOpt` applied to each element of a group of optionals. */
  function FromOpts(os: seq<Option<Scm>>): (r: seq<Scm>)
    ensures |r| == |os|
  {
    seq(|os|, i requires 0 <= i < |os| => FromOpt(os[i]))
  }

  /** A whole group of arguments survives the presence test. */
  lemma ToOptsRoundTrip(xs: seq<Scm>)
    ensures FromOpts(ToOpts(xs)) == xs
  {
  }

  /** The handles of a group of `scm` values, as they are passed on to a
      variadic runtime entry point. */
  function Handles(args: seq<Scm>): (r: seq<Handle>)
    ensures |r| == |args|
    ensures forall i :: 0 <= i < |args| ==> r[i] == ToHandle(args[i])
  {
    seq(|args|, i requires 0 <= i < |args| => ToHandle(args[i]))
  }

  /** How a variadic runtime entry point (`scm_list_n`, `scm_call`) reads its
      argument vector: every value up to, and not including, the first
      `SCM_UNDEFINED`. The result is the longest prefix free of the
      terminator. */
  function VarArgs(argv: seq<Handle>): (r: seq<Handle>)
    ensures |r| <= |argv| && r == argv[..|r|]
    ensures Undefined !in r
    ensures |r| < |argv| ==> argv[|r|] == Undefined
  {
    if argv == [] || argv[0] == Undefined then []
    else [argv[0]] + VarArgs(argv[1..])
  }

  /** Values followed by the terminator are read back as exactly those
      values: the terminator is not an element. */
  lemma {:induction false} VarArgsTerminated(vals: seq<Handle>)
    ensures Undefined !in vals ==> VarArgs(vals + [Undefined]) == vals
  {
    if vals != [] && Undefined !in vals {
      assert (vals + [Undefined])[1..] == vals[1..] + [Undefined];
      VarArgsTerminated(vals[1..]);
    }
  }

  /** Appending the terminator changes nothing about what is read: the
      reading stops at the first `SCM_UNDEFINED` of the values themselves
      when they hold one, and at the terminator otherwise. */
  lemma {:induction false} VarArgsAppendTerminator(vals: seq<Handle>)
    ensures VarArgs(vals + [Undefined]) == VarArgs(vals)
  {
    if vals != [] && vals[0] != Undefined {
      assert (vals + [Undefined])[1..] == vals[1..] + [Undefined];
      VarArgsAppendTerminator(vals[1..]);
    }
  }

  /** `list(a1, ..., ak)`: `scm_list_n(a1, ..., ak, SCM_UNDEFINED)`. Its
      elements are the arguments up to the first that is `SCM_UNDEFINED`;
      when none is, the list holds exactly the k arguments in order. */
  function List(args: seq<Scm>): (r: Scm)
    ensures ToHandle(r).ListOf? && |ToHandle(r).items| <= |args|
    ensures ToHandle(r).items == Handles(args)[..|ToHandle(r).items|]
    ensures ToHandle(r).items == VarArgs(Handles(args))
    ensures Undefined !in Handles(args) ==> r == FromHandle(ListOf(Handles(args)))
  {
    var vals := Handles(args);
    VarArgsTerminated(vals);
    VarArgsAppendTerminator(vals);
    FromHandle(ListOf(VarArgs(vals + [Undefined])))
  }

  /** An argument that is `SCM_UNDEFINED` cuts the list short: `list(x,
      SCM_UNDEFINED, y)` is the one-element list of `x`. */
  lemma ListStopsAtUndefined(x: Scm, y: Scm)
    requires ToHandle(x) != Undefined
    ensures List([x, FromHandle(Undefined), y]) == FromHandle(ListOf([ToHandle(x)]))
  {
    var argv := Handles([x, FromHandle(Undefined), y]) + [Undefined];
    assert argv[1..][0] == Undefined;
  }

  /** The runtime's evaluation of a procedure applied to arguments
      (`scm_call`'s effect), which this model does not see. */
  type Evaluator = (Handle, seq<Handle>) -> Handle

  /** `scm::operator()`: `scm_call(obj, a1, ..., ak, SCM_UNDEFINED)`. The
      procedure receives the arguments up to the first that is
      `SCM_UNDEFINED`; when none is, exactly the k arguments, in order. */
  function Apply(proc: Scm, args: seq<Scm>, eval: Evaluator): (r: Scm)
    ensures r == FromHandle(eval(ToHandle(proc), VarArgs(Handles(args))))
    ensures Undefined !in Handles(args) ==> r == FromHandle(eval(ToHandle(proc), Handles(args)))
  {
    var vals := Handles(args);
    VarArgsTerminated(vals);
    VarArgsAppendTerminator(vals);
    FromHandle(eval(ToHandle(proc), VarArgs(vals + [Undefined])))
  }
}
