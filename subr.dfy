/** The calling-convention adapter of subr.hpp between curried native
    functions and runtime "gsubrs": the arity classifier, the entry point
    `wrapped` the runtime calls, its registration by `def_prim`, and the
    native-side caller `call` / `call_prim`. Template instantiation becomes
    ordinary functions over argument sequences and index sequences; the
    type checks that decide whether a template compiles become a rejected
    `Result` or a precondition, with the one exception of the return type
    of `maybe_arg_prepare`, which is modelled separately. */
module Subr {
  import opened GuileScm

  /** The static types the classifier looks at: no value (`void`), some
      value, or a callable taking `params` and returning `ret`. */
  datatype Type = Void | Data | Fn(params: seq<Type>, ret: Type)

  /** What a native curried function does: layer 1 takes the required
      arguments, the function it returns takes the optionals, and the one
      that returns takes the rest arguments. The final value is ignored
      when the innermost return type is `Void`. */
  type Curried = seq<Scm> -> seq<Option<Scm>> -> seq<Scm> -> Scm

  /** A native function as `def_prim` and `call_prim` receive it: its static
      type and its behaviour. */
  datatype Primitive = Primitive(ty: Type, fn: Curried)

  /** The classified triple: parameter counts of the three layers. */
  datatype Arity = Arity(nreg: nat, nopt: nat, nrest: nat)

  /** Why an instantiation does not compile. */
  datatype Rejection =
    | NotCurried        // some layer is not a callable, so `function_traits` has no match
    | RestLayerTooWide  // the rest layer has more than one parameter

  datatype Result<T> = Ok(value: T) | Err(error: Rejection)

  /** `function_traits` applied three times: the parameter counts of layer
      1, of its return type and of that one's return type. */
  function Classify(ty: Type): (r: Result<Arity>)
    ensures r.Ok? <==> ty.Fn? && ty.ret.Fn? && ty.ret.ret.Fn?
    ensures r.Ok? ==> r.value == Arity(|ty.params|, |ty.ret.params|, |ty.ret.ret.params|)
    ensures r.Err? ==> r.error == NotCurried
  {
    match ty
    case Fn(reg, Fn(opt, Fn(rest, _))) => Ok(Arity(|reg|, |opt|, |rest|))
    case _ => Err(NotCurried)
  }

  function ArityOf(ty: Type): Arity
    requires Classify(ty).Ok?
  {
    Classify(ty).value
  }

  /** The return type of the composed call `f(reg...)(opt...)(rest...)`. */
  function ResultType(ty: Type): Type
    requires Classify(ty).Ok?
  {
    ty.ret.ret.ret
  }

  /** The type of the lambda `GUILE_SUBR_LAMBDA` builds: three nested
      layers with the given parameter counts and final return type. The
      classifier reads back exactly the counts and the return type it was
      built from. */
  function CurriedType(ar: Arity, ret: Type): (ty: Type)
    ensures Classify(ty) == Ok(ar) && ResultType(ty) == ret
  {
    Fn(seq(ar.nreg, _ => Data), Fn(seq(ar.nopt, _ => Data), Fn(seq(ar.nrest, _ => Data), ret)))
  }

  /** Offset of the optional group. */
  function RestStart(ar: Arity): nat
  {
    ar.nreg + ar.nopt
  }

  /** Number of parameters of the entry point `wrapped`. */
  function Total(ar: Arity): nat
  {
    ar.nreg + ar.nopt + ar.nrest
  }

  // ---------------------------------------------------------------------
  // Index sequences

  /** `make_index_sequence<n>`: 0, 1, ..., n-1. */
  function IndexSequence(n: nat): (r: seq<nat>)
    ensures |r| == n
    ensures forall i :: 0 <= i < n ==> r[i] == i
  {
    if n == 0 then [] else IndexSequence(n - 1) + [n - 1]
  }

  /** `offset_seq<k, s>`: every index of `s` shifted by `k`. */
  function OffsetSeq(k: nat, s: seq<nat>): (r: seq<nat>)
    ensures |r| == |s|
    ensures forall i :: 0 <= i < |s| ==> r[i] == s[i] + k
  {
    if s == [] then [] else [s[0] + k] + OffsetSeq(k, s[1..])
  }

  /** `get<idx>(args)...`: the arguments at the given indices, in order. */
  function Gather<T>(xs: seq<T>, idx: seq<nat>): (r: seq<T>)
    requires forall j :: 0 <= j < |idx| ==> idx[j] < |xs|
    ensures |r| == |idx|
    ensures forall j :: 0 <= j < |idx| ==> r[j] == xs[idx[j]]
  {
    if idx == [] then [] else [xs[idx[0]]] + Gather(xs, idx[1..])
  }

  /** `offset_seq<k, make_index_sequence<n>>` is the half-open range
      [k, k+n), and gathering it is slicing. */
  lemma {:induction false} GatherRange<T>(xs: seq<T>, k: nat, n: nat)
    requires k + n <= |xs|
    ensures OffsetSeq(k, IndexSequence(n)) == seq(n, i => k + i)
    ensures Gather(xs, OffsetSeq(k, IndexSequence(n))) == xs[k..k + n]
  {
    var idx := OffsetSeq(k, IndexSequence(n));
    assert forall i :: 0 <= i < n ==> idx[i] == k + i;
    var g := Gather(xs, idx);
    assert forall i :: 0 <= i < n ==> g[i] == xs[k..k + n][i];
  }

  // ---------------------------------------------------------------------
  // Runtime to native: `wrapped`

  /** The arguments the three layers receive, as a group each. */
  datatype Groups = Groups(reg: seq<Scm>, opt: seq<Option<Scm>>, rest: seq<Scm>)

  /** The flat parameter list of `wrapped` is the three packs `reg_arg...`,
      `opt_arg...`, `rest_arg...`, of sizes nreg, nopt and nrest. The first
      group goes to layer 1 verbatim, the second through the presence test
      to layer 2, the last verbatim to layer 3; read back, the three groups
      are the arguments again. */
  function WrappedGroups(ar: Arity, args: seq<Scm>): (g: Groups)
    requires |args| == Total(ar)
    ensures |g.reg| == ar.nreg && |g.opt| == ar.nopt && |g.rest| == ar.nrest
    ensures g.reg + FromOpts(g.opt) + g.rest == args
    ensures forall j :: 0 <= j < ar.nopt ==>
      (g.opt[j].None? <==> ToHandle(args[ar.nreg + j]) == Unspecified)
    ensures forall j :: 0 <= j < ar.nopt && g.opt[j].Some? ==> g.opt[j].value == args[ar.nreg + j]
  {
    var opts := args[ar.nreg..RestStart(ar)];
    var tested := ToOpts(opts);
    ToOptsRoundTrip(opts);
    assert args[..ar.nreg] + opts + args[RestStart(ar)..] == args;
    assert forall j :: 0 <= j < ar.nopt ==> opts[j] == args[ar.nreg + j] && tested[j] == ToOpt(opts[j]);
    Groups(args[..ar.nreg], tested, args[RestStart(ar)..])
  }

  /** The `static_assert` of the rest pack: `wrapped` exists only for a
      three-layer type whose rest layer has at most one parameter. */
  predicate WrapInstantiable(ty: Type)
  {
    Classify(ty).Ok? && ArityOf(ty).nrest <= 1
  }

  /** The result conversion: `SCM_UNSPECIFIED` when the composed call has
      type `void` (its value is discarded), the native result otherwise. */
  function ToResult(ty: Type, v: Scm): Scm
    requires Classify(ty).Ok?
  {
    if ResultType(ty) == Void then FromHandle(Unspecified) else v
  }

  /** `wrapped`: the entry point the runtime calls with exactly
      nreg + nopt + nrest arguments. */
  function Wrapped(p: Primitive, args: seq<Scm>): (r: Scm)
    requires WrapInstantiable(p.ty)
    requires |args| == Total(ArityOf(p.ty))
    ensures var ar := ArityOf(p.ty);
      r == if ResultType(p.ty) == Void then FromHandle(Unspecified)
           else p.fn(args[..ar.nreg])(ToOpts(args[ar.nreg..RestStart(ar)]))(args[RestStart(ar)..])
  {
    var g := WrappedGroups(ArityOf(p.ty), args);
    ToResult(p.ty, p.fn(g.reg)(g.opt)(g.rest))
  }

  /** The presence test looks only for `SCM_UNSPECIFIED`: an optional
      position holding `SCM_UNDEFINED` reaches layer 2 as a present
      optional carrying `SCM_UNDEFINED`. */
  lemma UndefinedOptionalIsPresent(ar: Arity, args: seq<Scm>, j: nat)
    requires |args| == Total(ar) && j < ar.nopt
    requires ToHandle(args[ar.nreg + j]) == Undefined
    ensures WrappedGroups(ar, args).opt[j] == Some(FromHandle(Undefined))
  {
  }

  // ---------------------------------------------------------------------
  // Registration: `def_prim`

  /** What `scm_c_define_gsubr` is told: the name, the arity triple and the
      entry point, which takes `entryParams` arguments. */
  datatype Registration = Registration(name: string, req: nat, opt: nat, rst: nat, entryParams: nat, entry: Primitive)

  /** Parameter count of `wrap`, the instantiation
      `reg<make_index_sequence<nreg>>::opt<...>::rest<...>::wrapped`. */
  function EntryParams(ar: Arity): nat
  {
    |IndexSequence(ar.nreg)| + |IndexSequence(ar.nopt)| + |IndexSequence(ar.nrest)|
  }

  /** `def_prim(name)`: registers the name with the classified triple and
      the entry point `wrapped`; rejected when the type is not three layers
      or the rest layer is too wide. */
  function DefPrim(name: string, p: Primitive): (r: Result<Registration>)
    ensures r.Ok? <==> WrapInstantiable(p.ty)
    ensures !Classify(p.ty).Ok? ==> r == Err(NotCurried)
    ensures Classify(p.ty).Ok? && ArityOf(p.ty).nrest > 1 ==> r == Err(RestLayerTooWide)
    ensures r.Ok? ==> r.value.name == name && r.value.entry == p
    ensures r.Ok? ==> Arity(r.value.req, r.value.opt, r.value.rst) == ArityOf(p.ty)
    ensures r.Ok? ==> r.value.entryParams == r.value.req + r.value.opt + r.value.rst
  {
    match Classify(p.ty)
    case Err(e) => Err(e)
    case Ok(ar) =>
      if ar.nrest > 1 then Err(RestLayerTooWide)
      else Ok(Registration(name, ar.nreg, ar.nopt, ar.nrest, EntryParams(ar), p))
  }

  /** Registered arity and entry point agree: every argument list of the
      registered length is one `wrapped` accepts, and it splits into groups
      of exactly the registered sizes. */
  lemma RegisteredArityMatchesEntry(name: string, p: Primitive, args: seq<Scm>)
    requires DefPrim(name, p).Ok?
    requires |args| == DefPrim(name, p).value.entryParams
    ensures WrapInstantiable(p.ty) && |args| == Total(ArityOf(p.ty))
    ensures var reg, g := DefPrim(name, p).value, WrappedGroups(ArityOf(p.ty), args);
      |g.reg| == reg.req && |g.opt| == reg.opt && |g.rest| == reg.rst
  {
  }

  // ---------------------------------------------------------------------
  // Native to runtime: `call` and `call_prim`

  /** `opt_idx`: the indices of the optional group. */
  function OptIdx(ar: Arity): seq<nat>
  {
    OffsetSeq(ar.nreg, IndexSequence(ar.nopt))
  }

  /** `rest_idx`: the indices from `rest_start` to the last argument. */
  function RestIdx(ar: Arity, n: nat): seq<nat>
    requires RestStart(ar) <= n
  {
    OffsetSeq(RestStart(ar), IndexSequence(n - RestStart(ar)))
  }

  /** `maybe_arg_prepare<i>`: present when `i` lies before `rest_start`,
      absent otherwise. */
  function MaybeArgPrepare(ar: Arity, i: nat, args: seq<Scm>): Option<Scm>
    requires RestStart(ar) <= |args|
  {
    if i < ar.nopt + ar.nreg then Some(args[i]) else None
  }

  /** Every index of `opt_idx` passes the test of `maybe_arg_prepare`: the
      optionals of `call` are all present, each the argument at its
      position, and the absent branch is never taken. */
  lemma OptionalsAlwaysPresent(ar: Arity, args: seq<Scm>)
    requires RestStart(ar) <= |args|
    ensures |OptIdx(ar)| == ar.nopt
    ensures forall j :: 0 <= j < ar.nopt ==>
      OptIdx(ar)[j] == ar.nreg + j && MaybeArgPrepare(ar, OptIdx(ar)[j], args) == Some(args[ar.nreg + j])
  {
  }

  /** The declared return type of `maybe_arg_prepare<i>` is the type of the
      i-th element of the nopt-element tuple of optionals, with `i` an
      absolute argument position. It names an element for every index of
      `opt_idx` exactly when there are no required arguments or no
      optionals. */
  predicate MaybeArgReturnTypeFormed(ar: Arity)
  {
    forall j :: 0 <= j < |OptIdx(ar)| ==> OptIdx(ar)[j] < ar.nopt
  }

  /** As written, the return type of `maybe_arg_prepare` is ill-formed for
      the last optional as soon as there is a required argument and an
      optional one: that index is nreg + nopt - 1, past the nopt elements. */
  lemma {:induction false} MaybeArgReturnTypeFormedIff(ar: Arity)
    ensures MaybeArgReturnTypeFormed(ar) <==> ar.nreg == 0 || ar.nopt == 0
  {
    OptionalsAlwaysPresent(ar, seq(RestStart(ar), _ => FromHandle(Unspecified)));
    if ar.nreg > 0 && ar.nopt > 0 {
      assert OptIdx(ar)[ar.nopt - 1] == ar.nreg + ar.nopt - 1;
    }
  }

  /** Every optional present. */
  function Presents(xs: seq<Scm>): (r: seq<Option<Scm>>)
    ensures |r| == |xs| && FromOpts(r) == xs
    ensures forall i :: 0 <= i < |xs| ==> r[i] == Some(xs[i])
  {
    var r := seq(|xs|, i requires 0 <= i < |xs| => Some(xs[i]));
    assert forall i :: 0 <= i < |xs| ==> FromOpts(r)[i] == xs[i];
    r
  }

  /** `maybe_arg_prepare<opt_idx_>(args)...`: the optional group of `call`,
      every optional present. */
  function CallOptionals(ar: Arity, args: seq<Scm>): (r: seq<Option<Scm>>)
    requires RestStart(ar) <= |args|
    ensures r == Presents(args[ar.nreg..RestStart(ar)])
  {
    var optIdx := OptIdx(ar);
    OptionalsAlwaysPresent(ar, args);
    var r := seq(|optIdx|, j requires 0 <= j < |optIdx| => MaybeArgPrepare(ar, optIdx[j], args));
    assert forall j :: 0 <= j < |r| ==> r[j] == Presents(args[ar.nreg..RestStart(ar)])[j];
    r
  }

  /** What layer 3 receives from `call`: nothing when `rest_idx` is empty,
      else `list(get<rest_idx_>(args)...)`. */
  function CallRest(ar: Arity, args: seq<Scm>): (r: seq<Scm>)
    requires RestStart(ar) <= |args|
    ensures r == if |args| == RestStart(ar) then [] else [List(args[RestStart(ar)..])]
  {
    var restIdx := RestIdx(ar, |args|);
    if |restIdx| == 0 then []
    else
      var extra := Gather(args, restIdx);
      GatherRange(args, RestStart(ar), |args| - RestStart(ar));
      assert extra == args[RestStart(ar)..];
      [List(extra)]
  }

  /** The arguments the three layers receive from `call` with `args`: the
      first nreg to layer 1, the next nopt as present optionals to layer 2,
      and to layer 3 nothing when no argument is left, else one list of the
      remaining arguments in order. */
  function CallGroups(ar: Arity, args: seq<Scm>): (g: Groups)
    requires RestStart(ar) <= |args|
    ensures g.reg == args[..ar.nreg]
    ensures g.opt == Presents(args[ar.nreg..RestStart(ar)])
    ensures g.rest == if |args| == RestStart(ar) then [] else [List(args[RestStart(ar)..])]
  {
    GatherRange(args, 0, ar.nreg);
    assert args[0..0 + ar.nreg] == args[..ar.nreg];
    Groups(Gather(args, IndexSequence(ar.nreg)), CallOptionals(ar, args), CallRest(ar, args))
  }

  /** When `call<arg_t...>` compiles for `n` arguments, setting aside the
      return type of `maybe_arg_prepare` (see `MaybeArgReturnTypeFormed`):
      the type has three layers, no optional index runs past the arguments (`n - rest_start`
      would wrap around), and layer 3 gets the number of arguments it
      declares, none when no argument is left and one list otherwise. */
  predicate CallInstantiable(ty: Type, n: nat)
  {
    Classify(ty).Ok? &&
    RestStart(ArityOf(ty)) <= n &&
    ArityOf(ty).nrest == (if n == RestStart(ArityOf(ty)) then 0 else 1)
  }

  /** The native result of the composed call, which `call` returns as it is:
      no value when it has type `void`. */
  datatype NativeResult = NoValue | Value(v: Scm)

  /** `call_prim<f, arg_t...>`: call the curried function with native
      arguments split at the classified offsets. */
  function CallPrim(p: Primitive, args: seq<Scm>): (r: NativeResult)
    requires CallInstantiable(p.ty, |args|)
    ensures r.NoValue? <==> ResultType(p.ty) == Void
    ensures var ar := ArityOf(p.ty);
      r.Value? ==> r.v == p.fn(args[..ar.nreg])(Presents(args[ar.nreg..RestStart(ar)]))
                             (if ar.nrest == 0 then [] else [List(args[RestStart(ar)..])])
  {
    var g := CallGroups(ArityOf(p.ty), args);
    var v := p.fn(g.reg)(g.opt)(g.rest);
    if ResultType(p.ty) == Void then NoValue else Value(v)
  }

  /** Both directions split at the same boundaries: on an argument list of
      the registered length, `call` and `wrapped` hand layer 1 the same
      arguments, read the optional group from the same positions, and give
      layer 3 the same rest argument, `call` as a list of it. */
  lemma SharedOffsets(ar: Arity, args: seq<Scm>)
    requires ar.nrest <= 1 && |args| == Total(ar)
    ensures var w, c := WrappedGroups(ar, args), CallGroups(ar, args);
      c.reg == w.reg && FromOpts(c.opt) == FromOpts(w.opt) &&
      c.rest == (if ar.nrest == 0 then [] else [List(w.rest)])
  {
  }

  /** A function with a rest layer called with r + o + k arguments, k > 0,
      none of them `SCM_UNDEFINED`, receives as its rest argument the
      k-element list of the extra arguments. */
  lemma RestListHoldsExtraArgs(ar: Arity, args: seq<Scm>)
    requires ar.nrest == 1 && RestStart(ar) < |args|
    requires Undefined !in Handles(args)
    ensures var g := CallGroups(ar, args);
      |g.rest| == 1 && g.rest[0] == FromHandle(ListOf(Handles(args[RestStart(ar)..]))) &&
      |ToHandle(g.rest[0]).items| == |args| - RestStart(ar)
  {
  }

  /** The two directions meet: for a function without a rest layer, on an
      argument list of the registered length whose optional positions hold
      no `SCM_UNSPECIFIED`, `call_prim` returns exactly what the entry point
      `wrapped` returns; for a `void` result `call_prim` returns nothing and
      `wrapped` returns `SCM_UNSPECIFIED`. */
  lemma {:induction false} CallAgreesWithWrapped(p: Primitive, args: seq<Scm>)
    requires WrapInstantiable(p.ty) && ArityOf(p.ty).nrest == 0
    requires |args| == Total(ArityOf(p.ty))
    requires forall j :: ArityOf(p.ty).nreg <= j < RestStart(ArityOf(p.ty)) ==> ToHandle(args[j]) != Unspecified
    ensures CallInstantiable(p.ty, |args|)
    ensures ResultType(p.ty) == Void ==>
      CallPrim(p, args) == NoValue && Wrapped(p, args) == FromHandle(Unspecified)
    ensures ResultType(p.ty) != Void ==> CallPrim(p, args) == Value(Wrapped(p, args))
  {
    var ar := ArityOf(p.ty);
    var opts := args[ar.nreg..RestStart(ar)];
    assert forall j :: 0 <= j < |opts| ==> ToOpts(opts)[j] == Presents(opts)[j];
    assert ToOpts(opts) == Presents(opts);
    assert args[RestStart(ar)..] == [];
  }
}
