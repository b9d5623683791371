/** broke_clang.hpp, the older single-header variant of the adapter. Its
    `scm` struct, `toOpt`, `wrapped` and `def_prim` are copies of the ones in
    scm.hpp and subr.hpp (with the arguments re-wrapped in `scm{...}`), and
    its `call` is narrower: the layer-3 step is specialised only for an
    empty rest index sequence, so a native call compiles only when it
    supplies exactly the required and optional arguments (and, as in
    subr.hpp, only when the return type of `maybe_arg_prepare` is
    well-formed, see `Subr.MaybeArgReturnTypeFormed`). Each member here
    is proved to agree with its counterpart in `GuileScm` or `Subr`. */
module BrokeClang {
  import opened GuileScm
  import Subr

  /** This header's copy of `scm::toOpt`: absent exactly when the value is
      `SCM_UNSPECIFIED`, and in every case the same optional as the test in
      scm.hpp. */
  function ToOptCopy(x: Scm): (r: Option<Scm>)
    ensures r.None? <==> ToHandle(x) == Unspecified
    ensures r == ToOpt(x)
  {
    if ToHandle(x) == Unspecified then None else Some(x)
  }

  /** `scm{a}` for an argument `a` that is already an `scm`: a copy holding
      the same handle, so the very same value. */
  function Rewrap(a: Scm): (r: Scm)
    ensures r == a
  {
    HandleRoundTrip(ToHandle(a), a);
    FromHandle(ToHandle(a))
  }

  /** This header's `wrapped`: layer 1 gets `scm{reg_arg}...`, layer 2
      `scm{opt_arg}.toOpt()...`, layer 3 the rest pack; `void` becomes
      `SCM_UNSPECIFIED`. It computes the same result as `wrapped` in
      subr.hpp on every argument list. */
  function Wrapped(p: Subr.Primitive, args: seq<Scm>): (r: Scm)
    requires Subr.WrapInstantiable(p.ty)
    requires |args| == Subr.Total(Subr.ArityOf(p.ty))
    ensures r == Subr.Wrapped(p, args)
  {
    var ar := Subr.ArityOf(p.ty);
    var regs := seq(ar.nreg, i requires 0 <= i < ar.nreg => Rewrap(args[i]));
    var opts := seq(ar.nopt, j requires 0 <= j < ar.nopt => ToOptCopy(Rewrap(args[ar.nreg + j])));
    assert regs == args[..ar.nreg];
    assert forall j :: 0 <= j < ar.nopt ==> opts[j] == ToOpts(args[ar.nreg..Subr.RestStart(ar)])[j];
    assert opts == ToOpts(args[ar.nreg..Subr.RestStart(ar)]);
    Subr.ToResult(p.ty, p.fn(regs)(opts)(args[Subr.RestStart(ar)..]))
  }

  /** This header's `def_prim`: the same rejections and the same
      registration as in subr.hpp. */
  function DefPrim(name: string, p: Subr.Primitive): (r: Subr.Result<Subr.Registration>)
    ensures r == Subr.DefPrim(name, p)
    ensures r.Ok? ==> r.value.req + r.value.opt + r.value.rst == Subr.Total(Subr.ArityOf(p.ty))
  {
    match Subr.Classify(p.ty)
    case Err(e) => Subr.Err(e)
    case Ok(ar) =>
      if ar.nrest > 1 then Subr.Err(Subr.RestLayerTooWide)
      else Subr.Ok(Subr.Registration(name, ar.nreg, ar.nopt, ar.nrest, Subr.EntryParams(ar), p))
  }

  /** When this header's `call<arg_t...>` compiles for `n` arguments,
      setting aside the return type of `maybe_arg_prepare`: the rest index
      sequence must be empty, so `n` is exactly nreg + nopt, and
      layer 3, called with no argument, must declare none. */
  predicate CallInstantiable(ty: Subr.Type, n: nat)
  {
    Subr.Classify(ty).Ok? && n == Subr.RestStart(Subr.ArityOf(ty)) && Subr.ArityOf(ty).nrest == 0
  }

  /** The narrower `call`: every optional present, layer 3 called with no
      argument. Wherever it compiles, the general `call` of subr.hpp
      compiles too and gives the same result. */
  function CallIt(p: Subr.Primitive, args: seq<Scm>): (r: Subr.NativeResult)
    requires CallInstantiable(p.ty, |args|)
    ensures Subr.CallInstantiable(p.ty, |args|) && r == Subr.CallPrim(p, args)
    ensures var ar := Subr.ArityOf(p.ty);
      r.Value? ==> r.v == p.fn(args[..ar.nreg])(Subr.Presents(args[ar.nreg..]))([])
  {
    var ar := Subr.ArityOf(p.ty);
    Subr.GatherRange(args, 0, ar.nreg);
    assert args[0..0 + ar.nreg] == args[..ar.nreg];
    assert args[ar.nreg..Subr.RestStart(ar)] == args[ar.nreg..];
    var v := p.fn(Subr.Gather(args, Subr.IndexSequence(ar.nreg)))(Subr.CallOptionals(ar, args))([]);
    if Subr.ResultType(p.ty) == Subr.Void then Subr.NoValue else Subr.Value(v)
  }

  /** The narrower `call` exists for no argument list longer than nreg +
      nopt, whatever the rest layer: a native call that passes rest
      arguments is rejected. */
  lemma NoRestArgumentsAccepted(ty: Subr.Type, n: nat)
    requires Subr.Classify(ty).Ok? && n > Subr.RestStart(Subr.ArityOf(ty))
    ensures !CallInstantiable(ty, n)
    ensures Subr.ArityOf(ty).nrest == 1 ==> Subr.CallInstantiable(ty, n)
  {
  }
}
