# guile-wrapper calling-convention adapter, in Dafny

This project models the core of guile-wrapper. That core is the C++ template
machinery that connects curried native lambdas to Guile "gsubrs". Guile
gives a procedure three tiers of parameters: required, optional and rest. A
native function takes part by having the curried shape
`required-args -> (optional-args -> (rest-args -> result))`. The adapter has
four parts:

- **Arity classification** (`function_traits` applied three times). It
  counts the parameters of the three layers, giving `(nreg, nopt, nrest)`.
- **`wrapped`**. This is the entry point Guile calls with exactly
  `nreg + nopt + nrest` values. It splits them into three contiguous groups.
  The optional group goes through the presence test `toOpt`. A `void`
  result becomes `SCM_UNSPECIFIED`.
- **`def_prim`**. It registers a name with the classified triple and the
  entry point.
- **`call` / `call_prim`**. This is the native-side caller. It splits `N`
  native arguments at the same offsets, using index sequences. Every
  optional is passed as present. The arguments after `nreg + nopt` are
  collected into one runtime list, and only when there are some.

The C++ templates become ordinary functions over argument sequences and
index sequences. A static type is the datatype `Subr.Type`. The type checks
that decide whether an instantiation compiles become either a rejected
`Result` or a precondition (`Subr.CallInstantiable`,
`BrokeClang.CallInstantiable`). The one exception is the declared return
type of `maybe_arg_prepare`: it is stated separately
(`Subr.MaybeArgReturnTypeFormed`), and the model of `call` gives the values
that function evidently means to return. A runtime value
`SCM` is `GuileScm.Handle`, and the struct `scm` is `GuileScm.Scm`. The
runtime distinguishes `SCM_UNSPECIFIED` and `SCM_UNDEFINED`. Every other value
is an opaque object, and a list is represented by its elements.

Files:

- `scm.dfy` (module `GuileScm`) models scm.hpp: the handle round trip,
  `toOpt` and its inverse, and the variadic `list` and `operator()`. These
  two end their argument vector with the `SCM_UNDEFINED` terminator.
- `subr.dfy` (module `Subr`) models subr.hpp: the classifier,
  `make_index_sequence`, `offset_seq`, `wrapped`, `def_prim`,
  `maybe_arg_prepare`, `call` and `call_prim`.
- `broke_clang.dfy` (module `BrokeClang`) models broke_clang.hpp. This older
  header has its own copies of `toOpt`, `wrapped` and `def_prim`, and each
  copy is proved equal to its counterpart. Its `call` is narrower: it
  handles only an empty rest index sequence.

Two edge cases of `call` that the model states as the code has them:

- **Under-supplied native calls.** A native call supplying fewer than
  `nreg + nopt` arguments does not compile, because `sizeof...(arg_t) -
  rest_start` wraps around (subr.hpp:95). The absent branch of
  `maybe_arg_prepare` is therefore never reached. The model makes at least
  `nreg + nopt` arguments a precondition.
- **Rest layer with no extra arguments.** When no argument follows
  `rest_start`, `call` calls layer 3 with no argument (subr.hpp:121-124).
  For a one-parameter rest layer that does not compile; it is not given an
  empty list. `Subr.CallInstantiable` therefore requires that layer 3 gets
  exactly the number of arguments it declares.

## Model

| member | source | states |
|---|---|---|
| `GuileScm.HandleRoundTrip` | scm.hpp:19-20 | constructing an `scm` from a handle and converting it back gives the same handle, and converting an `scm` to its handle and back gives the same `scm` |
| `GuileScm.ToOpt` | scm.hpp:27-30 | the optional is absent exactly when the value is `SCM_UNSPECIFIED`; otherwise it is present with the very same value |
| `GuileScm.ToOptRoundTrip` | scm.hpp:27-30 | every value can be recovered from its optional (reading an absent optional as `SCM_UNSPECIFIED`), so the presence test loses nothing |
| `GuileScm.FromOptRoundTrip` | scm.hpp:27-30 | the presence test recovers every optional except a present `SCM_UNSPECIFIED`, which it turns into absent; "no argument" and "unspecified passed" coincide |
| `GuileScm.ToOptsRoundTrip` | scm.hpp:27-30 | a whole group of arguments survives the element-wise presence test |
| `GuileScm.VarArgs` | scm.hpp:124-127 | a variadic runtime call reads the longest prefix of its argument vector that holds no `SCM_UNDEFINED`; the terminator itself is not read |
| `GuileScm.VarArgsTerminated` | scm.hpp:124-127 | values followed by the terminator are read back as exactly those values, when none of them is `SCM_UNDEFINED` |
| `GuileScm.VarArgsAppendTerminator` | scm.hpp:124-127 | appending the terminator to a vector that already holds `SCM_UNDEFINED` changes nothing about what is read: reading stops at the first `SCM_UNDEFINED` either way |
| `GuileScm.List` | scm.hpp:124-127 | `list(a1..ak)` holds exactly the arguments before the first that is `SCM_UNDEFINED`, in order, so at most k of them; when no argument is `SCM_UNDEFINED` it is exactly the k arguments |
| `GuileScm.ListStopsAtUndefined` | scm.hpp:124-127 | an argument that is `SCM_UNDEFINED` cuts the list short: `list(x, SCM_UNDEFINED, y)` is the list of `x` alone |
| `GuileScm.Apply` | scm.hpp:22-25 | calling an `scm` as a procedure passes the runtime the arguments before the first that is `SCM_UNDEFINED`, in order, without the terminator; when none is, exactly all of them |
| `Subr.Classify` | subr.hpp:58-67 | a type classifies exactly when it is three nested callables; the triple is the parameter counts of layer 1, of its return type and of that one's return type |
| `Subr.CurriedType` | subr.hpp:147-148 | the three-layer lambda type built from a triple and a return type classifies back to exactly that triple and return type |
| `Subr.IndexSequence` | subr.hpp:79 | `make_index_sequence<n>` has n elements and element i is i |
| `Subr.OffsetSeq` | subr.hpp:81-88 | `offset_seq<k, s>` has as many elements as `s`, each shifted by k |
| `Subr.Gather` | subr.hpp:123-127 | `get<idx>(args)...` holds one argument per index, the one at that index, in index order |
| `Subr.GatherRange` | subr.hpp:90-95 | `offset_seq<k, make_index_sequence<n>>` is the range k..k+n-1, and gathering it gives the arguments k..k+n-1 in order |
| `Subr.WrappedGroups` | subr.hpp:42-45 | `wrapped` splits its arguments into groups of sizes nreg, nopt and nrest; the optional group is the presence test of positions nreg..nreg+nopt-1; the three groups concatenate back to the input |
| `Subr.Wrapped` | subr.hpp:42-52 | the result is `SCM_UNSPECIFIED` when the composed call is `void`; otherwise it is the native result of layer 1 on the first nreg arguments, layer 2 on the presence test of the next nopt, and layer 3 on the rest |
| `Subr.UndefinedOptionalIsPresent` | subr.hpp:42-45 | the presence test only looks for `SCM_UNSPECIFIED`: an optional position holding `SCM_UNDEFINED` reaches layer 2 as present, carrying `SCM_UNDEFINED` |
| `Subr.DefPrim` | subr.hpp:65-75 | registration succeeds exactly when the type has three layers and a rest layer of at most one parameter; the registered name, triple and entry point are the given name, the classified triple and the function; the entry point's parameter count is nreg+nopt+nrest; otherwise it is rejected with the matching reason |
| `Subr.RegisteredArityMatchesEntry` | subr.hpp:65-74 | every argument list of the registered length is accepted by `wrapped`, and it splits into groups of exactly the registered sizes |
| `Subr.OptionalsAlwaysPresent` | subr.hpp:97-104 | `opt_idx` is nreg..nreg+nopt-1, and for every one of those indices `maybe_arg_prepare` yields the argument at that index as present; the absent branch is never taken |
| `Subr.MaybeArgReturnTypeFormedIff` | subr.hpp:97-98 | the declared return type of `maybe_arg_prepare<i>`, element `i` of the nopt-element `opt_args` with `i` an absolute position, exists for every index of `opt_idx` exactly when nreg is 0 or nopt is 0 |
| `Subr.Presents` | subr.hpp:100 | the optional group of `call` has each argument as present, so reading it back gives the arguments |
| `Subr.CallOptionals` | subr.hpp:90-104 | the optional group of `call` is the arguments nreg..nreg+nopt-1, all present, in order |
| `Subr.CallRest` | subr.hpp:118-128 | layer 3 gets nothing when no argument follows `rest_start`, and otherwise one list of the arguments `rest_start..N-1` in order |
| `Subr.CallGroups` | subr.hpp:118-128 | `call` gives layer 1 the first nreg arguments, layer 2 the next nopt as present optionals, and layer 3 nothing or one list of the remaining arguments |
| `Subr.CallPrim` | subr.hpp:143-145 | `call_prim` returns no value exactly when the composed call is `void`; otherwise it returns the result of the three layers applied to the first nreg arguments, the next nopt as present, and nothing or the list of the rest |
| `Subr.SharedOffsets` | subr.hpp:90-95 | on an argument list of the registered length, `call` and `wrapped` give layer 1 the same arguments and read the optional group from the same positions; `call` gives layer 3 the list of the rest group that `wrapped` passes |
| `Subr.RestListHoldsExtraArgs` | subr.hpp:126-127 | with a rest layer and r+o+k arguments (k > 0, none `SCM_UNDEFINED`), layer 3 gets one k-element list holding the extra arguments |
| `Subr.CallAgreesWithWrapped` | subr.hpp:118-124 | with no rest layer, on an argument list of the registered length whose optional positions hold no `SCM_UNSPECIFIED`, `call` is instantiable and: for a non-`void` result `call_prim` returns exactly the result of the entry point `wrapped`; for a `void` result `call_prim` returns nothing and `wrapped` returns `SCM_UNSPECIFIED` |
| `BrokeClang.ToOptCopy` | broke_clang.hpp:26-29 | this header's `toOpt` is absent exactly for `SCM_UNSPECIFIED`, and it is the same test as the one in scm.hpp |
| `BrokeClang.Rewrap` | broke_clang.hpp:165 | re-wrapping an argument as `scm{a}` gives the same value |
| `BrokeClang.Wrapped` | broke_clang.hpp:159-172 | this header's `wrapped` (required arguments re-wrapped, optionals re-wrapped and then tested, `void` becoming `SCM_UNSPECIFIED`) computes the same result as subr.hpp's on every argument list |
| `BrokeClang.DefPrim` | broke_clang.hpp:178-195 | this header's `def_prim` rejects and registers exactly as subr.hpp's does, with a triple whose sum is the entry point's parameter count |
| `BrokeClang.CallIt` | broke_clang.hpp:197-252 | the narrower `call` compiles only for exactly nreg+nopt arguments with no rest layer; there the general `call` also compiles and gives the same result: every optional present, layer 3 called with no argument |
| `BrokeClang.NoRestArgumentsAccepted` | broke_clang.hpp:213-237 | the narrower `call` accepts no call passing rest arguments, even where the general `call` does |

## Left out

- Foreign libguile calls are not modelled as code. For `scm_c_define_gsubr`,
  the model keeps only the registration record it is given (with the
  name caveat under `Subr.DefPrim` below), not the effect on Guile's
  global namespace: re-registration and lookup belong to
  Guile.
- `scm_call`'s evaluation is a function parameter (`GuileScm.Evaluator`).
- For `scm_list_n` and `scm_call`, the model keeps only their
  `SCM_UNDEFINED`-terminated argument convention.
- `scm_gc_protect_object` (`protect`) and `scm_hash` (`hash<scm>`) are foreign
  side effects or values.
- The scalar conversions `DEF_CAST_TO` and `DEF_CONSTRUCT_FROM` are not
  modelled. Native parameter and result values are taken to be `scm` values
  already, and only the parameter counts of the layers are modelled, not
  their types.
- The arithmetic and bitwise operators, `abs`, `floor` and `ceil` are thin
  wrappers over foreign calls.
- `with_guile` enters the runtime from another thread through the foreign
  `scm_with_guile`, which is about thread permission. Only its `void` path is
  usable as written.
- turtle.cpp is a demo consumer: floating-point drawing, output to gnuplot and
  process globals.
- Guile's own arity checking of a call to a registered gsubr happens inside
  Guile's dispatch and is not modelled.
- Guile fills omitted optional arguments with a value of its own choosing
  (its documentation names `SCM_UNDEFINED`), and that filling is not
  modelled. By `Subr.UndefinedOptionalIsPresent`, such a value would
  reach layer 2 as present, not absent.
- The macro `GUILE_DEF_SUBR` is not modelled. Its native-side function
  passes `arg...` where the types `arg_t...` are meant, and it discards the
  result. `call_prim` and broke_clang's `call` are modelled directly.
- Subr.DefPrim: `def_prim` hands Guile the name as a C string,
  `name.c_str()` (subr.hpp:74, broke_clang.hpp:194). So a name holding
  '\0' is cut off there, while the model's registration keeps the whole
  string.
- Subr.CurriedType: `GUILE_SUBR_LAMBDA` (subr.hpp:147-148) builds layers 2
  and 3 with by-reference captures (`[&]`). Layer 2 therefore refers to
  layer 1's parameters after layer 1 has returned, and a body that reads
  them (turtle.cpp:91, turtle.cpp:96) reads through dangling references.
  A curried layer is modelled as a pure function of its arguments, so the
  captures and object lifetimes are not modelled.
- Subr.CallPrim: gives the values `call` evidently means to pass, not the
  code as written. The declared return type of `maybe_arg_prepare`,
  `decltype(get<i>(opt_args{}))` (subr.hpp:98), indexes `opt_args` with
  the absolute argument position. So `call` compiles only when nreg is 0
  or nopt is 0 (`Subr.MaybeArgReturnTypeFormedIff`). Where it compiles
  with optionals, that type is an rvalue reference (`opt_args{}` is only
  an unevaluated operand). It binds to the temporary `optional{get<i>(tup)}`
  created in the return statement (subr.hpp:100), which is destroyed when
  that statement ends, so the optionals layer 2 receives dangle. References
  and object lifetimes are not modelled.
- BrokeClang.CallIt: the same holds for this header's copy of
  `maybe_arg_prepare` (broke_clang.hpp:218). The model gives the intended
  values.
- broke_clang's layer-3 step is an explicit specialisation inside a class
  template. It is modelled for what it is evidently meant to do, which is
  to accept only an empty rest index sequence.
- Side effects and exceptions of the native function are not modelled. The
  adapters run the composed call once and propagate whatever it raises, and
  for a `void` call its value is discarded.
