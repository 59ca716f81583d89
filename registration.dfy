/**
 * Registration of the posit8_2 dtype with NumPy: `RegisterPosit8_2Cast`,
 * `Initialize` and `RegisterNumpyPosit8_2`. The extension's globals
 * `npy_posit8_2` and `posit8_2_type_ptr` are the fields of `Extension`;
 * NumPy itself is a value `Host` that records what has been registered and
 * which calls it refuses. Each host call is a function of that value.
 */
module Registration {

  /** NumPy's `NPY_NOTYPE`, the value `npy_posit8_2` starts with. */
  const NoType: int := 25

  /** NumPy's `NPY_USERDEF`: user-defined types are numbered from here in registration order. */
  const UserDef: int := 256

  /** The name `Initialize` looks an existing registration up under. */
  const LookupName: string := "posit<8,2>"

  /**
   * `tp_name` of this extension's type object `posit8_2_type`: the name
   * NumPy records for the type this extension registers, and the one its
   * lookup by name compares against.
   */
  const TypeName: string := "posit8_2"

  /** The element types that appear in cast edges and loop signatures; `Posit` stands for `npy_posit8_2`. */
  datatype Ty = Posit | Float | Double | Bool | Int | UInt16 | UInt | ULong | ULongLong | UInt64 | Int16 | Long | LongLong

  /** A NumPy type number: a built-in type or a user-defined one. */
  datatype Dtype = Builtin(t: Ty) | User(num: int)

  function Resolve(npy: int, t: Ty): Dtype
  {
    if t == Posit then User(npy) else Builtin(t)
  }

  /** A user-defined type known to NumPy: its name and whether its descriptor has an `argmax` hook. */
  datatype UserType = UserType(name: string, argmax: bool)

  /** A registration call into NumPy that the host may refuse. */
  datatype HostCall =
    | TypeReady                               // PyType_Ready(&posit8_2_type)
    | RegisterDataType                        // PyArray_RegisterDataType
    | SetDtypeAttr                            // PyDict_SetItemString(tp_dict, "dtype", ...)
    | CastFunc(from: Dtype, to: Dtype)        // PyArray_RegisterCastFunc
    | CanCast(from: Dtype, to: Dtype)         // PyArray_RegisterCanCast
    | Loop(name: string, sig: seq<Dtype>)     // PyUFunc_RegisterLoopForType

  /**
   * NumPy as the extension sees it: whether it imports, the argument count
   * of each of its ufuncs, the calls it refuses, the user types it knows,
   * and the casts, safe casts and loops registered so far.
   */
  datatype Host = Host(
    numpy: bool,
    ufuncArgs: map<string, int>,
    refused: set<HostCall>,
    userTypes: seq<UserType>,
    casts: set<(Dtype, Dtype)>,
    safeCasts: set<(Dtype, Dtype)>,
    loops: set<(string, seq<Dtype>)>)

  /** What no registration call changes: NumPy's own behaviour. */
  predicate SameBehaviour(h: Host, h': Host)
  {
    h'.numpy == h.numpy && h'.ufuncArgs == h.ufuncArgs && h'.refused == h.refused
  }

  // ------------------------------------------------------------- type lookup

  /**
   * `PyArray_TypeNumFromName`: the number of the first user type with the
   * given name, or `NPY_NOTYPE`.
   */
  function TypeNumFromName(types: seq<UserType>, name: string): (n: int)
    ensures n == NoType <==> forall i :: 0 <= i < |types| ==> types[i].name != name
    ensures n != NoType ==> UserDef <= n < UserDef + |types| && types[n - UserDef].name == name
    ensures n != NoType ==> forall i :: 0 <= i < n - UserDef ==> types[i].name != name
  {
    if |types| == 0 then NoType
    else
      var k := TypeNumFromName(types[..|types| - 1], name);
      if k != NoType then k
      else if types[|types| - 1].name == name then UserDef + |types| - 1
      else NoType
  }

  /** Number n denotes a registered user type with the given name. */
  predicate Names(h: Host, n: int, name: string)
  {
    UserDef <= n < UserDef + |h.userTypes| && h.userTypes[n - UserDef].name == name
  }

  /** The lookup under `name` finds a type whose descriptor has an `argmax` hook. */
  predicate Adoptable(h: Host, name: string)
  {
    var n := TypeNumFromName(h.userTypes, name);
    n != NoType && h.userTypes[n - UserDef].argmax
  }

  /** Registering one more type does not change what the lookup finds under any other name. */
  lemma {:induction false} LookupAppend(types: seq<UserType>, u: UserType, name: string)
    ensures TypeNumFromName(types + [u], name) ==
      if TypeNumFromName(types, name) != NoType then TypeNumFromName(types, name)
      else if u.name == name then UserDef + |types|
      else NoType
  {
    assert (types + [u])[..|types|] == types;
  }

  /** The number a fresh registration receives. */
  function NextTypeNum(h: Host): int
  {
    UserDef + |h.userTypes|
  }

  /**
   * `PyArray_RegisterDataType` for this extension's descriptor: its type
   * object is `posit8_2_type`, named `posit8_2`, and it has every hook
   * including `argmax`.
   */
  function RegisterType(h: Host): (r: (Host, int))
    ensures RegisterDataType in h.refused ==> r == (h, -1)
    ensures RegisterDataType !in h.refused ==>
      r.1 == NextTypeNum(h) && Names(r.0, r.1, TypeName) && r.0.userTypes[r.1 - UserDef].argmax &&
      r.0.userTypes[..|h.userTypes|] == h.userTypes && |r.0.userTypes| == |h.userTypes| + 1
    ensures SameBehaviour(h, r.0) && r.0.casts == h.casts && r.0.safeCasts == h.safeCasts && r.0.loops == h.loops
  {
    if RegisterDataType in h.refused then (h, -1)
    else (h.(userTypes := h.userTypes + [UserType(TypeName, true)]), NextTypeNum(h))
  }

  // ------------------------------------------------------------------ casts

  /** One `RegisterPosit8_2Cast<T>(numpy_type, cast_is_safe)` call of `Initialize`. */
  datatype CastEntry = CastEntry(t: Ty, safe: bool)

  /** The casts `Initialize` registers: float and double safe, the integer types unsafe. */
  const CastTable: seq<CastEntry> := [
    CastEntry(Float, true), CastEntry(Double, true),
    CastEntry(UInt16, false), CastEntry(UInt, false), CastEntry(ULong, false),
    CastEntry(ULongLong, false), CastEntry(UInt64, false),
    CastEntry(Int16, false), CastEntry(Int, false), CastEntry(Long, false),
    CastEntry(LongLong, false)]

  /** The host accepts every call that registering cast entry `e` makes. */
  predicate CastAccepted(refused: set<HostCall>, npy: int, e: CastEntry)
  {
    CastFunc(Builtin(e.t), User(npy)) !in refused &&
    CastFunc(User(npy), Builtin(e.t)) !in refused &&
    (e.safe ==> CanCast(User(npy), Builtin(e.t)) !in refused)
  }

  /** The cast edges of a table, both directions. */
  function ConvertEdges(npy: int, table: seq<CastEntry>): set<(Dtype, Dtype)>
  {
    (set e | e in table :: (Builtin(e.t), User(npy))) + (set e | e in table :: (User(npy), Builtin(e.t)))
  }

  /** The casts of a table declared safe: from the posit type to each safe entry's type. */
  function SafeEdges(npy: int, table: seq<CastEntry>): set<(Dtype, Dtype)>
  {
    set e | e in table && e.safe :: (User(npy), Builtin(e.t))
  }

  /**
   * `RegisterPosit8_2Cast`: register the cast to the posit type, then the
   * cast from it, then, for a safe entry, that the cast from it is safe;
   * stop with false at the first refusal, keeping what was registered.
   */
  function RegisterCast(h: Host, npy: int, e: CastEntry): (Host, bool)
  {
    var toPosit := (Builtin(e.t), User(npy));
    var fromPosit := (User(npy), Builtin(e.t));
    if CastFunc(toPosit.0, toPosit.1) in h.refused then (h, false)
    else
      var h1 := h.(casts := h.casts + {toPosit});
      if CastFunc(fromPosit.0, fromPosit.1) in h.refused then (h1, false)
      else
        var h2 := h1.(casts := h1.casts + {fromPosit});
        if !e.safe then (h2, true)
        else if CanCast(fromPosit.0, fromPosit.1) in h.refused then (h2, false)
        else (h2.(safeCasts := h2.safeCasts + {fromPosit}), true)
  }

  /** The chain of `RegisterPosit8_2Cast` calls in `Initialize`, stopping at the first failure. */
  function RegisterCasts(h: Host, npy: int, table: seq<CastEntry>): (Host, bool)
    decreases |table|
  {
    if |table| == 0 then (h, true)
    else
      var (h1, ok) := RegisterCast(h, npy, table[0]);
      if !ok then (h1, false) else RegisterCasts(h1, npy, table[1..])
  }

  /** A single cast registration changes only the cast sets, succeeds exactly when every call is accepted, and then adds exactly its edges. */
  lemma {:induction false} RegisterCastSpec(h: Host, npy: int, e: CastEntry)
    ensures var (h', ok) := RegisterCast(h, npy, e);
      SameBehaviour(h, h') && h'.userTypes == h.userTypes && h'.loops == h.loops &&
      (ok <==> CastAccepted(h.refused, npy, e)) &&
      h.casts <= h'.casts <= h.casts + ConvertEdges(npy, [e]) &&
      h.safeCasts <= h'.safeCasts <= h.safeCasts + SafeEdges(npy, [e]) &&
      (ok ==> h'.casts == h.casts + ConvertEdges(npy, [e]) && h'.safeCasts == h.safeCasts + SafeEdges(npy, [e]))
  {
    assert ConvertEdges(npy, [e]) == {(Builtin(e.t), User(npy)), (User(npy), Builtin(e.t))};
    assert SafeEdges(npy, [e]) == if e.safe then {(User(npy), Builtin(e.t))} else {};
  }

  lemma {:induction false} EdgesSplit(npy: int, table: seq<CastEntry>)
    requires |table| > 0
    ensures ConvertEdges(npy, table) == ConvertEdges(npy, [table[0]]) + ConvertEdges(npy, table[1..])
    ensures SafeEdges(npy, table) == SafeEdges(npy, [table[0]]) + SafeEdges(npy, table[1..])
  {
    assert forall e :: e in table <==> e == table[0] || e in table[1..];
  }

  /**
   * The cast chain succeeds exactly when the host accepts every call of
   * every entry; it registers no edge outside the table, and on success it
   * has registered every edge of the table and exactly the safe ones as safe.
   */
  lemma {:induction false} RegisterCastsSpec(h: Host, npy: int, table: seq<CastEntry>)
    decreases |table|
    ensures var (h', ok) := RegisterCasts(h, npy, table);
      SameBehaviour(h, h') && h'.userTypes == h.userTypes && h'.loops == h.loops &&
      (ok <==> forall i :: 0 <= i < |table| ==> CastAccepted(h.refused, npy, table[i])) &&
      h.casts <= h'.casts <= h.casts + ConvertEdges(npy, table) &&
      h.safeCasts <= h'.safeCasts <= h.safeCasts + SafeEdges(npy, table) &&
      (ok ==> h'.casts == h.casts + ConvertEdges(npy, table) && h'.safeCasts == h.safeCasts + SafeEdges(npy, table))
  {
    if |table| > 0 {
      RegisterCastSpec(h, npy, table[0]);
      EdgesSplit(npy, table);
      var (h1, ok1) := RegisterCast(h, npy, table[0]);
      if ok1 {
        RegisterCastsSpec(h1, npy, table[1..]);
        assert forall i :: 1 <= i < |table| ==> table[i] == table[1..][i - 1];
      }
    }
  }

  /** Only the float and double casts are declared safe; every entry is registered in both directions. */
  lemma {:induction false} CastTableSafety(npy: int)
    ensures forall i :: 0 <= i < |CastTable| ==> (CastTable[i].safe <==> CastTable[i].t == Float || CastTable[i].t == Double)
    ensures SafeEdges(npy, CastTable) == {(User(npy), Builtin(Float)), (User(npy), Builtin(Double))}
  {
    var safe := {(User(npy), Builtin(Float)), (User(npy), Builtin(Double))};
    forall p | p in SafeEdges(npy, CastTable)
      ensures p in safe
    {
      var e :| e in CastTable && e.safe && p == (User(npy), Builtin(e.t));
      var i :| 0 <= i < |CastTable| && CastTable[i] == e;
    }
    assert CastTable[0] in CastTable && CastTable[1] in CastTable;
  }

  // ----------------------------------------------------------------- ufuncs

  /** One `RegisterUFunc<UFunc>(numpy, name)` call: the ufunc's name and the loop's type signature (`UFunc::Types()`). */
  datatype UFuncEntry = UFuncEntry(name: string, sig: seq<Ty>)

  /** The type numbers of a signature once the posit type has number npy. */
  function Signature(npy: int, sig: seq<Ty>): (r: seq<Dtype>)
    ensures |r| == |sig|
    ensures forall i :: 0 <= i < |sig| ==> r[i] == Resolve(npy, sig[i])
  {
    seq(|sig|, i requires 0 <= i < |sig| => Resolve(npy, sig[i]))
  }

  /** The host accepts registering loop e: the ufunc exists, takes as many arguments as the loop, and the loop is not refused. */
  predicate UFuncAccepted(h: Host, npy: int, e: UFuncEntry)
  {
    e.name in h.ufuncArgs && h.ufuncArgs[e.name] == |e.sig| && Loop(e.name, Signature(npy, e.sig)) !in h.refused
  }

  /** The loops of a table. */
  function LoopEdges(npy: int, table: seq<UFuncEntry>): set<(string, seq<Dtype>)>
  {
    set e | e in table :: (e.name, Signature(npy, e.sig))
  }

  /**
   * `RegisterUFunc`: look the ufunc up by name, check that its argument
   * count matches the loop's signature, and register the loop.
   */
  function RegisterUFunc(h: Host, npy: int, e: UFuncEntry): (Host, bool)
  {
    if e.name !in h.ufuncArgs then (h, false)
    else if |Signature(npy, e.sig)| != h.ufuncArgs[e.name] then (h, false)
    else if Loop(e.name, Signature(npy, e.sig)) in h.refused then (h, false)
    else (h.(loops := h.loops + {(e.name, Signature(npy, e.sig))}), true)
  }

  /** The `&&` chain of `RegisterUFunc` calls in `Initialize`, stopping at the first failure. */
  function RegisterUFuncs(h: Host, npy: int, table: seq<UFuncEntry>): (Host, bool)
    decreases |table|
  {
    if |table| == 0 then (h, true)
    else
      var (h1, ok) := RegisterUFunc(h, npy, table[0]);
      if !ok then (h1, false) else RegisterUFuncs(h1, npy, table[1..])
  }

  lemma {:induction false} LoopEdgesSplit(npy: int, table: seq<UFuncEntry>)
    requires |table| > 0
    ensures LoopEdges(npy, table) == LoopEdges(npy, [table[0]]) + LoopEdges(npy, table[1..])
  {
    assert forall e :: e in table <==> e == table[0] || e in table[1..];
  }

  /**
   * The ufunc chain succeeds exactly when every loop is accepted; it
   * registers no loop outside the table, and on success every loop of it.
   */
  lemma {:induction false} RegisterUFuncsSpec(h: Host, npy: int, table: seq<UFuncEntry>)
    decreases |table|
    ensures var (h', ok) := RegisterUFuncs(h, npy, table);
      SameBehaviour(h, h') && h'.userTypes == h.userTypes && h'.casts == h.casts && h'.safeCasts == h.safeCasts &&
      (ok <==> forall i :: 0 <= i < |table| ==> UFuncAccepted(h, npy, table[i])) &&
      h.loops <= h'.loops <= h.loops + LoopEdges(npy, table) &&
      (ok ==> h'.loops == h.loops + LoopEdges(npy, table))
  {
    if |table| > 0 {
      LoopEdgesSplit(npy, table);
      assert LoopEdges(npy, [table[0]]) == {(table[0].name, Signature(npy, table[0].sig))};
      var (h1, ok1) := RegisterUFunc(h, npy, table[0]);
      if ok1 {
        RegisterUFuncsSpec(h1, npy, table[1..]);
        assert forall i :: 1 <= i < |table| ==> table[i] == table[1..][i - 1];
        assert forall e :: UFuncAccepted(h1, npy, e) == UFuncAccepted(h, npy, e);
      }
    }
  }

  /** The loops `Initialize` registers, in order. */
  const UFuncTable: seq<UFuncEntry> := [
      UFuncEntry("add", [Posit, Posit, Posit]),
      UFuncEntry("add", [Float, Posit, Posit]),
      UFuncEntry("add", [Posit, Float, Posit]),
      UFuncEntry("subtract", [Posit, Posit, Posit]),
      UFuncEntry("multiply", [Posit, Posit, Posit]),
      UFuncEntry("divide", [Posit, Posit, Posit]),
      UFuncEntry("logaddexp", [Posit, Posit, Posit]),
      UFuncEntry("logaddexp2", [Posit, Posit, Posit]),
      UFuncEntry("negative", [Posit, Posit]),
      UFuncEntry("positive", [Posit, Posit]),
      UFuncEntry("true_divide", [Posit, Posit, Posit]),
      UFuncEntry("floor_divide", [Posit, Posit, Posit]),
      UFuncEntry("power", [Posit, Posit, Posit]),
      UFuncEntry("remainder", [Posit, Posit, Posit]),
      UFuncEntry("mod", [Posit, Posit, Posit]),
      UFuncEntry("fmod", [Posit, Posit, Posit]),
      UFuncEntry("divmod", [Posit, Posit, Posit, Posit]),
      UFuncEntry("absolute", [Posit, Posit]),
      UFuncEntry("fabs", [Posit, Posit]),
      UFuncEntry("rint", [Posit, Posit]),
      UFuncEntry("sign", [Posit, Posit]),
      UFuncEntry("heaviside", [Posit, Posit, Posit]),
      UFuncEntry("conjugate", [Posit, Posit]),
      UFuncEntry("exp", [Posit, Posit]),
      UFuncEntry("exp2", [Posit, Posit]),
      UFuncEntry("expm1", [Posit, Posit]),
      UFuncEntry("log", [Posit, Posit]),
      UFuncEntry("log2", [Posit, Posit]),
      UFuncEntry("log10", [Posit, Posit]),
      UFuncEntry("log1p", [Posit, Posit]),
      UFuncEntry("sqrt", [Posit, Posit]),
      UFuncEntry("square", [Posit, Posit]),
      UFuncEntry("cbrt", [Posit, Posit]),
      UFuncEntry("reciprocal", [Posit, Posit]),
      UFuncEntry("sin", [Posit, Posit]),
      UFuncEntry("cos", [Posit, Posit]),
      UFuncEntry("tan", [Posit, Posit]),
      UFuncEntry("arcsin", [Posit, Posit]),
      UFuncEntry("arccos", [Posit, Posit]),
      UFuncEntry("arctan", [Posit, Posit]),
      UFuncEntry("arctan2", [Posit, Posit, Posit]),
      UFuncEntry("hypot", [Posit, Posit, Posit]),
      UFuncEntry("sinh", [Posit, Posit]),
      UFuncEntry("cosh", [Posit, Posit]),
      UFuncEntry("tanh", [Posit, Posit]),
      UFuncEntry("arcsinh", [Posit, Posit]),
      UFuncEntry("arccosh", [Posit, Posit]),
      UFuncEntry("arctanh", [Posit, Posit]),
      UFuncEntry("deg2rad", [Posit, Posit]),
      UFuncEntry("rad2deg", [Posit, Posit]),
      UFuncEntry("equal", [Posit, Posit, Bool]),
      UFuncEntry("equal", [Posit, Float, Bool]),
      UFuncEntry("equal", [Posit, Double, Bool]),
      UFuncEntry("not_equal", [Posit, Posit, Bool]),
      UFuncEntry("not_equal", [Posit, Float, Bool]),
      UFuncEntry("not_equal", [Posit, Double, Bool]),
      UFuncEntry("less", [Posit, Posit, Bool]),
      UFuncEntry("less", [Posit, Float, Bool]),
      UFuncEntry("less", [Posit, Double, Bool]),
      UFuncEntry("greater", [Posit, Posit, Bool]),
      UFuncEntry("greater", [Posit, Float, Bool]),
      UFuncEntry("greater", [Posit, Double, Bool]),
      UFuncEntry("less_equal", [Posit, Posit, Bool]),
      UFuncEntry("less_equal", [Posit, Float, Bool]),
      UFuncEntry("less_equal", [Posit, Double, Bool]),
      UFuncEntry("greater_equal", [Posit, Posit, Bool]),
      UFuncEntry("greater_equal", [Posit, Float, Bool]),
      UFuncEntry("greater_equal", [Posit, Double, Bool]),
      UFuncEntry("maximum", [Posit, Posit, Posit]),
      UFuncEntry("minimum", [Posit, Posit, Posit]),
      UFuncEntry("fmax", [Posit, Posit, Posit]),
      UFuncEntry("fmin", [Posit, Posit, Posit]),
      UFuncEntry("isfinite", [Posit, Bool]),
      UFuncEntry("isinf", [Posit, Bool]),
      UFuncEntry("isnan", [Posit, Bool]),
      UFuncEntry("signbit", [Posit, Bool]),
      UFuncEntry("copysign", [Posit, Posit, Posit]),
      UFuncEntry("modf", [Posit, Posit, Posit]),
      UFuncEntry("ldexp", [Posit, Int, Posit]),
      UFuncEntry("frexp", [Posit, Posit, Int]),
      UFuncEntry("floor", [Posit, Posit]),
      UFuncEntry("ceil", [Posit, Posit]),
      UFuncEntry("trunc", [Posit, Posit]),
      UFuncEntry("nextafter", [Posit, Posit, Posit])]

  // ------------------------------------------------------- initialization

  /** The casts and loops a registration installs. */
  datatype Tables = Tables(casts: seq<CastEntry>, ufuncs: seq<UFuncEntry>)

  /** The tables of `Initialize`. */
  const SourceTables: Tables := Tables(CastTable, UFuncTable)

  /** `posit8_2_type_ptr`: null, this extension's type object, or the type object of an adopted registration. */
  datatype TypePtr = NoTypeObject | OwnTypeObject | Adopted(num: int)

  /** The extension's globals together with the host. */
  datatype Globals = Globals(npy: int, typePtr: TypePtr, host: Host)

  /** The state at load time: `npy_posit8_2 == NPY_NOTYPE`, no type object. */
  function Start(h: Host): Globals
  {
    Globals(NoType, NoTypeObject, h)
  }

  /**
   * `Initialize`, with the lookup of an existing registration made under
   * `name`: import NumPy; adopt an existing type of that name whose
   * descriptor has `argmax`; otherwise ready the type object, register the
   * descriptor (storing its number, or -1, in `npy_posit8_2`), set the
   * `dtype` attribute, register the casts and then the ufunc loops.
   */
  function InitializeFrom(g: Globals, t: Tables, name: string): (Globals, bool)
  {
    var h := g.host;
    if !h.numpy then (g, false)
    else if Adoptable(h, name) then
      var found := TypeNumFromName(h.userTypes, name);
      (g.(npy := found, typePtr := Adopted(found)), true)
    else if TypeReady in h.refused then (g, false)
    else
      var (h1, num) := RegisterType(h);
      if num < 0 then (Globals(num, OwnTypeObject, h1), false)
      else if SetDtypeAttr in h.refused then (Globals(num, OwnTypeObject, h1), false)
      else
        var (h2, ok) := RegisterTables(h1, num, t);
        (Globals(num, OwnTypeObject, h2), ok)
  }

  /** `Initialize` as written: it looks up `posit<8,2>`. */
  function InitializeSpec(g: Globals, t: Tables): (Globals, bool)
  {
    InitializeFrom(g, t, LookupName)
  }

  /** The cast chain, then (if it succeeded) the ufunc chain. */
  function RegisterTables(h: Host, num: int, t: Tables): (Host, bool)
  {
    var (h1, castsOk) := RegisterCasts(h, num, t.casts);
    if !castsOk then (h1, false) else RegisterUFuncs(h1, num, t.ufuncs)
  }

  /** Every call the two tables make, for a posit type numbered num, is accepted. */
  predicate TablesAccepted(h: Host, num: int, t: Tables)
  {
    (forall i :: 0 <= i < |t.casts| ==> CastAccepted(h.refused, num, t.casts[i])) &&
    (forall i :: 0 <= i < |t.ufuncs| ==> UFuncAccepted(h, num, t.ufuncs[i]))
  }

  /**
   * The tables succeed exactly when all their calls are accepted, register
   * nothing outside them, and on success register all their edges.
   */
  lemma {:induction false} RegisterTablesSpec(h: Host, num: int, t: Tables)
    ensures var (h', ok) := RegisterTables(h, num, t);
      SameBehaviour(h, h') && h'.userTypes == h.userTypes &&
      h.casts <= h'.casts <= h.casts + ConvertEdges(num, t.casts) &&
      h.safeCasts <= h'.safeCasts <= h.safeCasts + SafeEdges(num, t.casts) &&
      h.loops <= h'.loops <= h.loops + LoopEdges(num, t.ufuncs) &&
      (ok <==> TablesAccepted(h, num, t)) &&
      (ok ==> (h'.casts == h.casts + ConvertEdges(num, t.casts) &&
               h'.safeCasts == h.safeCasts + SafeEdges(num, t.casts) &&
               h'.loops == h.loops + LoopEdges(num, t.ufuncs)))
  {
    RegisterCastsSpec(h, num, t.casts);
    var (h1, castsOk) := RegisterCasts(h, num, t.casts);
    RegisterUFuncsSpec(h1, num, t.ufuncs);
    assert forall e :: UFuncAccepted(h1, num, e) == UFuncAccepted(h, num, e);
  }

  /** `RegisterNumpyPosit8_2`: true at once when `npy_posit8_2` is no longer `NPY_NOTYPE`, otherwise `Initialize`. */
  function RegisterSpec(g: Globals, t: Tables): (Globals, bool)
  {
    if g.npy != NoType then (g, true) else InitializeSpec(g, t)
  }

  /** Every call of a fresh registration, for a type that receives number num, is accepted. */
  predicate AllAccepted(h: Host, num: int, t: Tables)
  {
    TypeReady !in h.refused && RegisterDataType !in h.refused && SetDtypeAttr !in h.refused &&
    TablesAccepted(h, num, t)
  }

  /**
   * Adoption: a type found under `name` is reused, with no new type and
   * nothing else registered, exactly when it has an `argmax` hook.
   */
  lemma {:induction false} InitializeAdopts(g: Globals, t: Tables, name: string)
    requires g.host.numpy
    ensures var (g', ok) := InitializeFrom(g, t, name);
      (Adoptable(g.host, name) ==>
        (ok && g'.host == g.host && g'.npy == TypeNumFromName(g.host.userTypes, name) &&
         g'.typePtr == Adopted(g'.npy) && Names(g.host, g'.npy, name) &&
         g'.host.userTypes[g'.npy - UserDef].argmax)) &&
      (!Adoptable(g.host, name) ==> g'.typePtr == g.typePtr || g'.typePtr == OwnTypeObject)
  {
  }

  /**
   * Without adoption, `Initialize` either changes nothing, or fails to
   * register the type (leaving -1 in `npy_posit8_2`), or registers exactly
   * one new type, named `posit8_2` and with `argmax`, under the next type
   * number; it registers nothing outside the tables, succeeds exactly when
   * every host call is accepted, and then has registered every cast of the
   * table, its safe casts as safe, and every loop.
   */
  lemma {:induction false} InitializeRegisters(g: Globals, t: Tables, name: string)
    requires g.host.numpy && !Adoptable(g.host, name)
    ensures var (g', ok) := InitializeFrom(g, t, name);
      var num := NextTypeNum(g.host);
      SameBehaviour(g.host, g'.host) &&
      (g' == g ||
       (g'.npy == -1 && g'.typePtr == OwnTypeObject && g'.host == g.host) ||
       (g'.npy == num && g'.typePtr == OwnTypeObject && g'.host.userTypes == g.host.userTypes + [UserType(TypeName, true)])) &&
      g'.host.casts <= g.host.casts + ConvertEdges(num, t.casts) &&
      g'.host.safeCasts <= g.host.safeCasts + SafeEdges(num, t.casts) &&
      g'.host.loops <= g.host.loops + LoopEdges(num, t.ufuncs) &&
      (ok <==> AllAccepted(g.host, num, t)) &&
      (ok ==>
        (g'.npy == num && Names(g'.host, num, TypeName) && g'.typePtr == OwnTypeObject &&
         g'.host.userTypes == g.host.userTypes + [UserType(TypeName, true)] &&
         g'.host.casts == g.host.casts + ConvertEdges(num, t.casts) &&
         g'.host.safeCasts == g.host.safeCasts + SafeEdges(num, t.casts) &&
         g'.host.loops == g.host.loops + LoopEdges(num, t.ufuncs)))
  {
    var h := g.host;
    if TypeReady !in h.refused && RegisterDataType !in h.refused {
      var (h1, num) := RegisterType(h);
      RegisterTablesSpec(h1, num, t);
      assert TablesAccepted(h1, num, t) == TablesAccepted(h, num, t);
    }
  }

  /** Without NumPy nothing happens. */
  lemma {:induction false} InitializeWithoutNumpy(g: Globals, t: Tables)
    requires !g.host.numpy
    ensures InitializeSpec(g, t) == (g, false)
  {
  }

  /**
   * Idempotence: once `npy_posit8_2` is set, registering returns true and
   * changes nothing; after a successful registration it is set, so a
   * second registration is a no-op returning true.
   */
  lemma {:induction false} RegisterIdempotent(g: Globals, t: Tables)
    ensures g.npy != NoType ==> RegisterSpec(g, t) == (g, true)
    ensures var (g', ok) := RegisterSpec(g, t); ok ==> g'.npy != NoType && RegisterSpec(g', t) == (g', true)
  {
    if g.npy == NoType && g.host.numpy && !Adoptable(g.host, LookupName) {
      InitializeRegisters(g, t, LookupName);
    }
  }

  /**
   * `npy_posit8_2` and `posit8_2_type_ptr` agree with the host: either an
   * adopted `posit<8,2>` type with `argmax`, found under that number, or
   * this extension's own `posit8_2` type registered under that number.
   */
  predicate Registered(g: Globals)
  {
    match g.typePtr
    case Adopted(n) => n == g.npy && Names(g.host, n, LookupName) && g.host.userTypes[n - UserDef].argmax
    case OwnTypeObject => Names(g.host, g.npy, TypeName) && g.host.userTypes[g.npy - UserDef].argmax
    case NoTypeObject => false
  }

  /**
   * Registering from load time yields one type in all: the adopted
   * `posit<8,2>` one, with the host's types unchanged, or a single new
   * `posit8_2` one under the next type number.
   */
  lemma {:induction false} RegisterOnce(h: Host, t: Tables)
    ensures var (g', ok) := RegisterSpec(Start(h), t);
      ok ==>
        (Registered(g') &&
         (Adoptable(h, LookupName) ==>
            g'.typePtr == Adopted(g'.npy) && Names(h, g'.npy, LookupName) && g'.host.userTypes == h.userTypes) &&
         (!Adoptable(h, LookupName) ==>
            g'.typePtr == OwnTypeObject && g'.npy == NextTypeNum(h) &&
            g'.host.userTypes == h.userTypes + [UserType(TypeName, true)]))
  {
    if h.numpy && !Adoptable(h, LookupName) {
      InitializeRegisters(Start(h), t, LookupName);
    }
  }

  /**
   * As written, the lookup under `posit<8,2>` never finds the type this
   * extension registers, which NumPy knows as `posit8_2`: once one copy of
   * the extension has registered, a second copy loaded into the same NumPy
   * finds nothing to adopt and, when it succeeds, registers a second type.
   */
  lemma {:induction false} OwnTypeNotFound(h: Host, t: Tables)
    requires h.numpy && TypeNumFromName(h.userTypes, LookupName) == NoType
    ensures var (g1, ok1) := InitializeSpec(Start(h), t);
      var (g2, ok2) := InitializeSpec(Start(g1.host), t);
      ok1 ==>
        (Names(g1.host, g1.npy, TypeName) && !Adoptable(g1.host, LookupName) &&
         (ok2 ==> g2.host.userTypes == h.userTypes + [UserType(TypeName, true), UserType(TypeName, true)]))
  {
    var (g1, ok1) := InitializeSpec(Start(h), t);
    InitializeRegisters(Start(h), t, LookupName);
    if ok1 {
      LookupAppend(h.userTypes, UserType(TypeName, true), LookupName);
      InitializeRegisters(Start(g1.host), t, LookupName);
    }
  }

  /** `Initialize` with the lookup made under the registered type's own name. */
  function InitializeByTypeName(g: Globals, t: Tables): (Globals, bool)
  {
    InitializeFrom(g, t, TypeName)
  }

  /**
   * With that lookup, a second copy of the extension adopts the type the
   * first one registered: it succeeds, takes the same type number and
   * registers nothing.
   */
  lemma {:induction false} ReloadAdopts(h: Host, t: Tables)
    requires h.numpy && TypeNumFromName(h.userTypes, TypeName) == NoType
    ensures var (g1, ok1) := InitializeByTypeName(Start(h), t);
      var (g2, ok2) := InitializeByTypeName(Start(g1.host), t);
      ok1 ==> ok2 && g2.host == g1.host && g2.npy == g1.npy && g2.typePtr == Adopted(g1.npy)
  {
    var (g1, ok1) := InitializeByTypeName(Start(h), t);
    InitializeRegisters(Start(h), t, TypeName);
    if ok1 {
      LookupAppend(h.userTypes, UserType(TypeName, true), TypeName);
      assert TypeNumFromName(g1.host.userTypes, TypeName) == g1.npy;
      assert Adoptable(g1.host, TypeName);
      ReuseFound(g1.host, t, TypeName);
    }
  }

  /** From load time, a type found under `name` with `argmax` is adopted and the host is left as it is. */
  lemma {:induction false} ReuseFound(h: Host, t: Tables, name: string)
    requires h.numpy && Adoptable(h, name)
    ensures InitializeFrom(Start(h), t, name) ==
      (Globals(TypeNumFromName(h.userTypes, name), Adopted(TypeNumFromName(h.userTypes, name)), h), true)
  {
  }

  /**
   * As written, a failed `PyArray_RegisterDataType` leaves -1 in
   * `npy_posit8_2`, which differs from `NPY_NOTYPE`: the next
   * `RegisterNumpyPosit8_2` reports success with no type registered.
   */
  lemma {:induction false} RegisterAfterRefusedType(h: Host, t: Tables)
    requires h.numpy && !Adoptable(h, LookupName) && TypeReady !in h.refused && RegisterDataType in h.refused
    ensures var (g1, ok1) := RegisterSpec(Start(h), t);
      !ok1 && g1.npy == -1 && !Registered(g1) && RegisterSpec(g1, t) == (g1, true)
  {
  }

  /** The guard evidently intended: a registration counts only once it holds a type number. */
  function RegisterCheckedSpec(g: Globals, t: Tables): (Globals, bool)
  {
    if g.npy != NoType && g.npy >= 0 then (g, true) else InitializeSpec(g, t)
  }

  /** `npy_posit8_2` is unset, failed (negative) or names the type `posit8_2_type_ptr` stands for. */
  predicate Consistent(g: Globals)
  {
    g.npy == NoType || g.npy < 0 || Registered(g)
  }

  /**
   * With that guard, consistency of the globals is kept, and a registration
   * reports success only when `npy_posit8_2` names a registered type, the
   * adopted or this extension's own; a later call is then a no-op. The
   * guard does not cover a failure after the type is registered: see
   * `CheckedAfterPartialFailure`.
   */
  lemma {:induction false} RegisterCheckedSound(g: Globals, t: Tables)
    requires Consistent(g)
    ensures var (g', ok) := RegisterCheckedSpec(g, t);
      Consistent(g') && (ok ==> Registered(g') && RegisterCheckedSpec(g', t) == (g', true))
  {
    if !(g.npy != NoType && g.npy >= 0) && g.host.numpy && !Adoptable(g.host, LookupName) {
      InitializeRegisters(g, t, LookupName);
    }
  }

  /**
   * Even with the corrected guard, a failure after the type is registered
   * (here the `dtype` attribute is refused, so no cast or loop is
   * registered) leaves a type number, and the next call reports success.
   */
  lemma {:induction false} CheckedAfterPartialFailure(h: Host, t: Tables)
    requires h.numpy && !Adoptable(h, LookupName)
    requires TypeReady !in h.refused && RegisterDataType !in h.refused && SetDtypeAttr in h.refused
    ensures var (g1, ok1) := RegisterCheckedSpec(Start(h), t);
      !ok1 && g1.host.loops == h.loops && g1.host.casts == h.casts && RegisterCheckedSpec(g1, t) == (g1, true)
  {
  }

  // ------------------------------------------------------------ the globals

  /** The extension's module state: `npy_posit8_2`, `posit8_2_type_ptr`, and the NumPy it talks to. */
  class Extension {
    var npy: int
    var typePtr: TypePtr
    var host: Host

    /** Load time. */
    constructor(h: Host)
      ensures State() == Start(h)
    {
      npy := NoType;
      typePtr := NoTypeObject;
      host := h;
    }

    function State(): Globals
      reads this
    {
      Globals(npy, typePtr, host)
    }

    /** `Initialize`, step by step on the globals. */
    method Initialize() returns (ok: bool)
      modifies this
      ensures (State(), ok) == InitializeSpec(old(State()), SourceTables)
    {
      if !host.numpy {
        return false;
      }
      var typenum := TypeNumFromName(host.userTypes, LookupName);
      if typenum != NoType {
        if host.userTypes[typenum - UserDef].argmax {
          npy := typenum;
          typePtr := Adopted(typenum);
          return true;
        }
      }
      if TypeReady in host.refused {
        return false;
      }
      var (h1, num) := RegisterType(host);
      host := h1;
      npy := num;
      typePtr := OwnTypeObject;
      if npy < 0 {
        return false;
      }
      if SetDtypeAttr in host.refused {
        return false;
      }
      var (h2, castsOk) := RegisterCasts(host, npy, SourceTables.casts);
      host := h2;
      if !castsOk {
        return false;
      }
      var (h3, ufuncsOk) := RegisterUFuncs(host, npy, SourceTables.ufuncs);
      host := h3;
      ok := ufuncsOk;
    }

    /** `RegisterNumpyPosit8_2`. */
    method RegisterNumpyPosit8_2() returns (ok: bool)
      modifies this
      ensures (State(), ok) == RegisterSpec(old(State()), SourceTables)
    {
      if npy != NoType {
        return true;
      }
      ok := Initialize();
    }

    /** `RegisterNumpyPosit8_2` with the guard of `RegisterCheckedSpec`. */
    method RegisterNumpyPosit8_2Checked() returns (ok: bool)
      modifies this
      ensures (State(), ok) == RegisterCheckedSpec(old(State()), SourceTables)
    {
      if npy != NoType && npy >= 0 {
        return true;
      }
      ok := Initialize();
    }
  }
}
