/** The action level of `normalize_plan` in fuzzer/llm/plan.py: the accepted spellings of an action and
    the canonical one. */
module PlanActions {
  import opened Wrappers

  /** A JSON string: the words the plan language knows, or any other text. */
  datatype Name =
    | KOp | KAction | KInputs | KInput | KField | KValue | KFrames | KDuration | KTimes | KCount | KActions | KCycles
    | Set | Pulse | Hold | Wait | Repeat
    | Other(chars: string)

  datatype Json =
    | Null | Bool(flag: bool) | Int(number: int) | Real(value: real) | Str(text: Name)
    | List(items: seq<Json>) | Obj(fields: map<Name, Json>)

  /** What the model leaves open: `str()` of a value, the first key of an object in insertion order, and
      the strings that iterating a string or an object yields. The results hold for every choice. */
  datatype Env = Env(str: Json -> Name, first: map<Name, Json> -> Name, elements: Json -> seq<Name>,
                     textOk: (Name, Name) -> bool)

  const MAX_DEPTH := 8

  predicate Falsy(j: Json) {
    j == Null || j == Bool(false) || j == Int(0) || j == Real(0.0) || j == Str(Other("")) || j == List([]) || j == Obj(map[])
  }

  function Get(m: map<Name, Json>, k: Name): Json {
    if k in m then m[k] else Null
  }

  function NormValue(v: Json): Json {
    if v.Bool? then Int(if v.flag then 1 else 0) else v
  }

  function NormInputs(m: map<Name, Json>): map<Name, Json> {
    map k | k in m :: NormValue(m[k])
  }

  /** `frames`, or else `duration`; an object stands for its `cycles`. */
  function FramesOf(m: map<Name, Json>): Json {
    var f := if Get(m, KFrames).Null? then Get(m, KDuration) else m[KFrames];
    if f.Obj? then (if KCycles in f.fields then f.fields[KCycles] else Int(1)) else f
  }

  function OneIfNull(j: Json): Json {
    if j.Null? then Int(1) else j
  }

  function NormAssign(env: Env, m: map<Name, Json>): map<Name, Json> {
    var given := if Get(m, KInputs).Obj? then m[KInputs].fields else map[];
    var inputs := if KField in m && KValue in m then given[env.str(m[KField]) := NormValue(m[KValue])] else given;
    (m - {KField, KValue, KDuration})[KInputs := Obj(NormInputs(inputs))][KFrames := OneIfNull(FramesOf(m))]
  }

  function NormPulse(env: Env, m: map<Name, Json>): map<Name, Json> {
    var a := if KInput !in m && KField in m then m[KInput := m[KField]] else m;
    var inputs := Get(m, KInputs);
    var b := if KInput !in a && inputs.Obj? && inputs.fields != map[] then a[KInput := Str(env.first(inputs.fields))] else a;
    b - {KField, KValue, KInputs}
  }

  function NormWait(m: map<Name, Json>): map<Name, Json> {
    var f := FramesOf(m);
    var inputs := Get(m, KInputs);
    var g := if f.Null? && inputs.Obj? then (if KCycles in inputs.fields then inputs.fields[KCycles] else Int(1)) else f;
    (m - {KDuration, KInputs})[KFrames := OneIfNull(g)]
  }

  function NormTimes(m: map<Name, Json>): map<Name, Json> {
    (if KTimes !in m && KCount in m then m[KTimes := m[KCount]] else m) - {KCount}
  }

  function Strs(names: seq<Name>): seq<Json> {
    seq(|names|, i requires 0 <= i < |names| => Str(names[i]))
  }

  /** `op`, or else `action`, moved to `op`. */
  function WithOp(m: map<Name, Json>): map<Name, Json> {
    (m - {KAction})[KOp := if Falsy(Get(m, KOp)) then Get(m, KAction) else m[KOp]]
  }

  function NormAction(env: Env, a: Json, depth: nat): Outcome<Json>
    decreases a, 1, 0
  {
    if !a.Obj? then Done(a)
    else
      var m := WithOp(a.fields);
      match m[KOp]
      case Str(Set) => Done(Obj(NormAssign(env, m)))
      case Str(Hold) => Done(Obj(NormAssign(env, m)))
      case Str(Pulse) => Done(Obj(NormPulse(env, m)))
      case Str(Wait) => Done(Obj(NormWait(m)))
      case Str(Repeat) =>
        (match if KActions in a.fields then NormNested(env, a.fields[KActions], depth + 1) else NoActions(depth + 1)
         case Done(xs) => Done(Obj(NormTimes(m)[KActions := List(xs)]))
         case Raised => Raised)
      case _ => Done(Obj(m))
  }

  function NoActions(depth: nat): Outcome<seq<Json>> {
    if depth > MAX_DEPTH then Raised else Done([])
  }

  /** The value of an `actions` key: iterating a non-empty object or string yields strings, and any other
      value that counts as true cannot be iterated. */
  function NormNested(env: Env, j: Json, depth: nat): Outcome<seq<Json>>
    decreases j, 0, 0
  {
    if depth > MAX_DEPTH then Raised
    else if Falsy(j) then Done([])
    else
      match j
      case List(items) => NormFirst(env, items, |items|, depth)
      case Obj(_) => Done(Strs(env.elements(j)))
      case Str(_) => Done(Strs(env.elements(j)))
      case _ => Raised
  }

  /** The first n actions, normalised in order. */
  function NormFirst(env: Env, xs: seq<Json>, n: nat, depth: nat): Outcome<seq<Json>>
    requires n <= |xs|
    decreases xs, 0, n
  {
    if n == 0 then Done([])
    else
      match NormFirst(env, xs, n - 1, depth)
      case Raised => Raised
      case Done(ys) =>
        match NormAction(env, xs[n - 1], depth)
        case Raised => Raised
        case Done(y) => Done(ys + [y])
  }
}
