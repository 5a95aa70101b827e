/** `_value_ok`, `check_action` and the action part of `validate_plan` in fuzzer/llm/plan.py. */
module PlanCheck {
  import opened Wrappers
  import opened Arithmetic
  import opened PlanActions

  datatype Kind = StringKind | PointerKind | ArrayKind | ScalarKind | OtherKind

  /** The elementary type names that the checks tell apart; UnsignedType is any of USINT to LWORD. */
  datatype TypeName = BoolType | RealType | UnsignedType | OtherType

  datatype Spec = Spec(kind: Kind, name: TypeName, size: nat, unsignedC: bool)

  type Fields = map<Name, Spec>

  const KNOWN_KEYS: set<Name> := {KOp, KInputs, KInput, KFrames, KTimes, KActions}

  function Power2(n: nat): nat {
    if n == 0 then 1 else 2 * Power2(n - 1)
  }

  predicate InRange(s: Spec, i: int) {
    var bits := 8 * (if s.size == 0 then 1 else s.size);
    if s.unsignedC || s.name == UnsignedType then 0 <= i <= Power2(bits) - 1
    else 0 - Power2(bits - 1) <= i <= Power2(bits - 1) - 1
  }

  predicate ValueOk(env: Env, field: Name, s: Spec, v: Json) {
    match s.kind
    case OtherKind => v.Str? || v.Int? || v.Real?
    case ScalarKind =>
      (match s.name
       case BoolType => v.Bool? || v == Int(0) || v == Int(1) || v == Real(0.0) || v == Real(1.0)
       case RealType => v.Int? || v.Real?
       case _ => v.Int? && InRange(s, v.number))
    case _ => v.Str? && env.textOk(field, v.text)
  }

  predicate InputOk(env: Env, fields: Fields, name: Name, v: Json) {
    name in fields && ValueOk(env, name, fields[name], v)
  }

  predicate InputsOk(env: Env, fields: Fields, inputs: map<Name, Json>) {
    forall k :: k in inputs ==> InputOk(env, fields, k, inputs[k])
  }

  function InputsOf(m: map<Name, Json>): Json {
    if KInputs in m then m[KInputs] else Obj(map[])
  }

  predicate PulseOk(fields: Fields, input: Json) {
    input.Str? && input.text in fields && fields[input.text].name == BoolType
  }

  /** `integer(value, ...)`: a whole number of at least 1, and not a flag. */
  predicate IsCount(j: Json) {
    j.Int? && j.number >= 1
  }

  /** Python's `== 1`, which a flag and a real meet too. */
  predicate EqualsOne(j: Json) {
    j == Int(1) || j == Bool(true) || j == Real(1.0)
  }

  /** Nothing is reported for the action. */
  predicate ActionOk(env: Env, fields: Fields, a: Json)
    decreases a, 1, 0
  {
    && a.Obj?
    && var m := a.fields;
    && m.Keys <= KNOWN_KEYS
    && KOp in m
    && match m[KOp]
       case Str(Set) =>
         InputsOf(m).Obj? && InputsOk(env, fields, InputsOf(m).fields) && (KFrames in m ==> EqualsOne(m[KFrames]))
       case Str(Hold) => InputsOf(m).Obj? && InputsOk(env, fields, InputsOf(m).fields) && IsCount(Get(m, KFrames))
       case Str(Pulse) => PulseOk(fields, Get(m, KInput))
       case Str(Wait) => IsCount(Get(m, KFrames))
       case Str(Repeat) =>
         && IsCount(Get(m, KTimes))
         && m[KTimes].number <= 64
         && KActions in m
         && m[KActions].List?
         && |m[KActions].items| > 0
         && FirstOk(env, fields, m[KActions].items, |m[KActions].items|)
       case _ => false
  }

  predicate FirstOk(env: Env, fields: Fields, xs: seq<Json>, n: nat)
    requires n <= |xs|
    decreases xs, 0, n
  {
    n == 0 || (FirstOk(env, fields, xs, n - 1) && ActionOk(env, fields, xs[n - 1]))
  }

  function CountOf(j: Json): nat {
    if IsCount(j) then j.number else 0
  }

  /** The frames that an action is charged for. */
  function Cost(a: Json): nat
    decreases a, 1, 0
  {
    if !a.Obj? || KOp !in a.fields then 0
    else
      var m := a.fields;
      match m[KOp]
      case Str(Set) => if InputsOf(m).Obj? then 1 else 0
      case Str(Hold) => if InputsOf(m).Obj? then CountOf(Get(m, KFrames)) else 0
      case Str(Pulse) => 2
      case Str(Wait) => CountOf(Get(m, KFrames))
      case Str(Repeat) =>
        if KActions in m && m[KActions].List?
        then Times(CountOf(Get(m, KTimes)), CostFirst(m[KActions].items, |m[KActions].items|)) else 0
      case _ => 0
  }

  function CostFirst(xs: seq<Json>, n: nat): nat
    requires n <= |xs|
    decreases xs, 0, n
  {
    if n == 0 then 0 else CostFirst(xs, n - 1) + Cost(xs[n - 1])
  }

  lemma {:induction false} PrefixCostsLess(xs: seq<Json>, i: nat, n: nat)
    requires i <= n <= |xs|
    ensures CostFirst(xs, i) <= CostFirst(xs, n)
  {
    if i < n { PrefixCostsLess(xs, i, n - 1); }
  }

  /** The closures of `validate_plan` and the list of reasons that they share, kept as its length. */
  class Checker {
    const env: Env
    const fields: Fields
    var reasons: nat

    constructor (env: Env, fields: Fields)
      ensures this.env == env && this.fields == fields && reasons == 0
    {
      this.env, this.fields, reasons := env, fields, 0;
    }

    method CountIn(j: Json) returns (n: nat)
      modifies this
      ensures n == CountOf(j)
      ensures reasons == old(reasons) + if IsCount(j) then 0 else 1
    {
      if IsCount(j) {
        n := j.number;
      } else {
        reasons := reasons + 1;
        n := 0;
      }
    }

    method CheckInputs(inputs: map<Name, Json>)
      modifies this
      ensures reasons >= old(reasons)
      ensures reasons == old(reasons) <==> InputsOk(env, fields, inputs)
    {
      var rest := inputs.Keys;
      while rest != {}
        invariant rest <= inputs.Keys
        invariant reasons >= old(reasons)
        invariant reasons == old(reasons) <==> forall k :: k in inputs && k !in rest ==> InputOk(env, fields, k, inputs[k])
        decreases rest
      {
        var name :| name in rest;
        rest := rest - {name};
        if !InputOk(env, fields, name, inputs[name]) {
          reasons := reasons + 1;
        }
      }
    }

    method CheckAction(a: Json) returns (cost: nat)
      modifies this
      ensures cost == Cost(a)
      ensures reasons >= old(reasons)
      ensures reasons == old(reasons) <==> ActionOk(env, fields, a)
      decreases a, 1, 0
    {
      cost := 0;
      if !a.Obj? || KOp !in a.fields {
        reasons := reasons + 1;
        return;
      }
      var m := a.fields;
      if !(m.Keys <= KNOWN_KEYS) {
        reasons := reasons + 1;
      }
      match m[KOp]
      case Str(Set) =>
        cost := CheckAssign(m, true);
      case Str(Hold) =>
        cost := CheckAssign(m, false);
      case Str(Pulse) =>
        if !PulseOk(fields, Get(m, KInput)) {
          reasons := reasons + 1;
        }
        cost := 2;
      case Str(Wait) =>
        cost := CountIn(Get(m, KFrames));
      case Str(Repeat) =>
        var times := CountIn(Get(m, KTimes));
        if times > 64 {
          reasons := reasons + 1;
        }
        if KActions in m && m[KActions].List? {
          var items := m[KActions].items;
          if items == [] {
            reasons := reasons + 1;
          }
          var nested := CheckNested(items);
          TimesIsProduct(times, nested);
          cost := times * nested;
        } else {
          reasons := reasons + 1;
        }
      case _ =>
        reasons := reasons + 1;
    }

    method CheckAssign(m: map<Name, Json>, isSet: bool) returns (cost: nat)
      modifies this
      ensures cost == if !InputsOf(m).Obj? then 0 else if isSet then 1 else CountOf(Get(m, KFrames))
      ensures reasons >= old(reasons)
      ensures reasons == old(reasons)
         <==> && InputsOf(m).Obj?
              && InputsOk(env, fields, InputsOf(m).fields)
              && if isSet then KFrames in m ==> EqualsOne(m[KFrames]) else IsCount(Get(m, KFrames))
    {
      var inputs := InputsOf(m);
      if !inputs.Obj? {
        reasons := reasons + 1;
        return 0;
      }
      CheckInputs(inputs.fields);
      if isSet {
        if KFrames in m && !EqualsOne(m[KFrames]) {
          reasons := reasons + 1;
        }
        cost := 1;
      } else {
        cost := CountIn(Get(m, KFrames));
      }
    }

    method CheckNested(xs: seq<Json>) returns (cost: nat)
      modifies this
      ensures cost == CostFirst(xs, |xs|)
      ensures reasons >= old(reasons)
      ensures reasons == old(reasons) <==> FirstOk(env, fields, xs, |xs|)
      decreases xs, 0, 0
    {
      cost := 0;
      var i := 0;
      while i < |xs|
        invariant i <= |xs|
        invariant cost == CostFirst(xs, i)
        invariant reasons >= old(reasons)
        invariant reasons == old(reasons) <==> FirstOk(env, fields, xs, i)
      {
        var c := CheckAction(xs[i]);
        cost := cost + c;
        i := i + 1;
      }
    }
  }

  /** What a plan must be: normalisable, not empty, free of reported actions and within the limit. */
  predicate Acceptable(env: Env, fields: Fields, xs: seq<Json>, maxFrames: int) {
    xs != [] && FirstOk(env, fields, xs, |xs|) && CostFirst(xs, |xs|) <= maxFrames
  }

  /** `validate_plan` on the value of the `actions` key. The loop leaves early once the running total is
      over the limit. */
  method Validate(env: Env, fields: Fields, actions: Json, maxFrames: int) returns (r: Outcome<seq<Json>>)
    ensures r == match NormNested(env, actions, 0)
                 case Raised => Raised
                 case Done(xs) => if Acceptable(env, fields, xs, maxFrames) then Done(xs) else Raised
  {
    var normal := NormNested(env, actions, 0);
    if normal.Raised? {
      return Raised;
    }
    var xs := normal.value;
    var checker := new Checker(env, fields);
    var total := 0;
    var i := 0;
    while i < |xs|
      invariant i <= |xs|
      invariant checker.env == env && checker.fields == fields && fresh(checker)
      invariant total == CostFirst(xs, i)
      invariant i > 0 ==> total <= maxFrames
      invariant checker.reasons == 0 <==> FirstOk(env, fields, xs, i)
    {
      var c := checker.CheckAction(xs[i]);
      total := total + c;
      if total > maxFrames {
        PrefixCostsLess(xs, i + 1, |xs|);
        return Raised;
      }
      i := i + 1;
    }
    return if xs == [] || checker.reasons > 0 then Raised else Done(xs);
  }
}
