/** `expand_plan` of fuzzer/llm/plan.py, and its agreement with the checker. */
module PlanExpansion {
  import opened Wrappers
  import opened Arithmetic
  import opened PlanActions
  import opened PlanCheck

  /** The text of a field: a decimal number, a string taken as it is, or `str()` of another value. */
  datatype Text = Digits(number: int) | Literal(name: Name) | Rendered(value: Json)

  type Frame = map<Name, Text>

  datatype State = State(current: Frame, frames: seq<Frame>)

  /** `int()` of a string and of a real. */
  datatype Conversions = Conversions(parse: Name -> Outcome<int>, truncate: real -> int)

  function TextOf(v: Json): Text {
    match NormValue(v)
    case Int(i) => Digits(i)
    case Str(s) => Literal(s)
    case j => Rendered(j)
  }

  /** `int(j or 1)`. */
  function IntOrOne(conv: Conversions, j: Json): Outcome<int> {
    if Falsy(j) then Done(1)
    else
      match j
      case Int(i) => Done(i)
      case Bool(_) => Done(1)
      case Real(x) => Done(conv.truncate(x))
      case Str(s) => conv.parse(s)
      case _ => Raised
  }

  function Assigned(current: Frame, inputs: map<Name, Json>): Frame {
    current + map k | k in inputs :: TextOf(inputs[k])
  }

  function Copies(f: Frame, k: int): seq<Frame> {
    seq(if k < 0 then 0 else k, i => f)
  }

  function Emit(st: State, current: Frame, k: int): State {
    State(current, st.frames + Copies(current, k))
  }

  function ExecPulse(m: map<Name, Json>, st: State): Outcome<State> {
    match Get(m, KInput)
    case Str(name) =>
      var high := st.current[name := Digits(1)];
      Done(State(high, st.frames + [st.current[name := Digits(0)], high]))
    case _ => Raised
  }

  function ExecAction(conv: Conversions, a: Json, st: State): Outcome<State>
    decreases a, 2, 0
  {
    if !a.Obj? || KOp !in a.fields then Raised
    else
      var m := a.fields;
      match m[KOp]
      case Str(Set) => if InputsOf(m).Obj? then Done(Emit(st, Assigned(st.current, InputsOf(m).fields), 1)) else Raised
      case Str(Pulse) => ExecPulse(m, st)
      case Str(Hold) =>
        if InputsOf(m).Obj?
        then (match IntOrOne(conv, Get(m, KFrames))
              case Done(k) => Done(Emit(st, Assigned(st.current, InputsOf(m).fields), k))
              case Raised => Raised)
        else Raised
      case Str(Wait) =>
        (match IntOrOne(conv, Get(m, KFrames))
         case Done(k) => Done(Emit(st, st.current, k))
         case Raised => Raised)
      case Str(Repeat) =>
        (match IntOrOne(conv, Get(m, KTimes))
         case Done(k) =>
           if KActions in m && m[KActions].List? then ExecTimes(conv, m[KActions].items, if k < 0 then 0 else k, st) else Raised
         case Raised => Raised)
      case _ => Done(st)
  }

  function ExecTimes(conv: Conversions, xs: seq<Json>, k: nat, st: State): Outcome<State>
    decreases xs, 1, k
  {
    if k == 0 then Done(st)
    else
      match ExecTimes(conv, xs, k - 1, st)
      case Raised => Raised
      case Done(mid) => ExecFirst(conv, xs, |xs|, mid)
  }

  function ExecFirst(conv: Conversions, xs: seq<Json>, n: nat, st: State): Outcome<State>
    requires n <= |xs|
    decreases xs, 0, n
  {
    if n == 0 then Done(st)
    else
      match ExecFirst(conv, xs, n - 1, st)
      case Raised => Raised
      case Done(mid) => ExecAction(conv, xs[n - 1], mid)
  }

  function Default(s: Spec): Text {
    if s.kind == ScalarKind then (if s.name == RealType then Rendered(Real(0.0)) else Digits(0))
    else if s.kind == StringKind then Literal(Other("A"))
    else Literal(Other("0x00"))
  }

  function Defaults(fields: Fields): Frame {
    map k | k in fields :: Default(fields[k])
  }

  function Expansion(env: Env, conv: Conversions, actions: Json, base: Frame, fields: Fields, maxFrames: int): Outcome<seq<Frame>> {
    match NormNested(env, actions, 0)
    case Raised => Raised
    case Done(xs) =>
      match ExecFirst(conv, xs, |xs|, State(Defaults(fields) + base, []))
      case Raised => Raised
      case Done(st) => if |st.frames| > maxFrames then Raised else Done(st.frames)
  }

  // ----- a second normalisation changes nothing

  lemma {:induction false} AssignSettled(env: Env, fields: Fields, m: map<Name, Json>)
    requires m.Keys <= KNOWN_KEYS && KOp in m && !Falsy(m[KOp])
    requires KInputs in m && m[KInputs].Obj? && NormInputs(m[KInputs].fields) == m[KInputs].fields
    requires KFrames in m && !m[KFrames].Null? && !m[KFrames].Obj?
    ensures NormAssign(env, WithOp(m)) == m
  {
    assert WithOp(m) == m;
    assert m - {KField, KValue, KDuration} == m;
  }

  lemma {:induction false} PulseSettled(env: Env, m: map<Name, Json>)
    requires m.Keys <= KNOWN_KEYS && KOp in m && !Falsy(m[KOp]) && KInput in m && KInputs !in m
    ensures NormPulse(env, WithOp(m)) == m
  {
    assert WithOp(m) == m;
    assert m - {KField, KValue, KInputs} == m;
  }

  lemma {:induction false} WaitSettled(m: map<Name, Json>)
    requires m.Keys <= KNOWN_KEYS && KOp in m && !Falsy(m[KOp])
    requires KInputs !in m && KFrames in m && !m[KFrames].Null? && !m[KFrames].Obj?
    ensures NormWait(WithOp(m)) == m
  {
    assert WithOp(m) == m;
    assert m - {KDuration, KInputs} == m;
  }

  lemma {:induction false} TimesSettled(m: map<Name, Json>, xs: seq<Json>)
    requires m.Keys <= KNOWN_KEYS && KOp in m && !Falsy(m[KOp]) && KActions in m && m[KActions] == List(xs)
    ensures NormTimes(WithOp(m))[KActions := List(xs)] == m
  {
    assert WithOp(m) == m;
    assert m - {KCount} == m;
  }

  lemma {:induction false} NormLength(env: Env, xs: seq<Json>, n: nat, depth: nat)
    requires n <= |xs| && NormFirst(env, xs, n, depth).Done?
    ensures |NormFirst(env, xs, n, depth).value| == n
  {
    if n > 0 { NormLength(env, xs, n - 1, depth); }
  }

  lemma {:induction false} FirstIsOk(env: Env, fields: Fields, xs: seq<Json>, n: nat)
    requires 0 < n <= |xs| && FirstOk(env, fields, xs, n)
    ensures ActionOk(env, fields, xs[0])
  {
    if n > 1 { FirstIsOk(env, fields, xs, n - 1); }
  }

  lemma {:induction false} NormKeepsOp(env: Env, a: Json, depth: nat, b: Json)
    requires a.Obj? && NormAction(env, a, depth) == Done(b)
    ensures b.Obj? && KOp in b.fields && b.fields[KOp] == WithOp(a.fields)[KOp]
  {}

  lemma {:induction false} ActionSettles(env: Env, fields: Fields, a: Json, depth: nat, b: Json)
    requires NormAction(env, a, depth) == Done(b) && ActionOk(env, fields, b)
    ensures NormAction(env, b, depth) == Done(b)
    decreases a, 1, 0
  {
    if !a.Obj? { return; }
    NormKeepsOp(env, a, depth, b);
    var m := b.fields;
    assert WithOp(m) == m;
    match m[KOp]
    case Str(Set) => AssignSettled(env, fields, m);
    case Str(Hold) => AssignSettled(env, fields, m);
    case Str(Pulse) => PulseSettled(env, m);
    case Str(Wait) => WaitSettled(m);
    case Str(Repeat) =>
      var xs := m[KActions].items;
      NestedSettles(env, fields, a.fields[KActions], depth + 1, xs);
      TimesSettled(m, xs);
  }

  lemma {:induction false} NestedSettles(env: Env, fields: Fields, j: Json, depth: nat, xs: seq<Json>)
    requires NormNested(env, j, depth) == Done(xs) && xs != [] && FirstOk(env, fields, xs, |xs|)
    ensures NormNested(env, List(xs), depth) == Done(xs)
    decreases j, 2, 0
  {
    FirstIsOk(env, fields, xs, |xs|);
    NormLength(env, j.items, |j.items|, depth);
    assert xs[..|j.items|] == xs;
    FirstSettle(env, fields, j.items, |j.items|, depth, xs);
  }

  lemma {:induction false} FirstSettle(env: Env, fields: Fields, xs: seq<Json>, n: nat, depth: nat, ys: seq<Json>)
    requires n <= |xs| && n <= |ys| && NormFirst(env, xs, n, depth) == Done(ys[..n]) && FirstOk(env, fields, ys, n)
    ensures NormFirst(env, ys, n, depth) == Done(ys[..n])
    decreases xs, 0, n
  {
    if n > 0 {
      NormLength(env, xs, n - 1, depth);
      var zs := NormFirst(env, xs, n - 1, depth).value;
      assert zs == NormFirst(env, xs, n, depth).value[..n - 1] == ys[..n - 1];
      assert ys[..n] == ys[..n - 1] + [ys[n - 1]];
      FirstSettle(env, fields, xs, n - 1, depth, ys);
      ActionSettles(env, fields, xs[n - 1], depth, ys[n - 1]);
    }
  }

  /** Normalising an accepted plan again gives the same plan. */
  lemma {:induction false} NormalisationIdempotent(env: Env, fields: Fields, actions: Json, maxFrames: int, xs: seq<Json>)
    requires NormNested(env, actions, 0) == Done(xs) && Acceptable(env, fields, xs, maxFrames)
    ensures NormNested(env, List(xs), 0) == Done(xs)
  {
    NestedSettles(env, fields, actions, 0, xs);
  }

  // ----- the frames of an accepted plan

  /** The texts of a scalar field. A BOOL may also read "0.0" or "1.0" unless `strict`. */
  predicate InDomain(s: Spec, strict: bool, t: Text) {
    match s.name
    case BoolType => t == Digits(0) || t == Digits(1) || (!strict && (t == Rendered(Real(0.0)) || t == Rendered(Real(1.0))))
    case RealType => t.Digits? || (t.Rendered? && t.value.Real?)
    case _ => t.Digits? && InRange(s, t.number)
  }

  predicate FieldFine(fields: Fields, strict: bool, f: Frame, k: Name) {
    k in fields ==> k in f && (fields[k].kind == ScalarKind ==> InDomain(fields[k], strict, f[k]))
  }

  /** Every field is assigned, and every scalar has a value of its type. */
  predicate Fine(fields: Fields, strict: bool, f: Frame) {
    forall k :: k in fields ==> FieldFine(fields, strict, f, k)
  }

  predicate Extends(fields: Fields, strict: bool, st: State, cost: nat, next: State) {
    && Fine(fields, strict, next.current)
    && |next.frames| == |st.frames| + cost
    && (forall i :: 0 <= i < |st.frames| ==> next.frames[i] == st.frames[i])
    && (forall i :: |st.frames| <= i < |next.frames| ==> Fine(fields, strict, next.frames[i]))
  }

  predicate WholeInputs(fields: Fields, inputs: map<Name, Json>) {
    forall k :: k in inputs && k in fields && fields[k].kind == ScalarKind && fields[k].name == BoolType ==> !inputs[k].Real?
  }

  /** No action of the plan sets a BOOL to a real. */
  predicate WholeAction(fields: Fields, a: Json)
    decreases a, 1, 0
  {
    && (a.Obj? && KOp in a.fields && (a.fields[KOp] == Str(Set) || a.fields[KOp] == Str(Hold)) && InputsOf(a.fields).Obj?
        ==> WholeInputs(fields, InputsOf(a.fields).fields))
    && (a.Obj? && KOp in a.fields && a.fields[KOp] == Str(Repeat) && KActions in a.fields && a.fields[KActions].List?
        ==> WholeFirst(fields, a.fields[KActions].items, |a.fields[KActions].items|))
  }

  predicate WholeFirst(fields: Fields, xs: seq<Json>, n: nat)
    requires n <= |xs|
    decreases xs, 0, n
  {
    n == 0 || (WholeFirst(fields, xs, n - 1) && WholeAction(fields, xs[n - 1]))
  }

  lemma {:induction false} AssignedFine(env: Env, fields: Fields, strict: bool, f: Frame, inputs: map<Name, Json>)
    requires Fine(fields, strict, f) && InputsOk(env, fields, inputs)
    requires strict ==> WholeInputs(fields, inputs)
    ensures Fine(fields, strict, Assigned(f, inputs))
  {
    forall k | k in fields
      ensures FieldFine(fields, strict, Assigned(f, inputs), k)
    {
      assert FieldFine(fields, strict, f, k);
      if k in inputs {
        assert InputOk(env, fields, k, inputs[k]);
      }
    }
  }

  lemma {:induction false} UpdateFine(fields: Fields, strict: bool, f: Frame, k: Name, i: int)
    requires Fine(fields, strict, f) && k in fields && fields[k].name == BoolType && 0 <= i <= 1
    ensures Fine(fields, strict, f[k := Digits(i)])
  {
    forall x | x in fields
      ensures FieldFine(fields, strict, f[k := Digits(i)], x)
    {
      assert FieldFine(fields, strict, f, x);
    }
  }

  lemma {:induction false} EmitExtends(fields: Fields, strict: bool, st: State, f: Frame, k: nat)
    requires Fine(fields, strict, f)
    ensures Extends(fields, strict, st, k, Emit(st, f, k))
  {}

  lemma {:induction false} ExtendsTwice(fields: Fields, strict: bool, a: State, c: nat, b: State, d: nat, e: State)
    requires Extends(fields, strict, a, c, b) && Extends(fields, strict, b, d, e)
    ensures Extends(fields, strict, a, c + d, e)
  {
    forall i | |a.frames| <= i < |e.frames|
      ensures Fine(fields, strict, e.frames[i])
    {
      if i < |b.frames| {
        assert e.frames[i] == b.frames[i];
      }
    }
  }

  lemma {:induction false} ActionRuns(env: Env, fields: Fields, conv: Conversions, strict: bool, a: Json, st: State)
    requires ActionOk(env, fields, a) && Fine(fields, strict, st.current) && (strict ==> WholeAction(fields, a))
    ensures ExecAction(conv, a, st).Done?
    ensures Extends(fields, strict, st, Cost(a), ExecAction(conv, a, st).value)
    decreases a, 2, 0
  {
    var m := a.fields;
    match m[KOp]
    case Str(Set) => SetOrHoldRuns(env, fields, strict, m, st, 1);
    case Str(Hold) => SetOrHoldRuns(env, fields, strict, m, st, CountOf(Get(m, KFrames)));
    case Str(Wait) => EmitExtends(fields, strict, st, st.current, CountOf(Get(m, KFrames)));
    case Str(Pulse) =>
      UpdateFine(fields, strict, st.current, m[KInput].text, 0);
      UpdateFine(fields, strict, st.current, m[KInput].text, 1);
    case Str(Repeat) => TimesRun(env, fields, conv, strict, m[KActions].items, m[KTimes].number, st);
  }

  lemma {:induction false} SetOrHoldRuns(env: Env, fields: Fields, strict: bool, m: map<Name, Json>, st: State, k: nat)
    requires InputsOf(m).Obj? && InputsOk(env, fields, InputsOf(m).fields) && Fine(fields, strict, st.current)
    requires strict ==> WholeInputs(fields, InputsOf(m).fields)
    ensures Extends(fields, strict, st, k, Emit(st, Assigned(st.current, InputsOf(m).fields), k))
  {
    AssignedFine(env, fields, strict, st.current, InputsOf(m).fields);
    EmitExtends(fields, strict, st, Assigned(st.current, InputsOf(m).fields), k);
  }

  lemma {:induction false} TimesRun(env: Env, fields: Fields, conv: Conversions, strict: bool, xs: seq<Json>, k: nat, st: State)
    requires FirstOk(env, fields, xs, |xs|) && Fine(fields, strict, st.current) && (strict ==> WholeFirst(fields, xs, |xs|))
    ensures ExecTimes(conv, xs, k, st).Done?
    ensures Extends(fields, strict, st, Times(k, CostFirst(xs, |xs|)), ExecTimes(conv, xs, k, st).value)
    decreases xs, 1, k
  {
    if k > 0 {
      TimesRun(env, fields, conv, strict, xs, k - 1, st);
      var mid := ExecTimes(conv, xs, k - 1, st).value;
      FirstRun(env, fields, conv, strict, xs, |xs|, mid);
      var cost := CostFirst(xs, |xs|);
      ExtendsTwice(fields, strict, st, Times(k - 1, cost), mid, cost, ExecTimes(conv, xs, k, st).value);
    }
  }

  lemma {:induction false} FirstRun(env: Env, fields: Fields, conv: Conversions, strict: bool, xs: seq<Json>, n: nat, st: State)
    requires n <= |xs| && FirstOk(env, fields, xs, n) && Fine(fields, strict, st.current)
    requires strict ==> WholeFirst(fields, xs, n)
    ensures ExecFirst(conv, xs, n, st).Done?
    ensures Extends(fields, strict, st, CostFirst(xs, n), ExecFirst(conv, xs, n, st).value)
    decreases xs, 0, n
  {
    if n > 0 {
      FirstRun(env, fields, conv, strict, xs, n - 1, st);
      var mid := ExecFirst(conv, xs, n - 1, st).value;
      ActionRuns(env, fields, conv, strict, xs[n - 1], mid);
      ExtendsTwice(fields, strict, st, CostFirst(xs, n - 1), mid, Cost(xs[n - 1]), ExecFirst(conv, xs, n, st).value);
    }
  }

  // ----- a BOOL set to a real

  /** Some frame from index `from` on gives a BOOL a text that is not a digit. */
  ghost predicate Shows(fields: Fields, frames: seq<Frame>, from: nat) {
    exists i :: from <= i < |frames| && !Fine(fields, true, frames[i])
  }

  lemma {:induction false} AssignedNotWhole(env: Env, fields: Fields, f: Frame, inputs: map<Name, Json>)
    requires InputsOk(env, fields, inputs) && !WholeInputs(fields, inputs)
    ensures !Fine(fields, true, Assigned(f, inputs))
  {
    var k :| k in inputs && k in fields && fields[k].kind == ScalarKind && fields[k].name == BoolType && inputs[k].Real?;
    assert Assigned(f, inputs)[k] == Rendered(inputs[k]);
    assert !FieldFine(fields, true, Assigned(f, inputs), k);
  }

  lemma {:induction false} EmitShows(fields: Fields, st: State, f: Frame, k: nat)
    requires k >= 1 && !Fine(fields, true, f)
    ensures Shows(fields, Emit(st, f, k).frames, |st.frames|)
  {
    assert Emit(st, f, k).frames[|st.frames|] == f;
  }

  lemma {:induction false} LaterShows(fields: Fields, st: State, cost: nat, next: State, from: nat)
    requires Extends(fields, false, st, cost, next) && Shows(fields, st.frames, from)
    ensures Shows(fields, next.frames, from)
  {
    var i :| from <= i < |st.frames| && !Fine(fields, true, st.frames[i]);
    assert next.frames[i] == st.frames[i];
  }

  lemma {:induction false} ActionShows(env: Env, fields: Fields, conv: Conversions, a: Json, st: State)
    requires ActionOk(env, fields, a) && Fine(fields, false, st.current) && !WholeAction(fields, a)
    ensures ExecAction(conv, a, st).Done? && Shows(fields, ExecAction(conv, a, st).value.frames, |st.frames|)
    decreases a, 2, 0
  {
    var m := a.fields;
    match m[KOp]
    case Str(Set) =>
      AssignedNotWhole(env, fields, st.current, InputsOf(m).fields);
      EmitShows(fields, st, Assigned(st.current, InputsOf(m).fields), 1);
    case Str(Hold) =>
      AssignedNotWhole(env, fields, st.current, InputsOf(m).fields);
      EmitShows(fields, st, Assigned(st.current, InputsOf(m).fields), m[KFrames].number);
    case Str(Repeat) => TimesShow(env, fields, conv, m[KActions].items, m[KTimes].number, st);
    case _ =>
  }

  lemma {:induction false} TimesShow(env: Env, fields: Fields, conv: Conversions, xs: seq<Json>, k: nat, st: State)
    requires k >= 1 && FirstOk(env, fields, xs, |xs|) && Fine(fields, false, st.current) && !WholeFirst(fields, xs, |xs|)
    ensures ExecTimes(conv, xs, k, st).Done? && Shows(fields, ExecTimes(conv, xs, k, st).value.frames, |st.frames|)
    decreases xs, 1, k
  {
    TimesRun(env, fields, conv, false, xs, k - 1, st);
    var mid := ExecTimes(conv, xs, k - 1, st).value;
    FirstShows(env, fields, conv, xs, |xs|, mid);
  }

  lemma {:induction false} FirstShows(env: Env, fields: Fields, conv: Conversions, xs: seq<Json>, n: nat, st: State)
    requires n <= |xs| && FirstOk(env, fields, xs, n) && Fine(fields, false, st.current) && !WholeFirst(fields, xs, n)
    ensures ExecFirst(conv, xs, n, st).Done? && Shows(fields, ExecFirst(conv, xs, n, st).value.frames, |st.frames|)
    decreases xs, 0, n
  {
    FirstRun(env, fields, conv, false, xs, n - 1, st);
    var mid := ExecFirst(conv, xs, n - 1, st).value;
    if WholeAction(fields, xs[n - 1]) {
      FirstShows(env, fields, conv, xs, n - 1, st);
      ActionRuns(env, fields, conv, false, xs[n - 1], mid);
      LaterShows(fields, mid, Cost(xs[n - 1]), ExecFirst(conv, xs, n, st).value, |st.frames|);
    } else {
      ActionShows(env, fields, conv, xs[n - 1], mid);
    }
  }

  // ----- accepted plans

  /** The base frame gives every scalar that it assigns a value of its type. */
  predicate BaseOk(fields: Fields, strict: bool, base: Frame) {
    forall k :: k in base && k in fields && fields[k].kind == ScalarKind ==> InDomain(fields[k], strict, base[k])
  }

  lemma {:induction false} ZeroInRange(s: Spec)
    ensures InRange(s, 0)
  {
    var bits := 8 * (if s.size == 0 then 1 else s.size);
    PowerPositive(bits);
    PowerPositive(bits - 1);
  }

  lemma {:induction false} PowerPositive(n: nat)
    ensures Power2(n) >= 1
  {
    if n > 0 { PowerPositive(n - 1); }
  }

  lemma {:induction false} StartFine(fields: Fields, strict: bool, base: Frame)
    requires BaseOk(fields, strict, base)
    ensures Fine(fields, strict, Defaults(fields) + base)
  {
    forall k | k in fields
      ensures FieldFine(fields, strict, Defaults(fields) + base, k)
    {
      ZeroInRange(fields[k]);
    }
  }

  /** The plan was accepted by `Validate`, whose result is `xs`. */
  predicate Accepted(env: Env, fields: Fields, actions: Json, maxFrames: int, xs: seq<Json>) {
    NormNested(env, actions, 0) == Done(xs) && Acceptable(env, fields, xs, maxFrames)
  }

  /** Expanding an accepted plan does not raise, and yields exactly the frames the checker summed: each of
      them assigns every field, with a value of its type where the field is a scalar. */
  lemma {:induction false} AcceptedExpands(env: Env, fields: Fields, conv: Conversions, actions: Json, base: Frame, maxFrames: int, xs: seq<Json>)
    requires Accepted(env, fields, actions, maxFrames, xs) && BaseOk(fields, false, base)
    ensures var r := Expansion(env, conv, List(xs), base, fields, maxFrames);
            && r.Done?
            && |r.value| == CostFirst(xs, |xs|) <= maxFrames
            && forall i :: 0 <= i < |r.value| ==> Fine(fields, false, r.value[i])
  {
    NormalisationIdempotent(env, fields, actions, maxFrames, xs);
    StartFine(fields, false, base);
    FirstRun(env, fields, conv, false, xs, |xs|, State(Defaults(fields) + base, []));
  }

  /** Every BOOL of the expansion reads 0 or 1 exactly when no action sets a BOOL to a real. */
  lemma {:induction false} WholeExactly(env: Env, fields: Fields, conv: Conversions, actions: Json, base: Frame, maxFrames: int, xs: seq<Json>)
    requires Accepted(env, fields, actions, maxFrames, xs) && BaseOk(fields, true, base)
    ensures var r := Expansion(env, conv, List(xs), base, fields, maxFrames);
            && r.Done?
            && ((forall i :: 0 <= i < |r.value| ==> Fine(fields, true, r.value[i])) <==> WholeFirst(fields, xs, |xs|))
  {
    NormalisationIdempotent(env, fields, actions, maxFrames, xs);
    StartFine(fields, true, base);
    StartFine(fields, false, base);
    var st := State(Defaults(fields) + base, []);
    FirstRun(env, fields, conv, false, xs, |xs|, st);
    if WholeFirst(fields, xs, |xs|) {
      FirstRun(env, fields, conv, true, xs, |xs|, st);
    } else {
      FirstShows(env, fields, conv, xs, |xs|, st);
    }
  }

  function SetTo(k: Name, v: Json): map<Name, Json> {
    map[KOp := Str(Set), KInputs := Obj(map[k := v]), KFrames := Int(1)]
  }

  /** A plan of one action that sets the BOOL `k` to 1.0 is accepted. */
  lemma {:induction false} RealBoolAccepted(env: Env, fields: Fields, k: Name, maxFrames: int)
    requires maxFrames >= 1 && k in fields && fields[k].kind == ScalarKind && fields[k].name == BoolType
    ensures var xs := [Obj(SetTo(k, Real(1.0)))];
            Accepted(env, fields, List(xs), maxFrames, xs) && !WholeFirst(fields, xs, |xs|)
  {
    var m := SetTo(k, Real(1.0));
    var xs := [Obj(m)];
    var inputs := m[KInputs].fields;
    assert inputs[k].Real? && NormInputs(inputs) == inputs;
    assert InputOk(env, fields, k, inputs[k]);
    AssignSettled(env, fields, m);
    assert NormAction(env, xs[0], 0) == Done(Obj(NormAssign(env, WithOp(m)))) == Done(xs[0]);
    OneAction(env, fields, xs[0]);
  }

  lemma {:induction false} OneAction(env: Env, fields: Fields, a: Json)
    requires NormAction(env, a, 0) == Done(a) && ActionOk(env, fields, a)
    ensures NormNested(env, List([a]), 0) == Done([a]) && FirstOk(env, fields, [a], 1)
    ensures CostFirst([a], 1) == Cost(a) && (WholeFirst(fields, [a], 1) <==> WholeAction(fields, a))
  {
    assert NormFirst(env, [a], 0, 0) == Done([]);
    assert [] + [a] == [a];
  }

  // ----- the closures of `expand_plan` and the variables that they share

  class Expander {
    const conv: Conversions
    var current: Frame
    var frames: seq<Frame>

    constructor (conv: Conversions, start: Frame)
      ensures this.conv == conv && Now() == State(start, [])
    {
      this.conv, current, frames := conv, start, [];
    }

    function Now(): State
      reads this
    {
      State(current, frames)
    }

    method Assign(inputs: map<Name, Json>)
      modifies this`current
      ensures current == Assigned(old(current), inputs)
    {
      var rest := inputs.Keys;
      while rest != {}
        invariant rest <= inputs.Keys
        invariant current == old(current) + map k | k in inputs && k !in rest :: TextOf(inputs[k])
        decreases rest
      {
        var name :| name in rest;
        rest := rest - {name};
        current := current[name := TextOf(inputs[name])];
      }
    }

    method Append(k: int)
      modifies this`frames
      ensures frames == old(frames) + Copies(current, k)
    {
      var i := 0;
      while i < k
        invariant 0 <= i && (i == 0 || i <= k)
        invariant frames == old(frames) + Copies(current, i)
      {
        frames := frames + [current];
        i := i + 1;
      }
      assert Copies(current, i) == Copies(current, k);
    }

    method RunAction(a: Json) returns (ok: bool)
      modifies this
      ensures ok == ExecAction(conv, a, old(Now())).Done?
      ensures ok ==> Now() == ExecAction(conv, a, old(Now())).value
      decreases a, 2, 0
    {
      ok := true;
      if !a.Obj? || KOp !in a.fields {
        return false;
      }
      var m := a.fields;
      match m[KOp]
      case Str(Set) =>
        if !InputsOf(m).Obj? { return false; }
        Assign(InputsOf(m).fields);
        Append(1);
      case Str(Pulse) =>
        ok := RunPulse(Get(m, KInput));
      case Str(Hold) =>
        var k := IntOrOne(conv, Get(m, KFrames));
        if !InputsOf(m).Obj? || k.Raised? { return false; }
        Assign(InputsOf(m).fields);
        Append(k.value);
      case Str(Wait) =>
        var k := IntOrOne(conv, Get(m, KFrames));
        if k.Raised? { return false; }
        Append(k.value);
      case Str(Repeat) =>
        var k := IntOrOne(conv, Get(m, KTimes));
        if k.Raised? || KActions !in m || !m[KActions].List? { return false; }
        ok := RunTimes(m[KActions].items, if k.value < 0 then 0 else k.value);
      case _ =>
    }

    method RunPulse(input: Json) returns (ok: bool)
      modifies this
      ensures ok == input.Str?
      ensures ok ==> && current == old(current)[input.text := Digits(1)]
                     && frames == old(frames) + [old(current)[input.text := Digits(0)], current]
    {
      if !input.Str? { return false; }
      var low := current[input.text := Digits(0)];
      frames := frames + [low];
      var high := current[input.text := Digits(1)];
      frames := frames + [high];
      current := high;
      return true;
    }

    method RunTimes(xs: seq<Json>, k: nat) returns (ok: bool)
      modifies this
      ensures ok == ExecTimes(conv, xs, k, old(Now())).Done?
      ensures ok ==> Now() == ExecTimes(conv, xs, k, old(Now())).value
      decreases xs, 1, 0
    {
      var i := 0;
      while i < k
        invariant i <= k && ExecTimes(conv, xs, i, old(Now())) == Done(Now())
      {
        var done := Run(xs);
        if !done {
          TimesRaise(conv, xs, i + 1, k, old(Now()));
          return false;
        }
        i := i + 1;
      }
      return true;
    }

    method Run(xs: seq<Json>) returns (ok: bool)
      modifies this
      ensures ok == ExecFirst(conv, xs, |xs|, old(Now())).Done?
      ensures ok ==> Now() == ExecFirst(conv, xs, |xs|, old(Now())).value
      decreases xs, 0, 0
    {
      var i := 0;
      while i < |xs|
        invariant i <= |xs| && ExecFirst(conv, xs, i, old(Now())) == Done(Now())
      {
        var done := RunAction(xs[i]);
        if !done {
          FirstRaises(conv, xs, i + 1, |xs|, old(Now()));
          return false;
        }
        i := i + 1;
      }
      return true;
    }
  }

  lemma {:induction false} TimesRaise(conv: Conversions, xs: seq<Json>, i: nat, k: nat, st: State)
    requires i <= k && ExecTimes(conv, xs, i, st).Raised?
    ensures ExecTimes(conv, xs, k, st).Raised?
  {
    if i < k { TimesRaise(conv, xs, i, k - 1, st); }
  }

  lemma {:induction false} FirstRaises(conv: Conversions, xs: seq<Json>, i: nat, n: nat, st: State)
    requires i <= n <= |xs| && ExecFirst(conv, xs, i, st).Raised?
    ensures ExecFirst(conv, xs, n, st).Raised?
  {
    if i < n { FirstRaises(conv, xs, i, n - 1, st); }
  }

  method Expand(env: Env, conv: Conversions, actions: Json, base: Frame, fields: Fields, maxFrames: int)
    returns (r: Outcome<seq<Frame>>)
    ensures r == Expansion(env, conv, actions, base, fields, maxFrames)
  {
    var normal := NormNested(env, actions, 0);
    if normal.Raised? {
      return Raised;
    }
    var expander := new Expander(conv, Defaults(fields) + base);
    var ok := expander.Run(normal.value);
    return if !ok || |expander.frames| > maxFrames then Raised else Done(expander.frames);
  }

  /** Validation followed by expansion, as the plan batches use them. */
  method ValidateThenExpand(env: Env, conv: Conversions, actions: Json, base: Frame, fields: Fields, maxFrames: int)
    returns (plan: Outcome<seq<Json>>, r: Outcome<seq<Frame>>)
    requires BaseOk(fields, false, base)
    ensures plan.Done? == r.Done?
    ensures r.Done? ==> && plan.value != [] && |r.value| == CostFirst(plan.value, |plan.value|) <= maxFrames
                        && forall i :: 0 <= i < |r.value| ==> Fine(fields, false, r.value[i])
  {
    plan := Validate(env, fields, actions, maxFrames);
    if plan.Raised? {
      return plan, Raised;
    }
    AcceptedExpands(env, fields, conv, actions, base, maxFrames, plan.value);
    r := Expand(env, conv, List(plan.value), base, fields, maxFrames);
  }
}
