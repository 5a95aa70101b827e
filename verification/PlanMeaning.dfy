/** What the actions of fuzzer/llm/plan.py mean: the frames that an accepted plan expands to, assignment by
    assignment, and the canonical form of each accepted spelling. */
module PlanMeaning {
  import opened Wrappers
  import opened PlanActions
  import opened PlanCheck
  import opened PlanExpansion

  // ----- what a plan does, event by event

  /** Assignments and frames in the order in which they happen. */
  datatype Trace = Start | Put(before: Trace, inputs: map<Name, Json>) | Show(before: Trace)

  function ShowTimes(tr: Trace, k: nat): Trace {
    if k == 0 then tr else Show(ShowTimes(tr, k - 1))
  }

  /** `set` assigns and shows one frame, `hold` as many as it says; `wait` only shows; `pulse` shows 0 and then 1, which
      stays; `repeat` runs its actions as often as it says. */
  function Traced(conv: Conversions, a: Json, tr: Trace): Trace
    decreases a, 2, 0
  {
    if !a.Obj? then tr
    else
      match Get(a.fields, KOp)
      case Str(Set) => Show(Put(tr, Inputs(a.fields)))
      case Str(Hold) => ShowTimes(Put(tr, Inputs(a.fields)), Number(conv, Get(a.fields, KFrames)))
      case Str(Wait) => ShowTimes(tr, Number(conv, Get(a.fields, KFrames)))
      case Str(Pulse) => Show(Put(Show(Put(tr, Only(Get(a.fields, KInput), 0))), Only(Get(a.fields, KInput), 1)))
      case Str(Repeat) =>
        if KActions in a.fields && a.fields[KActions].List?
        then Repeated(conv, a.fields[KActions].items, Number(conv, Get(a.fields, KTimes)), tr) else tr
      case _ => tr
  }

  function Repeated(conv: Conversions, xs: seq<Json>, k: nat, tr: Trace): Trace
    decreases xs, 1, k
  {
    if k == 0 then tr else AllTraced(conv, xs, |xs|, Repeated(conv, xs, k - 1, tr))
  }

  function AllTraced(conv: Conversions, xs: seq<Json>, n: nat, tr: Trace): Trace
    requires n <= |xs|
    decreases xs, 0, n
  {
    if n == 0 then tr else Traced(conv, xs[n - 1], AllTraced(conv, xs, n - 1, tr))
  }

  function Inputs(m: map<Name, Json>): map<Name, Json> {
    if KInputs in m && m[KInputs].Obj? then m[KInputs].fields else map[]
  }

  function Only(input: Json, i: int): map<Name, Json> {
    if input.Str? then map[input.text := Int(i)] else map[]
  }

  /** A count: 1 when it is missing, zero or empty, its whole part otherwise, and none when that is negative. */
  function Number(conv: Conversions, j: Json): nat {
    match j
    case Null => 1
    case Bool(_) => 1
    case Int(i) => if i == 0 then 1 else if i < 0 then 0 else i
    case Real(x) => if x == 0.0 then 1 else AtLeastNone(Done(conv.truncate(x)))
    case Str(t) => if t == Other("") then 1 else AtLeastNone(conv.parse(t))
    case _ => 1
  }

  function AtLeastNone(i: Outcome<int>): nat {
    if i.Raised? || i.value < 0 then 0 else i.value
  }

  // ----- the frames of a trace

  /** The last value assigned to x. */
  function Latest(tr: Trace, x: Name): Maybe<Json> {
    match tr
    case Start => Absent
    case Put(before, inputs) => if x in inputs then Given(inputs[x]) else Latest(before, x)
    case Show(before) => Latest(before, x)
  }

  /** The text of a value: flags are 0 and 1, whole numbers their digits, strings themselves. */
  predicate IsText(v: Json, t: Text) {
    match v
    case Bool(b) => t == Digits(if b then 1 else 0)
    case Int(i) => t == Digits(i)
    case Str(s) => t == Literal(s)
    case _ => t == Rendered(v)
  }

  /** Every field has the text of the last value assigned to it, or what it started with. */
  ghost predicate Current(start: Frame, tr: Trace, f: Frame) {
    forall x :: match Latest(tr, x)
                case Given(v) => x in f && IsText(v, f[x])
                case Absent => (x in f <==> x in start) && (x in f ==> f[x] == start[x])
  }

  /** Each frame shown has the values that are current where it is shown. */
  ghost predicate Frames(start: Frame, tr: Trace, frames: seq<Frame>) {
    match tr
    case Start => frames == []
    case Put(before, _) => Frames(start, before, frames)
    case Show(before) =>
      frames != [] && Current(start, before, frames[|frames| - 1]) && Frames(start, before, frames[..|frames| - 1])
  }

  /** Base values, and the defaults of the fields without one: 0, 0.0, A or 0x00. */
  ghost predicate Starts(fields: Fields, base: Frame, start: Frame) {
    forall x :: && (x in start <==> x in base || x in fields)
                && (x in base ==> start[x] == base[x])
                && (x in fields && x !in base ==> start[x] == match fields[x].kind
                                                               case ScalarKind => if fields[x].name == RealType then Rendered(Real(0.0)) else Digits(0)
                                                               case StringKind => Literal(Other("A"))
                                                               case _ => Literal(Other("0x00")))
  }

  // ----- running a plan makes these frames

  ghost predicate Stands(start: Frame, tr: Trace, st: State) {
    Current(start, tr, st.current) && Frames(start, tr, st.frames)
  }

  lemma {:induction false} PutStands(start: Frame, tr: Trace, f: Frame, inputs: map<Name, Json>)
    requires Current(start, tr, f)
    ensures Current(start, Put(tr, inputs), Assigned(f, inputs))
  {
  }

  lemma {:induction false} ShowStands(start: Frame, tr: Trace, st: State)
    requires Stands(start, tr, st)
    ensures Stands(start, Show(tr), State(st.current, st.frames + [st.current]))
  {
    var frames := st.frames + [st.current];
    assert frames[..|frames| - 1] == st.frames;
  }

  lemma {:induction false} ShowsStand(start: Frame, tr: Trace, st: State, k: nat)
    requires Stands(start, tr, st)
    ensures Stands(start, ShowTimes(tr, k), Emit(st, st.current, k))
  {
    if k == 0 {
      assert st.frames + Copies(st.current, 0) == st.frames;
    } else {
      ShowsStand(start, tr, st, k - 1);
      ShowStands(start, ShowTimes(tr, k - 1), Emit(st, st.current, k - 1));
      assert Copies(st.current, k) == Copies(st.current, k - 1) + [st.current];
      assert st.frames + Copies(st.current, k - 1) + [st.current] == st.frames + Copies(st.current, k);
    }
  }

  lemma {:induction false} PulseStands(start: Frame, tr: Trace, st: State, name: Name)
    requires Stands(start, tr, st)
    ensures var low, high := st.current[name := Digits(0)], st.current[name := Digits(1)];
            Stands(start, Show(Put(Show(Put(tr, map[name := Int(0)])), map[name := Int(1)])), State(high, st.frames + [low, high]))
  {
    var low, high := Assigned(st.current, map[name := Int(0)]), Assigned(st.current, map[name := Int(1)]);
    assert low == st.current[name := Digits(0)] && high == st.current[name := Digits(1)];
    assert Assigned(low, map[name := Int(1)]) == high;
    var a, b := Put(tr, map[name := Int(0)]), Put(Show(Put(tr, map[name := Int(0)])), map[name := Int(1)]);
    PutStands(start, tr, st.current, map[name := Int(0)]);
    ShowStands(start, a, State(low, st.frames));
    PutStands(start, Show(a), low, map[name := Int(1)]);
    ShowStands(start, b, State(high, st.frames + [low]));
    assert st.frames + [low] + [high] == st.frames + [low, high];
  }

  lemma {:induction false} CountIs(conv: Conversions, j: Json)
    requires IntOrOne(conv, j).Done?
    ensures var k := IntOrOne(conv, j).value; Number(conv, j) == if k < 0 then 0 else k
  {
  }

  lemma {:induction false} EmitNone(st: State, f: Frame, k: int)
    ensures Emit(st, f, k) == Emit(st, f, if k < 0 then 0 else k)
  {
    assert Copies(f, k) == Copies(f, if k < 0 then 0 else k);
  }

  lemma {:induction false} ActionStands(conv: Conversions, a: Json, start: Frame, tr: Trace, st: State)
    requires ExecAction(conv, a, st).Done? && Stands(start, tr, st)
    ensures Stands(start, Traced(conv, a, tr), ExecAction(conv, a, st).value)
    decreases a, 2, 0
  {
    var m := a.fields;
    match m[KOp]
    case Str(Set) => AssignStands(start, tr, st, m, 1);
    case Str(Hold) =>
      CountIs(conv, Get(m, KFrames));
      EmitNone(st, Assigned(st.current, InputsOf(m).fields), IntOrOne(conv, Get(m, KFrames)).value);
      AssignStands(start, tr, st, m, Number(conv, Get(m, KFrames)));
    case Str(Wait) =>
      CountIs(conv, Get(m, KFrames));
      EmitNone(st, st.current, IntOrOne(conv, Get(m, KFrames)).value);
      ShowsStand(start, tr, st, Number(conv, Get(m, KFrames)));
    case Str(Pulse) => PulseStands(start, tr, st, m[KInput].text);
    case Str(Repeat) =>
      CountIs(conv, Get(m, KTimes));
      TimesStand(conv, m[KActions].items, Number(conv, Get(m, KTimes)), start, tr, st);
    case _ =>
  }

  lemma {:induction false} AssignStands(start: Frame, tr: Trace, st: State, m: map<Name, Json>, k: nat)
    requires Stands(start, tr, st) && InputsOf(m).Obj?
    ensures Stands(start, ShowTimes(Put(tr, Inputs(m)), k), Emit(st, Assigned(st.current, InputsOf(m).fields), k))
    ensures ShowTimes(Put(tr, Inputs(m)), 1) == Show(Put(tr, Inputs(m)))
  {
    var f := Assigned(st.current, Inputs(m));
    PutStands(start, tr, st.current, Inputs(m));
    ShowsStand(start, Put(tr, Inputs(m)), State(f, st.frames), k);
    assert ShowTimes(Put(tr, Inputs(m)), 0) == Put(tr, Inputs(m));
  }

  lemma {:induction false} TimesStand(conv: Conversions, xs: seq<Json>, k: nat, start: Frame, tr: Trace, st: State)
    requires ExecTimes(conv, xs, k, st).Done? && Stands(start, tr, st)
    ensures Stands(start, Repeated(conv, xs, k, tr), ExecTimes(conv, xs, k, st).value)
    decreases xs, 1, k
  {
    if k > 0 {
      TimesStand(conv, xs, k - 1, start, tr, st);
      AllStand(conv, xs, |xs|, start, Repeated(conv, xs, k - 1, tr), ExecTimes(conv, xs, k - 1, st).value);
    }
  }

  lemma {:induction false} AllStand(conv: Conversions, xs: seq<Json>, n: nat, start: Frame, tr: Trace, st: State)
    requires n <= |xs| && ExecFirst(conv, xs, n, st).Done? && Stands(start, tr, st)
    ensures Stands(start, AllTraced(conv, xs, n, tr), ExecFirst(conv, xs, n, st).value)
    decreases xs, 0, n
  {
    if n > 0 {
      AllStand(conv, xs, n - 1, start, tr, st);
      ActionStands(conv, xs[n - 1], start, AllTraced(conv, xs, n - 1, tr), ExecFirst(conv, xs, n - 1, st).value);
    }
  }

  /** The frames of a plan that expands, accepted before or not: each field has the text of the last value that the plan
      assigned to it by then, or its base value or default. */
  lemma {:induction false} ExpansionMeans(env: Env, fields: Fields, conv: Conversions, actions: Json, base: Frame, maxFrames: int)
    returns (start: Frame, xs: seq<Json>)
    requires Expansion(env, conv, actions, base, fields, maxFrames).Done?
    ensures NormNested(env, actions, 0) == Done(xs) && Starts(fields, base, start)
    ensures Frames(start, AllTraced(conv, xs, |xs|, Start), Expansion(env, conv, actions, base, fields, maxFrames).value)
    ensures |Expansion(env, conv, actions, base, fields, maxFrames).value| <= maxFrames
  {
    start, xs := Defaults(fields) + base, NormNested(env, actions, 0).value;
    AllStand(conv, xs, |xs|, start, Start, State(start, []));
  }

  // ----- the canonical form

  /** `op`, or `action` where `op` is missing or counts as false. */
  function OpOf(m: map<Name, Json>): Json {
    if KOp in m && !Falsy(m[KOp]) then m[KOp] else Get(m, KAction)
  }

  /** A flag becomes 0 or 1, another value stays. */
  predicate IsValue(v: Json, w: Json) {
    w == match v case Bool(b) => Int(if b then 1 else 0) case _ => v
  }

  /** The dropped keys are gone, the given ones are there, and every other key but the free ones has its value. */
  ghost predicate Rekeyed(m: map<Name, Json>, n: map<Name, Json>, dropped: set<Name>, given: set<Name>, free: set<Name>) {
    forall k :: if k in free then true
                else if k in given then k in n
                else if k in dropped then k !in n
                else (k in n <==> k in m) && (k in m ==> n[k] == m[k])
  }

  /** `frames`, or else `duration`; an object gives its `cycles`, or 1 without any. */
  function FramesStated(m: map<Name, Json>): Json {
    var f := if Get(m, KFrames) != Null then m[KFrames] else Get(m, KDuration);
    match f
    case Obj(c) => if KCycles in c then c[KCycles] else Int(1)
    case _ => f
  }

  /** One frame when none are stated. */
  function OneFrame(j: Json): Json {
    if j == Null then Int(1) else j
  }

  /** The inputs of `inputs`, with `field` and `value` as one more. */
  ghost predicate InputsGiven(env: Env, m: map<Name, Json>, inputs: Json) {
    && inputs.Obj?
    && var spelled := KField in m && KValue in m;
       forall k :: if spelled && k == env.str(m[KField]) then k in inputs.fields && IsValue(m[KValue], inputs.fields[k])
                   else && (k in inputs.fields <==> k in Inputs(m))
                        && (k in Inputs(m) ==> IsValue(Inputs(m)[k], inputs.fields[k]))
  }

  /** The canonical form of an action. */
  ghost predicate Normal(env: Env, m: map<Name, Json>, n: map<Name, Json>, nested: seq<Json>) {
    && Get(n, KOp) == OpOf(m) && KOp in n
    && match OpOf(m)
       case Str(Set) => NormalAssign(env, m, n)
       case Str(Hold) => NormalAssign(env, m, n)
       case Str(Pulse) =>
         && Rekeyed(m, n, {KAction, KField, KValue, KInputs}, {KOp}, {KInput})
         && (KInput in m ==> Get(n, KInput) == m[KInput] && KInput in n)
         && (KInput !in m && KField in m ==> Get(n, KInput) == m[KField] && KInput in n)
         && (KInput !in m && KField !in m && Inputs(m) != map[] ==> Get(n, KInput) == Str(env.first(Inputs(m))) && KInput in n)
         && (KInput !in m && KField !in m && Inputs(m) == map[] ==> KInput !in n)
       case Str(Wait) =>
         && Rekeyed(m, n, {KAction, KDuration, KInputs}, {KOp, KFrames}, {})
         && n[KFrames] == WaitFrames(m)
       case Str(Repeat) =>
         && Rekeyed(m, n, {KAction, KCount}, {KOp, KActions}, {KTimes})
         && (KTimes in m ==> KTimes in n && n[KTimes] == m[KTimes])
         && (KTimes !in m && KCount in m ==> KTimes in n && n[KTimes] == m[KCount])
         && (KTimes !in m && KCount !in m ==> KTimes !in n)
         && n[KActions] == List(nested)
       case _ => Rekeyed(m, n, {KAction}, {KOp}, {})
  }

  ghost predicate NormalAssign(env: Env, m: map<Name, Json>, n: map<Name, Json>) {
    && Rekeyed(m, n, {KAction, KField, KValue, KDuration}, {KOp, KInputs, KFrames}, {})
    && InputsGiven(env, m, n[KInputs]) && n[KFrames] == OneFrame(FramesStated(m))
  }

  /** A wait may also state its `cycles` among the inputs. */
  function WaitFrames(m: map<Name, Json>): Json {
    OneFrame(if FramesStated(m) == Null then Get(Inputs(m), KCycles) else FramesStated(m))
  }

  lemma {:induction false} AssignKeys(env: Env, m: map<Name, Json>)
    ensures Rekeyed(m, NormAssign(env, WithOp(m)), {KAction, KField, KValue, KDuration}, {KOp, KInputs, KFrames}, {})
  {
  }

  lemma {:induction false} WithOpKeeps(m: map<Name, Json>, k: Name)
    requires k != KOp && k != KAction
    ensures (k in WithOp(m) <==> k in m) && (k in m ==> WithOp(m)[k] == m[k])
  {
  }

  lemma {:induction false} AssignNormal(env: Env, m: map<Name, Json>)
    requires OpOf(m) == Str(Set) || OpOf(m) == Str(Hold)
    ensures NormalAssign(env, m, NormAssign(env, WithOp(m)))
  {
    var w := WithOp(m);
    AssignKeys(env, m);
    WithOpKeeps(m, KInputs);
    WithOpKeeps(m, KField);
    WithOpKeeps(m, KValue);
    assert FramesOf(w) == FramesOf(m) == FramesStated(m);
    InputsNormal(env, w);
    assert Inputs(w) == Inputs(m);
  }

  lemma {:induction false} InputsNormal(env: Env, m: map<Name, Json>)
    ensures InputsGiven(env, m, NormAssign(env, m)[KInputs])
  {
  }

  lemma {:induction false} PulseNormal(env: Env, m: map<Name, Json>)
    requires OpOf(m) == Str(Pulse)
    ensures Normal(env, m, NormPulse(env, WithOp(m)), [])
  {
  }

  lemma {:induction false} WaitNormal(env: Env, m: map<Name, Json>)
    requires OpOf(m) == Str(Wait)
    ensures Normal(env, m, NormWait(WithOp(m)), [])
  {
    var w := WithOp(m);
    assert FramesOf(w) == FramesOf(m) == FramesStated(m) && Get(w, KInputs) == Get(m, KInputs);
  }

  lemma {:induction false} RepeatNormal(env: Env, m: map<Name, Json>, nested: seq<Json>)
    requires OpOf(m) == Str(Repeat)
    ensures Normal(env, m, NormTimes(WithOp(m))[KActions := List(nested)], nested)
  {
  }

  /** Normalising an action that is an object gives its canonical form, or raises in the actions of a repeat. */
  lemma {:induction false} ActionNormal(env: Env, a: Json, depth: nat) returns (nested: seq<Json>)
    requires a.Obj? && NormAction(env, a, depth).Done?
    ensures var b := NormAction(env, a, depth).value; b.Obj? && Normal(env, a.fields, b.fields, nested)
    ensures OpOf(a.fields) == Str(Repeat)
            ==> (if KActions in a.fields then NormNested(env, a.fields[KActions], depth + 1) else NoActions(depth + 1)) == Done(nested)
  {
    var m := a.fields;
    nested := [];
    match OpOf(m)
    case Str(Set) => AssignNormal(env, m);
    case Str(Hold) => AssignNormal(env, m);
    case Str(Pulse) => PulseNormal(env, m);
    case Str(Wait) => WaitNormal(env, m);
    case Str(Repeat) =>
      nested := NormAction(env, a, depth).value.fields[KActions].items;
      RepeatNormal(env, m, nested);
    case _ =>
  }

  /** A list is normalised action by action. */
  lemma {:induction false} EachNormal(env: Env, xs: seq<Json>, n: nat, depth: nat)
    requires n <= |xs| && NormFirst(env, xs, n, depth).Done?
    ensures var ys := NormFirst(env, xs, n, depth).value;
            |ys| == n && forall i :: 0 <= i < n ==> NormAction(env, xs[i], depth) == Done(ys[i])
  {
    if n > 0 { EachNormal(env, xs, n - 1, depth); }
  }

  // ----- nesting and ranges

  /** How deep repeats nest. */
  function Nesting(a: Json): nat
    decreases a, 1, 0
  {
    if !a.Obj? || OpOf(a.fields) != Str(Repeat) then 0
    else if KActions in a.fields && a.fields[KActions].List? then 1 + NestingOf(a.fields[KActions].items, |a.fields[KActions].items|)
    else 1
  }

  function NestingOf(xs: seq<Json>, n: nat): nat
    requires n <= |xs|
    decreases xs, 0, n
  {
    if n == 0 then 0
    else
      var front, last := NestingOf(xs, n - 1), Nesting(xs[n - 1]);
      if front < last then last else front
  }

  /** A plan that normalises nests no more than eight repeats. */
  lemma {:induction false} NestsEight(env: Env, xs: seq<Json>, n: nat, depth: nat)
    requires n <= |xs| && depth <= 8 && NormFirst(env, xs, n, depth).Done?
    ensures depth + NestingOf(xs, n) <= 8
    decreases xs, 0, n
  {
    if n > 0 {
      NestsEight(env, xs, n - 1, depth);
      ActionNests(env, xs[n - 1], depth);
    }
  }

  lemma {:induction false} ActionNests(env: Env, a: Json, depth: nat)
    requires depth <= 8 && NormAction(env, a, depth).Done?
    ensures depth + Nesting(a) <= 8
    decreases a, 1, 0
  {
    if Nesting(a) > 0 && KActions in a.fields && a.fields[KActions].List? {
      var j := a.fields[KActions];
      assert NormNested(env, j, depth + 1).Done?;
      if !Falsy(j) { NestsEight(env, j.items, |j.items|, depth + 1); }
    }
  }

  /** The ranges of the integer types of one, two, four and eight bytes. */
  lemma {:induction false} IntegerRanges(s: Spec, i: int)
    requires s.size in {0, 1, 2, 4, 8}
    ensures (s.unsignedC || s.name == UnsignedType)
            ==> (InRange(s, i) <==> 0 <= i <= if s.size <= 1 then 255 else if s.size == 2 then 65535 else if s.size == 4 then 4294967295
                                              else 18446744073709551615)
    ensures !(s.unsignedC || s.name == UnsignedType)
            ==> (InRange(s, i) <==> if s.size <= 1 then -128 <= i <= 127 else if s.size == 2 then -32768 <= i <= 32767
                                    else if s.size == 4 then -2147483648 <= i <= 2147483647
                                    else -9223372036854775808 <= i <= 9223372036854775807)
  {
    PowersOfBytes();
  }

  lemma {:induction false} PowersOfBytes()
    ensures Power2(8) == 256 && Power2(7) == 128 && Power2(16) == 65536 && Power2(15) == 32768
    ensures Power2(32) == 4294967296 && Power2(31) == 2147483648
    ensures Power2(64) == 18446744073709551616 && Power2(63) == 9223372036854775808
  {
    PowerAdds(8, 8);
    PowerAdds(16, 16);
    PowerAdds(32, 32);
  }

  lemma {:induction false} PowerAdds(a: nat, b: nat)
    ensures Power2(a + b) == Power2(a) * Power2(b)
  {
    if b > 0 { PowerAdds(a, b - 1); }
  }
}
