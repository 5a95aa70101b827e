/** The scan loop of `semantist_v3_execute` (compiler/harness/v3gen.py) on frame records: records of one
    frame number are gathered and run as one step. */
module ScanRun {
  import opened Wrappers
  import opened Arithmetic
  import opened FrameCases

  datatype Step<N, V> = Step(values: map<N, V>, dt: int)

  /** The frame being gathered (-1 before the first), its values and delta_t, and the steps taken. */
  datatype Run<N, V> = Run(current: int, values: map<N, V>, dt: int, steps: seq<Step<N, V>>)

  /** The rejected run is left as it was when a value was refused. */
  datatype Progress<N, V> = Going(run: Run<N, V>) | Refused(run: Run<N, V>)

  /** The scan period, the declared fields, and the values that the field parsers accept. */
  datatype Target<!N, !V> = Target(period: int, fields: seq<N>, accepts: (N, V) -> bool)

  function Start<N, V>(t: Target<N, V>): Run<N, V> {
    Run(-1, map[], t.period, [])
  }

  /** A record of another frame ends the current one. */
  function Turn<N, V>(t: Target<N, V>, run: Run<N, V>, cycle: int): Run<N, V> {
    if cycle == run.current then run
    else Run(cycle, run.values, t.period, if run.current >= 0 then run.steps + [Step(run.values, run.dt)] else run.steps)
  }

  function OnField<N(==), V>(t: Target<N, V>, run: Run<N, V>, cycle: int, n: N, v: V): Progress<N, V> {
    var r := Turn(t, run, cycle);
    if n !in t.fields then Going(r)
    else if t.accepts(n, v) then Going(r.(values := r.values[n := v]))
    else Refused(r)
  }

  function OnDt<N, V>(t: Target<N, V>, run: Run<N, V>, cycle: int, dt: int): Progress<N, V> {
    Going(Turn(t, run, cycle).(dt := dt))
  }

  function OnRec<N(==), V>(t: Target<N, V>, run: Run<N, V>, r: Rec<N, V>): Progress<N, V> {
    match r
    case SharedRec(_, _) => Going(run)
    case FieldRec(k, n, v) => OnField(t, run, k, n, v)
    case DtRec(k, dt) => OnDt(t, run, k, dt)
  }

  function RunRecs<N(==), V>(t: Target<N, V>, from: Run<N, V>, rs: seq<Rec<N, V>>, n: nat): Progress<N, V>
    requires n <= |rs|
  {
    if n == 0 then Going(from)
    else
      match RunRecs(t, from, rs, n - 1)
      case Refused(run) => Refused(run)
      case Going(run) => OnRec(t, run, rs[n - 1])
  }

  // ----- canonical records

  lemma {:induction false} RunAppend<N, V>(t: Target<N, V>, from: Run<N, V>, a: seq<Rec<N, V>>, mid: Run<N, V>, b: seq<Rec<N, V>>, n: nat)
    requires n <= |b| && RunRecs(t, from, a, |a|) == Going(mid)
    ensures RunRecs(t, from, a + b, |a| + n) == RunRecs(t, mid, b, n)
  {
    if n == 0 {
      RunPrefix(t, from, a, b, |a|);
    } else {
      RunAppend(t, from, a, mid, b, n - 1);
    }
  }

  lemma {:induction false} RunPrefix<N, V>(t: Target<N, V>, from: Run<N, V>, a: seq<Rec<N, V>>, b: seq<Rec<N, V>>, n: nat)
    requires n <= |a|
    ensures RunRecs(t, from, a + b, n) == RunRecs(t, from, a, n)
  {
    if n > 0 { RunPrefix(t, from, a, b, n - 1); }
  }

  lemma {:induction false} RunInTurn<N, V>(t: Target<N, V>, from: Run<N, V>, a: seq<Rec<N, V>>, mid: Run<N, V>, b: seq<Rec<N, V>>, out: Run<N, V>)
    requires RunRecs(t, from, a, |a|) == Going(mid) && RunRecs(t, mid, b, |b|) == Going(out)
    ensures RunRecs(t, from, a + b, |a + b|) == Going(out)
  {
    RunAppend(t, from, a, mid, b, |b|);
  }

  /** Every value of the frame is accepted. */
  predicate Accepted<N(==), V>(t: Target<N, V>, f: Frame<N, V>) {
    Assigns(f, t.fields) && forall i :: 0 <= i < |t.fields| ==> t.fields[i] in f.values && t.accepts(t.fields[i], f.values[t.fields[i]])
  }

  /** The run that has turned to frame k and assigned some of its values. */
  function Opened<N, V>(t: Target<N, V>, from: Run<N, V>, k: nat, added: map<N, V>): Run<N, V> {
    var turned := Turn(t, from, k);
    turned.(values := turned.values + added)
  }

  /** One more field, `added` being those before it: none before the first. */
  lemma {:induction false} RunField<N, V>(t: Target<N, V>, from: Run<N, V>, k: nat, added: map<N, V>, some: bool, n: N, v: V)
    requires from.current != k && n in t.fields && t.accepts(n, v) && (!some ==> added == map[])
    ensures OnRec(t, if some then Opened(t, from, k, added) else from, FieldRec(k, n, v)) == Going(Opened(t, from, k, added[n := v]))
  {
    var turned := Turn(t, from, k);
    assert (turned.values + added)[n := v] == turned.values + added[n := v];
  }

  lemma {:induction false} RunOne<N, V>(t: Target<N, V>, from: Run<N, V>, r: Rec<N, V>)
    ensures RunRecs(t, from, [r], 1) == OnRec(t, from, r)
  {
    assert RunRecs(t, from, [r], 0) == Going(from);
  }

  lemma {:induction false} RunFields<N, V>(t: Target<N, V>, from: Run<N, V>, k: nat, f: Frame<N, V>, n: nat)
    requires n <= |t.fields| && Accepted(t, f) && from.current != k
    ensures var rs := FieldRecs(t.fields, k, f.values, n);
            RunRecs(t, from, rs, |rs|) == Going(if n == 0 then from else Opened(t, from, k, Within(f.values, t.fields, n)))
  {
    if n > 0 {
      RunFields(t, from, k, f, n - 1);
      WithinStep(f.values, t.fields, n);
      var name := t.fields[n - 1];
      var before := Within(f.values, t.fields, n - 1);
      var r := FieldRec(k, name, f.values[name]);
      RunField(t, from, k, before, n > 1, name, f.values[name]);
      var mid := if n > 1 then Opened(t, from, k, before) else from;
      RunOne(t, mid, r);
      RunInTurn(t, from, FieldRecs(t.fields, k, f.values, n - 1), mid, [r], Opened(t, from, k, Within(f.values, t.fields, n)));
    }
  }

  function DtOr<N, V>(t: Target<N, V>, f: Frame<N, V>): int {
    if f.dt.Given? then f.dt.value else t.period
  }

  function StepOf<N, V>(t: Target<N, V>, f: Frame<N, V>): Step<N, V> {
    Step(f.values, DtOr(t, f))
  }

  function StepsOf<N, V>(t: Target<N, V>, frames: seq<Frame<N, V>>, n: nat): (r: seq<Step<N, V>>)
    requires n <= |frames|
    ensures |r| == n && forall i :: 0 <= i < n ==> r[i] == StepOf(t, frames[i])
  {
    if n == 0 then [] else StepsOf(t, frames, n - 1) + [StepOf(t, frames[n - 1])]
  }

  /** The run once the records of the first n frames have been read: the last of them is still open. */
  function Gathered<N, V>(t: Target<N, V>, frames: seq<Frame<N, V>>, n: nat): Run<N, V>
    requires n <= |frames|
  {
    if n == 0 then Start(t) else Run(n - 1, frames[n - 1].values, DtOr(t, frames[n - 1]), StepsOf(t, frames, n - 1))
  }

  lemma {:induction false} RunFrame<N, V>(t: Target<N, V>, from: Run<N, V>, k: nat, f: Frame<N, V>)
    requires |t.fields| > 0 && Accepted(t, f) && from.current != k && forall x :: x in from.values ==> x in t.fields
    ensures var rs := FrameRecs(t.fields, k, f, true);
            RunRecs(t, from, rs, |rs|) == Going(Run(k, f.values, DtOr(t, f), Turn(t, from, k).steps))
  {
    var turned := Turn(t, from, k);
    var rs := FieldRecs(t.fields, k, f.values, |t.fields|);
    RunFields(t, from, k, f, |t.fields|);
    WithinAll(f.values, t.fields);
    assert turned.values + f.values == f.values;
    var mid := turned.(values := f.values);
    if f.dt.Given? {
      RunOne(t, mid, DtRec(k, f.dt.value));
      RunInTurn(t, from, rs, mid, [DtRec(k, f.dt.value)], mid.(dt := f.dt.value));
    } else {
      assert rs + [] == rs;
    }
  }

  predicate AllAccepted<N(==), V>(t: Target<N, V>, frames: seq<Frame<N, V>>) {
    forall i :: 0 <= i < |frames| ==> Accepted(t, frames[i])
  }

  lemma {:induction false} RunNext<N, V>(t: Target<N, V>, frames: seq<Frame<N, V>>, n: nat)
    requires 0 < n <= |frames| && |t.fields| > 0 && AllAccepted(t, frames)
    ensures var rs := FrameRecs(t.fields, n - 1, frames[n - 1], true);
            RunRecs(t, Gathered(t, frames, n - 1), rs, |rs|) == Going(Gathered(t, frames, n))
  {
    assert n > 1 ==> Accepted(t, frames[n - 2]);
    assert n > 1 ==> StepsOf(t, frames, n - 1) == StepsOf(t, frames, n - 2) + [StepOf(t, frames[n - 2])];
    RunFrame(t, Gathered(t, frames, n - 1), n - 1, frames[n - 1]);
  }

  /** Reading the records of the frames takes a step for every frame but the last, which is left open. */
  lemma {:induction false} RunFrames<N, V>(t: Target<N, V>, frames: seq<Frame<N, V>>, n: nat)
    requires n <= |frames| && |t.fields| > 0 && AllAccepted(t, frames)
    ensures var rs := FramesRecs(t.fields, frames, true, n);
            RunRecs(t, Start(t), rs, |rs|) == Going(Gathered(t, frames, n))
  {
    if n > 0 {
      RunFrames(t, frames, n - 1);
      RunNext(t, frames, n);
      RunInTurn(t, Start(t), FramesRecs(t.fields, frames, true, n - 1), Gathered(t, frames, n - 1),
                FrameRecs(t.fields, n - 1, frames[n - 1], true), Gathered(t, frames, n));
    }
  }

  // ----- the clock

  /** `vclock_ns` after the first n steps: 64-bit addition wraps around. */
  function Clock<N, V>(steps: seq<Step<N, V>>, n: nat): int
    requires n <= |steps|
  {
    if n == 0 then 0 else (Clock(steps, n - 1) + steps[n - 1].dt) % WORD
  }

  function Elapsed<N, V>(steps: seq<Step<N, V>>, n: nat): int
    requires n <= |steps|
  {
    if n == 0 then 0 else Elapsed(steps, n - 1) + steps[n - 1].dt
  }

  lemma {:induction false} ClockIsElapsed<N, V>(steps: seq<Step<N, V>>, n: nat)
    requires n <= |steps|
    ensures Clock(steps, n) == Elapsed(steps, n) % WORD
  {
    if n > 0 {
      ClockIsElapsed(steps, n - 1);
      WrapTwice(Elapsed(steps, n - 1), steps[n - 1].dt);
    }
  }

  lemma {:induction false} WrapTwice(a: int, b: int)
    ensures (a % WORD + b) % WORD == (a + b) % WORD
  {}
}
