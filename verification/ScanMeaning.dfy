/** What the scan loop of `semantist_v3_execute` (compiler/harness/v3gen.py) makes of a list of frame records, by
    their positions: where its steps are taken, and with which values and delta_t. */
module ScanMeaning {
  import opened Wrappers
  import opened FrameCases
  import opened ScanRun

  /** A record of the frame buffer, with the frame number that it was read with. */
  datatype Entry<N, V> = FieldEntry(cycle: int, name: N, value: V) | DtEntry(cycle: int, dt: int)

  function OnEntry<N(==), V>(t: Target<N, V>, run: Run<N, V>, e: Entry<N, V>): Progress<N, V> {
    match e
    case FieldEntry(k, n, v) => OnField(t, run, k, n, v)
    case DtEntry(k, dt) => OnDt(t, run, k, dt)
  }

  function RunEntries<N(==), V>(t: Target<N, V>, es: seq<Entry<N, V>>, n: nat): Progress<N, V>
    requires n <= |es|
  {
    if n == 0 then Going(Start(t))
    else
      match RunEntries(t, es, n - 1)
      case Refused(run) => Refused(run)
      case Going(run) => OnEntry(t, run, es[n - 1])
  }

  // ----- positions

  /** A frame with a number ends where a record of another number follows. */
  predicate EndsAt<N, V>(es: seq<Entry<N, V>>, e: nat)
    requires e < |es|
  {
    e > 0 && es[e].cycle != es[e - 1].cycle && es[e - 1].cycle >= 0
  }

  /** The ends among the first n positions, in order. */
  function Ends<N, V>(es: seq<Entry<N, V>>, n: nat): (r: seq<nat>)
    requires n <= |es|
    ensures forall j :: 0 <= j < |r| ==> r[j] < n && EndsAt(es, r[j])
    ensures forall i, j :: 0 <= i < j < |r| ==> r[i] < r[j]
    ensures forall e: nat :: e < n && EndsAt(es, e) ==> e in r
  {
    if n == 0 then [] else Ends(es, n - 1) + if EndsAt(es, n - 1) then [n - 1] else []
  }

  predicate Assigning<N(==), V>(e: Entry<N, V>, x: N) {
    e.FieldEntry? && e.name == x
  }

  /** The last of the first n records that assigns x, or -1. */
  function LastField<N(==), V>(es: seq<Entry<N, V>>, n: nat, x: N): (i: int)
    requires n <= |es|
    ensures -1 <= i < n && (i >= 0 ==> Assigning(es[i], x))
    ensures forall j: nat :: i < j < n ==> !Assigning(es[j], x)
  {
    if n == 0 then -1 else if Assigning(es[n - 1], x) then n - 1 else LastField(es, n - 1, x)
  }

  /** The last of the first n records that gives a delta_t, or -1. */
  function LastDt<N, V>(es: seq<Entry<N, V>>, n: nat): (i: int)
    requires n <= |es|
    ensures -1 <= i < n && (i >= 0 ==> es[i].DtEntry?)
    ensures forall j: nat :: i < j < n ==> !es[j].DtEntry?
  {
    if n == 0 then -1 else if es[n - 1].DtEntry? then n - 1 else LastDt(es, n - 1)
  }

  /** Where the frame starts that is open behind the first n records. */
  function FrameStart<N, V>(es: seq<Entry<N, V>>, n: nat): (s: nat)
    requires n <= |es|
    ensures s <= n && (n > 0 ==> s < n)
    ensures forall j :: s <= j < n ==> es[j].cycle == es[n - 1].cycle
    ensures 0 < s < n ==> es[s - 1].cycle != es[n - 1].cycle
  {
    if n <= 1 then 0 else if es[n - 2].cycle == es[n - 1].cycle then FrameStart(es, n - 1) else n - 1
  }

  // ----- what a step is taken with

  /** A declared field has the value of its last record so far, in whatever frame that was; the others have none. */
  ghost predicate ValuesMean<N(!new), V>(t: Target<N, V>, es: seq<Entry<N, V>>, n: nat, values: map<N, V>)
    requires n <= |es|
  {
    forall x :: (x in values <==> x in t.fields && LastField(es, n, x) >= 0)
             && (x in values ==> values[x] == es[LastField(es, n, x)].value)
  }

  /** delta_t is the last one of the open frame, or the scan period. */
  predicate DtMeans<N, V>(t: Target<N, V>, es: seq<Entry<N, V>>, n: nat, dt: int)
    requires n <= |es|
  {
    var i := LastDt(es, n);
    dt == if i >= FrameStart(es, n) then es[i].dt else t.period
  }

  ghost predicate StepMeans<N(!new), V>(t: Target<N, V>, es: seq<Entry<N, V>>, n: nat, step: Step<N, V>)
    requires n <= |es|
  {
    ValuesMean(t, es, n, step.values) && DtMeans(t, es, n, step.dt)
  }

  /** One step for each of the ends, in order. */
  ghost predicate StepsMean<N(!new), V>(t: Target<N, V>, es: seq<Entry<N, V>>, ends: seq<nat>, steps: seq<Step<N, V>>) {
    && |steps| == |ends|
    && forall j :: 0 <= j < |ends| ==> ends[j] <= |es| && StepMeans(t, es, ends[j], steps[j])
  }

  predicate Fine<N(==), V>(t: Target<N, V>, e: Entry<N, V>) {
    e.FieldEntry? && e.name in t.fields ==> t.accepts(e.name, e.value)
  }

  predicate AllFine<N(==), V>(t: Target<N, V>, es: seq<Entry<N, V>>, n: nat)
    requires n <= |es|
  {
    n == 0 || (AllFine(t, es, n - 1) && Fine(t, es[n - 1]))
  }

  ghost predicate Gathers<N(!new), V>(t: Target<N, V>, es: seq<Entry<N, V>>, n: nat, run: Run<N, V>)
    requires n <= |es|
  {
    && run.current == (if n == 0 then -1 else es[n - 1].cycle)
    && ValuesMean(t, es, n, run.values) && DtMeans(t, es, n, run.dt)
    && StepsMean(t, es, Ends(es, n), run.steps)
  }

  // ----- the loop takes these steps

  lemma {:induction false} StepsAdded<N(!new), V>(t: Target<N, V>, es: seq<Entry<N, V>>, ends: seq<nat>, steps: seq<Step<N, V>>,
                                                  e: nat, step: Step<N, V>)
    requires StepsMean(t, es, ends, steps) && e <= |es| && StepMeans(t, es, e, step)
    ensures StepsMean(t, es, ends + [e], steps + [step])
  {
  }

  /** Turning to the next record takes the step of the frame that ends there, if one does. */
  lemma {:induction false} TurnMeans<N(!new), V>(t: Target<N, V>, es: seq<Entry<N, V>>, n: nat, run: Run<N, V>)
    requires n < |es| && Gathers(t, es, n, run)
    ensures var turned := Turn(t, run, es[n].cycle);
            && StepsMean(t, es, Ends(es, n + 1), turned.steps)
            && turned.current == es[n].cycle && turned.values == run.values
            && turned.dt == if FrameStart(es, n + 1) == n then t.period else run.dt
  {
    if EndsAt(es, n) {
      StepsAdded(t, es, Ends(es, n), run.steps, n, Step(run.values, run.dt));
    } else {
      assert Ends(es, n + 1) == Ends(es, n) + [] == Ends(es, n);
    }
  }

  lemma {:induction false} ValuesNext<N(!new), V>(t: Target<N, V>, es: seq<Entry<N, V>>, n: nat, values: map<N, V>)
    requires n < |es| && ValuesMean(t, es, n, values)
    ensures var e := es[n];
            ValuesMean(t, es, n + 1, if e.FieldEntry? && e.name in t.fields then values[e.name := e.value] else values)
  {
  }

  lemma {:induction false} EntryMeans<N(!new), V>(t: Target<N, V>, es: seq<Entry<N, V>>, n: nat, run: Run<N, V>)
    requires n < |es| && Gathers(t, es, n, run)
    ensures match OnEntry(t, run, es[n])
            case Going(next) => Fine(t, es[n]) && Gathers(t, es, n + 1, next)
            case Refused(next) => !Fine(t, es[n]) && StepsMean(t, es, Ends(es, n + 1), next.steps)
  {
    TurnMeans(t, es, n, run);
    ValuesNext(t, es, n, run.values);
  }

  /** The i-th value is the first that is refused; the steps are those of the frames that have ended by then. */
  ghost predicate RefusedAt<N(!new), V>(t: Target<N, V>, es: seq<Entry<N, V>>, i: nat, steps: seq<Step<N, V>>)
    requires i < |es|
  {
    && !Fine(t, es[i]) && AllFine(t, es, i)
    && StepsMean(t, es, Ends(es, i + 1), steps)
  }

  /** The loop has gone on as long as the values are fine, and its state is as the positions say. */
  ghost predicate Meant<N(!new), V>(t: Target<N, V>, es: seq<Entry<N, V>>, n: nat, p: Progress<N, V>, i: nat)
    requires n <= |es|
  {
    if p.Going? then Gathers(t, es, n, p.run) && AllFine(t, es, n) else i < n && RefusedAt(t, es, i, p.run.steps)
  }

  lemma {:induction false} EntryMeant<N(!new), V>(t: Target<N, V>, es: seq<Entry<N, V>>, n: nat, run: Run<N, V>)
    requires n < |es| && Gathers(t, es, n, run) && AllFine(t, es, n)
    ensures Meant(t, es, n + 1, OnEntry(t, run, es[n]), n)
  {
    EntryMeans(t, es, n, run);
  }

  lemma {:induction false} EntriesMean<N(!new), V>(t: Target<N, V>, es: seq<Entry<N, V>>, n: nat) returns (i: nat)
    requires n <= |es|
    ensures Meant(t, es, n, RunEntries(t, es, n), i)
  {
    i := 0;
    if n == 0 {
      NothingMeans(t, es);
    } else {
      i := EntriesMean(t, es, n - 1);
      var before := RunEntries(t, es, n - 1);
      if before.Going? {
        i := n - 1;
        EntryMeant(t, es, i, before.run);
      }
    }
  }

  lemma {:induction false} NothingMeans<N(!new), V>(t: Target<N, V>, es: seq<Entry<N, V>>)
    ensures Gathers(t, es, 0, Start(t))
  {
  }
}
