/** `minimize` of fuzzer/pipeline/minimize.py over an abstract trigger oracle: `probe(k, frames)` is
    the answer of the k-th probe (false also when the candidate does not encode). */
module Minimizer {

  type Values = map<string, string>

  /** One frame; the time step, if any, rides along. */
  datatype Frame = Frame(values: Values, dt: Step)
  datatype Step = NoStep | Step(ns: nat)

  type Oracle = (nat, seq<Frame>) -> bool

  ghost predicate Deterministic(probe: Oracle) {
    forall j: nat, k: nat, frames :: probe(j, frames) == probe(k, frames)
  }

  // ----- deleting blocks of frames

  const BLOCKS: seq<nat> := [32, 16, 8, 4, 2, 1]

  function Dropped<T>(s: seq<T>, index: nat, block: nat): seq<T>
    requires index + block <= |s|
  {
    s[..index] + s[index + block..]
  }

  /** `kept` names the positions of `original` that `frames` keeps, in order. */
  ghost predicate Keeps<T>(original: seq<T>, frames: seq<T>, kept: seq<nat>) {
    && |kept| == |frames|
    && (forall i :: 0 <= i < |kept| ==> kept[i] < |original| && frames[i] == original[kept[i]])
    && forall i, j :: 0 <= i < j < |kept| ==> kept[i] < kept[j]
  }

  lemma {:induction false} DropKeeps<T>(original: seq<T>, frames: seq<T>, kept: seq<nat>, index: nat, block: nat)
    requires Keeps(original, frames, kept) && index + block <= |frames|
    ensures Keeps(original, Dropped(frames, index, block), Dropped(kept, index, block))
  {
  }

  /** A candidate removal: within the frames, and not of all of them. */
  predicate Candidate(frames: seq<Frame>, index: nat, block: nat) {
    block in {1, 2, 4, 8, 16, 32} && index + block <= |frames| && block < |frames|
  }

  ghost predicate Rejected(probe: Oracle, frames: seq<Frame>, index: nat, block: nat, from: nat, to: nat)
    requires index + block <= |frames|
  {
    exists k :: from <= k < to && !probe(k, Dropped(frames, index, block))
  }

  lemma {:induction false} BlocksFall(block: nat, i: nat) returns (j: nat)
    requires block in {1, 2, 4, 8, 16, 32} && i <= |BLOCKS| && (i < |BLOCKS| ==> block > BLOCKS[i])
    ensures j < i && BLOCKS[j] == block
  {
    j := if block == 32 then 0 else if block == 16 then 1 else if block == 8 then 2 else if block == 4 then 3
         else if block == 2 then 4 else 5;
  }

  /** The inner loop over block sizes at one index: the largest block that can be dropped is. */
  method TryBlocks(frames: seq<Frame>, index: nat, probe: Oracle, probes: nat)
    returns (removed: nat, probes': nat)
    requires index < |frames|
    ensures probes <= probes'
    ensures removed > 0 ==> Candidate(frames, index, removed)
    ensures removed > 0 ==> probes < probes' && probe(probes' - 1, Dropped(frames, index, removed))
    ensures forall block: nat :: Candidate(frames, index, block) && block > removed
                                 ==> Rejected(probe, frames, index, block, probes, probes')
  {
    removed, probes' := 0, probes;
    for i := 0 to |BLOCKS|
      invariant probes <= probes'
      invariant forall j :: 0 <= j < i && Candidate(frames, index, BLOCKS[j])
                  ==> Rejected(probe, frames, index, BLOCKS[j], probes, probes')
    {
      var block := BLOCKS[i];
      if index + block <= |frames| && block < |frames| {
        var ok := probe(probes', Dropped(frames, index, block));
        probes' := probes' + 1;
        if ok {
          removed := block;
          LargerRejected(probe, frames, index, i, probes, probes');
          return;
        }
        assert Rejected(probe, frames, index, block, probes, probes');
      }
    }
    LargerRejected(probe, frames, index, |BLOCKS|, probes, probes');
  }

  lemma {:induction false} LargerRejected(probe: Oracle, frames: seq<Frame>, index: nat, i: nat, from: nat, to: nat)
    requires i <= |BLOCKS|
    requires forall j :: 0 <= j < i && Candidate(frames, index, BLOCKS[j]) ==> Rejected(probe, frames, index, BLOCKS[j], from, to)
    ensures forall block: nat :: Candidate(frames, index, block) && (i < |BLOCKS| ==> block > BLOCKS[i])
                            ==> Rejected(probe, frames, index, block, from, to)
  {
    forall block: nat | Candidate(frames, index, block) && (i < |BLOCKS| ==> block > BLOCKS[i])
      ensures Rejected(probe, frames, index, block, from, to)
    {
      var j := BlocksFall(block, i);
    }
  }

  /** No block of the tried sizes can be dropped at an index below `n`. */
  ghost predicate SettledBelow(probe: Oracle, frames: seq<Frame>, n: nat, from: nat, to: nat) {
    forall index, block :: 0 <= index < n && Candidate(frames, index, block)
      ==> Rejected(probe, frames, index, block, from, to)
  }

  ghost predicate Refused(probe: Oracle, frames: seq<Frame>, from: nat, to: nat) {
    exists k :: from <= k < to && !probe(k, frames)
  }

  ghost predicate Taken(probe: Oracle, frames: seq<Frame>, from: nat, to: nat) {
    exists k :: from <= k < to && probe(k, frames)
  }

  /** The walk of one round: at an index a block is cut out, or the walk goes on to the next. */
  datatype Pass = Begin(frames: seq<Frame>) | Cut(before: Pass, block: nat) | Skip(before: Pass)

  function At(p: Pass): nat {
    match p
    case Begin(_) => 0
    case Cut(before, _) => At(before)
    case Skip(before) => At(before) + 1
  }

  function Left(p: Pass): seq<Frame> {
    match p
    case Begin(frames) => frames
    case Cut(before, block) => if At(before) + block <= |Left(before)| then Dropped(Left(before), At(before), block) else []
    case Skip(before) => Left(before)
  }

  function Begun(p: Pass): seq<Frame> {
    if p.Begin? then p.frames else Begun(p.before)
  }

  /** The largest block whose removal is accepted is cut out; the walk goes on when none is. */
  ghost predicate Walked(p: Pass, probe: Oracle, from: nat, to: nat) {
    match p
    case Begin(_) => true
    case Cut(before, block) => Walked(before, probe, from, to) && CutsLargest(Left(before), At(before), block, probe, from, to)
    case Skip(before) => Walked(before, probe, from, to) && At(before) < |Left(before)| && LargerRefused(Left(before), At(before), 0, probe, from, to)
  }

  ghost predicate LargerRefused(frames: seq<Frame>, index: nat, least: nat, probe: Oracle, from: nat, to: nat) {
    forall block: nat :: Candidate(frames, index, block) && block > least ==> Rejected(probe, frames, index, block, from, to)
  }

  ghost predicate CutsLargest(frames: seq<Frame>, index: nat, block: nat, probe: Oracle, from: nat, to: nat) {
    Candidate(frames, index, block) && Taken(probe, Dropped(frames, index, block), from, to)
    && LargerRefused(frames, index, block, probe, from, to)
  }

  lemma {:induction false} LargerLonger(frames: seq<Frame>, index: nat, least: nat, probe: Oracle, from: nat, to: nat, from': nat, to': nat)
    requires LargerRefused(frames, index, least, probe, from, to) && from' <= from && to <= to'
    ensures LargerRefused(frames, index, least, probe, from', to')
  {
    forall block: nat | Candidate(frames, index, block) && block > least
      ensures Rejected(probe, frames, index, block, from', to')
    {
      assert Rejected(probe, frames, index, block, from, to);
    }
  }

  lemma {:induction false} WalkedLonger(p: Pass, probe: Oracle, from: nat, to: nat, to': nat)
    requires Walked(p, probe, from, to) && to <= to'
    ensures Walked(p, probe, from, to')
    decreases p
  {
    match p
    case Begin(_) =>
    case Cut(before, block) =>
      WalkedLonger(before, probe, from, to, to');
      LargerLonger(Left(before), At(before), block, probe, from, to, from, to');
    case Skip(before) =>
      WalkedLonger(before, probe, from, to, to');
      LargerLonger(Left(before), At(before), 0, probe, from, to, from, to');
  }

  lemma {:induction false} WalkedNext(p: Pass, block: nat, probe: Oracle, from: nat, mid: nat, to: nat)
    requires Walked(p, probe, from, mid) && from <= mid <= to && At(p) < |Left(p)|
    requires LargerRefused(Left(p), At(p), block, probe, mid, to)
    requires block > 0 ==> Candidate(Left(p), At(p), block) && mid < to && probe(to - 1, Dropped(Left(p), At(p), block))
    ensures Walked(if block > 0 then Cut(p, block) else Skip(p), probe, from, to)
  {
    WalkedLonger(p, probe, from, mid, to);
    LargerLonger(Left(p), At(p), block, probe, mid, to, from, to);
  }

  /** One round over all indices. */
  method DeletionRound(original: seq<Frame>, before: seq<Frame>, ghost kept: seq<nat>, probe: Oracle, probes: nat)
    returns (frames: seq<Frame>, removed: nat, changed: bool, probes': nat, ghost kept': seq<nat>, ghost pass: Pass)
    requires Keeps(original, before, kept)
    ensures Keeps(original, frames, kept') && removed + |frames| == |before| && probes <= probes'
    ensures Begun(pass) == before && Left(pass) == frames && At(pass) == |frames| && Walked(pass, probe, probes, probes')
    ensures changed <==> removed > 0
    ensures before != [] ==> frames != []
    ensures changed ==> exists k :: probes <= k < probes' && probe(k, frames)
    ensures !changed ==> frames == before && SettledBelow(probe, frames, |frames|, probes, probes')
  {
    frames, removed, changed, probes', kept', pass := before, 0, false, probes, kept, Begin(before);
    var index := 0;
    while index < |frames|
      invariant index <= |frames| && probes <= probes'
      invariant Keeps(original, frames, kept') && removed + |frames| == |before|
      invariant Begun(pass) == before && Left(pass) == frames && At(pass) == index && Walked(pass, probe, probes, probes')
      invariant changed <==> removed > 0
      invariant before != [] ==> frames != []
      invariant changed ==> exists k :: probes <= k < probes' && probe(k, frames)
      invariant !changed ==> frames == before && SettledBelow(probe, frames, index, probes, probes')
      decreases |frames| - index
    {
      ghost var start := probes';
      var block;
      block, probes' := TryBlocks(frames, index, probe, probes');
      WalkedNext(pass, block, probe, probes, start, probes');
      pass := if block > 0 then Cut(pass, block) else Skip(pass);
      if block > 0 {
        DropKeeps(original, frames, kept', index, block);
        kept' := Dropped(kept', index, block);
        frames := Dropped(frames, index, block);
        removed := removed + block;
        changed := true;
      } else {
        if !changed {
          SettledGrows(probe, frames, index, probes, start, probes');
        }
        index := index + 1;
      }
    }
  }

  lemma {:induction false} SettledGrows(probe: Oracle, frames: seq<Frame>, index: nat, from: nat, mid: nat, to: nat)
    requires from <= mid <= to && index < |frames| && SettledBelow(probe, frames, index, from, mid)
    requires forall block :: Candidate(frames, index, block) ==> Rejected(probe, frames, index, block, mid, to)
    ensures SettledBelow(probe, frames, index + 1, from, to)
  {
    forall i, block | 0 <= i < index + 1 && Candidate(frames, i, block)
      ensures Rejected(probe, frames, i, block, from, to)
    {
      if i < index {
        assert Rejected(probe, frames, i, block, from, mid);
      } else {
        assert Rejected(probe, frames, i, block, mid, to);
      }
    }
  }

  /** The first n rounds follow each other, each walking to the end of its frames; all but the last cut something. */
  ghost predicate Chained(original: seq<Frame>, passes: seq<Pass>, n: nat, probe: Oracle, to: nat)
    requires n <= |passes|
  {
    n == 0
    || (&& Chained(original, passes, n - 1, probe, to)
        && Begun(passes[n - 1]) == AfterRounds(original, passes, n - 1)
        && (n > 1 ==> |Left(passes[n - 2])| < |Begun(passes[n - 2])|)
        && At(passes[n - 1]) == |Left(passes[n - 1])| && Walked(passes[n - 1], probe, 0, to))
  }

  function AfterRounds(original: seq<Frame>, passes: seq<Pass>, n: nat): seq<Frame>
    requires n <= |passes|
  {
    if n == 0 then original else Left(passes[n - 1])
  }

  lemma {:induction false} ChainedLonger(original: seq<Frame>, passes: seq<Pass>, n: nat, probe: Oracle, to: nat, more: seq<Pass>, to': nat)
    requires n <= |passes| && passes <= more && Chained(original, passes, n, probe, to) && to <= to'
    ensures Chained(original, more, n, probe, to') && AfterRounds(original, more, n) == AfterRounds(original, passes, n)
  {
    if n > 0 {
      ChainedLonger(original, passes, n - 1, probe, to, more, to');
      WalkedLonger(passes[n - 1], probe, 0, to, to');
    }
  }

  lemma {:induction false} WalkedWider(p: Pass, probe: Oracle, from: nat, to: nat)
    requires Walked(p, probe, from, to)
    ensures Walked(p, probe, 0, to)
    decreases p
  {
    match p
    case Begin(_) =>
    case Cut(before, block) =>
      WalkedWider(before, probe, from, to);
      LargerLonger(Left(before), At(before), block, probe, from, to, 0, to);
    case Skip(before) =>
      WalkedWider(before, probe, from, to);
      LargerLonger(Left(before), At(before), 0, probe, from, to, 0, to);
  }

  lemma {:induction false} ChainedNext(original: seq<Frame>, passes: seq<Pass>, p: Pass, probe: Oracle, from: nat, to: nat)
    requires Chained(original, passes, |passes|, probe, from) && from <= to
    requires Begun(p) == AfterRounds(original, passes, |passes|) && At(p) == |Left(p)| && Walked(p, probe, from, to)
    requires passes != [] ==> |Left(passes[|passes| - 1])| < |Begun(passes[|passes| - 1])|
    ensures Chained(original, passes + [p], |passes| + 1, probe, to)
  {
    ChainedLonger(original, passes, |passes|, probe, from, passes + [p], to);
    WalkedWider(p, probe, from, to);
  }

  /** The deletion phase. `settled`: the last round changed nothing. */
  method DeleteFrames(original: seq<Frame>, probe: Oracle, maxRounds: nat)
    returns (frames: seq<Frame>, removed: nat, probes: nat, settled: bool, ghost kept: seq<nat>, ghost passes: seq<Pass>)
    ensures Chained(original, passes, |passes|, probe, probes) && frames == AfterRounds(original, passes, |passes|)
    ensures |passes| <= maxRounds && (settled || |passes| == maxRounds)
    ensures Keeps(original, frames, kept) && removed + |frames| == |original|
    ensures original != [] ==> frames != []
    ensures frames == original || exists k :: 0 <= k < probes && probe(k, frames)
    ensures settled ==> SettledBelow(probe, frames, |frames|, 0, probes)
    ensures !settled ==> maxRounds <= removed
  {
    frames, removed, probes, settled := original, 0, 0, false;
    kept, passes := seq(|original|, i => i), [];
    for round := 0 to maxRounds
      invariant Keeps(original, frames, kept) && removed + |frames| == |original|
      invariant original != [] ==> frames != []
      invariant frames == original || exists k :: 0 <= k < probes && probe(k, frames)
      invariant Chained(original, passes, |passes|, probe, probes) && frames == AfterRounds(original, passes, |passes|)
      invariant |passes| == round && (passes != [] ==> |Left(passes[round - 1])| < |Begun(passes[round - 1])|)
      invariant !settled && round <= removed
    {
      ghost var start := probes;
      var less, changed;
      ghost var pass;
      frames, less, changed, probes, kept, pass := DeletionRound(original, frames, kept, probe, probes);
      ChainedNext(original, passes, pass, probe, start, probes);
      passes := passes + [pass];
      removed := removed + less;
      if !changed {
        settled := true;
        forall i, block | 0 <= i < |frames| && Candidate(frames, i, block)
          ensures Rejected(probe, frames, i, block, 0, probes)
        {
          assert Rejected(probe, frames, i, block, start, probes);
        }
        break;
      }
    }
  }

  /** For a deterministic oracle a settled result is minimal: no contiguous block of 1, 2, 4, 8, 16 or
      32 frames can be dropped while a frame remains. */
  lemma {:induction false} SettledIsMinimal(probe: Oracle, frames: seq<Frame>, probes: nat, index: nat, block: nat)
    requires Deterministic(probe) && SettledBelow(probe, frames, |frames|, 0, probes)
    requires block in {1, 2, 4, 8, 16, 32} && index + block <= |frames| && block < |frames|
    ensures !probe(0, Dropped(frames, index, block))
  {
    assert index < |frames| && Candidate(frames, index, block);
  }

  /** No contiguous block of 1, 2, 4, 8, 16 or 32 frames can be dropped while a frame remains. */
  ghost predicate NoBlockDrops(probe: Oracle, frames: seq<Frame>) {
    forall index, block :: Candidate(frames, index, block) ==> !probe(0, Dropped(frames, index, block))
  }

  lemma {:induction false} SettledDropsNothing(probe: Oracle, frames: seq<Frame>, probes: nat)
    requires Deterministic(probe) && SettledBelow(probe, frames, |frames|, 0, probes)
    ensures NoBlockDrops(probe, frames)
  {
    forall index, block | Candidate(frames, index, block) ensures !probe(0, Dropped(frames, index, block)) {
      SettledIsMinimal(probe, frames, probes, index, block);
    }
  }

  // ----- simplifying values

  /** Candidate values in the order in which they are tried. */
  function Candidates(defaults: map<string, string>, name: string, current: string): seq<string> {
    [if name in defaults then defaults[name] else current]
    + if current != "0" && current != "0.0" then ["0", "1"] else []
  }

  /** The default, or the value itself without one; then 0 and 1, unless the value is 0 or 0.0. */
  lemma {:induction false} CandidatesAre(defaults: map<string, string>, name: string, current: string)
    ensures var values := Candidates(defaults, name, current);
            && |values| == (if current in {"0", "0.0"} then 1 else 3)
            && values[0] == (if name in defaults then defaults[name] else current)
            && (|values| == 3 ==> values[1] == "0" && values[2] == "1")
  {
  }

  function WithValue(frames: seq<Frame>, index: nat, name: string, value: string): seq<Frame>
    requires index < |frames|
  {
    frames[index := frames[index].(values := frames[index].values[name := value])]
  }

  lemma {:induction false} KeepsValue(frames: seq<Frame>, index: nat, name: string)
    requires index < |frames| && name in frames[index].values
    ensures WithValue(frames, index, name, frames[index].values[name]) == frames
  {
    var values := frames[index].values;
    assert values[name := values[name]] == values;
  }

  /** The first n candidates for the field were refused, but for the value that it has. */
  ghost predicate RefusedFirst(probe: Oracle, was: seq<Frame>, i: nat, name: string, values: seq<string>, n: nat, from: nat, to: nat)
    requires i < |was| && name in was[i].values && n <= |values|
  {
    n == 0 || (RefusedFirst(probe, was, i, name, values, n - 1, from, to)
               && (values[n - 1] == was[i].values[name] || Refused(probe, WithValue(was, i, name, values[n - 1]), from, to)))
  }

  lemma {:induction false} RefusedLonger(probe: Oracle, was: seq<Frame>, i: nat, name: string, values: seq<string>, n: nat,
                                         from: nat, to: nat, from': nat, to': nat)
    requires i < |was| && name in was[i].values && n <= |values| && from' <= from && to <= to'
    requires RefusedFirst(probe, was, i, name, values, n, from, to)
    ensures RefusedFirst(probe, was, i, name, values, n, from', to')
  {
    if n > 0 { RefusedLonger(probe, was, i, name, values, n - 1, from, to, from', to'); }
  }

  /** The field, in these frames, gets the first candidate that is accepted, after those before it have been
      refused; if all are refused it keeps its value. */
  ghost predicate Settles(probe: Oracle, defaults: map<string, string>, was: seq<Frame>, i: nat, name: string, value: string,
                          tried: nat, from: nat, to: nat)
    requires i < |was| && name in was[i].values
  {
    var values := Candidates(defaults, name, was[i].values[name]);
    && tried <= |values| && RefusedFirst(probe, was, i, name, values, tried, from, to)
    && if tried < |values| then value == values[tried] != was[i].values[name] && Taken(probe, WithValue(was, i, name, value), from, to)
       else value == was[i].values[name]
  }

  /** The candidate loop for one field of one frame. */
  method SimplifyField(before: seq<Frame>, index: nat, name: string, defaults: map<string, string>,
                       probe: Oracle, probes: nat)
    returns (frames: seq<Frame>, changed: bool, probes': nat, ghost value: string, ghost tried: nat)
    requires index < |before| && name in before[index].values
    ensures probes <= probes' && Settles(probe, defaults, before, index, name, value, tried, probes, probes')
    ensures frames == WithValue(before, index, name, value) && (changed <==> value != before[index].values[name])
    ensures changed ==> probes < probes' && probe(probes' - 1, frames)
  {
    frames, changed, probes', tried := before, false, probes, 0;
    var current := before[index].values[name];
    var values := Candidates(defaults, name, current);
    value := current;
    KeepsValue(before, index, name);
    for i := 0 to |values|
      invariant frames == before && !changed && probes <= probes' && tried == i && value == current
      invariant RefusedFirst(probe, before, index, name, values, i, probes, probes')
    {
      if values[i] != current {
        var trial := WithValue(before, index, name, values[i]);
        var ok := probe(probes', trial);
        RefusedLonger(probe, before, index, name, values, i, probes, probes', probes, probes' + 1);
        probes' := probes' + 1;
        if ok {
          frames, changed, value := trial, true, values[i];
          assert Taken(probe, trial, probes, probes');
          return;
        }
        assert Refused(probe, trial, probes, probes');
      }
      tried := tried + 1;
    }
  }

  /** Fields in which two frames differ, and frames in total. */
  function FieldDiffs(a: Values, b: Values, names: seq<string>): nat
    requires forall n :: n in names ==> n in a && n in b
  {
    if names == [] then 0
    else
      var n := names[|names| - 1];
      FieldDiffs(a, b, names[..|names| - 1]) + if a[n] != b[n] then 1 else 0
  }

  ghost predicate Complete(frames: seq<Frame>, names: seq<string>) {
    forall i, n :: 0 <= i < |frames| && n in names ==> n in frames[i].values
  }

  ghost function Diffs(xs: seq<Frame>, ys: seq<Frame>, names: seq<string>): nat
    requires |xs| == |ys| && Complete(xs, names) && Complete(ys, names)
  {
    if xs == [] then 0
    else
      var k := |xs| - 1;
      Diffs(xs[..k], ys[..k], names) + FieldDiffs(xs[k].values, ys[k].values, names)
  }

  ghost predicate NoRepeats(names: seq<string>) {
    forall i, j :: 0 <= i < j < |names| ==> names[i] != names[j]
  }

  lemma {:induction false} ChangingOneField(a: Values, b: Values, names: seq<string>, n: string, v: string)
    requires forall m :: m in names ==> m in a && m in b
    requires NoRepeats(names) && n in a && n in b && a[n] == b[n] != v
    ensures FieldDiffs(a, b[n := v], names) == FieldDiffs(a, b, names) + if n in names then 1 else 0
  {
    if names != [] {
      var front, last := names[..|names| - 1], names[|names| - 1];
      assert names == front + [last];
      ChangingOneField(a, b, front, n, v);
    }
  }

  lemma {:induction false} ChangingOneFrame(xs: seq<Frame>, ys: seq<Frame>, names: seq<string>, i: nat, n: string, v: string)
    requires |xs| == |ys| && Complete(xs, names) && Complete(ys, names) && i < |ys|
    requires NoRepeats(names) && n in names && xs[i].values[n] == ys[i].values[n] != v
    ensures Complete(WithValue(ys, i, n, v), names)
    ensures Diffs(xs, WithValue(ys, i, n, v), names) == Diffs(xs, ys, names) + 1
  {
    var k := |xs| - 1;
    var zs := WithValue(ys, i, n, v);
    if i == k {
      ChangingOneField(xs[k].values, ys[k].values, names, n, v);
      assert zs[..k] == ys[..k];
    } else {
      ChangingOneFrame(xs[..k], ys[..k], names, i, n, v);
      assert zs[..k] == WithValue(ys[..k], i, n, v);
    }
  }

  /** Fields not yet visited still hold their first value. */
  ghost predicate Untouched(first: seq<Frame>, frames: seq<Frame>, names: seq<string>, i: nat, j: nat)
    requires j <= |names| && |first| == |frames| && Complete(first, names) && Complete(frames, names)
  {
    && (forall k, n :: i < k < |frames| && n in names ==> frames[k].values[n] == first[k].values[n])
    && forall n :: i < |frames| && n in names && n in names[j..] ==> frames[i].values[n] == first[i].values[n]
  }

  /** The frames so far: same shape, as many changes as counted, and the last change was accepted. */
  ghost predicate Simplified(first: seq<Frame>, frames: seq<Frame>, names: seq<string>, count: nat,
                             probe: Oracle, from: nat, to: nat)
  {
    && |frames| == |first| && from <= to && Complete(first, names) && Complete(frames, names)
    && Diffs(first, frames, names) == count
    && (frames == first || exists k :: from <= k < to && probe(k, frames))
  }

  /** At its turn, when it still had its first value, the field was offered its candidates and settled for `value`. */
  ghost predicate Offered(probe: Oracle, defaults: map<string, string>, first: seq<Frame>, k: nat, n: string, value: string,
                          from: nat, to: nat)
    requires k < |first|
  {
    exists was: seq<Frame>, tried: nat :: OfferedIn(probe, defaults, first, was, k, n, value, tried, from, to)
  }

  ghost predicate OfferedIn(probe: Oracle, defaults: map<string, string>, first: seq<Frame>, was: seq<Frame>, k: nat, n: string,
                            value: string, tried: nat, from: nat, to: nat)
    requires k < |first|
  {
    && |was| == |first| && n in first[k].values && n in was[k].values && was[k].values[n] == first[k].values[n]
    && Settles(probe, defaults, was, k, n, value, tried, from, to)
  }

  ghost predicate OfferedAt(probe: Oracle, defaults: map<string, string>, first: seq<Frame>, frames: seq<Frame>, k: nat, n: string,
                            from: nat, to: nat)
    requires k < |first| == |frames|
  {
    n in frames[k].values && Offered(probe, defaults, first, k, n, frames[k].values[n], from, to)
  }

  /** So were all the fields of the first i frames, and those of the first j names in the next. */
  ghost predicate AllOffered(probe: Oracle, defaults: map<string, string>, first: seq<Frame>, frames: seq<Frame>, names: seq<string>,
                             i: nat, j: nat, from: nat, to: nat)
    requires j <= |names| && |first| == |frames|
  {
    && (forall k, n :: 0 <= k < i && k < |frames| && n in names ==> OfferedAt(probe, defaults, first, frames, k, n, from, to))
    && forall n :: i < |frames| && n in names[..j] ==> OfferedAt(probe, defaults, first, frames, i, n, from, to)
  }

  lemma {:induction false} OfferedLonger(probe: Oracle, defaults: map<string, string>, first: seq<Frame>, k: nat, n: string,
                                         value: string, from: nat, to: nat, to': nat)
    requires k < |first| && Offered(probe, defaults, first, k, n, value, from, to) && to <= to'
    ensures Offered(probe, defaults, first, k, n, value, from, to')
  {
    var was: seq<Frame>, tried: nat :| OfferedIn(probe, defaults, first, was, k, n, value, tried, from, to);
    RefusedLonger(probe, was, k, n, Candidates(defaults, n, was[k].values[n]), tried, from, to, from, to');
    assert OfferedIn(probe, defaults, first, was, k, n, value, tried, from, to');
  }

  /** A field's turn leaves the fields before it as they are. */
  lemma {:induction false} OfferedNext(probe: Oracle, defaults: map<string, string>, first: seq<Frame>, was: seq<Frame>, frames: seq<Frame>,
                                       names: seq<string>, i: nat, j: nat, value: string, tried: nat, from: nat, mid: nat, to: nat)
    requires |first| == |was| && i < |was| && j < |names| && NoRepeats(names) && from <= mid <= to
    requires Complete(first, names) && Complete(was, names) && Untouched(first, was, names, i, j)
    requires AllOffered(probe, defaults, first, was, names, i, j, from, mid)
    requires names[j] in was[i].values && Settles(probe, defaults, was, i, names[j], value, tried, mid, to)
    requires frames == WithValue(was, i, names[j], value)
    ensures AllOffered(probe, defaults, first, frames, names, i, j + 1, from, to)
  {
    forall k, n | 0 <= k < i && k < |frames| && n in names ensures OfferedAt(probe, defaults, first, frames, k, n, from, to) {
      assert OfferedAt(probe, defaults, first, was, k, n, from, mid);
      OfferedLonger(probe, defaults, first, k, n, was[k].values[n], from, mid, to);
    }
    assert names[..j + 1] == names[..j] + [names[j]];
    forall n | n in names[..j] ensures OfferedAt(probe, defaults, first, frames, i, n, from, to) {
      assert OfferedAt(probe, defaults, first, was, i, n, from, mid);
      OfferedLonger(probe, defaults, first, i, n, was[i].values[n], from, mid, to);
    }
    OwnOffered(probe, defaults, first, was, names, i, j, value, tried, from, mid, to);
  }

  lemma {:induction false} OwnOffered(probe: Oracle, defaults: map<string, string>, first: seq<Frame>, was: seq<Frame>,
                                      names: seq<string>, i: nat, j: nat, value: string, tried: nat, from: nat, mid: nat, to: nat)
    requires |first| == |was| && i < |was| && j < |names| && from <= mid <= to
    requires Complete(first, names) && Complete(was, names) && Untouched(first, was, names, i, j)
    requires names[j] in was[i].values && Settles(probe, defaults, was, i, names[j], value, tried, mid, to)
    ensures Offered(probe, defaults, first, i, names[j], value, from, to)
  {
    assert names[j] in names && names[j] in names[j..];
    RefusedLonger(probe, was, i, names[j], Candidates(defaults, names[j], was[i].values[names[j]]), tried, mid, to, from, to);
    assert OfferedIn(probe, defaults, first, was, i, names[j], value, tried, from, to);
  }

  lemma {:induction false} FrameOffered(probe: Oracle, defaults: map<string, string>, first: seq<Frame>, frames: seq<Frame>,
                                        names: seq<string>, i: nat, from: nat, to: nat)
    requires |first| == |frames| && i < |frames| && AllOffered(probe, defaults, first, frames, names, i, |names|, from, to)
    ensures AllOffered(probe, defaults, first, frames, names, i + 1, 0, from, to)
  {
    assert names[..|names|] == names;
  }

  method SimplifyValues(first: seq<Frame>, names: seq<string>, defaults: map<string, string>,
                        probe: Oracle, probes: nat)
    returns (frames: seq<Frame>, simplified: nat, probes': nat)
    requires Complete(first, names) && NoRepeats(names)
    ensures Simplified(first, frames, names, simplified, probe, probes, probes')
    ensures AllOffered(probe, defaults, first, frames, names, |frames|, 0, probes, probes')
  {
    frames, simplified, probes' := first, 0, probes;
    NoDiffs(first, names);
    for i := 0 to |first|
      invariant Simplified(first, frames, names, simplified, probe, probes, probes')
      invariant Untouched(first, frames, names, i, 0) && AllOffered(probe, defaults, first, frames, names, i, 0, probes, probes')
    {
      frames, simplified, probes' := SimplifyFrame(first, frames, i, names, defaults, probe, probes, probes', simplified);
    }
  }

  method SimplifyFrame(ghost first: seq<Frame>, before: seq<Frame>, i: nat, names: seq<string>,
                       defaults: map<string, string>, probe: Oracle, ghost from: nat, probes: nat, count: nat)
    returns (frames: seq<Frame>, simplified: nat, probes': nat)
    requires NoRepeats(names) && Simplified(first, before, names, count, probe, from, probes) && i < |before|
    requires Untouched(first, before, names, i, 0) && AllOffered(probe, defaults, first, before, names, i, 0, from, probes)
    ensures Simplified(first, frames, names, simplified, probe, from, probes')
    ensures Untouched(first, frames, names, i + 1, 0) && AllOffered(probe, defaults, first, frames, names, i + 1, 0, from, probes')
  {
    frames, simplified, probes' := before, count, probes;
    for j := 0 to |names|
      invariant Simplified(first, frames, names, simplified, probe, from, probes')
      invariant Untouched(first, frames, names, i, j) && AllOffered(probe, defaults, first, frames, names, i, j, from, probes')
    {
      ghost var was, mid := frames, probes';
      var changed;
      ghost var value, tried;
      assert names[j] in names && names[j..] == [names[j]] + names[j + 1..];
      frames, changed, probes', value, tried := SimplifyField(frames, i, names[j], defaults, probe, probes');
      OfferedNext(probe, defaults, first, was, frames, names, i, j, value, tried, from, mid, probes');
      if changed {
        ChangingOneFrame(first, was, names, i, names[j], value);
        simplified := simplified + 1;
      } else {
        KeepsValue(was, i, names[j]);
      }
    }
    FrameOffered(probe, defaults, first, frames, names, i, from, probes');
  }

  lemma {:induction false} NoFieldDiffs(a: Values, names: seq<string>)
    requires forall n :: n in names ==> n in a
    ensures FieldDiffs(a, a, names) == 0
  {
    if names != [] {
      NoFieldDiffs(a, names[..|names| - 1]);
    }
  }

  lemma {:induction false} NoDiffs(xs: seq<Frame>, names: seq<string>)
    requires Complete(xs, names)
    ensures Diffs(xs, xs, names) == 0
  {
    if xs != [] {
      NoDiffs(xs[..|xs| - 1], names);
      NoFieldDiffs(xs[|xs| - 1].values, names);
    }
  }

  // ----- the whole minimisation

  datatype Minimized = Original | Reduced(frames: seq<Frame>, removed: nat, simplified: nat)

  /** `minimize`: the original, or frames whose final probe matched. `middle` are the frames after the
      deletion phase: when that settled, no block of them could be dropped; otherwise every round dropped one.
      `simple` are those after the values, and `final` is the number of the last probe. */
  method Minimize(original: seq<Frame>, names: seq<string>, defaults: map<string, string>, probe: Oracle,
                  maxRounds: nat)
    returns (result: Minimized, ghost kept: seq<nat>, ghost middle: seq<Frame>, ghost settled: bool, ghost tried: nat,
             ghost simple: seq<Frame>, ghost final: nat, ghost passes: seq<Pass>)
    requires Complete(original, names) && NoRepeats(names)
    ensures Chained(original, passes, |passes|, probe, tried) && middle == AfterRounds(original, passes, |passes|)
    ensures |passes| <= maxRounds && (settled || |passes| == maxRounds)
    ensures Keeps(original, middle, kept)
    ensures settled ==> SettledBelow(probe, middle, |middle|, 0, tried)
    ensures !settled ==> maxRounds + |middle| <= |original|
    ensures settled && Deterministic(probe) ==> NoBlockDrops(probe, middle)
    ensures |simple| == |middle| && AllOffered(probe, defaults, middle, simple, names, |simple|, 0, tried, final)
    ensures tried <= final && (result.Reduced? <==> probe(final, simple))
    ensures result.Reduced? ==>
              && result.frames == simple
              && |result.frames| == |middle| && result.removed + |result.frames| == |original|
              && Complete(middle, names) && Complete(result.frames, names)
              && Diffs(middle, result.frames, names) == result.simplified
    ensures Deterministic(probe) && probe(0, original) ==> result.Reduced? && probe(0, result.frames)
  {
    var frames, removed, probes, done;
    frames, removed, probes, done, kept, passes := DeleteFrames(original, probe, maxRounds);
    middle, settled, tried := frames, done, probes;
    forall i, n | 0 <= i < |frames| && n in names ensures n in frames[i].values {
      assert frames[i] == original[kept[i]];
    }
    if settled && Deterministic(probe) {
      SettledDropsNothing(probe, middle, tried);
    }
    var simplified;
    frames, simplified, probes := SimplifyValues(frames, names, defaults, probe, probes);
    simple, final := frames, probes;
    if probe(probes, frames) {
      result := Reduced(frames, removed, simplified);
    } else {
      result := Original;
    }
  }
}
