/** Checkpoint, restore, reset, init and step of the generated harness
    (compiler/harness/v3gen.py, compiler/harness/generator.py) over the bytes of a process. */
module HarnessState {
  import opened Wrappers
  import opened Arithmetic

  /** A writable global of the target, listed in the state table. */
  datatype Region = Region(address: nat, size: nat)

  /** The static harness struct: instance and backing storage, then the bookkeeping fields. */
  datatype Harness<I> = Harness(inst: I, vclock: nat, frameIndex: nat, loopTicks: nat,
                                initialized: bool, budgetExceeded: bool)

  datatype State<I> = State(mem: seq<int>, harness: Harness<I>)

  datatype Blob<I> = Blob(bytes: seq<int>, harness: Harness<I>)

  ghost predicate InMemory(regions: seq<Region>, size: nat) {
    forall i :: 0 <= i < |regions| ==> regions[i].address + regions[i].size <= size
  }

  predicate Holds(r: Region, a: int) {
    r.address <= a < r.address + r.size
  }

  ghost predicate Covered(regions: seq<Region>, a: int) {
    exists i :: 0 <= i < |regions| && Holds(regions[i], a)
  }

  /** Two memories hold the same bytes in every region. */
  ghost predicate Agree(regions: seq<Region>, m: seq<int>, n: seq<int>) {
    |m| == |n| && forall a :: 0 <= a < |m| && Covered(regions, a) ==> m[a] == n[a]
  }

  // ----- copying regions out and back

  function Total(regions: seq<Region>): nat {
    if regions == [] then 0 else Total(regions[..|regions| - 1]) + regions[|regions| - 1].size
  }

  /** The cursor loop that copies regions out. */
  function Gather(regions: seq<Region>, mem: seq<int>): (bytes: seq<int>)
    requires InMemory(regions, |mem|)
    ensures |bytes| == Total(regions)
  {
    if regions == [] then []
    else
      var r := regions[|regions| - 1];
      Gather(regions[..|regions| - 1], mem) + mem[r.address..r.address + r.size]
  }

  function Write(mem: seq<int>, at: nat, bytes: seq<int>): (r: seq<int>)
    requires at + |bytes| <= |mem|
    ensures |r| == |mem|
    ensures forall a :: 0 <= a < |mem| ==> r[a] == if at <= a < at + |bytes| then bytes[a - at] else mem[a]
  {
    mem[..at] + bytes + mem[at + |bytes|..]
  }

  /** The cursor loop that copies them back, in the same order. */
  function Scatter(regions: seq<Region>, mem: seq<int>, bytes: seq<int>): (m: seq<int>)
    requires InMemory(regions, |mem|) && Total(regions) <= |bytes|
    ensures |m| == |mem|
  {
    if regions == [] then mem
    else
      var front, r := regions[..|regions| - 1], regions[|regions| - 1];
      Write(Scatter(front, mem, bytes), r.address, bytes[Total(front)..Total(front) + r.size])
  }

  lemma {:induction false} CoveredSplit(front: seq<Region>, r: Region, a: int)
    ensures Covered(front + [r], a) <==> Covered(front, a) || Holds(r, a)
  {
    var regions := front + [r];
    if i :| 0 <= i < |front| && Holds(front[i], a) {
      assert Holds(regions[i], a);
    }
    assert regions[|front|] == r;
  }

  lemma {:induction false} FrontGathers(regions: seq<Region>, source: seq<int>, bytes: seq<int>)
    requires regions != [] && InMemory(regions, |source|) && Gather(regions, source) <= bytes
    ensures var front := regions[..|regions| - 1];
            InMemory(front, |source|) && Gather(front, source) <= bytes && Total(regions) <= |bytes|
  {
    var front := regions[..|regions| - 1];
    assert forall i :: 0 <= i < |front| ==> front[i] == regions[i];
    assert Gather(front, source) <= Gather(regions, source);
  }

  lemma {:induction false} WriteBack(m: seq<int>, r: Region, piece: seq<int>, source: seq<int>, a: int)
    requires r.address + r.size <= |m| == |source| && piece == source[r.address..r.address + r.size] && 0 <= a < |m|
    ensures Write(m, r.address, piece)[a] == if Holds(r, a) then source[a] else m[a]
  {}

  /** Writing a snapshot back restores every covered byte and touches no other, whether or not the
      regions overlap. */
  lemma {:induction false} ScatterGather(regions: seq<Region>, source: seq<int>, mem: seq<int>, bytes: seq<int>, a: int)
    requires InMemory(regions, |mem|) && |source| == |mem| && 0 <= a < |mem|
    requires Gather(regions, source) <= bytes
    ensures Scatter(regions, mem, bytes)[a] == if Covered(regions, a) then source[a] else mem[a]
  {
    if regions != [] {
      var front, r := regions[..|regions| - 1], regions[|regions| - 1];
      FrontGathers(regions, source, bytes);
      ScatterGather(front, source, mem, bytes, a);
      CoveredSplit(front, r, a);
      assert regions == front + [r];
      LastPiece(regions, source, bytes);
      WriteBack(Scatter(front, mem, bytes), r, bytes[Total(front)..Total(front) + r.size], source, a);
    }
  }

  lemma {:induction false} LastPiece(regions: seq<Region>, source: seq<int>, bytes: seq<int>)
    requires regions != [] && InMemory(regions, |source|) && Gather(regions, source) <= bytes
    ensures var at, r := Total(regions[..|regions| - 1]), regions[|regions| - 1];
            at + r.size <= |bytes| && bytes[at..at + r.size] == source[r.address..r.address + r.size]
  {
    var all, at := Gather(regions, source), Total(regions[..|regions| - 1]);
    var r := regions[|regions| - 1];
    assert all[at..] == source[r.address..r.address + r.size];
    assert bytes[at..at + r.size] == all[at..];
  }

  lemma {:induction false} RestoreAgrees(regions: seq<Region>, source: seq<int>, mem: seq<int>)
    requires InMemory(regions, |mem|) && |source| == |mem|
    ensures Agree(regions, Scatter(regions, mem, Gather(regions, source)), source)
  {
    var bytes := Gather(regions, source);
    forall a | 0 <= a < |mem| && Covered(regions, a)
      ensures Scatter(regions, mem, bytes)[a] == source[a]
    {
      ScatterGather(regions, source, mem, bytes, a);
    }
  }

  // ----- the target and the setup code, as functions that may read and write any byte

  /** What a piece of target code leaves behind: memory, instance storage, loop ticks spent. */
  datatype Effect<I> = Effect(mem: seq<int>, inst: I, ticks: nat)

  datatype Code<!I, !F, !S> = Code(
    target: (seq<int>, Harness<I>, F) -> Effect<I>,          // apply the frame, run one scan
    setup: (seq<int>, Harness<I>, S) -> Maybe<Effect<I>>,    // constructor, pointers, shared records
    zero: I)                                                 // memset of the harness struct

  ghost predicate SameEffect<I>(regions: seq<Region>, a: Effect<I>, b: Effect<I>) {
    Agree(regions, a.mem, b.mem) && a.inst == b.inst && a.ticks == b.ticks
  }

  /** The code depends on captured state only: equal regions and equal harness give equal effects. */
  ghost predicate Deterministic<I(!new), F(!new), S(!new)>(code: Code<I, F, S>, regions: seq<Region>) {
    && (forall m, n, h, f :: Agree(regions, m, n) ==> SameEffect(regions, code.target(m, h, f), code.target(n, h, f)))
    && (forall m, h, f :: |code.target(m, h, f).mem| == |m|)
    && (forall m, n, h, s :: Agree(regions, m, n) ==> SameSetup(regions, code.setup(m, h, s), code.setup(n, h, s)))
    && (forall m, h, s :: code.setup(m, h, s).Given? ==> |code.setup(m, h, s).value.mem| == |m|)
  }

  ghost predicate SameSetup<I>(regions: seq<Region>, a: Maybe<Effect<I>>, b: Maybe<Effect<I>>) {
    (a.Given? <==> b.Given?) && (a.Given? ==> SameEffect(regions, a.value, b.value))
  }

  // ----- one scan, and runs of scans

  datatype Input<F> = Input(frame: F, dt: nat)

  /** `semantist_step` on an initialised harness. */
  function Stepped<I, F, S>(code: Code<I, F, S>, s: State<I>, i: Input<F>): State<I> {
    var h := s.harness.(vclock := (s.harness.vclock + i.dt) % WORD,
                        frameIndex := (s.harness.frameIndex + 1) % WORD,
                        loopTicks := 0);
    var r := code.target(s.mem, h, i.frame);
    State(r.mem, h.(inst := r.inst, loopTicks := r.ticks))
  }

  /** The target runs once, with the clock advanced by delta_t and the frame index by one, both modulo 2^64, no ticks
      spent and everything else as it was; only memory, instance and spent ticks are its own. */
  ghost predicate RunsOnce<I(!new), F(!new), S(!new)>(code: Code<I, F, S>, s: State<I>, i: Input<F>, t: State<I>) {
    exists h: Harness<I>, r: Effect<I> ::
      && h.vclock == (s.harness.vclock + i.dt) % 0x1_0000_0000_0000_0000
      && h.frameIndex == (s.harness.frameIndex + 1) % 0x1_0000_0000_0000_0000 && h.loopTicks == 0
      && h.inst == s.harness.inst && h.initialized == s.harness.initialized && h.budgetExceeded == s.harness.budgetExceeded
      && r == code.target(s.mem, h, i.frame)
      && t.mem == r.mem && t.harness.inst == r.inst && t.harness.loopTicks == r.ticks
      && t.harness.vclock == h.vclock && t.harness.frameIndex == h.frameIndex
      && t.harness.initialized == h.initialized && t.harness.budgetExceeded == h.budgetExceeded
  }

  lemma {:induction false} StepRunsOnce<I(!new), F(!new), S(!new)>(code: Code<I, F, S>, s: State<I>, i: Input<F>)
    ensures RunsOnce(code, s, i, Stepped(code, s, i))
  {
    var h := s.harness.(vclock := (s.harness.vclock + i.dt) % WORD, frameIndex := (s.harness.frameIndex + 1) % WORD, loopTicks := 0);
    var r := code.target(s.mem, h, i.frame);
  }

  function Steps<I, F, S>(code: Code<I, F, S>, s: State<I>, inputs: seq<Input<F>>): State<I> {
    if inputs == [] then s
    else Stepped(code, Steps(code, s, inputs[..|inputs| - 1]), inputs[|inputs| - 1])
  }

  /** The captured parts of two states are equal. */
  ghost predicate Same<I>(regions: seq<Region>, s: State<I>, t: State<I>) {
    Agree(regions, s.mem, t.mem) && s.harness == t.harness
  }

  lemma {:induction false} StepsKeepSame<I(!new), F(!new), S(!new)>(code: Code<I, F, S>, regions: seq<Region>, s: State<I>, t: State<I>,
                                                        inputs: seq<Input<F>>)
    requires Deterministic(code, regions) && Same(regions, s, t)
    ensures Same(regions, Steps(code, s, inputs), Steps(code, t, inputs))
    ensures |Steps(code, s, inputs).mem| == |s.mem|
    decreases |inputs|
  {
    if inputs != [] {
      StepsKeepSame(code, regions, s, t, inputs[..|inputs| - 1]);
    }
  }

  lemma {:induction false} StepsConcat<I, F, S>(code: Code<I, F, S>, s: State<I>, a: seq<Input<F>>, b: seq<Input<F>>)
    ensures Steps(code, s, a + b) == Steps(code, Steps(code, s, a), b)
    decreases |b|
  {
    if b == [] {
      assert a + b == a;
    } else {
      assert (a + b)[..|a + b| - 1] == a + b[..|b| - 1];
      StepsConcat(code, s, a, b[..|b| - 1]);
    }
  }

  function Checkpointed<I>(regions: seq<Region>, s: State<I>): Blob<I>
    requires InMemory(regions, |s.mem|)
  {
    Blob(Gather(regions, s.mem), s.harness)
  }

  function Restored<I>(regions: seq<Region>, s: State<I>, blob: Blob<I>): State<I>
    requires InMemory(regions, |s.mem|) && Total(regions) <= |blob.bytes|
  {
    State(Scatter(regions, s.mem, blob.bytes), blob.harness)
  }

  /** Restoring a checkpoint taken after any prefix into any state of the process, then stepping any
      suffix, ends like the cold run of prefix and suffix. */
  lemma {:induction false} RestoreIsReplay<I(!new), F(!new), S(!new)>(code: Code<I, F, S>, regions: seq<Region>, cold: State<I>, other: State<I>,
                                       prefix: seq<Input<F>>, suffix: seq<Input<F>>)
    requires Deterministic(code, regions) && InMemory(regions, |cold.mem|) && |other.mem| == |cold.mem|
    ensures |Steps(code, cold, prefix).mem| == |cold.mem|
    ensures var blob := Checkpointed(regions, Steps(code, cold, prefix));
            Same(regions, Steps(code, Restored(regions, other, blob), suffix), Steps(code, cold, prefix + suffix))
  {
    StepsKeepSame(code, regions, cold, cold, prefix);
    var mid := Steps(code, cold, prefix);
    var back := Restored(regions, other, Checkpointed(regions, mid));
    RestoreAgrees(regions, mid.mem, other.mem);
    StepsKeepSame(code, regions, back, mid, suffix);
    StepsConcat(code, cold, prefix, suffix);
  }

  // ----- the state after init

  function Blank<I, F, S>(code: Code<I, F, S>): Harness<I> {
    Harness(code.zero, 0, 0, 0, false, false)
  }

  /** What `semantist_init` makes of a memory whose regions are as recorded. */
  function InitState<I, F, S>(code: Code<I, F, S>, mem: seq<int>, shared: S): Maybe<State<I>> {
    var r := code.setup(mem, Blank(code), shared);
    if r.Given? then Given(State(r.value.mem, Harness(r.value.inst, 0, 0, r.value.ticks, true, false))) else Absent
  }

  /** The setup runs on a harness of zeroes; behind it the process is initialised, with the clock, the frame index and the
      budget flag at zero. */
  lemma {:induction false} InitMeans<I, F, S>(code: Code<I, F, S>, mem: seq<int>, shared: S)
    ensures var r := code.setup(mem, Harness(code.zero, 0, 0, 0, false, false), shared);
            match InitState(code, mem, shared)
            case Absent => r.Absent?
            case Given(s) =>
              && r.Given? && s.mem == r.value.mem && s.harness.inst == r.value.inst && s.harness.loopTicks == r.value.ticks
              && s.harness.vclock == 0 && s.harness.frameIndex == 0 && s.harness.initialized && !s.harness.budgetExceeded
  {
  }

  lemma {:induction false} InitDependsOnRegions<I(!new), F(!new), S(!new)>(code: Code<I, F, S>, regions: seq<Region>,
                                                        m: seq<int>, n: seq<int>, shared: S)
    requires Deterministic(code, regions) && Agree(regions, m, n)
    ensures InitState(code, m, shared).Given? <==> InitState(code, n, shared).Given?
    ensures InitState(code, m, shared).Given? ==>
              Same(regions, InitState(code, m, shared).value, InitState(code, n, shared).value)
  {
  }

  // ----- the process

  class Process<I(!new), F(!new), S(!new)> {
    const regions: seq<Region>
    const code: Code<I, F, S>
    ghost const boot: seq<int>          // memory before the first input
    var mem: seq<int>
    var harness: Harness<I>
    var snapshot: Maybe<seq<int>>

    constructor (rs: seq<Region>, c: Code<I, F, S>, memory: seq<int>)
      requires InMemory(rs, |memory|) && Deterministic(c, rs)
      ensures Valid() && regions == rs && code == c && boot == memory
    {
      regions, code, boot, mem, snapshot := rs, c, memory, memory, Absent;
      harness := Harness(c.zero, 0, 0, 0, false, false);
    }

    /** Until the first reset the regions are as at boot; afterwards the snapshot is. */
    ghost predicate Valid()
      reads this
    {
      Sane() && (snapshot.Absent? ==> Agree(regions, mem, boot))
    }

    ghost predicate Sane()
      reads this
    {
      && |mem| == |boot| && InMemory(regions, |mem|) && Deterministic(code, regions)
      && (snapshot.Given? ==> snapshot.value == Gather(regions, boot))
    }

    function Current(): State<I>
      reads this
    {
      State(mem, harness)
    }

    method Checkpoint() returns (blob: Blob<I>)
      requires Sane()
      ensures blob == Checkpointed(regions, Current())
    {
      var out: seq<int> := [];
      for i := 0 to |regions|
        invariant out == Gather(regions[..i], mem)
      {
        var r := regions[i];
        assert regions[..i + 1][..i] == regions[..i];
        out := out + mem[r.address..r.address + r.size];
      }
      assert regions[..|regions|] == regions;
      blob := Blob(out, harness);
    }

    /** The copy-back loop of `semantist_restore` and of later resets. */
    method CopyBack(bytes: seq<int>)
      requires InMemory(regions, |mem|) && Total(regions) <= |bytes|
      modifies this`mem
      ensures mem == Scatter(regions, old(mem), bytes)
    {
      var cursor := 0;
      for i := 0 to |regions|
        invariant |mem| == old(|mem|) && cursor == Total(regions[..i])
        invariant cursor <= |bytes| && mem == Scatter(regions[..i], old(mem), bytes)
      {
        var r := regions[i];
        NextRegion(regions, i);
        mem := Write(mem, r.address, bytes[cursor..cursor + r.size]);
        cursor := cursor + r.size;
      }
      assert regions[..|regions|] == regions;
    }

    method Restore(blob: Blob<I>)
      requires Sane() && Total(regions) <= |blob.bytes|
      modifies this`mem, this`harness
      ensures Sane() && Current() == Restored(regions, old(Current()), blob)
    {
      CopyBack(blob.bytes);
      harness := blob.harness;
    }

    /** `semantist_state_reset`: record at first, copy back later. */
    method Reset()
      requires Valid()
      modifies this`mem, this`snapshot
      ensures Valid() && snapshot.Given? && Agree(regions, mem, boot)
    {
      if snapshot.Absent? {
        var record: seq<int> := [];
        for i := 0 to |regions|
          invariant record == Gather(regions[..i], mem)
        {
          var r := regions[i];
          assert regions[..i + 1][..i] == regions[..i];
          record := record + mem[r.address..r.address + r.size];
        }
        assert regions[..|regions|] == regions;
        AgreeGathers(regions, mem, boot);
        snapshot := Given(record);
      } else {
        RestoreAgrees(regions, boot, mem);
        CopyBack(snapshot.value);
      }
    }

    /** `semantist_init`: whatever ran before, the captured state is a function of the shared records. */
    method Init(shared: S) returns (ok: bool)
      requires Valid()
      modifies this
      ensures Valid() && snapshot.Given?
      ensures ok <==> InitState(code, boot, shared).Given?
      ensures ok ==> Same(regions, Current(), InitState(code, boot, shared).value)
    {
      Reset();
      harness := Blank(code);
      InitDependsOnRegions(code, regions, mem, boot, shared);
      var r := code.setup(mem, harness, shared);
      if r.Absent? {
        return false;
      }
      mem := r.value.mem;
      harness := harness.(inst := r.value.inst, loopTicks := r.value.ticks);
      harness := harness.(initialized := true, vclock := 0, frameIndex := 0);
      ok := true;
    }

    method Step(input: Input<F>) returns (ok: bool)
      requires Sane()
      modifies this`mem, this`harness
      ensures Sane() && ok == old(harness.initialized)
      ensures Current() == if ok then Stepped(code, old(Current()), input) else old(Current())
    {
      if !harness.initialized {
        return false;
      }
      harness := harness.(vclock := (harness.vclock + input.dt) % WORD,
                          frameIndex := (harness.frameIndex + 1) % WORD,
                          loopTicks := 0);
      var r := code.target(mem, harness, input.frame);
      mem, harness := r.mem, harness.(inst := r.inst, loopTicks := r.ticks);
      ok := true;
    }

    /** One input in a process that has already run any others: the run and its end are those of a
        fresh process. */
    method RunInput(shared: S, inputs: seq<Input<F>>) returns (ok: bool)
      requires Valid()
      modifies this
      ensures Valid() && snapshot.Given?
      ensures ok <==> InitState(code, boot, shared).Given?
      ensures ok ==> Same(regions, Current(), Steps(code, InitState(code, boot, shared).value, inputs))
    {
      Reset();
      ok := Init(shared);
      if !ok {
        return;
      }
      ghost var fresh' := InitState(code, boot, shared).value;
      for i := 0 to |inputs|
        invariant Sane() && snapshot.Given? && harness.initialized
        invariant Same(regions, Current(), Steps(code, fresh', inputs[..i]))
      {
        StepsKeepSame(code, regions, Current(), Steps(code, fresh', inputs[..i]), [inputs[i]]);
        assert Steps(code, Current(), [inputs[i]]) == Stepped(code, Current(), inputs[i]) by {
          assert [inputs[i]][..0] == [];
        }
        StepsConcat(code, fresh', inputs[..i], [inputs[i]]);
        assert inputs[..i + 1] == inputs[..i] + [inputs[i]];
        var stepped := Step(inputs[i]);
      }
      assert inputs[..|inputs|] == inputs;
    }
  }

  lemma {:induction false} NextRegion(regions: seq<Region>, i: nat)
    requires i < |regions|
    ensures regions[..i + 1][..i] == regions[..i]
    ensures Total(regions[..i + 1]) == Total(regions[..i]) + regions[i].size <= Total(regions)
  {
    assert regions[..i + 1][..i] == regions[..i];
    TotalGrows(regions, i + 1);
  }

  lemma {:induction false} TotalGrows(regions: seq<Region>, i: nat)
    requires i <= |regions|
    ensures Total(regions[..i]) <= Total(regions)
    decreases |regions|
  {
    if i == |regions| {
      assert regions[..i] == regions;
    } else {
      assert regions[..|regions| - 1][..i] == regions[..i];
      TotalGrows(regions[..|regions| - 1], i);
    }
  }

  lemma {:induction false} AgreeGathers(regions: seq<Region>, m: seq<int>, n: seq<int>)
    requires Agree(regions, m, n) && InMemory(regions, |m|)
    ensures Gather(regions, m) == Gather(regions, n)
  {
    if regions != [] {
      var front, r := regions[..|regions| - 1], regions[|regions| - 1];
      assert forall i :: 0 <= i < |front| ==> front[i] == regions[i];
      forall a | 0 <= a < |m| && Covered(front, a) ensures Covered(regions, a) {
        var i :| 0 <= i < |front| && Holds(front[i], a);
        assert Holds(regions[i], a);
      }
      AgreeGathers(front, m, n);
      forall a | Holds(r, a) ensures m[a] == n[a] {
        assert Covered(regions, a);
      }
    }
  }
}
