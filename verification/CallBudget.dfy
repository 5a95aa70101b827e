/** The call-budget reservation of fuzzer/llm/client.py as a state machine: each event is one block
    under the state lock (or the cache lookup before it), and a run is any interleaving. */
module CallBudget {

  /** Threads inside `complete`: `pending` between reservation and counting (a retry stays pending),
      `counted` between counting and the final release. */
  datatype Client = Client(maxCalls: int, calls: nat, inFlight: int, tokens: int,
                           pending: set<int>, counted: set<int>)

  datatype Event =
    | CacheHit(thread: int)               // answered before any lock is taken
    | Refuse(thread: int)                 // "LLM call budget exhausted"
    | Reserve(thread: int)
    | Count(thread: int, used: int)       // a response arrived
    | Release(thread: int)                // the finally block, after success or failure

  predicate Outside(s: Client, t: int) {
    t !in s.pending && t !in s.counted
  }

  predicate Enabled(s: Client, e: Event) {
    match e
    case CacheHit(t) => Outside(s, t)
    case Refuse(t) => Outside(s, t) && s.calls + s.inFlight >= s.maxCalls
    case Reserve(t) => Outside(s, t) && s.calls + s.inFlight < s.maxCalls
    case Count(t, _) => t in s.pending
    case Release(t) => !Outside(s, t)
  }

  function Max(a: int, b: int): int {
    if a < b then b else a
  }

  function Apply(s: Client, e: Event): Client {
    match e
    case CacheHit(t) => s
    case Refuse(t) => s
    case Reserve(t) => s.(inFlight := s.inFlight + 1, pending := s.pending + {t})
    case Count(t, used) =>
      s.(calls := s.calls + 1, tokens := s.tokens + used, pending := s.pending - {t}, counted := s.counted + {t})
    case Release(t) => s.(inFlight := Max(0, s.inFlight - 1), pending := s.pending - {t}, counted := s.counted - {t})
  }

  function Initial(maxCalls: int): Client {
    Client(maxCalls, 0, 0, 0, {}, {})
  }

  /** calls + pending reservations never exceed the limit; in_flight counts both kinds of thread. */
  predicate Invariant(s: Client) {
    && s.pending !! s.counted
    && s.calls + |s.pending| <= Max(0, s.maxCalls)
    && s.inFlight == |s.pending| + |s.counted|
  }

  /** A run of enabled events and the states it passes. */
  ghost predicate Run(states: seq<Client>, events: seq<Event>) {
    && |states| == |events| + 1
    && forall i :: 0 <= i < |events| ==> Enabled(states[i], events[i]) && states[i + 1] == Apply(states[i], events[i])
  }

  lemma {:induction false} StepKeepsInvariant(s: Client, e: Event)
    requires Invariant(s) && Enabled(s, e)
    ensures Invariant(Apply(s, e)) && Apply(s, e).maxCalls == s.maxCalls
    ensures e.Release? ==> Apply(s, e).inFlight == s.inFlight - 1
  {
    if e.Release? {
      var t := e.thread;
      assert t in s.pending ==> s.counted - {t} == s.counted;
      assert t in s.counted ==> s.pending - {t} == s.pending;
    }
  }

  function Counts(events: seq<Event>): nat {
    if events == [] then 0 else Counts(events[..|events| - 1]) + if events[|events| - 1].Count? then 1 else 0
  }

  /** The tokens that the counted responses report. */
  function Used(events: seq<Event>): int {
    if events == [] then 0 else Used(events[..|events| - 1]) + if events[|events| - 1].Count? then events[|events| - 1].used else 0
  }

  /** In every interleaving: `calls` is the number of counted responses and never exceeds the limit, `tokens`
      is what they report, and `_in_flight` is the number of threads between reservation and release. */
  lemma {:induction false} EveryRunWithinBudget(states: seq<Client>, events: seq<Event>, maxCalls: int, k: nat)
    requires Run(states, events) && states[0] == Initial(maxCalls) && k < |states|
    ensures Invariant(states[k]) && states[k].maxCalls == maxCalls
    ensures states[k].calls == Counts(events[..k]) <= Max(0, maxCalls) && states[k].tokens == Used(events[..k])
    ensures states[k].inFlight == |states[k].pending + states[k].counted|
  {
    if k > 0 {
      EveryRunWithinBudget(states, events, maxCalls, k - 1);
      StepKeepsInvariant(states[k - 1], events[k - 1]);
      assert events[..k][..k - 1] == events[..k - 1];
    }
  }

  /** The max(0, ...) clamp never acts: a release always takes exactly one from `_in_flight`. */
  lemma {:induction false} ClampNeverActs(states: seq<Client>, events: seq<Event>, maxCalls: int, k: nat)
    requires Run(states, events) && states[0] == Initial(maxCalls) && k < |events| && events[k].Release?
    ensures states[k].inFlight >= 1 && states[k + 1].inFlight == states[k].inFlight - 1
  {
    EveryRunWithinBudget(states, events, maxCalls, k);
    StepKeepsInvariant(states[k], events[k]);
  }

  /** When all threads are outside, nothing stays reserved. */
  lemma {:induction false} QuiescentIsZero(states: seq<Client>, events: seq<Event>, maxCalls: int, k: nat)
    requires Run(states, events) && states[0] == Initial(maxCalls) && k < |states|
    requires forall t :: Outside(states[k], t)
    ensures states[k].inFlight == 0
  {
    EveryRunWithinBudget(states, events, maxCalls, k);
    forall t ensures t !in states[k].pending + states[k].counted {
      assert Outside(states[k], t);
    }
    assert states[k].pending + states[k].counted == {};
  }

  /** Calls of the limit that are neither made nor reserved. */
  function Left(s: Client): int {
    s.maxCalls - s.calls - |s.pending|
  }

  /** A refusal is justified when no call is left. */
  predicate JustifiedRefusal(s: Client, t: int) {
    Enabled(s, Refuse(t)) ==> Left(s) <= 0
  }

  /** In every reachable state a refusal is early exactly when calls are left, but no more than there are
      threads between counting and release: these are counted twice. */
  lemma {:induction false} RefusalExact(states: seq<Client>, events: seq<Event>, maxCalls: int, k: nat, t: int)
    requires Run(states, events) && states[0] == Initial(maxCalls) && k < |states| && Outside(states[k], t)
    ensures JustifiedRefusal(states[k], t) <==> !(0 < Left(states[k]) <= |states[k].counted|)
    ensures Enabled(states[k], Refuse(t)) != Enabled(states[k], Reserve(t))
  {
    EveryRunWithinBudget(states, events, maxCalls, k);
  }

  /** A run into such a state: one of two calls is made, and a second thread is refused. */
  lemma {:induction false} EarlyRefusal() returns (states: seq<Client>, events: seq<Event>)
    ensures Run(states, events) && states[0] == Initial(2) && |events| == 3 && events[2] == Refuse(1)
    ensures 0 < Left(states[2]) <= |states[2].counted| && !JustifiedRefusal(states[2], 1)
  {
    events := [Reserve(0), Count(0, 7), Refuse(1)];
    var s0 := Initial(2);
    var s1 := Apply(s0, events[0]);
    var s2 := Apply(s1, events[1]);
    states := [s0, s1, s2, s2];
    assert s2.pending == {} && s2.counted == {0};
    assert forall i :: 0 <= i < 3 ==> Enabled(states[i], events[i]) && states[i + 1] == Apply(states[i], events[i]);
  }
}
