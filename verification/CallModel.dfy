/** The parts of an STG model that the effect analyses read. Names are keys that have already been
    brought to upper case. */
module CallModel {
  import opened Wrappers
  import opened Graphs

  datatype Role = PersistentState | InOut | Global | External | OtherRole

  datatype Symbol = Symbol(role: Role, constant: bool)

  /** `stateful`: the effect domains meet clock, io, persistent_state or shared_state. */
  datatype Call<K> = Call(callee: Maybe<K>, external: bool, writes: bool, stateful: bool)

  /** `pointerStore`: some assignment of the POU writes through a dereference. */
  datatype Pou<K> = Pou(name: Maybe<K>, qualified: Maybe<K>, isFunction: bool, pointerStore: bool,
                        symbols: seq<Symbol>, calls: seq<Call<K>>, stateful: bool)

  function Key<K>(name: Maybe<K>): set<K> {
    if name.Given? then {name.value} else {}
  }

  function Names<K>(p: Pou<K>): set<K> {
    Key(p.name) + Key(p.qualified)
  }

  /** The dictionary from names to POUs: a later POU wins. */
  function ByName<K(==)>(pous: seq<Pou<K>>): map<K, Pou<K>> {
    if pous == [] then map[]
    else
      var last := pous[|pous| - 1];
      ByName(pous[..|pous| - 1]) + map k | k in Names(last) :: last
  }

  /** Callees of the calls that are not external. */
  function Callees<K>(calls: seq<Call<K>>): seq<K> {
    if calls == [] then []
    else
      var last := calls[|calls| - 1];
      Callees(calls[..|calls| - 1]) + if !last.external && last.callee.Given? then [last.callee.value] else []
  }

  function CallGraph<K(==)>(m: map<K, Pou<K>>): Graph<K> {
    map k | k in m :: Callees(m[k].calls)
  }

  lemma {:induction false} CalleesExact<K>(calls: seq<Call<K>>, k: K)
    ensures k in Callees(calls)
       <==> exists i :: 0 <= i < |calls| && !calls[i].external && calls[i].callee == Given(k)
  {
    if calls != [] {
      var n := |calls| - 1;
      CalleesExact(calls[..n], k);
      assert forall i :: 0 <= i < n ==> calls[..n][i] == calls[i];
    }
  }
}
