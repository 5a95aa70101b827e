/** Loop-header marking of compiler/instrumentation/loop_budget.py: the depth-first search over
    the labelled blocks of one function. */
module ControlFlow {
  import opened Arithmetic
  import opened Graphs

  /** One IR line with what the regular expressions and prefix tests of the pass say about it. */
  datatype Line = Line(
    text: Text,
    start: LabelOf,              // LABEL_RE
    phi: bool,                   // stripped line starts with "phi "
    node: bool,                  // an LLVM phi instruction, "%x = phi ..."
    terminator: Targets,         // stripped line starts with a terminator prefix
    define: bool,                // DEFINE_RE
    opens: nat, closes: nat,     // counts of '{' and '}'
    mentionsTick: bool)          // contains "@__semantist_loop_tick"

  /** A line of the module, or one of the two lines the pass adds: the call
      `call void @__semantist_loop_tick()` and its declaration. */
  datatype Text = Source(chars: string) | TickCall | TickDeclaration

  datatype LabelOf = NoLabel | Label(name: string)
  datatype Targets = NotTerminator | Terminator(labels: seq<string>)

  datatype Block = Block(name: string, lines: seq<Line>, successors: seq<string>, phis: nat)

  /** The dictionary from labels to blocks: the last block of a label wins. */
  function ByLabel(blocks: seq<Block>): (m: map<string, Block>)
    ensures forall b :: b in blocks ==> b.name in m
    ensures forall l :: l in m ==> m[l] in blocks && m[l].name == l
  {
    if blocks == [] then map[]
    else
      var last := blocks[|blocks| - 1];
      ByLabel(blocks[..|blocks| - 1])[last.name := last]
  }

  /** The control-flow graph the search walks. */
  function Cfg(blocks: seq<Block>): Graph<string> {
    var m := ByLabel(blocks);
    map l | l in m :: m[l].successors
  }

  /** Every cycle runs through a block of `headers`. */
  ghost predicate CutsEveryCycle<L(!new)>(g: Graph<L>, headers: set<L>) {
    forall w :: Cycle(g, w) ==> exists i :: 0 <= i < |w| && w[i] in headers
  }

  ghost predicate AllOnCycles<L(!new)>(g: Graph<L>, headers: set<L>) {
    forall h :: h in headers ==> OnCycle(g, h)
  }

  const OPEN := 1
  const DONE := 2

  /** The variables that the nested `visit` shares with `loop_headers`. */
  class HeaderSearch<L(==, !new)> {
    const graph: Graph<L>
    var state: map<L, int>
    var stack: seq<L>
    var headers: set<L>
    ghost var finish: map<L, nat>   // when each finished visit returned
    ghost var clock: nat

    constructor (g: Graph<L>)
      ensures Valid() && graph == g
      ensures state == map[] && stack == [] && headers == {}
    {
      graph := g;
      state, stack, headers, finish, clock := map[], [], {}, map[], 0;
    }

    ghost predicate Valid()
      reads this
    {
      && finish.Keys <= state.Keys <= graph.Keys
      && (forall l :: l in state ==> state[l] == if l in finish then DONE else OPEN)
      && (forall l :: l in stack <==> l in state && l !in finish)
      && (forall l :: l in finish ==> finish[l] < clock)
      && (stack == [] || Walk(graph, stack))
      && AllOnCycles(graph, headers)
      && Settled(graph, finish, headers)
    }

    method Visit(name: L)
      requires Valid() && name in graph && name !in state
      requires stack != [] ==> Edge(graph, stack[|stack| - 1], name)
      modifies this
      ensures Valid() && stack == old(stack)
      ensures name in finish && Kept(old(finish), finish)
      ensures old(state.Keys) <= state.Keys && old(headers) <= headers
      ensures forall h :: h in headers ==> h in old(headers) || h in stack || h !in old(state)
      decreases graph.Keys - state.Keys, 0
    {
      Enter(name);
      assert name in old(graph.Keys - state.Keys);
      FollowSuccessors(name);
      Leave(name);
    }

    method Enter(name: L)
      requires Valid() && name in graph && name !in state
      requires stack != [] ==> Edge(graph, stack[|stack| - 1], name)
      modifies this`state, this`stack
      ensures Valid() && stack == old(stack) + [name] && state == old(state)[name := OPEN]
    {
      if stack != [] {
        WalkAppend(graph, stack, name);
      }
      state := state[name := OPEN];
      stack := stack + [name];
    }

    method Leave(name: L)
      requires Valid() && stack != [] && stack[|stack| - 1] == name && name !in stack[..|stack| - 1]
      requires forall v :: Edge(graph, name, v) ==> v in headers || v in finish
      modifies this`state, this`stack, this`finish, this`clock
      ensures Valid() && stack == old(stack)[..|old(stack)| - 1] && state == old(state)[name := DONE]
      ensures finish.Keys == old(finish.Keys) + {name} && Kept(old(finish), finish)
    {
      if |stack| > 1 {
        WalkSlice(graph, stack, 0, |stack| - 1);
      }
      stack := stack[..|stack| - 1];
      state := state[name := DONE];
      finish := finish[name := clock];
      clock := clock + 1;
    }

    method FollowSuccessors(name: L)
      requires Valid() && stack != [] && stack[|stack| - 1] == name && name in graph
      modifies this
      ensures Valid() && stack == old(stack)
      ensures Kept(old(finish), finish)
      ensures old(state.Keys) <= state.Keys && old(headers) <= headers
      ensures forall v :: Edge(graph, name, v) ==> (v in stack && v in headers) || v in finish
      ensures forall h :: h in headers ==> h in old(headers) || h in stack || h !in old(state)
      decreases graph.Keys - state.Keys, 1
    {
      var i := 0;
      while i < |graph[name]|
        invariant i <= |graph[name]|
        invariant Valid() && stack == old(stack)
        invariant Kept(old(finish), finish)
        invariant old(state.Keys) <= state.Keys && old(headers) <= headers
        invariant forall j :: 0 <= j < i && graph[name][j] in graph
                    ==> (graph[name][j] in stack && graph[name][j] in headers) || graph[name][j] in finish
        invariant forall h :: h in headers ==> h in old(headers) || h in stack || h !in old(state)
      {
        var successor := graph[name][i];
        if successor in graph {
          if successor in state && state[successor] == OPEN {
            StackClosesCycle(graph, stack, successor);
            headers := headers + {successor};
          } else if successor !in state {
            Visit(successor);
          }
        }
        i := i + 1;
      }
    }

    /** The outer loop: visit every block that an earlier visit has not reached. */
    method VisitAll(roots: seq<L>)
      requires Valid() && stack == [] && forall r :: r in roots ==> r in graph
      modifies this
      ensures Valid() && stack == [] && forall r :: r in roots ==> r in finish
    {
      var i := 0;
      while i < |roots|
        invariant i <= |roots| && Valid() && stack == []
        invariant forall j :: 0 <= j < i ==> roots[j] in finish
      {
        if roots[i] !in state {
          Visit(roots[i]);
        }
        i := i + 1;
      }
    }
  }

  /** Blocks that have finished keep their finish times. */
  ghost predicate Kept<L>(before: map<L, nat>, after: map<L, nat>) {
    before.Keys <= after.Keys && forall l :: l in before ==> after[l] == before[l]
  }

  /** An edge out of a finished block leads to a header or to a block that finished earlier. */
  ghost predicate Settled<L(!new)>(g: Graph<L>, finish: map<L, nat>, headers: set<L>) {
    forall u, v :: Edge(g, u, v) && u in finish
      ==> v in headers || (v in finish && finish[v] < finish[u])
  }

  /** The stack from an open block to the top, closed by an edge back, is a cycle. */
  lemma {:induction false} StackClosesCycle<L(!new)>(g: Graph<L>, stack: seq<L>, target: L)
    requires Walk(g, stack) && target in stack && Edge(g, stack[|stack| - 1], target)
    ensures OnCycle(g, target)
  {
    var p :| 0 <= p < |stack| && stack[p] == target;
    WalkSlice(g, stack, p, |stack|);
    assert WalkFromTo(g, stack[p..|stack|], target, stack[|stack| - 1]);
    BackEdge(g, stack[|stack| - 1], target);
  }

  /** Finish times fall along every header-free walk. */
  lemma {:induction false} HeaderFreeFalls<L(!new)>(g: Graph<L>, finish: map<L, nat>, headers: set<L>,
                                                    w: seq<L>, n: nat)
    requires Settled(g, finish, headers) && Walk(g, w) && n < |w| && w[0] in finish
    requires forall i :: 0 <= i < |w| ==> w[i] !in headers
    ensures w[n] in finish && finish[w[n]] + n <= finish[w[0]]
  {
    if n > 0 {
      HeaderFreeFalls(g, finish, headers, w, n - 1);
      assert StepAt(g, w, n - 1);
    }
  }

  lemma {:induction false} SettledCuts<L(!new)>(g: Graph<L>, finish: map<L, nat>, headers: set<L>)
    requires Settled(g, finish, headers) && g.Keys <= finish.Keys
    ensures CutsEveryCycle(g, headers)
  {
    forall w | Cycle(g, w)
      ensures exists i :: 0 <= i < |w| && w[i] in headers
    {
      if forall i :: 0 <= i < |w| ==> w[i] !in headers {
        HeaderFreeFalls(g, finish, headers, w, |w| - 1);
        assert false;
      }
    }
  }

  /** `loop_headers`: every cycle of the block graph contains a returned header, and every returned
      header lies on a cycle. */
  method LoopHeaders(blocks: seq<Block>) returns (headers: set<string>)
    ensures CutsEveryCycle(Cfg(blocks), headers)
    ensures AllOnCycles(Cfg(blocks), headers)
  {
    var search := new HeaderSearch<string>(Cfg(blocks));
    var names := seq(|blocks|, i requires 0 <= i < |blocks| => blocks[i].name);
    forall l | l in names ensures l in search.graph {
      var i :| 0 <= i < |blocks| && names[i] == l;
      assert blocks[i] in blocks;
    }
    search.VisitAll(names);
    headers := search.headers;
    forall l | l in search.graph ensures l in search.finish {
      var i :| 0 <= i < |blocks| && blocks[i] == ByLabel(blocks)[l];
      assert names[i] == l;
    }
    SettledCuts(search.graph, search.finish, headers);
  }

  /** Straight-line functions get no header at all. */
  lemma {:induction false} AcyclicNeedsNoHeader(g: Graph<string>, headers: set<string>)
    requires CutsEveryCycle(g, headers) && AllOnCycles(g, headers)
    ensures Acyclic(g) <==> headers == {}
  {
    if h :| h in headers {
      assert OnCycle(g, h);
    }
  }

  // ----- how long a walk can be between headers

  function Visits<L(==)>(w: seq<L>, headers: set<L>): nat {
    if w == [] then 0
    else Visits(w[..|w| - 1], headers) + if w[|w| - 1] in headers then 1 else 0
  }

  /** Between two visits of one block a header is entered. */
  lemma {:induction false} RepeatEntersHeader<L(!new)>(g: Graph<L>, headers: set<L>, w: seq<L>, i: nat, j: nat)
    requires CutsEveryCycle(g, headers) && Walk(g, w) && i < j < |w| && w[i] == w[j]
    ensures exists k :: i < k <= j && w[k] in headers
  {
    RepeatIsCycle(g, w, i, j);
    var c := w[i..j + 1];
    var k :| 0 <= k < |c| && c[k] in headers;
    assert w[if k == 0 then j else i + k] in headers;
  }

  /** A walk that meets headers nowhere but at its start repeats no block. */
  lemma {:induction false} HeaderFreeIsShort<L(!new)>(g: Graph<L>, headers: set<L>, w: seq<L>)
    requires CutsEveryCycle(g, headers) && Walk(g, w)
    requires forall i :: 1 <= i < |w| ==> w[i] !in headers
    ensures |w| <= |g|
  {
    if i, j :| 0 <= i < j < |w| && w[i] == w[j] {
      RepeatEntersHeader(g, headers, w, i, j);
      assert false;
    }
    DistinctWithin(w, g.Keys);
  }

  /** With cut cycles, a walk with h header visits has at most (h + 1) * n blocks. */
  lemma {:induction false} WalkBound<L(!new)>(g: Graph<L>, headers: set<L>, w: seq<L>)
    requires CutsEveryCycle(g, headers) && Walk(g, w)
    ensures |w| <= Times(Visits(w, headers) + 1, |g|)
    decreases |w|
  {
    if forall i :: 1 <= i < |w| ==> w[i] !in headers {
      HeaderFreeIsShort(g, headers, w);
      TimesMonotone(1, Visits(w, headers) + 1, |g|);
    } else {
      var p := LastHeader(headers, w);
      WalkSlice(g, w, 0, p);
      WalkSlice(g, w, p, |w|);
      assert w[0..p] == w[..p] && w[p..|w|] == w[p..];
      WalkBound(g, headers, w[..p]);
      HeaderFreeIsShort(g, headers, w[p..]);
      VisitsGrow(w, headers, p, |w|);
      TimesMonotone(Visits(w[..p], headers) + 2, Visits(w, headers) + 1, |g|);
    }
  }

  /** A header visit at p counts in every longer prefix. */
  lemma {:induction false} VisitsGrow<L>(w: seq<L>, headers: set<L>, p: nat, q: nat)
    requires p < q <= |w| && w[p] in headers
    ensures Visits(w[..q], headers) >= Visits(w[..p], headers) + 1
    ensures w[..|w|] == w
    decreases q
  {
    assert w[..q][..q - 1] == w[..q - 1];
    if q > p + 1 {
      VisitsGrow(w, headers, p, q - 1);
    }
  }

  lemma {:induction false} LastHeader<L>(headers: set<L>, w: seq<L>) returns (p: nat)
    requires exists i :: 1 <= i < |w| && w[i] in headers
    ensures 1 <= p < |w| && w[p] in headers && forall i :: p < i < |w| ==> w[i] !in headers
  {
    p := |w| - 1;
    while w[p] !in headers
      invariant 1 <= p < |w| && (exists i :: 1 <= i <= p && w[i] in headers)
      invariant forall i :: p < i < |w| ==> w[i] !in headers
      decreases p
    {
      p := p - 1;
    }
  }
}
