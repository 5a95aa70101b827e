/** The rewriter of compiler/instrumentation/loop_budget.py: where ticks go, and that nothing else changes. */
module LoopBudget {
  import opened ControlFlow

  const TICK := Line(TickCall, NoLabel, false, false, NotTerminator, false, 0, 0, true)
  const DECLARATION := Line(TickDeclaration, NoLabel, false, false, NotTerminator, false, 0, 0, true)

  // ----- _parse_function

  /** Successors left behind by the last terminator line. */
  function LastTargets(lines: seq<Line>): seq<string> {
    if lines == [] then []
    else
      var last := lines[|lines| - 1];
      if last.terminator.Terminator? then last.terminator.labels else LastTargets(lines[..|lines| - 1])
  }

  function CountPhis(lines: seq<Line>): nat {
    if lines == [] then 0
    else CountPhis(lines[..|lines| - 1]) + if lines[|lines| - 1].phi then 1 else 0
  }

  predicate Unlabelled(lines: seq<Line>) {
    forall i :: 0 <= i < |lines| ==> lines[i].start == NoLabel
  }

  /** The block says exactly what its lines say: one label line first, no other label. */
  ghost predicate BlockOf(b: Block) {
    && b.lines != [] && b.lines[0].start == Label(b.name)
    && Unlabelled(b.lines[1..])
    && b.successors == LastTargets(b.lines[1..])
    && b.phis == CountPhis(b.lines[1..])
  }

  function Flatten(blocks: seq<Block>): seq<Line> {
    if blocks == [] then [] else Flatten(blocks[..|blocks| - 1]) + blocks[|blocks| - 1].lines
  }

  ghost predicate ParsedAs(lines: seq<Line>, prefix: seq<Line>, blocks: seq<Block>) {
    && lines == prefix + Flatten(blocks)
    && Unlabelled(prefix)
    && (forall i :: 0 <= i < |blocks| ==> BlockOf(blocks[i]))
  }

  method ParseFunction(lines: seq<Line>) returns (prefix: seq<Line>, blocks: seq<Block>)
    ensures ParsedAs(lines, prefix, blocks)
  {
    prefix, blocks := [], [];
    for i := 0 to |lines|
      invariant ParsedAs(lines[..i], prefix, blocks)
    {
      var line := lines[i];
      SliceNext(lines, i);
      if blocks == [] && line.start == NoLabel {
        GrowPrefix(lines[..i], prefix, line);
        prefix := prefix + [line];
      } else if line.start.Label? {
        OpenBlock(lines[..i], prefix, blocks, line);
        blocks := blocks + [Block(line.start.name, [line], [], 0)];
      } else {
        var current := blocks[|blocks| - 1];
        GrowLast(lines[..i], prefix, blocks, line);
        blocks := blocks[|blocks| - 1 := GrownBlock(current, line)];
      }
    }
    assert lines[..|lines|] == lines;
  }

  function GrownBlock(b: Block, line: Line): Block {
    Block(b.name, b.lines + [line],
          if line.terminator.Terminator? then line.terminator.labels else b.successors,
          b.phis + if line.phi then 1 else 0)
  }

  lemma {:induction false} SliceNext<T>(s: seq<T>, i: nat)
    requires i < |s|
    ensures s[..i + 1] == s[..i] + [s[i]]
  {
  }

  lemma {:induction false} GrowPrefix(lines: seq<Line>, prefix: seq<Line>, line: Line)
    requires ParsedAs(lines, prefix, []) && line.start == NoLabel
    ensures ParsedAs(lines + [line], prefix + [line], [])
  {
  }

  lemma {:induction false} OpenBlock(lines: seq<Line>, prefix: seq<Line>, blocks: seq<Block>, line: Line)
    requires ParsedAs(lines, prefix, blocks) && line.start.Label?
    ensures ParsedAs(lines + [line], prefix, blocks + [Block(line.start.name, [line], [], 0)])
  {
    var more := blocks + [Block(line.start.name, [line], [], 0)];
    assert more[..|more| - 1] == blocks;
  }

  lemma {:induction false} GrowLast(lines: seq<Line>, prefix: seq<Line>, blocks: seq<Block>, line: Line)
    requires ParsedAs(lines, prefix, blocks) && blocks != [] && line.start == NoLabel
    ensures ParsedAs(lines + [line], prefix, blocks[|blocks| - 1 := GrownBlock(blocks[|blocks| - 1], line)])
  {
    var current := blocks[|blocks| - 1];
    var more := blocks[|blocks| - 1 := GrownBlock(current, line)];
    GrowBlock(current, line);
    assert more[..|more| - 1] == blocks[..|blocks| - 1];
  }

  lemma {:induction false} GrowBlock(b: Block, line: Line)
    requires BlockOf(b) && line.start == NoLabel
    ensures BlockOf(GrownBlock(b, line))
  {
    TailGrows(b.lines, line);
    LinesGrow(b.lines[1..], line);
  }

  lemma {:induction false} TailGrows<T>(s: seq<T>, x: T)
    requires s != []
    ensures (s + [x])[0] == s[0] && (s + [x])[1..] == s[1..] + [x]
  {
  }

  lemma {:induction false} LinesGrow(lines: seq<Line>, line: Line)
    requires Unlabelled(lines) && line.start == NoLabel
    ensures Unlabelled(lines + [line])
    ensures LastTargets(lines + [line]) == if line.terminator.Terminator? then line.terminator.labels else LastTargets(lines)
    ensures CountPhis(lines + [line]) == CountPhis(lines) + if line.phi then 1 else 0
  {
    var all := lines + [line];
    assert all[..|all| - 1] == lines;
  }

  predicate LastTerminator(lines: seq<Line>, i: nat) {
    i < |lines| && lines[i].terminator.Terminator? && forall j :: i < j < |lines| ==> lines[j].terminator == NotTerminator
  }

  /** The successors of a block are the labels of its last terminator line. */
  lemma {:induction false} SuccessorsAre(lines: seq<Line>)
    ensures forall i: nat :: LastTerminator(lines, i) ==> LastTargets(lines) == lines[i].terminator.labels
    ensures (forall i :: 0 <= i < |lines| ==> lines[i].terminator == NotTerminator) ==> LastTargets(lines) == []
  {
    if lines != [] && lines[|lines| - 1].terminator == NotTerminator {
      var front := lines[..|lines| - 1];
      SuccessorsAre(front);
      forall i: nat | LastTerminator(lines, i) ensures LastTargets(lines) == lines[i].terminator.labels {
        assert LastTerminator(front, i);
      }
    }
  }

  /** Lines determine their parse. */
  lemma {:induction false} ParseUnique(lines: seq<Line>, p: seq<Line>, bs: seq<Block>, q: seq<Line>, cs: seq<Block>)
    requires ParsedAs(lines, p, bs) && ParsedAs(lines, q, cs)
    ensures p == q && bs == cs
    decreases |bs|
  {
    NoLabelNoBlock(lines, p, bs);
    NoLabelNoBlock(lines, q, cs);
    if bs == [] {
      assert p + [] == p && q + [] == q;
    } else {
      var k := SameLastBlock(lines, p, bs, q, cs);
      var bs', cs' := bs[..|bs| - 1], cs[..|cs| - 1];
      ParseUnique(lines[..k], p, bs', q, cs');
      assert bs == bs' + [bs[|bs| - 1]] && cs == cs' + [cs[|cs| - 1]];
    }
  }

  /** The last block is what follows the last label. */
  lemma {:induction false} SameLastBlock(lines: seq<Line>, p: seq<Line>, bs: seq<Block>, q: seq<Line>, cs: seq<Block>)
    returns (k: nat)
    requires ParsedAs(lines, p, bs) && ParsedAs(lines, q, cs) && bs != [] && cs != []
    ensures k <= |lines| && bs[|bs| - 1] == cs[|cs| - 1]
    ensures ParsedAs(lines[..k], p, bs[..|bs| - 1]) && ParsedAs(lines[..k], q, cs[..|cs| - 1])
  {
    k := LastLabel(lines, p, bs);
    var l := LastLabel(lines, q, cs);
  }

  lemma {:induction false} LastLabel(lines: seq<Line>, p: seq<Line>, bs: seq<Block>) returns (k: nat)
    requires ParsedAs(lines, p, bs) && bs != []
    ensures k < |lines| && lines[k].start.Label? && forall i :: k < i < |lines| ==> lines[i].start == NoLabel
    ensures BlockOf(bs[|bs| - 1]) && bs[|bs| - 1].lines == lines[k..]
    ensures ParsedAs(lines[..k], p, bs[..|bs| - 1])
  {
    var b := bs[|bs| - 1];
    k := |lines| - |b.lines|;
    assert lines[..k] == p + Flatten(bs[..|bs| - 1]) && lines[k..] == b.lines;
    LabelFirst(lines, k, b);
  }

  lemma {:induction false} LabelFirst(lines: seq<Line>, k: nat, b: Block)
    requires k < |lines| && lines[k..] == b.lines && BlockOf(b)
    ensures lines[k].start.Label? && forall i :: k < i < |lines| ==> lines[i].start == NoLabel
  {
    assert lines[k] == b.lines[0];
    assert forall i :: k < i < |lines| ==> lines[i] == b.lines[1..][i - k - 1];
  }

  lemma {:induction false} NoLabelNoBlock(lines: seq<Line>, p: seq<Line>, bs: seq<Block>)
    requires ParsedAs(lines, p, bs)
    ensures bs == [] <==> Unlabelled(lines)
  {
    if bs != [] {
      var b := bs[|bs| - 1];
      var k := |lines| - |b.lines|;
      assert lines[k] == b.lines[0];
    }
  }

  // ----- where ticks go

  function LeadingPhis(lines: seq<Line>): (n: nat)
    ensures n <= |lines| && (forall i :: 0 <= i < n ==> lines[i].phi)
    ensures n < |lines| ==> !lines[n].phi
  {
    if lines == [] || !lines[0].phi then 0 else 1 + LeadingPhis(lines[1..])
  }

  /** A header block gets its tick behind the label and the leading phi lines. */
  function TickedLines(b: Block, headers: set<string>): seq<Line>
    requires b.lines != []
  {
    if b.name in headers then
      [b.lines[0]] + WithTick(b.lines[1..])
    else b.lines
  }

  function WithTick(rest: seq<Line>): seq<Line> {
    rest[..LeadingPhis(rest)] + [TICK] + rest[LeadingPhis(rest)..]
  }

  ghost function Ticked(blocks: seq<Block>, headers: set<string>): (r: seq<Block>)
    requires forall i :: 0 <= i < |blocks| ==> blocks[i].lines != []
    ensures |r| == |blocks|
    ensures forall i :: 0 <= i < |r| ==> r[i] == blocks[i].(lines := TickedLines(blocks[i], headers))
  {
    seq(|blocks|, i requires 0 <= i < |blocks| => blocks[i].(lines := TickedLines(blocks[i], headers)))
  }

  function HeaderBlocks(blocks: seq<Block>, headers: set<string>): nat {
    if blocks == [] then 0
    else HeaderBlocks(blocks[..|blocks| - 1], headers) + if blocks[|blocks| - 1].name in headers then 1 else 0
  }

  /** The lines with a tick in front of the n-th behind the label, the first that does not start with `phi `. */
  predicate TickedAt(lines: seq<Line>, out: seq<Line>, n: nat) {
    && 0 < n <= |lines| && out == lines[..n] + [TICK] + lines[n..]
    && (forall i :: 0 < i < n ==> lines[i].phi) && (n < |lines| ==> !lines[n].phi)
  }

  lemma {:induction false} TickPlaced(b: Block, headers: set<string>)
    requires b.lines != []
    ensures if b.name in headers then exists n: nat :: TickedAt(b.lines, TickedLines(b, headers), n) else TickedLines(b, headers) == b.lines
  {
    if b.name in headers {
      var rest := b.lines[1..];
      var n := 1 + LeadingPhis(rest);
      assert forall i :: 0 < i < |b.lines| ==> b.lines[i] == rest[i - 1];
      assert b.lines[..n] == [b.lines[0]] + rest[..n - 1] && b.lines[n..] == rest[n - 1..];
      assert TickedAt(b.lines, TickedLines(b, headers), n);
    }
  }

  method InstrumentBlock(b: Block, headers: set<string>) returns (out: seq<Line>, count: nat)
    requires b.lines != []
    ensures out == TickedLines(b, headers)
    ensures if b.name in headers then exists n: nat :: TickedAt(b.lines, out, n) else out == b.lines
    ensures count == if b.name in headers then 1 else 0
  {
    var rest := b.lines[1..];
    out, count := [b.lines[0]], 0;
    var inserted := false;
    ghost var at := LeadingPhis(rest);
    for i := 0 to |rest|
      invariant inserted <==> b.name in headers && i > at
      invariant count == if inserted then 1 else 0
      invariant out == [b.lines[0]] + if inserted then rest[..at] + [TICK] + rest[at..i] else rest[..i]
    {
      if b.name in headers && !inserted && !rest[i].phi {
        out := out + [TICK];
        count := count + 1;
        inserted := true;
      }
      SliceNext(rest, i);
      MiddleNext(rest, at, i);
      out := out + [rest[i]];
    }
    assert rest[..|rest|] == rest && rest[at..|rest|] == rest[at..];
    if b.name in headers && !inserted {
      out := out + [TICK];
      count := count + 1;
    }
    TickPlaced(b, headers);
  }

  lemma {:induction false} MiddleNext<T>(s: seq<T>, at: nat, i: nat)
    requires i < |s| && at <= |s|
    ensures at <= i ==> s[at..i + 1] == s[at..i] + [s[i]]
  {
  }

  /** The parse, the headers and the placement behind one rewritten function. */
  ghost predicate InstrumentedBy(body: seq<Line>, out: seq<Line>, count: nat,
                                 prefix: seq<Line>, blocks: seq<Block>, headers: set<string>)
  {
    && ParsedAs(body, prefix, blocks)
    && CutsEveryCycle(Cfg(blocks), headers) && AllOnCycles(Cfg(blocks), headers)
    && out == prefix + Flatten(Ticked(blocks, headers))
    && count == HeaderBlocks(blocks, headers)
  }

  ghost predicate FunctionInstrumented(body: seq<Line>, out: seq<Line>, count: nat) {
    exists prefix, blocks, headers :: InstrumentedBy(body, out, count, prefix, blocks, headers)
  }

  lemma {:induction false} FlattenNext(blocks: seq<Block>, i: nat)
    requires i < |blocks|
    ensures Flatten(blocks[..i + 1]) == Flatten(blocks[..i]) + blocks[i].lines
  {
    assert blocks[..i + 1][..i] == blocks[..i];
  }

  lemma {:induction false} HeadersNext(blocks: seq<Block>, headers: set<string>, i: nat)
    requires i < |blocks|
    ensures HeaderBlocks(blocks[..i + 1], headers) == HeaderBlocks(blocks[..i], headers) + if blocks[i].name in headers then 1 else 0
  {
    assert blocks[..i + 1][..i] == blocks[..i];
  }

  /** The two output loops of `instrument`: plain copy without headers, ticked copy with them. */
  method EmitBlocks(blocks: seq<Block>, headers: set<string>) returns (out: seq<Line>, count: nat)
    requires forall i :: 0 <= i < |blocks| ==> blocks[i].lines != []
    ensures out == Flatten(Ticked(blocks, headers))
    ensures count == HeaderBlocks(blocks, headers)
  {
    out, count := [], 0;
    if headers == {} {
      for i := 0 to |blocks|
        invariant out == Flatten(blocks[..i]) && HeaderBlocks(blocks[..i], headers) == 0
      {
        FlattenNext(blocks, i);
        HeadersNext(blocks, headers, i);
        out := out + blocks[i].lines;
      }
      assert blocks[..|blocks|] == blocks && Ticked(blocks, headers) == blocks;
      return;
    }
    ghost var ticked := Ticked(blocks, headers);
    for i := 0 to |blocks|
      invariant out == Flatten(ticked[..i])
      invariant count == HeaderBlocks(blocks[..i], headers)
    {
      var lines, n := InstrumentBlock(blocks[i], headers);
      FlattenNext(ticked, i);
      HeadersNext(blocks, headers, i);
      out, count := out + lines, count + n;
    }
    assert blocks[..|blocks|] == blocks && ticked[..|blocks|] == ticked;
  }

  method InstrumentFunction(body: seq<Line>) returns (out: seq<Line>, count: nat)
    ensures FunctionInstrumented(body, out, count)
  {
    var prefix, blocks := ParseFunction(body);
    var headers := LoopHeaders(blocks);
    var lines, n := EmitBlocks(blocks, headers);
    out, count := prefix + lines, n;
    assert InstrumentedBy(body, out, count, prefix, blocks, headers);
  }

  // ----- erasing the ticks restores the source

  function Erase(lines: seq<Line>): seq<Line> {
    if lines == [] then []
    else Erase(lines[..|lines| - 1]) + if lines[|lines| - 1].mentionsTick then [] else [lines[|lines| - 1]]
  }

  function CountTicks(lines: seq<Line>): nat {
    if lines == [] then 0
    else CountTicks(lines[..|lines| - 1]) + if lines[|lines| - 1] == TICK then 1 else 0
  }

  predicate Clean(lines: seq<Line>) {
    forall i :: 0 <= i < |lines| ==> !lines[i].mentionsTick
  }

  lemma {:induction false} EraseConcat(a: seq<Line>, b: seq<Line>)
    ensures Erase(a + b) == Erase(a) + Erase(b) && CountTicks(a + b) == CountTicks(a) + CountTicks(b)
    decreases |b|
  {
    if b == [] {
      assert a + b == a;
    } else {
      assert (a + b)[..|a + b| - 1] == a + b[..|b| - 1];
      EraseConcat(a, b[..|b| - 1]);
    }
  }

  lemma {:induction false} EraseClean(lines: seq<Line>)
    requires Clean(lines)
    ensures Erase(lines) == lines && CountTicks(lines) == 0
  {
    if lines != [] {
      EraseClean(lines[..|lines| - 1]);
    }
  }

  lemma {:induction false} InsertedTickErases(x: seq<Line>, y: seq<Line>)
    requires Clean(x) && Clean(y)
    ensures Erase(x + [TICK] + y) == x + y && CountTicks(x + [TICK] + y) == 1
  {
    EraseClean(x);
    EraseClean(y);
    EraseConcat(x, [TICK]);
    EraseConcat(x + [TICK], y);
  }

  lemma {:induction false} TickBehind(first: Line, x: seq<Line>, y: seq<Line>)
    requires !first.mentionsTick && Clean(x) && Clean(y)
    ensures Erase([first] + (x + [TICK] + y)) == [first] + (x + y) && CountTicks([first] + (x + [TICK] + y)) == 1
  {
    InsertedTickErases(x, y);
    EraseClean([first]);
    EraseConcat([first], x + [TICK] + y);
  }

  lemma {:induction false} TickInside(first: Line, rest: seq<Line>, n: nat)
    requires !first.mentionsTick && Clean(rest) && n <= |rest|
    ensures var out := [first] + (rest[..n] + [TICK] + rest[n..]);
            Erase(out) == [first] + rest && CountTicks(out) == 1
  {
    assert rest[..n] + rest[n..] == rest;
    TickBehind(first, rest[..n], rest[n..]);
  }

  lemma {:induction false} BlockErases(b: Block, headers: set<string>)
    requires b.lines != [] && Clean(b.lines)
    ensures Erase(TickedLines(b, headers)) == b.lines
    ensures CountTicks(TickedLines(b, headers)) == if b.name in headers then 1 else 0
  {
    if b.name in headers {
      assert [b.lines[0]] + b.lines[1..] == b.lines;
      TickInside(b.lines[0], b.lines[1..], LeadingPhis(b.lines[1..]));
    } else {
      EraseClean(b.lines);
    }
  }

  lemma {:induction false} BlocksErase(blocks: seq<Block>, headers: set<string>)
    requires forall i :: 0 <= i < |blocks| ==> blocks[i].lines != [] && Clean(blocks[i].lines)
    ensures Erase(Flatten(Ticked(blocks, headers))) == Flatten(blocks)
    ensures CountTicks(Flatten(Ticked(blocks, headers))) == HeaderBlocks(blocks, headers)
  {
    if blocks != [] {
      var front, last := blocks[..|blocks| - 1], blocks[|blocks| - 1];
      BlocksErase(front, headers);
      BlockErases(last, headers);
      FlattenTicked(blocks, headers);
      EraseConcat(Flatten(Ticked(front, headers)), TickedLines(last, headers));
    }
  }

  lemma {:induction false} FlattenTicked(blocks: seq<Block>, headers: set<string>)
    requires blocks != [] && forall i :: 0 <= i < |blocks| ==> blocks[i].lines != []
    ensures var front, last := blocks[..|blocks| - 1], blocks[|blocks| - 1];
            Flatten(Ticked(blocks, headers)) == Flatten(Ticked(front, headers)) + TickedLines(last, headers)
  {
    TickedFront(blocks, headers);
  }

  lemma {:induction false} FlattenClean(blocks: seq<Block>)
    requires Clean(Flatten(blocks))
    ensures forall i :: 0 <= i < |blocks| ==> Clean(blocks[i].lines)
  {
    if blocks != [] {
      var front, last := blocks[..|blocks| - 1], blocks[|blocks| - 1];
      var all := Flatten(blocks);
      assert all == Flatten(front) + last.lines;
      forall i | 0 <= i < |Flatten(front)| ensures !Flatten(front)[i].mentionsTick {
        assert all[i] == Flatten(front)[i];
      }
      forall i | 0 <= i < |last.lines| ensures !last.lines[i].mentionsTick {
        assert all[|Flatten(front)| + i] == last.lines[i];
      }
      FlattenClean(front);
    }
  }

  lemma {:induction false} ParsedClean(body: seq<Line>, prefix: seq<Line>, blocks: seq<Block>)
    requires ParsedAs(body, prefix, blocks) && Clean(body)
    ensures Clean(prefix) && forall i :: 0 <= i < |blocks| ==> blocks[i].lines != [] && Clean(blocks[i].lines)
  {
    assert forall i :: 0 <= i < |prefix| ==> body[i] == prefix[i];
    forall i | 0 <= i < |Flatten(blocks)| ensures !Flatten(blocks)[i].mentionsTick {
      assert body[|prefix| + i] == Flatten(blocks)[i];
    }
    FlattenClean(blocks);
  }

  /** Removing the ticks of a rewritten function gives the function back. */
  lemma {:induction false} FunctionErases(body: seq<Line>, out: seq<Line>, count: nat)
    requires FunctionInstrumented(body, out, count) && Clean(body)
    ensures Erase(out) == body && CountTicks(out) == count
  {
    var prefix, blocks, headers :| InstrumentedBy(body, out, count, prefix, blocks, headers);
    ParsedClean(body, prefix, blocks);
    BlocksErase(blocks, headers);
    EraseClean(prefix);
    EraseConcat(prefix, Flatten(Ticked(blocks, headers)));
  }

  // ----- the whole module

  /** How one stretch of the source went to the output. */
  datatype Part = Copied(line: Line) | Function(body: seq<Line>, out: seq<Line>, ticks: nat)

  ghost predicate GoodPart(part: Part) {
    match part
    case Copied(line) => !line.define
    case Function(body, out, ticks) => WholeBody(body) && FunctionInstrumented(body, out, ticks)
  }

  ghost predicate AllGood(parts: seq<Part>) {
    parts == [] || (AllGood(parts[..|parts| - 1]) && GoodPart(parts[|parts| - 1]))
  }

  function SourceOf(part: Part): seq<Line> {
    if part.Copied? then [part.line] else part.body
  }

  function OutputOf(part: Part, declared: bool): seq<Line> {
    if part.Copied? then [part.line]
    else if declared then part.out else [DECLARATION] + part.out
  }

  function TicksIn(part: Part): nat {
    if part.Copied? then 0 else part.ticks
  }

  function Sources(parts: seq<Part>): seq<Line> {
    if parts == [] then [] else Sources(parts[..|parts| - 1]) + SourceOf(parts[|parts| - 1])
  }

  predicate HasFunction(parts: seq<Part>) {
    parts != [] && (HasFunction(parts[..|parts| - 1]) || parts[|parts| - 1].Function?)
  }

  /** The declaration stands before the first function. */
  function Outputs(parts: seq<Part>): seq<Line> {
    if parts == [] then []
    else
      var front := parts[..|parts| - 1];
      Outputs(front) + OutputOf(parts[|parts| - 1], HasFunction(front))
  }

  function TotalTicks(parts: seq<Part>): nat {
    if parts == [] then 0 else TotalTicks(parts[..|parts| - 1]) + TicksIn(parts[|parts| - 1])
  }

  /** Open braces after the first n lines. */
  function Depth(lines: seq<Line>, n: nat): int
    requires n <= |lines|
  {
    if n == 0 then 0 else Depth(lines, n - 1) + lines[n - 1].opens - lines[n - 1].closes
  }

  /** The braces of the first n lines balance at a closing line. */
  predicate BalancedAt(lines: seq<Line>, n: nat)
    requires 0 < n <= |lines|
  {
    Depth(lines, n) == 0 && lines[n - 1].closes > 0
  }

  predicate OpenBelow(lines: seq<Line>, n: nat)
    requires n <= |lines|
  {
    n <= 1 || (OpenBelow(lines, n - 1) && !BalancedAt(lines, n - 1))
  }

  /** A function body starts at a definition and stops at the first balanced line (or at the end). */
  predicate WholeBody(body: seq<Line>) {
    body != [] && body[0].define && OpenBelow(body, |body|)
  }

  lemma {:induction false} BodyPrefix(body: seq<Line>, more: seq<Line>, n: nat)
    requires n <= |body|
    ensures Depth(body + more, n) == Depth(body, n) && OpenBelow(body + more, n) == OpenBelow(body, n)
  {
    if n > 0 { BodyPrefix(body, more, n - 1); }
  }

  method CollectBody(lines: seq<Line>, start: nat) returns (body: seq<Line>, next: nat)
    requires start < |lines| && lines[start].define
    ensures start < next <= |lines| && body == lines[start..next] && WholeBody(body)
    ensures next == |lines| || BalancedAt(body, |body|)
  {
    body, next := [], start;
    var depth: int := 0;
    while next < |lines|
      invariant start <= next <= |lines| && body == lines[start..next] && depth == Depth(body, |body|)
      invariant OpenBelow(body, |body|) && (body != [] ==> !BalancedAt(body, |body|))
      decreases |lines| - next
    {
      var current := lines[next];
      BodyPrefix(body, [current], |body|);
      body := body + [current];
      depth := depth + current.opens - current.closes;
      next := next + 1;
      if depth == 0 && current.closes > 0 {
        return;
      }
    }
  }

  lemma {:induction false} PartErases(part: Part, declared: bool)
    requires GoodPart(part) && Clean(SourceOf(part))
    ensures Erase(OutputOf(part, declared)) == SourceOf(part)
    ensures CountTicks(OutputOf(part, declared)) == TicksIn(part)
  {
    if part.Copied? {
      EraseClean([part.line]);
    } else {
      FunctionErases(part.body, part.out, part.ticks);
      EraseConcat([DECLARATION], part.out);
    }
  }

  lemma {:induction false} PartsErase(parts: seq<Part>)
    requires Clean(Sources(parts)) && AllGood(parts)
    ensures Erase(Outputs(parts)) == Sources(parts) && CountTicks(Outputs(parts)) == TotalTicks(parts)
  {
    if parts != [] {
      var front, last := parts[..|parts| - 1], parts[|parts| - 1];
      SourcesClean(Sources(front), SourceOf(last));
      PartsErase(front);
      PartErases(last, HasFunction(front));
      EraseBoth(Outputs(front), Sources(front), OutputOf(last, HasFunction(front)), SourceOf(last));
    }
  }

  lemma {:induction false} EraseBoth(a: seq<Line>, x: seq<Line>, b: seq<Line>, y: seq<Line>)
    requires Erase(a) == x && Erase(b) == y
    ensures Erase(a + b) == x + y && CountTicks(a + b) == CountTicks(a) + CountTicks(b)
  {
    EraseConcat(a, b);
  }

  lemma {:induction false} SourcesClean(a: seq<Line>, b: seq<Line>)
    requires Clean(a + b)
    ensures Clean(a) && Clean(b)
  {
    assert forall i :: 0 <= i < |a| ==> (a + b)[i] == a[i];
    assert forall i :: 0 <= i < |b| ==> (a + b)[|a| + i] == b[i];
  }

  lemma {:induction false} SliceJoin<T>(s: seq<T>, a: nat, b: nat)
    requires a <= b <= |s|
    ensures s[..b] == s[..a] + s[a..b]
  {
  }

  lemma {:induction false} AppendPart(parts: seq<Part>, part: Part)
    ensures Sources(parts + [part]) == Sources(parts) + SourceOf(part)
    ensures Outputs(parts + [part]) == Outputs(parts) + OutputOf(part, HasFunction(parts))
    ensures TotalTicks(parts + [part]) == TotalTicks(parts) + TicksIn(part)
    ensures HasFunction(parts + [part]) == (HasFunction(parts) || part.Function?)
    ensures AllGood(parts + [part]) == (AllGood(parts) && GoodPart(part))
  {
    assert (parts + [part])[..|parts|] == parts;
  }

  /** One round of the outer loop: a plain line, or a whole function. */
  method EmitPart(source: seq<Line>, index: nat, declared: bool)
    returns (piece: seq<Line>, ticks: nat, next: nat, ghost part: Part)
    requires index < |source|
    ensures index < next <= |source| && SourceOf(part) == source[index..next] && GoodPart(part)
    ensures piece == OutputOf(part, declared) && ticks == TicksIn(part)
    ensures part.Function? <==> source[index].define
  {
    if !source[index].define {
      part := Copied(source[index]);
      piece, ticks, next := [source[index]], 0, index + 1;
    } else {
      var body;
      body, next := CollectBody(source, index);
      var lines;
      lines, ticks := InstrumentFunction(body);
      piece := (if declared then [] else [DECLARATION]) + lines;
      part := Function(body, lines, ticks);
    }
  }

  // ----- the declaration

  /** The first function of the source starts at line d. */
  predicate FirstDefinition(source: seq<Line>, d: nat) {
    d < |source| && source[d].define && forall i :: 0 <= i < d ==> !source[i].define
  }

  predicate Undeclared(lines: seq<Line>) {
    forall i :: 0 <= i < |lines| ==> lines[i] != DECLARATION
  }

  /** The declaration stands where the first function of the source does, behind what stood before it, and
      nowhere else. */
  predicate DeclaredAt(source: seq<Line>, output: seq<Line>, d: nat) {
    && d < |source| && d < |output|
    && output[..d] == source[..d] && output[d] == DECLARATION
    && Undeclared(output[..d]) && Undeclared(output[d + 1..])
  }

  ghost predicate Declared(source: seq<Line>, output: seq<Line>) {
    && (forall d :: FirstDefinition(source, d) ==> DeclaredAt(source, output, d))
    && ((forall i :: 0 <= i < |source| ==> !source[i].define) ==> output == source)
  }

  lemma {:induction false} CleanUndeclared(lines: seq<Line>)
    requires Clean(lines)
    ensures Undeclared(lines)
  {
  }

  lemma {:induction false} UndeclaredJoin(a: seq<Line>, b: seq<Line>)
    requires Undeclared(a) && Undeclared(b)
    ensures Undeclared(a + b)
  {
  }

  lemma {:induction false} TickUndeclared(lines: seq<Line>, n: nat)
    requires n <= |lines| && Clean(lines)
    ensures Undeclared(lines[..n] + [TICK] + lines[n..])
  {
  }

  lemma {:induction false} BlockUndeclared(b: Block, headers: set<string>)
    requires b.lines != [] && Clean(b.lines)
    ensures Undeclared(TickedLines(b, headers))
  {
    if b.name in headers {
      TickUndeclared(b.lines[1..], LeadingPhis(b.lines[1..]));
      UndeclaredJoin([b.lines[0]], WithTick(b.lines[1..]));
    }
  }

  lemma {:induction false} BlocksUndeclared(blocks: seq<Block>, headers: set<string>)
    requires forall i :: 0 <= i < |blocks| ==> blocks[i].lines != [] && Clean(blocks[i].lines)
    ensures Undeclared(Flatten(Ticked(blocks, headers)))
  {
    if blocks != [] {
      var front, last := blocks[..|blocks| - 1], blocks[|blocks| - 1];
      BlocksUndeclared(front, headers);
      BlockUndeclared(last, headers);
      FlattenTicked(blocks, headers);
      UndeclaredJoin(Flatten(Ticked(front, headers)), TickedLines(last, headers));
    }
  }

  lemma {:induction false} FunctionUndeclared(body: seq<Line>, out: seq<Line>, count: nat)
    requires FunctionInstrumented(body, out, count) && Clean(body)
    ensures Undeclared(out)
  {
    var prefix, blocks, headers :| InstrumentedBy(body, out, count, prefix, blocks, headers);
    ParsedClean(body, prefix, blocks);
    BlocksUndeclared(blocks, headers);
    CleanUndeclared(prefix);
    UndeclaredJoin(prefix, Flatten(Ticked(blocks, headers)));
  }

  /** Before the first function the output is the source; from it on the declaration has been written. */
  ghost predicate DeclaredSoFar(source: seq<Line>, output: seq<Line>, declared: bool) {
    if declared then exists d :: FirstDefinition(source, d) && DeclaredAt(source, output, d)
    else output == source && forall i :: 0 <= i < |source| ==> !source[i].define
  }

  lemma {:induction false} DeclaredLonger(source: seq<Line>, output: seq<Line>, d: nat, x: seq<Line>, y: seq<Line>)
    requires FirstDefinition(source, d) && DeclaredAt(source, output, d) && Undeclared(y)
    ensures FirstDefinition(source + x, d) && DeclaredAt(source + x, output + y, d)
  {
    assert (source + x)[..d] == source[..d] && (output + y)[..d] == output[..d];
    assert (output + y)[d + 1..] == output[d + 1..] + y;
  }

  lemma {:induction false} DeclaredFirst(source: seq<Line>, x: seq<Line>, y: seq<Line>)
    requires Clean(source) && (forall i :: 0 <= i < |source| ==> !source[i].define)
    requires x != [] && x[0].define && Undeclared(y)
    ensures FirstDefinition(source + x, |source|) && DeclaredAt(source + x, source + ([DECLARATION] + y), |source|)
  {
    var out := source + ([DECLARATION] + y);
    assert (source + x)[..|source|] == source && out[..|source|] == source && out[|source| + 1..] == y;
    CleanUndeclared(source);
  }

  lemma {:induction false} PartDeclared(source: seq<Line>, output: seq<Line>, part: Part, declared: bool)
    requires Clean(source) && Clean(SourceOf(part)) && GoodPart(part) && DeclaredSoFar(source, output, declared)
    ensures DeclaredSoFar(source + SourceOf(part), output + OutputOf(part, declared), declared || part.Function?)
  {
    if part.Function? { FunctionUndeclared(part.body, part.out, part.ticks); }
    if declared {
      var d :| FirstDefinition(source, d) && DeclaredAt(source, output, d);
      DeclaredLonger(source, output, d, SourceOf(part), OutputOf(part, declared));
    } else if part.Function? {
      DeclaredFirst(source, part.body, part.out);
    }
  }

  lemma {:induction false} PartsDeclared(parts: seq<Part>)
    requires Clean(Sources(parts)) && AllGood(parts)
    ensures DeclaredSoFar(Sources(parts), Outputs(parts), HasFunction(parts))
  {
    if parts != [] {
      var front, last := parts[..|parts| - 1], parts[|parts| - 1];
      SourcesClean(Sources(front), SourceOf(last));
      PartsDeclared(front);
      PartDeclared(Sources(front), Outputs(front), last, HasFunction(front));
    }
  }

  lemma {:induction false} SoFarIsDeclared(source: seq<Line>, output: seq<Line>, declared: bool)
    requires DeclaredSoFar(source, output, declared)
    ensures Declared(source, output)
  {
    if declared {
      var d :| FirstDefinition(source, d) && DeclaredAt(source, output, d);
      forall e | FirstDefinition(source, e) ensures e == d {
      }
    }
  }

  /** `instrument`: a module that already mentions the tick is returned as it is; otherwise every
      function is rewritten, the count is the number of ticks, and erasing them restores the source. The
      declaration stands before the first function. */
  method Instrument(source: seq<Line>) returns (output: seq<Line>, count: nat, ghost parts: seq<Part>)
    ensures !Clean(source) ==> output == source && count == 0
    ensures Clean(source) ==>
              && Sources(parts) == source && Outputs(parts) == output
              && AllGood(parts)
              && Erase(output) == source && CountTicks(output) == count
              && Declared(source, output)
  {
    output, count, parts := [], 0, [];
    if !Clean(source) {
      return source, 0, [];
    }
    var index, declared := 0, false;
    while index < |source|
      invariant index <= |source| && Sources(parts) == source[..index] && Outputs(parts) == output
      invariant declared == HasFunction(parts) && count == TotalTicks(parts)
      invariant AllGood(parts)
    {
      var piece, ticks, next;
      ghost var part;
      piece, ticks, next, part := EmitPart(source, index, declared);
      declared := declared || source[index].define;
      AppendPart(parts, part);
      SliceJoin(source, index, next);
      parts := parts + [part];
      output, count, index := output + piece, count + ticks, next;
    }
    assert source[..|source|] == source;
    PartsErase(parts);
    PartsDeclared(parts);
    SoFarIsDeclared(source, output, declared);
  }

  // ----- the rewritten function keeps its control flow

  lemma {:induction false} TickKeepsBlock(b: Block, headers: set<string>)
    requires BlockOf(b)
    ensures BlockOf(b.(lines := TickedLines(b, headers)))
  {
    if b.name in headers {
      WithTickReadsAlike(b.lines[1..]);
      assert TickedLines(b, headers)[1..] == WithTick(b.lines[1..]);
    }
  }

  lemma {:induction false} WithTickReadsAlike(rest: seq<Line>)
    ensures LastTargets(WithTick(rest)) == LastTargets(rest)
    ensures CountPhis(WithTick(rest)) == CountPhis(rest)
    ensures Unlabelled(rest) ==> Unlabelled(WithTick(rest))
  {
    var n := LeadingPhis(rest);
    TickInvisible(rest[..n], rest[n..]);
    assert rest[..n] + rest[n..] == rest;
  }

  lemma {:induction false} TickInvisible(x: seq<Line>, y: seq<Line>)
    ensures LastTargets(x + [TICK] + y) == LastTargets(x + y)
    ensures CountPhis(x + [TICK] + y) == CountPhis(x + y)
    decreases |y|
  {
    if y == [] {
      assert x + [TICK] + y == x + [TICK] && (x + [TICK])[..|x|] == x && x + y == x;
    } else {
      var y' := y[..|y| - 1];
      assert (x + [TICK] + y)[..|x| + |y|] == x + [TICK] + y';
      assert (x + y)[..|x| + |y| - 1] == x + y';
      TickInvisible(x, y');
    }
  }

  lemma {:induction false} TickedFront(blocks: seq<Block>, headers: set<string>)
    requires blocks != [] && forall i :: 0 <= i < |blocks| ==> blocks[i].lines != []
    ensures Ticked(blocks, headers)[..|blocks| - 1] == Ticked(blocks[..|blocks| - 1], headers)
  {
  }

  /** The last block of the name. */
  predicate LastNamed(blocks: seq<Block>, l: string, i: nat) {
    i < |blocks| && blocks[i].name == l && forall k :: i < k < |blocks| ==> blocks[k].name != l
  }

  lemma {:induction false} FindLast(blocks: seq<Block>, l: string, n: nat) returns (i: nat)
    requires n <= |blocks| && exists k :: 0 <= k < n && blocks[k].name == l
    ensures i < n && blocks[i].name == l && forall k :: i < k < n ==> blocks[k].name != l
  {
    i := n - 1;
    if blocks[i].name != l {
      i := FindLast(blocks, l, n - 1);
    }
  }

  lemma {:induction false} Named(blocks: seq<Block>, l: string)
    ensures l in ByLabel(blocks) ==> exists k :: 0 <= k < |blocks| && blocks[k].name == l
  {
    if l in ByLabel(blocks) {
      assert ByLabel(blocks)[l] in blocks;
    }
  }

  lemma {:induction false} LookupIs(blocks: seq<Block>, l: string, i: nat)
    requires LastNamed(blocks, l, i)
    ensures l in ByLabel(blocks) && ByLabel(blocks)[l] == blocks[i]
  {
    var n := |blocks| - 1;
    if i < n {
      assert blocks[n].name != l;
      LookupIs(blocks[..n], l, i);
    }
  }

  lemma {:induction false} LastInBoth(blocks: seq<Block>, changed: seq<Block>, l: string) returns (i: nat)
    requires |changed| == |blocks| && forall k :: 0 <= k < |blocks| ==> changed[k].name == blocks[k].name
    requires l in ByLabel(blocks) || l in ByLabel(changed)
    ensures LastNamed(blocks, l, i) && LastNamed(changed, l, i)
  {
    Named(blocks, l);
    Named(changed, l);
    i := FindLast(blocks, l, |blocks|);
  }

  /** Rewriting blocks in place does not change which block a label names. */
  lemma {:induction false} LookupInPlace(blocks: seq<Block>, changed: seq<Block>, l: string) returns (i: nat)
    requires |changed| == |blocks| && forall k :: 0 <= k < |blocks| ==> changed[k].name == blocks[k].name
    requires l in ByLabel(blocks) || l in ByLabel(changed)
    ensures i < |blocks| && l in ByLabel(blocks) && l in ByLabel(changed)
    ensures ByLabel(blocks)[l] == blocks[i] && ByLabel(changed)[l] == changed[i]
  {
    i := LastInBoth(blocks, changed, l);
    LookupIs(blocks, l, i);
    LookupIs(changed, l, i);
  }

  lemma {:induction false} TickedCfg(blocks: seq<Block>, headers: set<string>)
    requires forall i :: 0 <= i < |blocks| ==> blocks[i].lines != [] && Clean(blocks[i].lines)
    ensures Cfg(Ticked(blocks, headers)) == Cfg(blocks)
    ensures TicksAtHeaders(Ticked(blocks, headers), headers)
  {
    SameCfg(blocks, headers);
    forall l | l in ByLabel(Ticked(blocks, headers)) ensures TicksOf(Ticked(blocks, headers), l) == if l in headers then 1 else 0 {
      LabelTicked(blocks, headers, l);
    }
  }

  lemma {:induction false} SameCfg(blocks: seq<Block>, headers: set<string>)
    requires forall i :: 0 <= i < |blocks| ==> blocks[i].lines != [] && Clean(blocks[i].lines)
    ensures Cfg(Ticked(blocks, headers)) == Cfg(blocks)
  {
    var a, b := Cfg(Ticked(blocks, headers)), Cfg(blocks);
    forall l | l in a || l in b ensures l in a && l in b && a[l] == b[l] {
      LabelTicked(blocks, headers, l);
    }
  }

  lemma {:induction false} LabelTicked(blocks: seq<Block>, headers: set<string>, l: string)
    requires forall i :: 0 <= i < |blocks| ==> blocks[i].lines != [] && Clean(blocks[i].lines)
    requires l in ByLabel(blocks) || l in ByLabel(Ticked(blocks, headers))
    ensures var ticked := Ticked(blocks, headers);
            && l in ByLabel(blocks) && l in ByLabel(ticked)
            && ByLabel(ticked)[l].successors == ByLabel(blocks)[l].successors
            && TicksOf(ticked, l) == if l in headers then 1 else 0
  {
    var i := LookupInPlace(blocks, Ticked(blocks, headers), l);
    BlockErases(blocks[i], headers);
  }

  lemma {:induction false} TickedParsed(body: seq<Line>, prefix: seq<Line>, blocks: seq<Block>, headers: set<string>)
    requires ParsedAs(body, prefix, blocks)
    ensures ParsedAs(prefix + Flatten(Ticked(blocks, headers)), prefix, Ticked(blocks, headers))
  {
    var ticked := Ticked(blocks, headers);
    forall i | 0 <= i < |ticked| ensures BlockOf(ticked[i]) {
      TickKeepsBlock(blocks[i], headers);
    }
  }

  /** Ticks executed by one visit of the block `l`. */
  function TicksOf(blocks: seq<Block>, l: string): nat
    requires l in ByLabel(blocks)
  {
    CountTicks(ByLabel(blocks)[l].lines)
  }

  /** Exactly one tick in each block of a header label, none elsewhere. */
  ghost predicate TicksAtHeaders(blocks: seq<Block>, headers: set<string>) {
    forall l :: l in ByLabel(blocks) ==> TicksOf(blocks, l) == if l in headers then 1 else 0
  }

  ghost predicate TicksCutCycles(blocks: seq<Block>, headers: set<string>) {
    && TicksAtHeaders(blocks, headers)
    && CutsEveryCycle(Cfg(blocks), headers) && AllOnCycles(Cfg(blocks), headers)
  }

  /** Reading the rewritten function back gives the control flow of the original; each of its cycles
      passes a block with a tick, and blocks off every cycle have none. */
  lemma {:induction false} InstrumentedParse(body: seq<Line>, out: seq<Line>, count: nat, prefix: seq<Line>, blocks: seq<Block>)
    requires FunctionInstrumented(body, out, count) && Clean(body) && ParsedAs(out, prefix, blocks)
    ensures exists original :: ParsedAs(body, prefix, original) && Cfg(original) == Cfg(blocks)
    ensures exists headers :: TicksCutCycles(blocks, headers)
  {
    var p, original, headers :| InstrumentedBy(body, out, count, p, original, headers);
    TickedParsed(body, p, original, headers);
    ParseUnique(out, prefix, blocks, p, Ticked(original, headers));
    ParsedClean(body, p, original);
    TickedCfg(original, headers);
    assert ParsedAs(body, prefix, original) && TicksCutCycles(blocks, headers);
  }

  // ----- ticks and the phi instructions of LLVM

  /** An LLVM phi names its result first, so its line does not start with "phi ". */
  predicate Llvm(lines: seq<Line>) {
    forall i :: 0 <= i < |lines| ==> (lines[i].node ==> !lines[i].phi)
  }

  /** A phi instruction stands behind a tick, where LLVM does not allow it. */
  predicate PhiAfterTick(lines: seq<Line>) {
    exists i, j :: 0 <= i < j < |lines| && lines[i].mentionsTick && lines[j].node
  }

  /** The tick of a block stands before a phi instruction exactly when the block is a header with a phi. */
  lemma {:induction false} PhiAfterTickExactly(b: Block, headers: set<string>)
    requires b.lines != [] && Clean(b.lines) && Llvm(b.lines)
    ensures PhiAfterTick(TickedLines(b, headers))
       <==> b.name in headers && exists i :: 1 <= i < |b.lines| && b.lines[i].node
  {
    var lines, rest := TickedLines(b, headers), b.lines[1..];
    if b.name in headers {
      var at := 1 + LeadingPhis(rest);
      assert forall i :: 0 <= i < at ==> lines[i] == b.lines[i];
      assert lines[at] == TICK;
      assert forall i :: at < i < |lines| ==> lines[i] == b.lines[i - 1];
      if i :| 1 <= i < |b.lines| && b.lines[i].node {
        assert rest[i - 1] == b.lines[i];
        assert at <= i && lines[i + 1] == b.lines[i];
      }
    }
  }

  /** So a rewritten function keeps its phi instructions in front exactly when no header block has one. */
  lemma {:induction false} PhisKeptExactly(blocks: seq<Block>, headers: set<string>)
    requires forall i :: 0 <= i < |blocks| ==> blocks[i].lines != [] && Clean(blocks[i].lines) && Llvm(blocks[i].lines)
    ensures (exists i :: 0 <= i < |blocks| && PhiAfterTick(Ticked(blocks, headers)[i].lines))
       <==> exists i, j :: 0 <= i < |blocks| && blocks[i].name in headers && 1 <= j < |blocks[i].lines| && blocks[i].lines[j].node
  {
    forall i | 0 <= i < |blocks|
      ensures PhiAfterTick(Ticked(blocks, headers)[i].lines)
         <==> blocks[i].name in headers && exists j :: 1 <= j < |blocks[i].lines| && blocks[i].lines[j].node
    {
      PhiAfterTickExactly(blocks[i], headers);
    }
  }

  /** A header block with one phi instruction: the tick goes in front of it. */
  lemma {:induction false} TickBeforePhi(b: Block, headers: set<string>, opening: Line, phi: Line)
    requires b.name in headers && b.lines == [opening, phi] && phi.node && !phi.phi
    ensures TickedLines(b, headers) == [opening, TICK, phi]
    ensures PhiAfterTick(TickedLines(b, headers))
  {
    assert b.lines[1..] == [phi] && LeadingPhis([phi]) == 0;
    assert TickedLines(b, headers)[1].mentionsTick && TickedLines(b, headers)[2].node;
  }
}
