/**
The concurrent hasher of pkg/bmt/bmt.go as a state machine.  One step is one node write, one
atomic toggle, one hash, or one call of the writing goroutine; steps of all goroutines interleave freely.
*/
module BmtProtocol {
  import opened Common
  import opened BmtTree

  /** Contents of one node of the shared tree; `state` is the int32 behind toggle(). */
  datatype NodeState = NodeState(left: Bytes, right: Bytes, state: int)

  /**
  A section goroutine, by what it does next.  `lvl` is the height of the node it works on
  (height conf.depth stands for the nil parent of the root).  Only the final walker ever carries None.
  */
  datatype Thread =
    | Idle                                   // not spawned
    | Ready                                  // about to hash its section
    | Arrive(lvl: nat, s: Option<Bytes>)     // top of the climbing loop, s in hand
    | WriteLeft(lvl: nat, v: Bytes)          // final walker: zero sister written, own hash not yet
    | Flip(lvl: nat)                         // about to toggle the node
    | Combine(lvl: nat)                      // about to hash left|right
    | Stopped(lvl: nat)

  /** The goroutine that calls Write for each piece, then Hash. */
  datatype Main = Writing(next: nat) | Waiting | Returned(out: Bytes)

  datatype State = State(main: Main, buffer: Bytes, size: nat, pos: nat, offset: nat,
                         threads: seq<Thread>, nodes: map<Node, NodeState>)

  /** One chunk to hash: header and the pieces passed to successive Write calls. */
  datatype Job = Job(conf: Conf, span: Bytes, pieces: seq<Bytes>)

  // ---------------------------------------------------------------- toggle

  /** atomic.AddInt32: two's complement wrap-around. */
  function AddInt32(a: int, b: int): int {
    (a + b + 0x8000_0000) % 0x1_0000_0000 - 0x8000_0000
  }

  predicate IsInt32(a: int) { -0x8000_0000 <= a < 0x8000_0000 }

  /** Go's % truncates toward zero, so an odd negative number leaves -1. */
  function GoRem2(a: int): int {
    if a >= 0 then a % 2 else -((-a) % 2)
  }

  function ToggleState(state: int): int { AddInt32(state, 1) }
  predicate ToggleFirst(state: int) { GoRem2(AddInt32(state, 1)) == 1 }

  /**
  From an even (resting) counter, toggle() tells the first arrival from the second
  if and only if the counter has not gone negative by overflow.
  */
  lemma ToggleTellsFirst(state: int)
    requires IsInt32(state) && state % 2 == 0
    ensures (ToggleFirst(state) && !ToggleFirst(ToggleState(state))) <==> state >= 0
    ensures ToggleState(ToggleState(state)) % 2 == 0
    ensures ToggleState(ToggleState(state)) == AddInt32(state, 2)
  {
    AddOne(state);
    AddTwo(state);
    OddRem(state);
    EvenRem(AddInt32(state, 2));
    hide AddInt32, GoRem2;
  }

  lemma OddRem(even: int)
    requires even % 2 == 0
    ensures GoRem2(even + 1) == if even >= 0 then 1 else -1
  {
    var half := even / 2;
    assert even == 2 * half;
    if even < 0 { assert -(even + 1) == 2 * (-half - 1) + 1; }
  }

  lemma EvenRem(even: int)
    requires even % 2 == 0
    ensures GoRem2(even) == 0
  {
    var half := even / 2;
    assert even == 2 * half && -even == 2 * -half;
  }

  lemma AddOne(state: int)
    requires IsInt32(state) && state % 2 == 0
    ensures AddInt32(state, 1) == state + 1
  {}

  lemma AddTwo(state: int)
    requires IsInt32(state) && state % 2 == 0
    ensures AddInt32(state + 1, 1) == AddInt32(state, 2) && AddInt32(state, 2) % 2 == 0
  {
    assert state == 0x7FFF_FFFE ==> AddInt32(state, 2) == -0x8000_0000;
    assert state < 0x7FFF_FFFE ==> AddInt32(state, 2) == state + 2;
  }

  lemma AddZero(state: int)
    requires IsInt32(state)
    ensures AddInt32(state, 0) == state
  {}

  /** The smallest int32 is even, so a node can rest there, and the next first arrival is told it is second. */
  lemma ToggleOverflow()
    ensures AddInt32(0x7FFF_FFFE, 2) == -0x8000_0000
    ensures !ToggleFirst(-0x8000_0000)
  {
    ToggleTellsFirst(-0x8000_0000);
  }

  // ---------------------------------------------------------------- the writing goroutine

  ghost predicate Shape(conf: Conf, st: State) {
    && conf.Valid()
    && |st.buffer| == conf.MaxSize()
    && st.size <= conf.MaxSize()
    && |st.threads| == conf.Sections()
    && st.pos < conf.Sections()
    && (forall l: nat, k: nat :: l < conf.depth && k < Pow2(conf.depth - 1 - l) ==> Node(l, k) in st.nodes)
    && (forall t :: 0 <= t < |st.threads| ==> ThreadShape(conf, st, t, st.threads[t]))
  }

  predicate ThreadShape(conf: Conf, st: State, t: nat, th: Thread) {
    match th
    case Idle => true
    case Ready => true
    case Arrive(l, s) => 1 <= l <= conf.depth && (s.None? ==> IsFinal(st, t))
    case WriteLeft(l, _) => 1 <= l < conf.depth && IsFinal(st, t)
    case Flip(l) => 1 <= l < conf.depth
    case Combine(l) => 1 <= l < conf.depth
    case Stopped(l) => 1 <= l <= conf.depth
  }

  /** Hash() starts the goroutine of section pos with the final flag. */
  predicate IsFinal(st: State, t: nat) {
    !st.main.Writing? && t == st.pos
  }

  /** Bytes of a piece that still fit. */
  function Accepted(conf: Conf, size: nat, b: Bytes): nat
    requires conf.depth >= 1 && size <= conf.MaxSize()
  {
    Min(|b|, conf.MaxSize() - size)
  }

  /** Index of the rightmost open section after `size` bytes; a full buffer keeps its last section open. */
  function OpenSection(conf: Conf, size: nat): nat
    requires conf.Valid() && size <= conf.MaxSize()
  {
    var secsize: nat := conf.SecSize();
    if size == conf.MaxSize() then conf.Sections() - 1 else Quotient(size, secsize)
  }

  /** Hasher.Write: copy what fits, spawn a goroutine for every section that became full and is not the last. */
  function Write(conf: Conf, st: State, b: Bytes): State
    requires Shape(conf, st)
  {
    var max := conf.MaxSize() - st.size;
    var l := Min(|b|, max);
    var buffer := st.buffer[..st.size] + b[..l] + st.buffer[st.size + l..];
    var secsize := conf.SecSize();
    var from := Quotient(st.size, secsize);
    var size := st.size + l;
    QuotientOfProduct(conf.Sections(), secsize);
    var to := if l == max then Quotient(size, secsize) - 1 else Quotient(size, secsize);
    State(st.main, buffer, size, to, st.size % secsize,
          MakeReady(st.threads, from, to), st.nodes)
  }

  /** The goroutines of the sections from..to are started. */
  function MakeReady(threads: seq<Thread>, from: nat, to: int): seq<Thread> {
    seq(|threads|, i requires 0 <= i < |threads| => if from <= i < to then Ready else threads[i])
  }

  /** bmt.zerosection: the padding written by Hash is always 64 bytes, whatever the section size. */
  const ZERO_SECTION: nat := 64

  /** copy(buffer[size:], zerosection) */
  function PadBuffer(buffer: Bytes, size: nat): (r: Bytes)
    requires size <= |buffer|
    ensures |r| == |buffer|
  {
    var k := Min(ZERO_SECTION, |buffer| - size);
    buffer[..size] + Zeros(k) + buffer[size + k..]
  }

  function MainStep(job: Job, st: State): State
    requires Shape(job.conf, st) && st.main.Writing? && st.main.next <= |job.pieces|
  {
    var w := st.main.next;
    if w < |job.pieces| then
      Write(job.conf, st, job.pieces[w]).(main := Writing(w + 1))
    else if st.size == 0 then
      st.(main := Returned(job.conf.sha3(job.span + job.conf.zerohashes[job.conf.depth])))
    else
      st.(main := Waiting, buffer := PadBuffer(st.buffer, st.size), threads := st.threads[st.pos := Ready])
  }

  // ---------------------------------------------------------------- section goroutines

  /** A goroutine can move unless it is gone, or blocked sending on the unbuffered result channel. */
  predicate Enabled(conf: Conf, st: State, t: nat) {
    && t < |st.threads|
    && !st.threads[t].Idle?
    && !st.threads[t].Stopped?
    && (st.threads[t].Arrive? && st.threads[t].lvl == conf.depth && st.threads[t].s.Some? ==> st.main.Waiting?)
  }

  function SetLeft(nodes: map<Node, NodeState>, n: Node, v: Bytes): (r: map<Node, NodeState>)
    requires n in nodes
    ensures r.Keys == nodes.Keys
    ensures forall m :: m in nodes ==> r[m].state == nodes[m].state
  {
    nodes[n := nodes[n].(left := v)]
  }

  function SetRight(nodes: map<Node, NodeState>, n: Node, v: Bytes): (r: map<Node, NodeState>)
    requires n in nodes
    ensures r.Keys == nodes.Keys
    ensures forall m :: m in nodes ==> r[m].state == nodes[m].state
  {
    nodes[n := nodes[n].(right := v)]
  }

  function Bump(nodes: map<Node, NodeState>, n: Node): (r: map<Node, NodeState>)
    requires n in nodes
    ensures r.Keys == nodes.Keys
    ensures forall m :: m in nodes ==> r[m].left == nodes[m].left && r[m].right == nodes[m].right
  {
    nodes[n := nodes[n].(state := ToggleState(nodes[n].state))]
  }

  lemma OnInTree(conf: Conf, st: State, t: nat, l: nat)
    requires Shape(conf, st) && t < |st.threads| && l < conf.depth
    ensures On(t, l) in st.nodes
  {
    AncBound(t, l, conf.depth - 1);
  }

  /** processSection, writeNode and writeFinalNode, one step of goroutine t at a time. */
  function ThreadStep(job: Job, st: State, t: nat): State
    requires Shape(job.conf, st) && Enabled(job.conf, st, t)
  {
    var conf := job.conf;
    match st.threads[t]
    case Ready =>
      st.(threads := st.threads[t := Arrive(1, Some(conf.base(Section(conf, st.buffer, t))))])
    case Arrive(l, s) =>
      if l == conf.depth then
        // n == nil: the root has been hashed
        var done := st.(threads := st.threads[t := Stopped(l)]);
        if s.Some? then done.(main := Returned(conf.sha3(job.span + s.value))) else done
      else
        OnInTree(conf, st, t, l);
        var n := On(t, l);
        var isLeft := IsLeft(On(t, l - 1));
        if !IsFinal(st, t) then
          st.(threads := st.threads[t := Flip(l)],
              nodes := if isLeft then SetLeft(st.nodes, n, s.value) else SetRight(st.nodes, n, s.value))
        else if isLeft then
          st.(threads := st.threads[t := if s.Some? then WriteLeft(l, s.value) else Flip(l)],
              nodes := SetRight(st.nodes, n, conf.zerohashes[l]))
        else if s.Some? then
          st.(threads := st.threads[t := Flip(l)], nodes := SetRight(st.nodes, n, s.value))
        else
          st.(threads := st.threads[t := Arrive(l + 1, None)])
    case WriteLeft(l, v) =>
      OnInTree(conf, st, t, l);
      st.(threads := st.threads[t := Combine(l)], nodes := SetLeft(st.nodes, On(t, l), v))
    case Flip(l) =>
      OnInTree(conf, st, t, l);
      var n := On(t, l);
      var th := if !ToggleFirst(st.nodes[n].state) then Combine(l)
                else if IsFinal(st, t) then Arrive(l + 1, None)
                else Stopped(l);
      st.(threads := st.threads[t := th],
          nodes := Bump(st.nodes, n))
    case Combine(l) =>
      OnInTree(conf, st, t, l);
      var n := On(t, l);
      st.(threads := st.threads[t := Arrive(l + 1, Some(conf.base(st.nodes[n].left + st.nodes[n].right)))])
  }

  // ---------------------------------------------------------------- runs

  ghost predicate MainCanStep(job: Job, st: State) {
    Shape(job.conf, st) && st.main.Writing? && st.main.next <= |job.pieces|
  }

  ghost predicate ThreadCanStep(job: Job, st: State, t: nat) {
    Shape(job.conf, st) && Enabled(job.conf, st, t)
  }

  /** Some goroutine can move. */
  ghost predicate CanStep(job: Job, st: State) {
    MainCanStep(job, st) || exists t: nat :: ThreadCanStep(job, st, t)
  }

  ghost predicate Next(job: Job, st: State, st': State) {
    || (MainCanStep(job, st) && st' == MainStep(job, st))
    || (exists t: nat :: ThreadCanStep(job, st, t) && st' == ThreadStep(job, st, t))
  }

  /** Every node of the tree is there. */
  ghost predicate TreeShape(conf: Conf, nodes: map<Node, NodeState>) {
    && (forall l: nat, k: nat :: l < conf.depth && k < Pow2(conf.depth - 1 - l) ==> Node(l, k) in nodes)
    && (forall n: Node :: n in nodes ==> n.level < conf.depth)
  }

  /** A reusable tree: any stale left/right contents, every toggle resting and not overflowed. */
  ghost predicate TreeReady(conf: Conf, nodes: map<Node, NodeState>) {
    && TreeShape(conf, nodes)
    && (forall n :: n in nodes ==> IsInt32(nodes[n].state) && nodes[n].state % 2 == 0 && nodes[n].state >= 0)
  }

  /** After Reset, before the first Write; the buffer is as the last chunk left it. */
  ghost predicate Start(job: Job, st: State) {
    && job.conf.Valid()
    && st.main == Writing(0)
    && st.size == 0 && st.pos == 0 && st.offset == 0
    && |st.buffer| == job.conf.MaxSize()
    && |st.threads| == job.conf.Sections()
    && (forall t :: 0 <= t < |st.threads| ==> st.threads[t] == Idle)
    && TreeShape(job.conf, st.nodes)
  }

  /** Any interleaving, any length. */
  ghost predicate Steps(job: Job, run: seq<State>) {
    && |run| > 0
    && Start(job, run[0])
    && forall i :: 0 <= i < |run| - 1 ==> Next(job, run[i], run[i + 1])
  }

  /** A run on a reusable tree. */
  ghost predicate Run(job: Job, run: seq<State>) {
    Steps(job, run) && TreeReady(job.conf, run[0].nodes)
  }
}
