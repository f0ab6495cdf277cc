/**
The inductive invariant of the concurrent hasher.

Ownership is the idea behind it.  Thread t owns node n from the moment it alone is entitled to hash
n and carry the value up: leaves are owned from the start, the all-zero right sisters along the final
path belong to the final walker, and an inner node is owned once the owners of both its children have
passed it.  `own` is history, not program state: it is chosen along the run by the lemmas below.
*/
module BmtInvariant {
  import opened Common
  import opened BmtTree
  import opened BmtProtocol

  type Owners = map<Node, nat>

  /** What stays fixed during a run: padded data, index p of the final section, the tree as it was found. */
  datatype Ctx = Ctx(job: Job, data: Bytes, p: nat, init: map<Node, NodeState>)

  // ---------------------------------------------------------------- progress of a thread

  /** Has left level l behind: arrived there, written, and toggled if it had to. */
  predicate Passed(th: Thread, l: nat) {
    match th
    case Idle => false
    case Ready => false
    case Arrive(k, _) => l < k
    case WriteLeft(k, _) => l < k
    case Flip(k) => l < k
    case Combine(k) => l <= k
    case Stopped(k) => l <= k
  }

  /** Has written its slot of the node at level l. */
  predicate Wrote(th: Thread, l: nat, right: bool) {
    || Passed(th, l)
    || th == Flip(l)
    || (th.WriteLeft? && th.lvl == l && right)
  }

  /** Has become entitled to the node at level l >= 1. */
  predicate Took(th: Thread, l: nat) {
    match th
    case Idle => false
    case Ready => false
    case Arrive(k, _) => l < k
    case WriteLeft(k, _) => l < k
    case Flip(k) => l < k
    case Combine(k) => l <= k
    case Stopped(k) => l < k
  }

  predicate OwnedBy(own: Owners, n: Node, t: nat) { n in own && own[n] == t }

  /** The all-zero right sister of the final path at level l. */
  predicate ZeroSister(p: nat, n: Node) { n.idx == Anc(p, n.level) + 1 && Anc(p, n.level) % 2 == 0 }

  /** Both children passed by their owners. */
  predicate BothPassed(threads: seq<Thread>, own: Owners, n: Node)
    requires n.level > 0
  {
    && LeftChild(n) in own && RightChild(n) in own
    && own[LeftChild(n)] < |threads| && own[RightChild(n)] < |threads|
    && Passed(threads[own[LeftChild(n)]], n.level)
    && Passed(threads[own[RightChild(n)]], n.level)
  }

  /** The final walker carries the left hash itself: it fills in the right one and never toggles. */
  predicate Alone(own: Owners, n: Node)
    requires n.level > 0
  {
    LeftChild(n) in own && RightChild(n) in own && own[LeftChild(n)] == own[RightChild(n)]
  }

  /** The owner of child c has toggled c's parent. */
  predicate Toggled(threads: seq<Thread>, own: Owners, c: Node) {
    && c in own && own[c] < |threads|
    && !Alone(own, Parent(c))
    && Passed(threads[own[c]], c.level + 1)
  }

  function Count(threads: seq<Thread>, own: Owners, n: Node): nat
    requires n.level > 0
  {
    (if Toggled(threads, own, LeftChild(n)) then 1 else 0) + (if Toggled(threads, own, RightChild(n)) then 1 else 0)
  }

  function Slot(ns: NodeState, right: bool): Bytes { if right then ns.right else ns.left }

  // ---------------------------------------------------------------- the clauses

  /** Static owners. */
  ghost predicate Leaves(c: Ctx, own: Owners) {
    && (forall k: nat :: k <= c.p ==> OwnedBy(own, Node(0, k), k))
    && (forall l: nat ::
          l < c.job.conf.depth - 1 && Anc(c.p, l) % 2 == 0 ==> OwnedBy(own, Node(l, Anc(c.p, l) + 1), c.p))
  }

  /** Threads own only nodes on their own path, and the final walker also the zero sisters. */
  ghost predicate Paths(c: Ctx, own: Owners) {
    forall n :: n in own ==>
      && n.level < c.job.conf.depth
      && own[n] <= c.p
      && (n == On(own[n], n.level) || (own[n] == c.p && ZeroSister(c.p, n) && n.level < c.job.conf.depth - 1))
  }

  /** Ownership of the node a thread stands at, read off the thread. */
  ghost predicate Rights(c: Ctx, threads: seq<Thread>, own: Owners)
    requires c.p < |threads|
  {
    && (forall t: nat, l: nat :: t <= c.p && 1 <= l && OwnedBy(own, On(t, l), t) ==> Took(threads[t], l))
    && (forall t: nat, l: nat ::
          t < c.p && 1 <= l < c.job.conf.depth && Took(threads[t], l) ==> OwnedBy(own, On(t, l), t))
    && FinalRights(c, threads[c.p], own)
  }

  ghost predicate FinalRights(c: Ctx, th: Thread, own: Owners) {
    match th
    case Idle => true
    case Ready => true
    case Arrive(l, s) => l >= 1 && (s.Some? <==> OwnedBy(own, On(c.p, l - 1), c.p))
    case WriteLeft(l, _) => l >= 1 && OwnedBy(own, On(c.p, l - 1), c.p) && Anc(c.p, l - 1) % 2 == 0
    case Flip(l) => l >= 1 && (OwnedBy(own, On(c.p, l - 1), c.p) <==> Anc(c.p, l - 1) % 2 == 1)
    case Combine(l) => OwnedBy(own, On(c.p, l), c.p)
    case Stopped(l) => l == c.job.conf.depth
  }

  /** An inner node on or left of the final path is owned exactly when both children have been passed. */
  ghost predicate Closed(c: Ctx, threads: seq<Thread>, own: Owners) {
    forall n: Node :: 1 <= n.level < c.job.conf.depth && n.idx <= Anc(c.p, n.level) ==>
      (n in own <==> BothPassed(threads, own, n))
  }

  /** The toggle counter has moved once per toggling child. */
  ghost predicate Counters(c: Ctx, threads: seq<Thread>, nodes: map<Node, NodeState>, own: Owners) {
    && nodes.Keys == c.init.Keys
    && (forall n: Node :: n in nodes ==> n.level < c.job.conf.depth)
    && (forall n: Node :: n in nodes && n.level == 0 ==> nodes[n].state == c.init[n].state)
    && (forall n: Node ::
          n in nodes && n.level > 0 ==> nodes[n].state == AddInt32(c.init[n].state, Count(threads, own, n)))
  }

  /** What an owner has written is the subtree hash, and nobody overwrites it. */
  ghost predicate Slots(c: Ctx, threads: seq<Thread>, nodes: map<Node, NodeState>, own: Owners) {
    forall n: Node ::
      n in own && own[n] < |threads| && Parent(n) in nodes && Wrote(threads[own[n]], n.level + 1, !IsLeft(n)) ==>
      Slot(nodes[Parent(n)], !IsLeft(n)) == Value(c.job.conf, c.data, n)
  }

  /** Every hash in hand is the hash of the subtree it came from. */
  ghost predicate Carried(c: Ctx, threads: seq<Thread>) {
    forall t: nat :: t < |threads| ==> CarriedBy(c, t, threads[t])
  }

  ghost predicate CarriedBy(c: Ctx, t: nat, th: Thread) {
    match th
    case Arrive(l, Some(v)) => l >= 1 && v == Value(c.job.conf, c.data, On(t, l - 1))
    case WriteLeft(l, v) => l >= 1 && v == Value(c.job.conf, c.data, On(t, l - 1))
    case _ => true
  }

  function Root(conf: Conf): Node
    requires conf.depth >= 1
  { Node(conf.depth - 1, 0) }

  /** The root's owner, once stopped, has delivered; nothing else delivers. */
  ghost predicate Delivery(c: Ctx, st: State, own: Owners)
    requires c.job.conf.depth >= 1
  {
    var root := Root(c.job.conf);
    && (st.main.Returned? <==>
          root in own && own[root] < |st.threads| && st.threads[own[root]] == Stopped(c.job.conf.depth))
    && (st.main.Returned? ==> st.main.out == c.job.conf.sha3(c.job.span + Value(c.job.conf, c.data, root)))
  }

  // ---------------------------------------------------------------- data and the writing goroutine

  function Data(job: Job): Bytes
    requires job.conf.depth >= 1
  {
    var all := Concat(job.pieces);
    all[..Min(|all|, job.conf.MaxSize())]
  }

  /** The chunk as the reference hasher sees it: zero padded to full size. */
  function Padded(job: Job): (r: Bytes)
    requires job.conf.depth >= 1
    ensures |r| == job.conf.MaxSize()
  {
    Data(job) + Zeros(job.conf.MaxSize() - |Data(job)|)
  }

  function LastSection(job: Job): nat
    requires job.conf.Valid()
  {
    OpenSection(job.conf, |Data(job)|)
  }

  /** The fixed 64-byte padding reaches the end of the last section, or no padding is needed. */
  predicate PaddingFits(job: Job)
    requires job.conf.Valid()
  {
    |Data(job)| == 0 || |Data(job)| == job.conf.MaxSize()
    || job.conf.SecSize() - |Data(job)| % job.conf.SecSize() <= ZERO_SECTION
  }

  ghost predicate CtxFor(c: Ctx) {
    && c.job.conf.Valid()
    && c.data == Padded(c.job)
    && c.p == LastSection(c.job)
    && |Data(c.job)| > 0
    && PaddingFits(c.job)
    && c.p < c.job.conf.Sections()
    && TreeReady(c.job.conf, c.init)
  }

  /** Main thread: how much of the data is in the buffer, and who has been spawned. */
  ghost predicate Progress(c: Ctx, st: State)
    requires CtxFor(c)
  {
    match st.main
    case Writing(w) =>
      && w <= |c.job.pieces|
      && st.size == Min(|Concat(c.job.pieces[..w])|, c.job.conf.MaxSize())
      && st.size <= |Data(c.job)|
      && st.size <= |st.buffer|
      && st.buffer[..st.size] == c.data[..st.size]
      && st.size <= c.job.conf.MaxSize() && st.pos == OpenSection(c.job.conf, st.size)
      && st.pos <= c.p
      && (forall t :: 0 <= t < |st.threads| ==> (st.threads[t].Idle? <==> st.pos <= t))
      && (forall t: nat :: t < st.pos ==> Section(c.job.conf, st.buffer, t) == Section(c.job.conf, c.data, t))
    case _ =>
      && st.pos == c.p
      && (forall t :: 0 <= t < |st.threads| ==> (st.threads[t].Idle? <==> c.p < t))
      && (forall t: nat :: t <= c.p ==> Section(c.job.conf, st.buffer, t) == Section(c.job.conf, c.data, t))
  }

  ghost predicate TreeInv(c: Ctx, threads: seq<Thread>, nodes: map<Node, NodeState>, own: Owners) {
    && c.p < |threads|
    && Leaves(c, own)
    && Paths(c, own)
    && Rights(c, threads, own)
    && Closed(c, threads, own)
    && Counters(c, threads, nodes, own)
    && Slots(c, threads, nodes, own)
    && Carried(c, threads)
  }

  ghost predicate Inv(c: Ctx, st: State, own: Owners) {
    && CtxFor(c)
    && Shape(c.job.conf, st)
    && Progress(c, st)
    && TreeInv(c, st.threads, st.nodes, own)
    && Delivery(c, st, own)
  }
}
