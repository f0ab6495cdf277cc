/** Reuse of pooled trees, exclusive access to nodes, and the limits of padding and toggling. */
module BmtReuse {
  import opened Common
  import opened BmtTree
  import opened BmtProtocol
  import opened BmtInvariant
  import opened BmtSteps
  import opened BmtRuns
  import opened BmtTheorems

  // ---------------------------------------------------------------- leaving the tree clean

  /** Each counter of a used tree is where it was, or two further. */
  ghost predicate Used(before: map<Node, NodeState>, after: map<Node, NodeState>) {
    && after.Keys == before.Keys
    && forall n :: n in after ==>
         after[n].state == before[n].state || after[n].state == AddInt32(before[n].state, 2)
  }

  /** When Hash has returned, the tree has been used once and is left in a resting state. */
  lemma TreeAfterHash(job: Job, run: seq<State>, i: nat)
    requires Run(job, run) && PaddingFits(job) && i < |run| && run[i].main.Returned?
    ensures Used(run[0].nodes, run[i].nodes)
  {
    hide Next, Padded, PaddingFits, TreeReady, AddInt32, Inv;
    if |Data(job)| == 0 {
      NoDataNoPieces(job);
      EmptyRun(job, run, i);
    } else {
      var c, own := OwnersAt(job, run, i);
      forall n | n in run[i].nodes
        ensures n in run[0].nodes
        ensures run[i].nodes[n].state == run[0].nodes[n].state
                || run[i].nodes[n].state == AddInt32(run[0].nodes[n].state, 2)
      {
        CountersRest(c, run[i], own, n);
      }
      SameKeys(c, run[i], own);
    }
  }

  lemma SameKeys(c: Ctx, st: State, own: Owners)
    requires Inv(c, st, own)
    ensures st.nodes.Keys == c.init.Keys
  {
    Widths(c, st);
    hide Shape, Progress, Delivery, Padded, PaddingFits, Value, Slots, Carried, AddInt32, Closed, Rights;
  }

  /** After that, any goroutine still alive is harmless: steps change neither tree nor result. */
  lemma {:induction false} StaleGoroutines(job: Job, run: seq<State>, i: nat, j: nat)
    requires Run(job, run) && PaddingFits(job) && i <= j < |run| && run[i].main.Returned?
    ensures run[j].nodes == run[i].nodes && run[j].main == run[i].main
    decreases j - i
  {
    if i < j {
      StaleGoroutines(job, run, i, j - 1);
      OneMoreStep(job, run, j);
    }
  }

  lemma StepAt(job: Job, run: seq<State>, i: nat)
    requires Steps(job, run) && i < |run| - 1
    ensures Next(job, run[i], run[i + 1])
  {}

  lemma OneMoreStep(job: Job, run: seq<State>, j: nat)
    requires Run(job, run) && PaddingFits(job) && 0 < j < |run| && run[j - 1].main.Returned?
    ensures run[j].nodes == run[j - 1].nodes && run[j].main == run[j - 1].main
  {
    hide Next, Padded, PaddingFits, TreeReady, Inv, Data, EmptyInv;
    StepAt(job, run, j - 1);
    hide Steps;
    if |Data(job)| == 0 {
      NoDataNoPieces(job);
      EmptyRun(job, run, j - 1);
      EmptyStuck(job, run[0].nodes, run[j - 1], run[j]);
    } else {
      var c, own := OwnersAt(job, run, j - 1);
      QuietAfter(c, run[j - 1], own, run[j]);
    }
  }

  /** An empty chunk has no goroutine left at all. */
  lemma EmptyStuck(job: Job, init: map<Node, NodeState>, st: State, st': State)
    requires EmptyInv(job, init, st) && st.main.Returned?
    ensures !Next(job, st, st')
  {}

  /** A node can be toggled for as many chunks as keep its int32 counter from overflowing. */
  const MAX_CHUNKS: nat := 0x4000_0000

  ghost predicate CountersUpTo(nodes: map<Node, NodeState>, k: nat) {
    forall n :: n in nodes ==> 0 <= nodes[n].state <= 2 * k && nodes[n].state % 2 == 0
  }

  lemma UsedOnce(before: map<Node, NodeState>, after: map<Node, NodeState>, k: nat)
    requires CountersUpTo(before, k) && Used(before, after) && k < MAX_CHUNKS - 1
    ensures CountersUpTo(after, k + 1)
  {}

  /** A tree used k times, k below the limit, is ready for the next chunk. */
  lemma ReadyAgain(conf: Conf, nodes: map<Node, NodeState>, k: nat)
    requires TreeShape(conf, nodes) && CountersUpTo(nodes, k) && k < MAX_CHUNKS
    ensures TreeReady(conf, nodes)
  {}

  /** In every run, once Hash has returned no goroutine holds a hash, waits to send one or has a node to write. */
  lemma NothingLeft(job: Job, run: seq<State>, i: nat, t: nat)
    requires Run(job, run) && PaddingFits(job) && i < |run| && run[i].main.Returned? && t < |run[i].threads|
    ensures Gone(job.conf, run[i].pos, t, run[i].threads[t])
  {
    hide Next, Padded, PaddingFits, TreeReady, Inv, Data, Gone;
    if |Data(job)| == 0 {
      NoDataNoPieces(job);
      EmptyRun(job, run, i);
      EmptyGone(job, run[0].nodes, run[i], t);
    } else {
      var c, own := OwnersAt(job, run, i);
      AllGone(c, run[i], own, t);
    }
  }

  lemma EmptyGone(job: Job, init: map<Node, NodeState>, st: State, t: nat)
    requires EmptyInv(job, init, st) && t < |st.threads|
    ensures Gone(job.conf, st.pos, t, st.threads[t])
  {}

  // ---------------------------------------------------------------- one tree, chunk after chunk

  /** A goroutine started for an earlier chunk, with the section it works on and the final section of that chunk. */
  datatype Stale = Stale(job: Job, t: nat, pos: nat, th: Thread)

  /** The chunk being hashed, by the states it has gone through, and the goroutines earlier chunks left behind. */
  datatype Pooled = Pooled(chunk: nat, job: Job, hist: seq<State>, stale: seq<Stale>)

  function Now(p: Pooled): State
    requires p.hist != []
  { p.hist[|p.hist| - 1] }

  /**
  What an old goroutine sees: the shared tree, its own place, and the result channel, which is the
  current one since a hasher keeps its channel over Reset.
  */
  function SeenBy(st: State, g: Stale): State {
    State(if st.main.Waiting? then Waiting else Returned([]), st.buffer, 0, g.pos, 0,
          seq(|st.threads|, i requires 0 <= i < |st.threads| => if i == g.t then g.th else Idle), st.nodes)
  }

  /** An old goroutine takes a step on the tree of the current chunk. */
  ghost predicate StaleStep(p: Pooled, q: Pooled, i: nat)
    requires p.hist != []
  {
    && i < |p.stale| && ThreadCanStep(p.stale[i].job, SeenBy(Now(p), p.stale[i]), p.stale[i].t)
    && var g := p.stale[i];
       var seen := ThreadStep(g.job, SeenBy(Now(p), g), g.t);
       var st := Now(p).(nodes := seen.nodes, main := if Now(p).main.Waiting? then seen.main else Now(p).main);
       q == p.(hist := p.hist[..|p.hist| - 1] + [st], stale := p.stale[i := g.(th := seen.threads[g.t])])
  }

  function Leftovers(job: Job, st: State): seq<Stale> {
    seq(|st.threads|, t requires 0 <= t < |st.threads| => Stale(job, t, st.pos, st.threads[t]))
  }

  /** The tree goes to the next chunk while the goroutines of this one may still be around. */
  ghost predicate NextChunk(p: Pooled, q: Pooled)
    requires p.hist != []
  {
    && Now(p).main.Returned? && q.chunk == p.chunk + 1
    && q.job.conf == p.job.conf && q.job.conf.Valid() && PaddingFits(q.job)
    && |q.hist| == 1 && Start(q.job, q.hist[0]) && q.hist[0].nodes == Now(p).nodes && q.hist[0].buffer == Now(p).buffer
    && q.stale == p.stale + Leftovers(p.job, Now(p))
  }

  ghost predicate CurrentStep(p: Pooled, q: Pooled)
    requires p.hist != []
  {
    q.hist != [] && Next(p.job, Now(p), Now(q)) && q == p.(hist := p.hist + [Now(q)])
  }

  ghost predicate PoolStep(p: Pooled, q: Pooled) {
    p.hist != [] && (CurrentStep(p, q) || NextChunk(p, q) || exists i: nat :: StaleStep(p, q, i))
  }

  /** Steps of the current chunk and of everything left over interleave freely. */
  ghost predicate PoolRun(pools: seq<Pooled>) {
    && |pools| > 0
    && (forall i :: 0 <= i < |pools| ==> pools[i].hist != [])
    && pools[0].chunk == 0 && pools[0].stale == [] && |pools[0].hist| == 1
    && pools[0].job.conf.Valid() && PaddingFits(pools[0].job) && Start(pools[0].job, pools[0].hist[0])
    && CountersUpTo(pools[0].hist[0].nodes, 0)
    && forall i :: 0 <= i < |pools| - 1 ==> PoolStep(pools[i], pools[i + 1])
  }

  ghost predicate StaleGone(conf: Conf, g: Stale) {
    g.job.conf == conf && Gone(conf, g.pos, g.t, g.th)
  }

  /** The current chunk has run as if it were alone, on a tree at rest, and nothing left over can touch it. */
  ghost predicate PoolInv(p: Pooled) {
    && p.hist != [] && Steps(p.job, p.hist) && PaddingFits(p.job)
    && CountersUpTo(p.hist[0].nodes, p.chunk)
    && forall i :: 0 <= i < |p.stale| ==> StaleGone(p.job.conf, p.stale[i])
  }

  /** A goroutine that is gone changes nothing of the current chunk, whatever it may still do. */
  lemma GoneIsHarmless(p: Pooled, q: Pooled, i: nat)
    requires PoolInv(p) && StaleStep(p, q, i)
    ensures q.hist == p.hist && q.job == p.job && q.chunk == p.chunk && PoolInv(q)
  {
    hide Steps, CountersUpTo, PaddingFits, Shape;
    var g := p.stale[i];
    assert StaleGone(p.job.conf, g);
    assert p.hist == p.hist[..|p.hist| - 1] + [Now(p)];
  }

  lemma CurrentKept(p: Pooled, q: Pooled)
    requires PoolInv(p) && CurrentStep(p, q)
    ensures PoolInv(q)
  {
    hide CountersUpTo, PaddingFits, Start, Next, StaleGone;
    assert forall i :: 0 <= i < |p.hist| ==> q.hist[i] == p.hist[i];
  }

  lemma ChunkKept(p: Pooled, q: Pooled)
    requires PoolInv(p) && NextChunk(p, q) && p.chunk < MAX_CHUNKS - 1
    ensures PoolInv(q)
  {
    hide PaddingFits, Gone, CountersUpTo, Next;
    StepsShape(p.job, p.hist);
    ReadyAgain(p.job.conf, p.hist[0].nodes, p.chunk);
    TreeAfterHash(p.job, p.hist, |p.hist| - 1);
    UsedOnce(p.hist[0].nodes, q.hist[0].nodes, p.chunk);
    forall i | 0 <= i < |q.stale| ensures StaleGone(q.job.conf, q.stale[i]) {
      if i < |p.stale| {
        assert StaleGone(p.job.conf, p.stale[i]);
      } else {
        NothingLeft(p.job, p.hist, |p.hist| - 1, i - |p.stale|);
      }
    }
  }

  lemma StepsShape(job: Job, run: seq<State>)
    requires Steps(job, run)
    ensures job.conf.Valid() && TreeShape(job.conf, run[0].nodes)
  {
    hide Next;
  }

  lemma {:induction false} PoolKept(pools: seq<Pooled>, i: nat)
    requires PoolRun(pools) && i < |pools| && pools[i].chunk < MAX_CHUNKS
    ensures PoolInv(pools[i])
  {
    hide Next, PaddingFits, CountersUpTo, Start, StaleStep;
    if i > 0 {
      var p, q := pools[i - 1], pools[i - 1 + 1];
      SameChunk(p, q);
      PoolKept(pools, i - 1);
      hide PoolInv;
      if CurrentStep(p, q) {
        CurrentKept(p, q);
      } else if NextChunk(p, q) {
        ChunkKept(p, q);
      } else {
        var g: nat :| StaleStep(p, q, g);
        GoneIsHarmless(p, q, g);
      }
    }
  }

  lemma SameChunk(p: Pooled, q: Pooled)
    requires PoolStep(p, q)
    ensures q.chunk == p.chunk || NextChunk(p, q)
  {
    hide Next, ThreadStep, ThreadCanStep, NextChunk;
  }

  /**
  One tree over its first 2^30 chunks, with the goroutines of all earlier chunks still interleaving: every
  chunk gets its reference hash, and the goroutines left behind neither hold nor send a hash.
  */
  lemma PooledTree(pools: seq<Pooled>, i: nat)
    requires PoolRun(pools) && i < |pools| && pools[i].chunk < MAX_CHUNKS
    ensures Steps(pools[i].job, pools[i].hist)
    ensures Now(pools[i]).main.Returned? ==> Now(pools[i]).main.out == Expected(pools[i].job)
    ensures forall g :: g in pools[i].stale ==> Gone(g.job.conf, g.pos, g.t, g.th)
  {
    PoolKept(pools, i);
    var p := pools[i];
    hide PoolRun, Next, PaddingFits, CountersUpTo, Expected, Gone;
    StepsShape(p.job, p.hist);
    ReadyAgain(p.job.conf, p.hist[0].nodes, p.chunk);
    if Now(p).main.Returned? { ResultIsReference(p.job, p.hist, |p.hist| - 1); }
  }

  /**
  The limit is exact: a goroutine that reaches a node stops there (or, if it is the final walker, goes on empty-handed)
  if and only if the counter is even and not negative; otherwise it hashes the node.
  */
  lemma FirstArrival(job: Job, st: State, t: nat, l: nat)
    requires ThreadCanStep(job, st, t) && st.threads[t] == Flip(l) && l < job.conf.depth && On(t, l) in st.nodes
    requires IsInt32(st.nodes[On(t, l)].state)
    ensures ThreadStep(job, st, t).threads[t] != Combine(l) <==>
              st.nodes[On(t, l)].state % 2 == 0 && st.nodes[On(t, l)].state >= 0
  {
    FirstIs(st.nodes[On(t, l)].state);
    hide AddInt32, ToggleFirst, ToggleState, Section;
  }

  lemma FirstIs(s: int)
    requires IsInt32(s)
    ensures ToggleFirst(s) <==> s % 2 == 0 && s >= 0
  {
    assert s < 0x7FFF_FFFF ==> AddInt32(s, 1) == s + 1;
    assert s == 0x7FFF_FFFF ==> AddInt32(s, 1) == -0x8000_0000;
    if s % 2 == 0 { OddRem(s); } else { EvenRem(s + 1); }
    EvenRem(-0x8000_0000);
    hide AddInt32, GoRem2;
  }

  // ---------------------------------------------------------------- exclusive access

  /** The child node whose slot in the parent goroutine t is about to write. */
  function Target(st: State, t: nat, depth: nat): Option<Node>
    requires t < |st.threads|
  {
    match st.threads[t]
    case Arrive(l, s) =>
      if l == 0 || l >= depth then None
      else if IsFinal(st, t) && IsLeft(On(t, l - 1)) then Some(Node(l - 1, Anc(t, l - 1) + 1))
      else if IsFinal(st, t) && s.None? then None
      else Some(On(t, l - 1))
    case WriteLeft(l, _) => if l == 0 then None else Some(On(t, l - 1))
    case _ => None
  }

  lemma TargetOwned(c: Ctx, st: State, own: Owners, t: nat)
    requires t <= c.p < |st.threads| && (IsFinal(st, t) <==> t == c.p) && ThreadShape(c.job.conf, st, t, st.threads[t])
    requires Leaves(c, own) && Rights(c, st.threads, own)
    requires Target(st, t, c.job.conf.depth).Some?
    ensures var m := Target(st, t, c.job.conf.depth).value;
            OwnedBy(own, m, t) && !Passed(st.threads[t], m.level + 1)
  {
    var l := st.threads[t].lvl;
    if t < c.p { HandIsOwned(c, st.threads, own, t, l, st.threads[t].s.value); }
  }

  /** No two goroutines are about to write the same slot, and none writes a node another is hashing. */
  ghost predicate Exclusive(st: State, depth: nat, t: nat, u: nat)
    requires t < |st.threads| && u < |st.threads|
  {
    && (Target(st, t, depth).Some? ==> Target(st, u, depth) != Target(st, t, depth))
    && (st.threads[t].Combine? ==>
          && !(st.threads[u].Combine? && On(u, st.threads[u].lvl) == On(t, st.threads[t].lvl))
          && !(Target(st, u, depth).Some? && Parent(Target(st, u, depth).value) == On(t, st.threads[t].lvl)))
  }

  lemma ExclusiveTree(c: Ctx, st: State, own: Owners, t: nat, u: nat)
    requires t <= c.p && u <= c.p && c.p < |st.threads| && t != u
    requires (IsFinal(st, t) <==> t == c.p) && ThreadShape(c.job.conf, st, t, st.threads[t])
    requires (IsFinal(st, u) <==> u == c.p) && ThreadShape(c.job.conf, st, u, st.threads[u])
    requires Leaves(c, own) && Rights(c, st.threads, own) && Closed(c, st.threads, own)
    ensures Exclusive(st, c.job.conf.depth, t, u)
  {
    var d := c.job.conf.depth;
    hide Leaves, Rights, Closed, FinalRights, Target;
    if Target(st, t, d).Some? { TargetOwned(c, st, own, t); }
    if Target(st, u, d).Some? { TargetOwned(c, st, own, u); }
    if st.threads[t].Combine? {
      TakenIsPassed(c, st.threads, own, t, st.threads[t].lvl);
      if st.threads[u].Combine? { TakenIsPassed(c, st.threads, own, u, st.threads[u].lvl); }
      if Target(st, u, d).Some? {
        NotBelowPassed(st.threads, own, On(t, st.threads[t].lvl), Target(st, u, d).value, u);
      }
    }
  }

  lemma NotBelowPassed(threads: seq<Thread>, own: Owners, n: Node, m: Node, u: nat)
    requires n.level >= 1 && BothPassed(threads, own, n) && u < |threads| && OwnedBy(own, m, u)
             && !Passed(threads[u], m.level + 1)
    ensures Parent(m) != n
  {}

  /** Node slots and node hashers are never used by two goroutines at once, although nothing locks them. */
  lemma NodesAreExclusive(job: Job, run: seq<State>, i: nat, t: nat, u: nat)
    requires Run(job, run) && PaddingFits(job) && |Data(job)| > 0 && i < |run|
    requires t < |run[i].threads| && u < |run[i].threads| && t != u
    ensures Exclusive(run[i], job.conf.depth, t, u)
  {
    hide Next, Padded, PaddingFits, TreeReady, Inv, Data, Exclusive;
    var c, own := OwnersAt(job, run, i);
    hide Run;
    ExclusiveAt(c, run[i], own, t, u);
  }

  lemma ExclusiveAt(c: Ctx, st: State, own: Owners, t: nat, u: nat)
    requires Inv(c, st, own) && t < |st.threads| && u < |st.threads| && t != u
    ensures Exclusive(st, c.job.conf.depth, t, u)
  {
    hide Shape, CtxFor, Progress, Delivery, Leaves, Rights, Paths, Closed, Counters, Slots, Carried;
    if !st.threads[t].Idle? && !st.threads[u].Idle? {
      Widths(c, st);
      Runner(c, st, t);
      Runner(c, st, u);
      ShapeAt(c.job.conf, st, t);
      ShapeAt(c.job.conf, st, u);
      ExclusiveTree(c, st, own, t, u);
    }
  }

  // ---------------------------------------------------------------- padding

  /** The last section as the reference hasher sees it. */
  function PaddedLast(conf: Conf, buffer: Bytes, size: nat): Bytes
    requires conf.Valid() && |buffer| == conf.MaxSize() && size <= |buffer|
  {
    Section(conf, buffer[..size] + Zeros(|buffer| - size), OpenSection(conf, size))
  }

  /**
  Hash pads with a fixed 64 bytes.  The last section comes out right over every stale buffer exactly when
  the bytes missing from it are at most 64, which holds for every data length if segments are at most 32 bytes.
  */
  lemma PaddingLimit(conf: Conf, size: nat)
    requires conf.Valid() && 0 < size < conf.MaxSize()
    ensures (forall buffer: Bytes :: |buffer| == conf.MaxSize() ==>
               Section(conf, PadBuffer(buffer, size), OpenSection(conf, size)) == PaddedLast(conf, buffer, size))
            <==> conf.SecSize() - size % conf.SecSize() <= ZERO_SECTION
  {
    var fits := conf.SecSize() - size % conf.SecSize() <= ZERO_SECTION;
    if fits {
      forall buffer: Bytes | |buffer| == conf.MaxSize()
        ensures Section(conf, PadBuffer(buffer, size), OpenSection(conf, size)) == PaddedLast(conf, buffer, size)
      {
        PaddingEnough(conf, buffer, size);
      }
    } else {
      var stale := seq(conf.MaxSize(), _ => 1 as bv8);
      PaddingShort(conf, stale, size);
    }
  }

  lemma OpenBounds(conf: Conf, size: nat)
    requires conf.Valid() && size < conf.MaxSize()
    ensures var lo := OpenSection(conf, size) * conf.SecSize();
            lo <= size == lo + size % conf.SecSize() && lo + conf.SecSize() <= conf.MaxSize()
  {
    var sec := conf.SecSize();
    var q := OpenSection(conf, size);
    QuotientRest(size, sec);
    QuotientBounds(size, sec, conf.Sections());
    MulMonotone(q + 1, conf.Sections(), sec);
    assert (q + 1) * sec == q * sec + sec;
  }

  lemma PaddingEnough(conf: Conf, buffer: Bytes, size: nat)
    requires conf.Valid() && 0 < size < conf.MaxSize() && |buffer| == conf.MaxSize()
    requires conf.SecSize() - size % conf.SecSize() <= ZERO_SECTION
    ensures Section(conf, PadBuffer(buffer, size), OpenSection(conf, size)) == PaddedLast(conf, buffer, size)
  {
    OpenBounds(conf, size);
    var lo := OpenSection(conf, size) * conf.SecSize();
    var x, y := PadBuffer(buffer, size), buffer[..size] + Zeros(|buffer| - size);
    assert forall i :: lo <= i < lo + conf.SecSize() ==> x[i] == y[i];
    assert x[lo..lo + conf.SecSize()] == y[lo..lo + conf.SecSize()];
  }

  lemma PaddingShort(conf: Conf, stale: Bytes, size: nat)
    requires conf.Valid() && 0 < size < conf.MaxSize() && |stale| == conf.MaxSize()
    requires forall i :: 0 <= i < |stale| ==> stale[i] == 1
    requires conf.SecSize() - size % conf.SecSize() > ZERO_SECTION
    ensures Section(conf, PadBuffer(stale, size), OpenSection(conf, size)) != PaddedLast(conf, stale, size)
  {
    OpenBounds(conf, size);
    var lo := OpenSection(conf, size) * conf.SecSize();
    var i := size + ZERO_SECTION;
    var x, y := PadBuffer(stale, size), stale[..size] + Zeros(|stale| - size);
    assert x[i] == 1 && y[i] == 0;
    assert x[lo..lo + conf.SecSize()][i - lo] == 1;
    assert y[lo..lo + conf.SecSize()][i - lo] == 0;
  }
}
