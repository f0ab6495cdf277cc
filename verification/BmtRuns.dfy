/** The invariant holds along every run. */
module BmtRuns {
  import opened Common
  import opened BmtTree
  import opened BmtProtocol
  import opened BmtInvariant
  import opened BmtSteps

  lemma GroundFor(c: Ctx, threads: seq<Thread>)
    requires CtxFor(c) && c.p < |threads|
    ensures Ground(c, threads)
  {
    hide Value, Padded, Data, PaddingFits, LastSection;
    forall l: nat | l < c.job.conf.depth - 1 && Anc(c.p, l) % 2 == 0
      ensures Value(c.job.conf, c.data, Node(l, Anc(c.p, l) + 1)) == c.job.conf.zerohashes[l + 1]
    {
      ZeroSisterValue(c, l);
    }
  }

  // ---------------------------------------------------------------- thread steps

  /** How a thread step may change ownership, and what it leaves of thread t. */
  ghost predicate OwnChange(c: Ctx, st: State, own: Owners, t: nat, st': State, own': Owners) {
    && |st'.threads| == |st.threads| && t < |st.threads|
    && (forall s :: 0 <= s < |st.threads| && s != t ==> st'.threads[s] == st.threads[s])
    && !st'.threads[t].Idle?
    && (own' == own
        || (st'.threads[t].Combine? && On(t, st'.threads[t].lvl) !in own
            && own' == own[On(t, st'.threads[t].lvl) := t]))
  }

  /** Premises of the case lemmas below. */
  ghost predicate CanMove(c: Ctx, st: State, own: Owners, t: nat) {
    && Ground(c, st.threads) && t <= c.p < |st.threads| && TreeInv(c, st.threads, st.nodes, own)
    && ThreadCanStep(c.job, st, t)
    && (IsFinal(st, t) <==> t == c.p)
    && (st.threads[t] == Ready ==> Section(c.job.conf, st.buffer, t) == Section(c.job.conf, c.data, t))
  }

  lemma ArriveMove(c: Ctx, st: State, own: Owners, t: nat)
    requires CanMove(c, st, own, t) && st.threads[t].Arrive?
    ensures TreeInv(c, ThreadStep(c.job, st, t).threads, ThreadStep(c.job, st, t).nodes, own)
    ensures OwnChange(c, st, own, t, ThreadStep(c.job, st, t), own)
  {
    hide Slots, Counters, Closed, Rights, Leaves, Paths, Carried, Ground, TreeInv, Value;
    var threads, nodes, conf := st.threads, st.nodes, c.job.conf;
    var Arrive(l, s) := threads[t];
    assert ThreadShape(conf, st, t, threads[t]);
    if l == conf.depth {
      StepStop(c, threads, nodes, own, t);
    } else {
      OnInTree(conf, st, t, l);
      if t < c.p {
        StepNormalWrite(c, threads, nodes, own, t, l, s.value);
      } else if IsLeft(On(t, l - 1)) {
        StepFinalLeft(c, threads, nodes, own, l);
      } else if s.Some? {
        StepFinalRight(c, threads, nodes, own, l, s.value);
      } else {
        StepNil(c, threads, nodes, own, l);
      }
    }
  }

  lemma FlipMove(c: Ctx, st: State, own: Owners, t: nat) returns (own': Owners)
    requires CanMove(c, st, own, t) && st.threads[t].Flip?
    ensures TreeInv(c, ThreadStep(c.job, st, t).threads, ThreadStep(c.job, st, t).nodes, own')
    ensures OwnChange(c, st, own, t, ThreadStep(c.job, st, t), own')
  {
    hide Slots, Counters, Closed, Rights, Leaves, Paths, AddInt32, ToggleFirst, ToggleState, Carried, Ground, TreeInv;
    var l := st.threads[t].lvl;
    assert ThreadShape(c.job.conf, st, t, st.threads[t]);
    OnInTree(c.job.conf, st, t, l);
    if ToggleFirst(st.nodes[On(t, l)].state) {
      FlipFirst(c, st.threads, st.nodes, own, t, l);
      own' := own;
    } else {
      FlipSecond(c, st.threads, st.nodes, own, t, l);
      own' := own[On(t, l) := t];
    }
  }

  lemma OtherMove(c: Ctx, st: State, own: Owners, t: nat) returns (own': Owners)
    requires CanMove(c, st, own, t) && !st.threads[t].Flip? && !st.threads[t].Arrive?
    ensures TreeInv(c, ThreadStep(c.job, st, t).threads, ThreadStep(c.job, st, t).nodes, own')
    ensures OwnChange(c, st, own, t, ThreadStep(c.job, st, t), own')
  {
    hide Slots, Counters, Closed, Rights, Leaves, Paths, Carried, Ground, TreeInv, Section;
    own' := own;
    assert ThreadShape(c.job.conf, st, t, st.threads[t]);
    match st.threads[t] {
      case Ready =>
        StepReady(c, st.threads, st.nodes, own, t);
      case WriteLeft(l, v) =>
        OnInTree(c.job.conf, st, t, l);
        StepWriteLeft(c, st.threads, st.nodes, own, l, v);
        own' := own[On(t, l) := t];
      case Combine(l) =>
        OnInTree(c.job.conf, st, t, l);
        StepCombine(c, st.threads, st.nodes, own, t, l);
    }
  }

  lemma TreeStep(c: Ctx, st: State, own: Owners, t: nat) returns (own': Owners)
    requires CanMove(c, st, own, t)
    ensures TreeInv(c, ThreadStep(c.job, st, t).threads, ThreadStep(c.job, st, t).nodes, own')
    ensures OwnChange(c, st, own, t, ThreadStep(c.job, st, t), own')
  {
    hide ThreadStep, TreeInv, OwnChange, Ground, Shape;
    if st.threads[t].Arrive? {
      ArriveMove(c, st, own, t);
      own' := own;
    } else if st.threads[t].Flip? {
      own' := FlipMove(c, st, own, t);
    } else {
      own' := OtherMove(c, st, own, t);
    }
  }

  lemma StepShape(job: Job, st: State, t: nat)
    requires ThreadCanStep(job, st, t)
    ensures Shape(job.conf, ThreadStep(job, st, t))
  {
    StepKeys(job, st, t);
    StepThread(job, st, t);
    var st' := ThreadStep(job, st, t);
    hide ThreadStep, Conf.Valid;
    forall s | 0 <= s < |st'.threads|
      ensures ThreadShape(job.conf, st', s, st'.threads[s])
    {
      assert ThreadShape(job.conf, st, s, st.threads[s]);
    }
  }

  /** A step leaves the tree's nodes where they are. */
  lemma StepKeys(job: Job, st: State, t: nat)
    requires ThreadCanStep(job, st, t)
    ensures ThreadStep(job, st, t).nodes.Keys == st.nodes.Keys
  {
    hide Section, AddInt32, ToggleFirst, ToggleState, SetLeft, SetRight, Bump;
    match st.threads[t] {
      case Arrive(l, s) => if l < job.conf.depth { OnInTree(job.conf, st, t, l); }
      case WriteLeft(l, v) => OnInTree(job.conf, st, t, l);
      case Flip(l) => OnInTree(job.conf, st, t, l);
      case _ =>
    }
  }

  /** What a step does to everything but the nodes. */
  lemma StepThread(job: Job, st: State, t: nat)
    requires ThreadCanStep(job, st, t)
    ensures var st' := ThreadStep(job, st, t);
      && st'.buffer == st.buffer && st'.size == st.size && st'.pos == st.pos
      && (st'.main.Writing? <==> st.main.Writing?)
      && |st'.threads| == |st.threads|
      && (forall s :: 0 <= s < |st.threads| && s != t ==> st'.threads[s] == st.threads[s])
      && ThreadShape(job.conf, st', t, st'.threads[t])
  {
    hide Section, AddInt32, ToggleFirst, ToggleState, SetLeft, SetRight, Bump;
    assert ThreadShape(job.conf, st, t, st.threads[t]);
  }

  /** Who is running, and that only section pos is treated as final. */
  lemma Runner(c: Ctx, st: State, t: nat)
    requires CtxFor(c) && Progress(c, st) && c.p < |st.threads| && t < |st.threads| && !st.threads[t].Idle?
    ensures t <= c.p && (IsFinal(st, t) <==> t == c.p)
    ensures Section(c.job.conf, st.buffer, t) == Section(c.job.conf, c.data, t)
  {}

  lemma StepFrame(job: Job, st: State, t: nat)
    requires ThreadCanStep(job, st, t)
    ensures var st' := ThreadStep(job, st, t);
            && st'.buffer == st.buffer && st'.size == st.size && st'.pos == st.pos
            && |st'.threads| == |st.threads|
            && (forall s :: 0 <= s < |st.threads| ==> (st'.threads[s].Idle? <==> st.threads[s].Idle?))
            && (st'.main == st.main || (st.main.Waiting? && st'.main.Returned?))
  {
    hide Section, AddInt32, ToggleFirst, ToggleState, Shape;
  }

  lemma StepProgress(c: Ctx, st: State, t: nat)
    requires CtxFor(c) && Progress(c, st) && ThreadCanStep(c.job, st, t) && c.p < |st.threads|
    ensures Progress(c, ThreadStep(c.job, st, t))
  {
    StepFrame(c.job, st, t);
    hide Section, ThreadStep, CtxFor, Shape, OpenSection, Data;
  }

  /** Every path ends at the root. */
  lemma RootOnPath(conf: Conf, t: nat)
    requires conf.depth >= 1 && t < conf.Sections()
    ensures On(t, conf.depth - 1) == Root(conf)
  {
    AncBound(t, conf.depth - 1, conf.depth - 1);
  }

  /** Only leaving the loop at the root stops a thread there. */
  lemma StopsBelow(job: Job, st: State, t: nat)
    requires ThreadCanStep(job, st, t) && !(st.threads[t].Arrive? && st.threads[t].lvl == job.conf.depth)
    ensures ThreadStep(job, st, t).main == st.main
    ensures ThreadStep(job, st, t).threads[t] != Stopped(job.conf.depth)
  {
    hide Section, AddInt32, ToggleFirst, ToggleState;
    assert ThreadShape(job.conf, st, t, st.threads[t]);
  }

  /** The result leaves through the thread that owns the root, once. */
  lemma StepDelivery(c: Ctx, st: State, own: Owners, t: nat, own': Owners)
    requires c.job.conf.depth >= 1 && t <= c.p < |st.threads| && (IsFinal(st, t) <==> t == c.p)
    requires Leaves(c, own) && Rights(c, st.threads, own) && Carried(c, st.threads)
    requires Delivery(c, st, own) && ThreadCanStep(c.job, st, t)
    requires OwnChange(c, st, own, t, ThreadStep(c.job, st, t), own')
    ensures Delivery(c, ThreadStep(c.job, st, t), own')
  {
    hide Value, AddInt32, ToggleFirst, ToggleState, Section;
    var root := Root(c.job.conf);
    var th := st.threads[t];
    RootOnPath(c.job.conf, t);
    if th.Arrive? && th.lvl == c.job.conf.depth {
      assert ThreadShape(c.job.conf, st, t, th);
      if th.s.Some? {
        HandIsOwned(c, st.threads, own, t, th.lvl, th.s.value);
        assert CarriedBy(c, t, th);
      }
    } else {
      StopsBelow(c.job, st, t);
      hide Rights, Leaves, ThreadStep, Shape;
    }
  }

  lemma ThreadStepInv(c: Ctx, st: State, own: Owners, t: nat) returns (own': Owners)
    requires Inv(c, st, own) && ThreadCanStep(c.job, st, t)
    ensures Inv(c, ThreadStep(c.job, st, t), own')
  {
    hide ThreadStep, Shape, Leaves, Paths, Rights, Closed, Counters, Slots, Carried, Delivery;
    assert c.p < |st.threads| by { Widths(c, st); }
    Runner(c, st, t);
    hide CtxFor, Progress;
    GroundFor(c, st.threads);
    own' := TreeStep(c, st, own, t);
    StepShape(c.job, st, t);
    StepProgress(c, st, t);
    StepDelivery(c, st, own, t, own');
  }

  lemma Widths(c: Ctx, st: State)
    requires CtxFor(c) && Shape(c.job.conf, st)
    ensures c.p < |st.threads| == c.job.conf.Sections()
  {}

  // ---------------------------------------------------------------- the writing goroutine

  /** Spawning goroutines does not disturb the tree. */
  ghost predicate Spawned(threads: seq<Thread>, threads': seq<Thread>) {
    && |threads'| == |threads|
    && forall t :: 0 <= t < |threads| ==> threads'[t] == threads[t] || (threads[t] == Idle && threads'[t] == Ready)
  }

  lemma SpawnTree(c: Ctx, threads: seq<Thread>, threads': seq<Thread>, nodes: map<Node, NodeState>, own: Owners)
    requires c.p < |threads| && TreeInv(c, threads, nodes, own) && Spawned(threads, threads')
    ensures TreeInv(c, threads', nodes, own)
  {
    hide Value, Slots, Rights, Leaves, Closed, Counters, Paths, Carried;
    SpawnRights(c, threads, threads', own);
    SpawnNodes(c, threads, threads', nodes, own);
    SpawnSlots(c, threads, threads', nodes, own);
  }

  lemma SpawnSlots(c: Ctx, threads: seq<Thread>, threads': seq<Thread>, nodes: map<Node, NodeState>, own: Owners)
    requires Slots(c, threads, nodes, own) && Carried(c, threads) && Spawned(threads, threads')
    ensures Slots(c, threads', nodes, own) && Carried(c, threads')
  {
    hide Value;
    forall t: nat | t < |threads'| ensures CarriedBy(c, t, threads'[t]) { assert CarriedBy(c, t, threads[t]); }
  }

  lemma SpawnRights(c: Ctx, threads: seq<Thread>, threads': seq<Thread>, own: Owners)
    requires c.p < |threads| && Rights(c, threads, own) && Spawned(threads, threads')
    ensures Rights(c, threads', own)
  {
    forall s: nat, k: nat | s <= c.p && 1 <= k && OwnedBy(own, On(s, k), s)
      ensures Took(threads'[s], k)
    {
      assert Took(threads[s], k);
    }
  }

  lemma SpawnNodes(c: Ctx, threads: seq<Thread>, threads': seq<Thread>, nodes: map<Node, NodeState>, own: Owners)
    requires Closed(c, threads, own) && Counters(c, threads, nodes, own) && Spawned(threads, threads')
    ensures Closed(c, threads', own) && Counters(c, threads', nodes, own)
  {
    forall n: Node | 1 <= n.level
      ensures BothPassed(threads', own, n) == BothPassed(threads, own, n)
      ensures Count(threads', own, n) == Count(threads, own, n)
    {}
    hide BothPassed, Count, AddInt32;
  }

  lemma SpawnDelivery(c: Ctx, st: State, st': State, own: Owners)
    requires c.job.conf.depth >= 1 && Delivery(c, st, own) && Spawned(st.threads, st'.threads)
    requires !st.main.Returned? && !st'.main.Returned?
    ensures Delivery(c, st', own)
  {
    hide Value;
  }

  lemma SpawnShape(conf: Conf, st: State, st': State)
    requires Shape(conf, st) && Spawned(st.threads, st'.threads) && st'.nodes == st.nodes
    requires st.main.Writing? && st'.pos < conf.Sections()
    requires |st'.buffer| == |st.buffer| && st'.size <= conf.MaxSize()
    ensures Shape(conf, st')
  {
    forall t | 0 <= t < |st'.threads|
      ensures ThreadShape(conf, st', t, st'.threads[t])
    {
      assert ThreadShape(conf, st, t, st.threads[t]);
    }
  }

  lemma {:induction false} ConcatPrefix(pieces: seq<Bytes>, w: nat)
    requires w <= |pieces|
    ensures Concat(pieces[..w]) <= Concat(pieces)
    decreases |pieces| - w
  {
    if w < |pieces| {
      ConcatPrefix(pieces, w + 1);
      ConcatNext(pieces, w);
    } else {
      assert pieces[..w] == pieces;
    }
  }

  lemma ConcatNext(pieces: seq<Bytes>, w: nat)
    requires w < |pieces|
    ensures Concat(pieces[..w + 1]) == Concat(pieces[..w]) + pieces[w]
  {
    assert pieces[..w + 1][..w] == pieces[..w];
  }

  /** The buffer after a Write holds the next bytes of the chunk. */
  lemma WriteData(c: Ctx, st: State, w: nat)
    requires CtxFor(c) && Shape(c.job.conf, st) && st.main == Writing(w) && w < |c.job.pieces| && Progress(c, st)
    ensures var st' := Write(c.job.conf, st, c.job.pieces[w]);
            && st'.size == Min(|Concat(c.job.pieces[..w + 1])|, c.job.conf.MaxSize())
            && st.size <= st'.size <= |Data(c.job)|
            && |st'.buffer| == |st.buffer|
            && st'.buffer[..st'.size] == c.data[..st'.size]
  {
    var max := c.job.conf.MaxSize();
    var b := c.job.pieces[w];
    var done, all := Concat(c.job.pieces[..w]), Concat(c.job.pieces);
    ConcatNext(c.job.pieces, w);
    ConcatPrefix(c.job.pieces, w);
    ConcatPrefix(c.job.pieces, w + 1);
    WriteCopies(c.job.conf, st, b);
    Filled(done, b, all, max);
    DataPrefix(c.job, st.size);
    hide BmtProtocol.Write, Shape, OpenSection, Section, Concat, TreeReady, LastSection;
    DataPrefix(c.job, Min(|done + b|, max));
  }

  /** Up to the end of the data the padded chunk is what was given to Write. */
  lemma DataPrefix(job: Job, k: nat)
    requires job.conf.Valid() && k <= |Data(job)|
    ensures k <= |Padded(job)| && k <= |Concat(job.pieces)| && Padded(job)[..k] == Concat(job.pieces)[..k]
  {
    hide Concat;
  }

  /** A piece goes behind what was there, as far as there is room. */
  lemma Filled(done: Bytes, b: Bytes, all: Bytes, max: nat)
    requires done + b <= all
    ensures var n := Min(|done|, max);
            var l := Min(|b|, max - n);
            && n + l == Min(|done + b|, max) && n + l <= Min(|all|, max)
            && all[..n] + b[..l] == all[..n + l]
  {
    assert all[..|done| + |b|] == done + b;
  }

  lemma WriteCopies(conf: Conf, st: State, b: Bytes)
    requires Shape(conf, st)
    ensures var st', l := Write(conf, st, b), Min(|b|, conf.MaxSize() - st.size);
      && st'.size == st.size + l && |st'.buffer| == |st.buffer|
      && st'.buffer[..st'.size] == st.buffer[..st.size] + b[..l]
  {
    hide ThreadShape, Quotient;
  }

  /** A section index below the open one is full. */
  lemma FullSections(conf: Conf, size: nat, t: nat)
    requires conf.Valid() && size <= conf.MaxSize() && t < OpenSection(conf, size)
    ensures t * conf.SecSize() + conf.SecSize() <= size
  {
    var sec := conf.SecSize();
    assert (t + 1) * sec == t * sec + sec;
    if size == conf.MaxSize() {
      MulMonotone(t + 1, conf.Sections(), sec);
    } else {
      QuotientBounds(size, sec, t + 1);
    }
  }

  lemma OpenSectionMonotone(conf: Conf, a: nat, b: nat)
    requires conf.Valid() && a <= b <= conf.MaxSize()
    ensures OpenSection(conf, a) <= OpenSection(conf, b) < conf.Sections()
  {
    var sec := conf.SecSize();
    QuotientBounds(a, sec, conf.Sections());
    QuotientBounds(b, sec, conf.Sections());
    QuotientBounds(a, sec, Quotient(a, sec));
    QuotientBounds(b, sec, Quotient(a, sec));
  }

  lemma SameSections(conf: Conf, x: Bytes, y: Bytes, n: nat, t: nat)
    requires n <= |x| && n <= |y| && x[..n] == y[..n]
    requires t * conf.SecSize() + conf.SecSize() <= n
    ensures Section(conf, x, t) == Section(conf, y, t)
  {
    var lo, hi := t * conf.SecSize(), t * conf.SecSize() + conf.SecSize();
    assert x[lo..hi] == x[..n][lo..hi];
    assert y[lo..hi] == y[..n][lo..hi];
  }

  /** Write spawns exactly the sections that became full. */
  lemma WriteSpawns(conf: Conf, st: State, b: Bytes)
    requires Shape(conf, st) && st.pos == OpenSection(conf, st.size)
    requires forall t :: 0 <= t < |st.threads| ==> (st.threads[t].Idle? <==> st.pos <= t)
    ensures var st' := Write(conf, st, b);
            && st'.size <= conf.MaxSize() && st'.pos == OpenSection(conf, st'.size)
            && Spawned(st.threads, st'.threads)
            && (forall t :: 0 <= t < |st'.threads| ==> (st'.threads[t].Idle? <==> st'.pos <= t))
  {
    var sec := conf.SecSize();
    var st' := Write(conf, st, b);
    QuotientOfProduct(conf.Sections(), sec);
    OpenSectionMonotone(conf, st.size, st'.size);
  }

  lemma WriteInv(c: Ctx, st: State, own: Owners, w: nat)
    requires Inv(c, st, own) && st.main == Writing(w) && w < |c.job.pieces|
    ensures Inv(c, MainStep(c.job, st), own)
  {
    hide TreeInv, Delivery;
    var conf := c.job.conf;
    var written := Write(conf, st, c.job.pieces[w]);
    var st' := written.(main := Writing(w + 1));
    assert st' == MainStep(c.job, st);
    Widths(c, st);
    WriteData(c, st, w);
    WriteSpawns(conf, st, c.job.pieces[w]);
    OpenSectionMonotone(conf, st'.size, |Data(c.job)|);
    hide Write, OpenSection, Padded, PaddingFits;
    SpawnShape(conf, st, st');
    SpawnTree(c, st.threads, st'.threads, st.nodes, own);
    SpawnDelivery(c, st, st', own);
    forall t: nat | t < st'.pos
      ensures Section(conf, st'.buffer, t) == Section(conf, c.data, t)
    {
      FullSections(conf, st'.size, t);
      SameSections(conf, st'.buffer, c.data, st'.size, t);
    }
  }

  /** The padding of Hash completes the last section. */
  lemma HashPads(c: Ctx, st: State)
    requires CtxFor(c) && Shape(c.job.conf, st) && Progress(c, st) && st.main == Writing(|c.job.pieces|)
    ensures st.size == |Data(c.job)| > 0 && st.pos == c.p
    ensures forall t: nat :: t <= c.p ==>
              Section(c.job.conf, PadBuffer(st.buffer, st.size), t) == Section(c.job.conf, c.data, t)
  {
    var conf, pieces := c.job.conf, c.job.pieces;
    assert pieces[..|pieces|] == pieces;
    var padded := PadBuffer(st.buffer, st.size);
    var n := Min(st.size + ZERO_SECTION, conf.MaxSize());
    assert padded[..n] == c.data[..n] by { PadPrefix(c, st.buffer, n); }
    forall t: nat | t <= c.p
      ensures Section(conf, padded, t) == Section(conf, c.data, t)
    {
      LastSectionEnds(c, t);
      SameSections(conf, padded, c.data, n, t);
    }
  }

  lemma PadPrefix(c: Ctx, buffer: Bytes, n: nat)
    requires c.job.conf.depth >= 1 && c.data == Padded(c.job) && |buffer| == |c.data|
    requires |Data(c.job)| <= n <= |buffer| && n <= |Data(c.job)| + ZERO_SECTION
    requires buffer[..|Data(c.job)|] == c.data[..|Data(c.job)|]
    ensures PadBuffer(buffer, |Data(c.job)|)[..n] == c.data[..n]
  {
    var size := |Data(c.job)|;
    var x, y := PadBuffer(buffer, size)[..n], c.data[..n];
    forall i | 0 <= i < n
      ensures x[i] == y[i]
    {
      if i < size {
        assert x[i] == buffer[..size][i];
        assert y[i] == c.data[..size][i];
      }
    }
  }

  lemma LastSectionEnds(c: Ctx, t: nat)
    requires CtxFor(c) && t <= c.p
    ensures t * c.job.conf.SecSize() + c.job.conf.SecSize() <= Min(|Data(c.job)| + ZERO_SECTION, c.job.conf.MaxSize())
  {
    var conf, size := c.job.conf, |Data(c.job)|;
    var sec := conf.SecSize();
    assert (t + 1) * sec == t * sec + sec;
    MulMonotone(t + 1, conf.Sections(), sec);
    if size < conf.MaxSize() {
      MulMonotone(t, c.p, sec);
      QuotientRest(size, sec);
    }
  }

  lemma HashInv(c: Ctx, st: State, own: Owners)
    requires Inv(c, st, own) && st.main == Writing(|c.job.pieces|)
    ensures Inv(c, MainStep(c.job, st), own)
  {
    hide TreeInv, Delivery, OpenSection, PaddingFits;
    Widths(c, st);
    HashPads(c, st);
    var st' := MainStep(c.job, st);
    assert st' == st.(main := Waiting, buffer := PadBuffer(st.buffer, st.size), threads := st.threads[st.pos := Ready]);
    hide PadBuffer, Padded, Data;
    SpawnShape(c.job.conf, st, st');
    SpawnTree(c, st.threads, st'.threads, st.nodes, own);
    SpawnDelivery(c, st, st', own);
  }
}
