/** What the concurrent hasher guarantees: for every split into writes and every interleaving. */
module BmtTheorems {
  import opened Common
  import opened BmtTree
  import opened BmtProtocol
  import opened BmtInvariant
  import opened BmtRuns

  // ---------------------------------------------------------------- start of a run

  /** Leaf k belongs to thread k. */
  function LeafOwners(p: nat): (r: Owners)
    ensures forall n: Node :: n in r <==> n.level == 0 && n.idx <= p
    ensures forall n: Node :: n in r ==> r[n] == n.idx
  {
    map k: nat | k <= p :: Node(0, k) := k
  }

  /** The zero sisters along the final path, up to height h, belong to the final walker. */
  function SisterOwners(p: nat, h: nat): (r: Owners)
    ensures forall n: Node :: n in r <==> n.level < h && ZeroSister(p, n)
    ensures forall n: Node :: n in r ==> r[n] == p
  {
    if h == 0 then map[]
    else if Anc(p, h - 1) % 2 == 0 then SisterOwners(p, h - 1)[Node(h - 1, Anc(p, h - 1) + 1) := p]
    else SisterOwners(p, h - 1)
  }

  function StartOwners(c: Ctx): Owners
    requires c.job.conf.depth >= 1
  {
    LeafOwners(c.p) + SisterOwners(c.p, c.job.conf.depth - 1)
  }

  lemma StartOwnersFacts(c: Ctx)
    requires c.job.conf.depth >= 1
    ensures Leaves(c, StartOwners(c)) && Paths(c, StartOwners(c))
    ensures forall n: Node :: n in StartOwners(c) && n.level >= 1 ==> ZeroSister(c.p, n)
  {
    hide LeafOwners, SisterOwners;
    forall l: nat | l < c.job.conf.depth - 1 && Anc(c.p, l) % 2 == 0
      ensures OwnedBy(StartOwners(c), Node(l, Anc(c.p, l) + 1), c.p)
    {
      assert ZeroSister(c.p, Node(l, Anc(c.p, l) + 1));
    }
  }

  lemma StartTree(c: Ctx, threads: seq<Thread>)
    requires c.job.conf.depth >= 1 && c.p < |threads| && forall t :: 0 <= t < |threads| ==> threads[t] == Idle
    requires forall n: Node :: n in c.init ==> n.level < c.job.conf.depth && IsInt32(c.init[n].state)
    ensures TreeInv(c, threads, c.init, StartOwners(c))
  {
    StartOwnersFacts(c);
    hide StartOwners, Value, Leaves, Paths;
    var own := StartOwners(c);
    assert Rights(c, threads, own) by { StartRights(c, threads, own); }
    assert Closed(c, threads, own) && Counters(c, threads, c.init, own) by { StartNodes(c, threads, own); }
    hide Rights, Closed, Counters;
  }

  lemma StartRights(c: Ctx, threads: seq<Thread>, own: Owners)
    requires c.p < |threads| && forall t :: 0 <= t < |threads| ==> threads[t] == Idle
    requires forall n: Node :: n in own && n.level >= 1 ==> ZeroSister(c.p, n)
    ensures Rights(c, threads, own)
  {
    forall t: nat, l: nat | t <= c.p && 1 <= l
      ensures !OwnedBy(own, On(t, l), t)
    {
      AncMonotone(t, c.p, l);
    }
  }

  lemma StartNodes(c: Ctx, threads: seq<Thread>, own: Owners)
    requires forall t :: 0 <= t < |threads| ==> threads[t] == Idle
    requires forall n: Node :: n in own && n.level >= 1 ==> ZeroSister(c.p, n)
    requires forall n: Node :: n in c.init ==> n.level < c.job.conf.depth && IsInt32(c.init[n].state)
    ensures Closed(c, threads, own) && Counters(c, threads, c.init, own)
  {
    forall n: Node | n.level >= 1
      ensures !BothPassed(threads, own, n) && Count(threads, own, n) == 0
    {}
    hide BothPassed, Count, AddInt32;
    forall n: Node | n in c.init && n.level >= 1
      ensures c.init[n].state == AddInt32(c.init[n].state, Count(threads, own, n))
    {
      AddZero(c.init[n].state);
    }
  }

  lemma StartInv(c: Ctx, st: State)
    requires CtxFor(c) && Start(c.job, st) && st.nodes == c.init
    ensures Inv(c, st, StartOwners(c))
  {
    hide TreeInv, Delivery, StartOwners, Shape, Progress, Padded, Data, OpenSection, LastSection, PaddingFits;
    Widths0(c);
    StartTree(c, st.threads);
    StartDelivery(c, st);
    StartShape(c, st);
    StartProgress(c, st);
  }

  lemma StartShape(c: Ctx, st: State)
    requires CtxFor(c) && Start(c.job, st) && st.nodes == c.init
    requires c.job.conf.Sections() >= 1 && c.job.conf.MaxSize() >= c.job.conf.SecSize() >= 2
    ensures Shape(c.job.conf, st)
  {
    hide Padded, Data, OpenSection, LastSection, PaddingFits;
  }

  lemma Widths0(c: Ctx)
    requires CtxFor(c)
    ensures c.job.conf.Sections() >= 1 && c.job.conf.MaxSize() >= c.job.conf.SecSize() >= 2
    ensures OpenSection(c.job.conf, 0) == 0
  {
    hide Padded, Data;
    MulMonotone(1, c.job.conf.Sections(), c.job.conf.SecSize());
  }

  lemma StartProgress(c: Ctx, st: State)
    requires CtxFor(c) && Start(c.job, st) && OpenSection(c.job.conf, 0) == 0
    ensures Progress(c, st)
  {
    hide Padded, Section, TreeReady, OpenSection, PaddingFits, LastSection, Data;
    assert c.job.pieces[..0] == [];
  }

  lemma StartDelivery(c: Ctx, st: State)
    requires c.job.conf.depth >= 1 && st.main == Writing(0)
             && forall t :: 0 <= t < |st.threads| ==> st.threads[t] == Idle
    ensures Delivery(c, st, StartOwners(c))
  {
    hide Value;
  }

  // ---------------------------------------------------------------- the invariant along runs

  /** The context a run is judged by. */
  function CtxOf(job: Job, init: map<Node, NodeState>): Ctx
    requires job.conf.Valid()
  {
    Ctx(job, Padded(job), LastSection(job), init)
  }

  lemma CtxOfIsFor(job: Job, init: map<Node, NodeState>)
    requires job.conf.Valid() && TreeReady(job.conf, init) && |Data(job)| > 0 && PaddingFits(job)
    ensures CtxFor(CtxOf(job, init))
  {
    hide Padded, TreeReady;
    OpenSectionMonotone(job.conf, |Data(job)|, |Data(job)|);
  }

  lemma NextInv(c: Ctx, st: State, own: Owners, st': State) returns (own': Owners)
    requires Inv(c, st, own) && Next(c.job, st, st')
    ensures Inv(c, st', own')
  {
    hide Inv, ThreadStep, MainStep;
    if MainCanStep(c.job, st) && st' == MainStep(c.job, st) {
      own' := own;
      var w := st.main.next;
      if w < |c.job.pieces| {
        WriteInv(c, st, own, w);
      } else {
        HashInv(c, st, own);
      }
    } else {
      var t: nat :| ThreadCanStep(c.job, st, t) && st' == ThreadStep(c.job, st, t);
      own' := ThreadStepInv(c, st, own, t);
    }
  }

  lemma {:induction false} RunInv(c: Ctx, run: seq<State>, i: nat) returns (own: Owners)
    requires CtxFor(c) && Run(c.job, run) && run[0].nodes == c.init && i < |run|
    ensures Inv(c, run[i], own)
  {
    hide Inv, Next, Start, Padded, LastSection, PaddingFits, Data, TreeReady;
    if i == 0 {
      StartInv(c, run[0]);
      own := StartOwners(c);
    } else {
      var before := RunInv(c, run, i - 1);
      own := NextInv(c, run[i - 1], before, run[i]);
    }
  }

  /** The invariant at any point of a run over a chunk with data. */
  lemma OwnersAt(job: Job, run: seq<State>, i: nat) returns (c: Ctx, own: Owners)
    requires Run(job, run) && PaddingFits(job) && |Data(job)| > 0 && i < |run|
    ensures c.job == job && c.init == run[0].nodes && Inv(c, run[i], own)
  {
    hide Inv, Next, Padded, LastSection, PaddingFits, Data, TreeReady, TreeShape;
    CtxOfIsFor(job, run[0].nodes);
    c := CtxOf(job, run[0].nodes);
    own := RunInv(c, run, i);
  }

  // ---------------------------------------------------------------- the result

  /** What the reference hasher would return for the same chunk. */
  function Expected(job: Job): Bytes
    requires job.conf.Valid()
  {
    RootIsRefHash(job.conf, Padded(job));
    job.conf.sha3(job.span + RefHash(job.conf.base, job.conf.SecSize(), job.conf.depth - 1, Padded(job)))
  }

  /** An empty chunk never starts a goroutine and uses the table directly. */
  ghost predicate EmptyInv(job: Job, init: map<Node, NodeState>, st: State) {
    && Shape(job.conf, st)
    && st.size == 0 && st.pos == 0 && st.nodes == init
    && (forall t :: 0 <= t < |st.threads| ==> st.threads[t] == Idle)
    && (st.main.Writing? ==> st.main.next <= |job.pieces|)
    && (st.main.Writing? || st.main == Returned(job.conf.sha3(job.span + job.conf.zerohashes[job.conf.depth])))
  }

  lemma EmptyPieces(pieces: seq<Bytes>, w: nat)
    requires Concat(pieces) == [] && w < |pieces|
    ensures pieces[w] == []
  {
    ConcatPrefix(pieces, w + 1);
    ConcatNext(pieces, w);
  }

  lemma EmptyNext(job: Job, init: map<Node, NodeState>, st: State, st': State)
    requires EmptyInv(job, init, st) && Concat(job.pieces) == [] && Next(job, st, st')
    ensures EmptyInv(job, init, st')
  {
    var w := st.main.next;
    if w < |job.pieces| {
      EmptyPieces(job.pieces, w);
      EmptyWrite(job.conf, st);
    }
  }

  lemma EmptyWrite(conf: Conf, st: State)
    requires Shape(conf, st) && st.size == 0 && st.pos == 0
    ensures var st' := Write(conf, st, []);
            st'.size == 0 && st'.pos == 0 && st'.threads == st.threads && |st'.buffer| == |st.buffer|
  {
    MulMonotone(1, conf.Sections(), conf.SecSize());
  }

  lemma {:induction false} EmptyRun(job: Job, run: seq<State>, i: nat)
    requires Steps(job, run) && Concat(job.pieces) == [] && i < |run|
    ensures EmptyInv(job, run[0].nodes, run[i])
  {
    if i == 0 {
    } else {
      EmptyRun(job, run, i - 1);
      hide EmptyInv;
      EmptyNext(job, run[0].nodes, run[i - 1], run[i]);
    }
  }

  lemma EmptyExpected(job: Job)
    requires job.conf.Valid() && Concat(job.pieces) == []
    ensures Expected(job) == job.conf.sha3(job.span + job.conf.zerohashes[job.conf.depth])
  {
    var m := job.conf.MaxSize();
    assert Padded(job) == Zeros(m);
    RootIsRefHash(job.conf, Zeros(m));
    ZeroTable(job.conf, job.conf.depth - 1, m);
  }

  lemma NoDataNoPieces(job: Job)
    requires job.conf.Valid() && |Data(job)| == 0
    ensures Concat(job.pieces) == []
  {
    MulMonotone(1, job.conf.Sections(), job.conf.SecSize());
  }

  /**
  Whatever the split into Write calls, the interleaving and the stale contents of the tree, a value
  that reaches the caller of Hash is the reference hash of the zero-padded data.
  */
  lemma ResultIsReference(job: Job, run: seq<State>, i: nat)
    requires Run(job, run) && PaddingFits(job) && i < |run| && run[i].main.Returned?
    ensures run[i].main.out == Expected(job)
  {
    hide Next, Padded, PaddingFits, Expected, TreeReady, Shape, Inv;
    if |Data(job)| == 0 {
      NoDataNoPieces(job);
      EmptyRun(job, run, i);
      EmptyExpected(job);
    } else {
      var c, own := OwnersAt(job, run, i);
      DeliveredExpected(c, run[i], own);
    }
  }

  lemma DeliveredExpected(c: Ctx, st: State, own: Owners)
    requires Inv(c, st, own) && st.main.Returned?
    ensures st.main.out == Expected(c.job)
  {
    hide Padded, PaddingFits, TreeInv, Shape, Progress, RefHash, Value;
    RootIsRefHash(c.job.conf, c.data);
  }

  // ---------------------------------------------------------------- after delivery

  /** Once the root is owned, so is every node on or left of the final path. */
  lemma {:induction false} OwnedDown(c: Ctx, threads: seq<Thread>, own: Owners, n: Node)
    requires c.job.conf.depth >= 1 && c.p < c.job.conf.Sections() && Closed(c, threads, own)
    requires Root(c.job.conf) in own && n.level < c.job.conf.depth && n.idx <= Anc(c.p, n.level)
    ensures n in own
    decreases c.job.conf.depth - n.level
  {
    hide Closed;
    if n.level == c.job.conf.depth - 1 {
      RootOnPath(c.job.conf, c.p);
    } else {
      hide Root;
      OwnedDown(c, threads, own, Parent(n));
      OwnedChild(c, threads, own, n);
    }
  }

  lemma OwnedChild(c: Ctx, threads: seq<Thread>, own: Owners, n: Node)
    requires Closed(c, threads, own) && n.level + 1 < c.job.conf.depth
    requires Parent(n) in own && Parent(n).idx <= Anc(c.p, n.level + 1)
    ensures n in own && own[n] < |threads| && Passed(threads[own[n]], n.level + 1)
            && BothPassed(threads, own, Parent(n))
  {
    assert BothPassed(threads, own, Parent(n));
    hide Closed;
    assert n == LeftChild(Parent(n)) || n == RightChild(Parent(n));
  }

  /** ... and everything owned below the root has been handed over to its parent. */
  lemma HandedOver(c: Ctx, threads: seq<Thread>, own: Owners, m: Node)
    requires c.job.conf.depth >= 1 && c.p < c.job.conf.Sections() && Closed(c, threads, own) && Paths(c, own)
    requires Root(c.job.conf) in own && m in own && m.level < c.job.conf.depth - 1
    ensures own[m] < |threads| && Passed(threads[own[m]], m.level + 1)
    ensures BothPassed(threads, own, Parent(m))
  {
    hide Closed, Root;
    ParentOnPath(c, own, m);
    hide Paths;
    OwnedDown(c, threads, own, Parent(m));
    OwnedChild(c, threads, own, m);
  }

  lemma ParentOnPath(c: Ctx, own: Owners, m: Node)
    requires Paths(c, own) && m in own
    ensures Parent(m).idx <= Anc(c.p, m.level + 1)
  {
    var t := own[m];
    if m == On(t, m.level) { AncMonotone(t, c.p, m.level); }
  }

  /** The tree part of a delivered state. */
  ghost predicate Finished(c: Ctx, threads: seq<Thread>, own: Owners) {
    && c.job.conf.depth >= 1 && c.p < c.job.conf.Sections() && c.p < |threads|
    && Leaves(c, own) && Paths(c, own) && Rights(c, threads, own) && Closed(c, threads, own)
    && Root(c.job.conf) in own && threads[own[Root(c.job.conf)]] == Stopped(c.job.conf.depth)
  }

  /** An owner has handed its node over, or is the one that delivered. */
  lemma OwnerDone(c: Ctx, threads: seq<Thread>, own: Owners, m: Node, t: nat)
    requires Finished(c, threads, own) && OwnedBy(own, m, t)
    ensures Passed(threads[t], m.level + 1) || threads[t] == Stopped(c.job.conf.depth)
  {
    hide Rights, Leaves, Closed;
    if m.level < c.job.conf.depth - 1 {
      HandedOver(c, threads, own, m);
    } else {
      RootOnPath(c.job.conf, t);
    }
  }

  lemma NormalStopped(c: Ctx, threads: seq<Thread>, own: Owners, t: nat)
    requires Finished(c, threads, own) && t < c.p
    requires threads[t].Ready? || threads[t].Stopped? || (!threads[t].Idle? && 1 <= threads[t].lvl <= c.job.conf.depth)
    requires threads[t].Combine? ==> threads[t].lvl < c.job.conf.depth
    ensures threads[t].Stopped?
  {
    var th := threads[t];
    var m: nat := if th.Combine? then th.lvl else if th.Ready? || th.Stopped? then 0 else th.lvl - 1;
    assert !th.Stopped? ==> OwnedBy(own, On(t, m), t) by {
      if !th.Stopped? {
        if m == 0 { assert OwnedBy(own, Node(0, t), t); } else { assert Took(th, m); }
      }
    }
    hide Finished;
    if !th.Stopped? { OwnerDone(c, threads, own, On(t, m), t); }
  }

  /** What the final walker still has to hand over, unless it only walks. */
  lemma FinalDuty(c: Ctx, own: Owners, th: Thread) returns (m: Node)
    requires Leaves(c, own) && FinalRights(c, th, own) && !th.Idle? && !th.Stopped?
    requires th.Ready? || 1 <= th.lvl <= c.job.conf.depth
    requires th.Combine? || th.WriteLeft? || th.Flip? ==> th.lvl < c.job.conf.depth
    requires !(th.Arrive? && th.s.None? && (th.lvl == c.job.conf.depth || !IsLeft(On(c.p, th.lvl - 1))))
    ensures OwnedBy(own, m, c.p) && !Passed(th, m.level + 1)
  {
    if th.Ready? {
      m := Node(0, c.p);
    } else if th.Combine? {
      m := On(c.p, th.lvl);
    } else if OwnedBy(own, On(c.p, th.lvl - 1), c.p) {
      m := On(c.p, th.lvl - 1);
    } else {
      m := Node(th.lvl - 1, Anc(c.p, th.lvl - 1) + 1);
    }
  }

  lemma FinalEmpty(c: Ctx, threads: seq<Thread>, own: Owners)
    requires Finished(c, threads, own) && !threads[c.p].Idle?
    requires threads[c.p].Ready? || threads[c.p].Stopped? || 1 <= threads[c.p].lvl <= c.job.conf.depth
    requires threads[c.p].Combine? || threads[c.p].WriteLeft? || threads[c.p].Flip? ==>
               threads[c.p].lvl < c.job.conf.depth
    ensures var th := threads[c.p];
            th.Stopped? || (th.Arrive? && th.s.None? && (th.lvl == c.job.conf.depth || !IsLeft(On(c.p, th.lvl - 1))))
  {
    hide Leaves, Paths, Closed, FinalRights;
    var th := threads[c.p];
    assert FinalRights(c, th, own);
    hide Rights;
    if !th.Stopped? && !(th.Arrive? && th.s.None? && (th.lvl == c.job.conf.depth || !IsLeft(On(c.p, th.lvl - 1)))) {
      var m := FinalDuty(c, own, th);
      OwnerDone(c, threads, own, m, c.p);
    }
  }

  lemma InvFinished(c: Ctx, st: State, own: Owners)
    requires Inv(c, st, own) && st.main.Returned?
    ensures Finished(c, st.threads, own)
  {
    Widths(c, st);
    hide Padded, PaddingFits, Value, Counters, Slots, Carried, Progress, Leaves, Paths, Rights, Closed;
  }

  /**
  A goroutine that will neither write, toggle, hash nor send any more: not started, ended, or the
  final walker with nothing in hand and only right turns ahead of it.
  */
  ghost predicate Gone(conf: Conf, pos: nat, t: nat, th: Thread) {
    || th.Idle? || th.Stopped?
    || (th.Arrive? && th.s.None? && 1 <= th.lvl <= conf.depth && t == pos
        && forall k: nat :: th.lvl - 1 <= k < conf.depth - 1 ==> !IsLeft(On(t, k)))
  }

  /** Once the result is delivered every goroutine is gone: none waits to send a second result. */
  lemma AllGone(c: Ctx, st: State, own: Owners, t: nat)
    requires Inv(c, st, own) && st.main.Returned? && t < |st.threads|
    ensures Gone(c.job.conf, st.pos, t, st.threads[t])
  {
    if !st.threads[t].Idle? {
      hide TreeInv, Delivery, Progress, CtxFor, Shape, Finished;
      InvFinished(c, st, own);
      Widths(c, st);
      Runner(c, st, t);
      ShapeAt(c.job.conf, st, t);
      if t < c.p {
        NormalStopped(c, st.threads, own, t);
      } else {
        FinalEmpty(c, st.threads, own);
        if !st.threads[t].Stopped? { OnlyRightTurns(c, st.threads, own); }
      }
    }
  }

  /** Behind the zero sister of a left turn the final walker would still have to hand it over. */
  lemma OnlyRightTurns(c: Ctx, threads: seq<Thread>, own: Owners)
    requires Finished(c, threads, own) && threads[c.p].Arrive? && threads[c.p].lvl >= 1
    ensures forall k: nat :: threads[c.p].lvl - 1 <= k < c.job.conf.depth - 1 ==> !IsLeft(On(c.p, k))
  {
    hide Leaves, Paths, Rights, Closed, Anc;
    forall k: nat | threads[c.p].lvl - 1 <= k < c.job.conf.depth - 1 ensures !IsLeft(On(c.p, k)) {
      RightTurn(c, threads, own, k);
    }
  }

  lemma RightTurn(c: Ctx, threads: seq<Thread>, own: Owners, k: nat)
    requires Finished(c, threads, own) && threads[c.p].Arrive? && threads[c.p].lvl - 1 <= k < c.job.conf.depth - 1
    ensures !IsLeft(On(c.p, k))
  {
    hide Leaves, Paths, Rights, Closed, Anc;
    if IsLeft(On(c.p, k)) {
      var m := Node(k, Anc(c.p, k) + 1);
      SisterIsOwned(c, own, k);
      OwnerDone(c, threads, own, m, c.p);
    }
  }

  /** The zero sister of a left turn belongs to the final walker. */
  lemma SisterIsOwned(c: Ctx, own: Owners, k: nat)
    requires Leaves(c, own) && k < c.job.conf.depth - 1 && Anc(c.p, k) % 2 == 0
    ensures OwnedBy(own, Node(k, Anc(c.p, k) + 1), c.p)
  {
    hide Anc;
  }

  lemma ShapeAt(conf: Conf, st: State, t: nat)
    requires Shape(conf, st) && t < |st.threads|
    ensures ThreadShape(conf, st, t, st.threads[t])
  {}

  /** After delivery no step writes a node, moves a toggle or sends a second result. */
  lemma QuietAfter(c: Ctx, st: State, own: Owners, st': State)
    requires Inv(c, st, own) && st.main.Returned? && Next(c.job, st, st')
    ensures st'.nodes == st.nodes && st'.main == st.main
  {
    hide Inv, MainStep;
    var t: nat :| ThreadCanStep(c.job, st, t) && st' == ThreadStep(c.job, st, t);
    AllGone(c, st, own, t);
  }

  /** Every counter rests again: it has moved by zero or two. */
  lemma CountersRest(c: Ctx, st: State, own: Owners, n: Node)
    requires Inv(c, st, own) && st.main.Returned? && n in st.nodes
    ensures n in c.init
    ensures st.nodes[n].state == c.init[n].state || st.nodes[n].state == AddInt32(c.init[n].state, 2)
  {
    InvFinished(c, st, own);
    hide Shape, Progress, Delivery, Padded, PaddingFits, Value, Slots, Carried, AddInt32;
    if n.level > 0 {
      CountZeroOrTwo(c, st.threads, own, n);
      AddZero(c.init[n].state);
    }
  }

  lemma CountZeroOrTwo(c: Ctx, threads: seq<Thread>, own: Owners, n: Node)
    requires Finished(c, threads, own) && 1 <= n.level < c.job.conf.depth
    ensures Count(threads, own, n) == 0 || Count(threads, own, n) == 2
  {
    var x, y := LeftChild(n), RightChild(n);
    assert Parent(x) == n && Parent(y) == n;
    if x in own { HandedOver(c, threads, own, x); } else if y in own { HandedOver(c, threads, own, y); }
  }

  // ---------------------------------------------------------------- the result always comes

  /** If everybody has stopped, every node on or left of the final path is owned. */
  lemma {:induction false} OwnedUp(c: Ctx, threads: seq<Thread>, own: Owners, n: Node)
    requires AllStopped(c, threads, own) && n.level < c.job.conf.depth && n.idx <= Anc(c.p, n.level)
    ensures n in own
    decreases n.level
  {
    hide AllStopped;
    if n.level == 0 {
      LeafOwned(c, threads, own, n);
    } else {
      var x, y := LeftChild(n), RightChild(n);
      OwnedUp(c, threads, own, x);
      StoppedPassed(c, threads, own, x);
      if y.idx <= Anc(c.p, y.level) {
        OwnedUp(c, threads, own, y);
      } else {
        SisterOwned(c, threads, own, y);
      }
      StoppedPassed(c, threads, own, y);
      NodeOwned(c, threads, own, n);
    }
  }

  ghost predicate AllStopped(c: Ctx, threads: seq<Thread>, own: Owners) {
    && c.p < |threads|
    && Leaves(c, own) && Paths(c, own) && Rights(c, threads, own) && Closed(c, threads, own)
    && forall t: nat :: t <= c.p ==> threads[t].Stopped? && threads[t].lvl >= 1
  }

  lemma LeafOwned(c: Ctx, threads: seq<Thread>, own: Owners, n: Node)
    requires AllStopped(c, threads, own) && n.level == 0 && n.idx <= c.p
    ensures n in own
  {
    hide Paths, Rights, Closed, Anc;
    assert OwnedBy(own, Node(0, n.idx), n.idx);
  }

  lemma SisterOwned(c: Ctx, threads: seq<Thread>, own: Owners, y: Node)
    requires AllStopped(c, threads, own) && y.level < c.job.conf.depth - 1 && y.idx == Anc(c.p, y.level) + 1
             && y.idx % 2 == 1
    ensures y in own
  {
    hide Paths, Rights, Closed, Anc;
    assert Anc(c.p, y.level) % 2 == 0;
    assert OwnedBy(own, Node(y.level, Anc(c.p, y.level) + 1), c.p);
  }

  lemma NodeOwned(c: Ctx, threads: seq<Thread>, own: Owners, n: Node)
    requires AllStopped(c, threads, own) && 1 <= n.level < c.job.conf.depth && n.idx <= Anc(c.p, n.level)
    requires BothPassed(threads, own, n)
    ensures n in own
  {}

  lemma StoppedPassed(c: Ctx, threads: seq<Thread>, own: Owners, m: Node)
    requires AllStopped(c, threads, own) && m in own && m.level < c.job.conf.depth - 1
    ensures own[m] < |threads| && Passed(threads[own[m]], m.level + 1)
  {
    hide Closed, Leaves;
    var t := own[m];
    if m == On(t, m.level) && m.level >= 1 {
      assert OwnedBy(own, On(t, m.level), t);
    }
  }

  /** A state in which nobody can move has delivered. */
  lemma NoDeadlock(c: Ctx, st: State, own: Owners)
    requires Inv(c, st, own)
    requires !CanStep(c.job, st)
    ensures st.main.Returned?
  {
    hide TreeInv, Delivery, Padded, Value, PaddingFits;
    Widths(c, st);
    if st.main.Waiting? {
      forall t: nat | t <= c.p
        ensures st.threads[t].Stopped? && st.threads[t].lvl >= 1
      {
        assert !ThreadCanStep(c.job, st, t);
        ShapeAt(c.job.conf, st, t);
      }
      forall t: nat | t <= c.p ensures 1 <= st.threads[t].lvl <= c.job.conf.depth { ShapeAt(c.job.conf, st, t); }
      hide Shape, Progress, CtxFor;
      StoppedDelivers(c, st, own);
    }
  }

  lemma StoppedDelivers(c: Ctx, st: State, own: Owners)
    requires c.p < |st.threads| && c.job.conf.depth >= 1 && c.p < c.job.conf.Sections()
    requires TreeInv(c, st.threads, st.nodes, own) && Delivery(c, st, own)
    requires forall t: nat :: t <= c.p ==> st.threads[t].Stopped? && 1 <= st.threads[t].lvl <= c.job.conf.depth
    ensures st.main.Returned?
  {
    hide Value, Counters, Slots, Carried, Leaves, Paths, Rights, Closed;
    assert AllStopped(c, st.threads, own);
    hide AllStopped, TreeInv;
    RootOnPath(c.job.conf, c.p);
    OwnedUp(c, st.threads, own, Root(c.job.conf));
    RootOwnerStopped(c, st.threads, own);
  }

  lemma RootOwnerStopped(c: Ctx, threads: seq<Thread>, own: Owners)
    requires AllStopped(c, threads, own) && c.job.conf.depth >= 1 && c.p < c.job.conf.Sections()
    requires Root(c.job.conf) in own
    ensures own[Root(c.job.conf)] <= c.p
    ensures threads[own[Root(c.job.conf)]].lvl >= c.job.conf.depth
  {
    hide Closed, Leaves;
    var t := own[Root(c.job.conf)];
    RootOnPath(c.job.conf, t);
    assert OwnedBy(own, On(t, c.job.conf.depth - 1), t);
  }

  // ---------------------------------------------------------------- every run ends

  /** Steps a goroutine can still take, at most. */
  function Rank(depth: nat, th: Thread): int {
    match th
    case Idle => 4 * depth + 4
    case Ready => 4 * depth + 3
    case Arrive(l, _) => 4 * (depth - l) + 3
    case WriteLeft(l, _) => 4 * (depth - l) + 2
    case Flip(l) => 4 * (depth - l) + 2
    case Combine(l) => 4 * (depth - l) + 1
    case Stopped(_) => 0
  }

  function Ranks(depth: nat, threads: seq<Thread>): int {
    if threads == [] then 0 else Ranks(depth, threads[..|threads| - 1]) + Rank(depth, threads[|threads| - 1])
  }

  /** Bounds the number of steps left. */
  function Measure(job: Job, st: State): int {
    (if st.main.Writing? then |job.pieces| - st.main.next + 1 else 0) + Ranks(job.conf.depth, st.threads)
  }

  lemma {:induction false} RanksUpdate(depth: nat, threads: seq<Thread>, t: nat, th: Thread)
    requires t < |threads|
    ensures Ranks(depth, threads[t := th]) == Ranks(depth, threads) - Rank(depth, threads[t]) + Rank(depth, th)
    decreases |threads|
  {
    var n := |threads| - 1;
    var threads' := threads[t := th];
    if t == n {
      assert threads'[..n] == threads[..n];
    } else {
      assert threads'[..n] == threads[..n][t := th];
      RanksUpdate(depth, threads[..n], t, th);
    }
  }

  lemma {:induction false} RanksSpawned(depth: nat, threads: seq<Thread>, threads': seq<Thread>)
    requires Spawned(threads, threads')
    ensures Ranks(depth, threads') <= Ranks(depth, threads)
    decreases |threads|
  {
    if threads != [] {
      var n := |threads| - 1;
      RanksSpawned(depth, threads[..n], threads'[..n]);
    }
  }

  lemma {:induction false} RanksNatural(conf: Conf, st: State, n: nat)
    requires Shape(conf, st) && n <= |st.threads|
    ensures Ranks(conf.depth, st.threads[..n]) >= 0
  {
    if n > 0 {
      RanksNatural(conf, st, n - 1);
      ShapeAt(conf, st, n - 1);
      assert st.threads[..n][..n - 1] == st.threads[..n - 1];
    }
  }

  lemma ThreadDecreases(job: Job, st: State, t: nat)
    requires ThreadCanStep(job, st, t)
    ensures Ranks(job.conf.depth, ThreadStep(job, st, t).threads) < Ranks(job.conf.depth, st.threads)
    ensures ThreadStep(job, st, t).main.Writing? <==> st.main.Writing?
    ensures st.main.Writing? ==> ThreadStep(job, st, t).main == st.main
  {
    hide Ranks, ToggleFirst, ToggleState, AddInt32, Section;
    ShapeAt(job.conf, st, t);
    var th := ThreadStep(job, st, t).threads[t];
    RanksUpdate(job.conf.depth, st.threads, t, th);
    hide Shape;
  }

  /** The final section's goroutine is spawned from Idle; a Write only spawns idle goroutines. */
  ghost predicate FreshSpawns(job: Job, st: State) {
    st.main.Writing? ==>
      && Shape(job.conf, st) && st.pos == OpenSection(job.conf, st.size)
      && (forall t :: 0 <= t < |st.threads| ==> (st.threads[t].Idle? <==> st.pos <= t))
  }

  lemma MainDecreases(job: Job, st: State)
    requires MainCanStep(job, st) && FreshSpawns(job, st)
    ensures Measure(job, MainStep(job, st)) < Measure(job, st)
  {
    var w := st.main.next;
    if w < |job.pieces| {
      WriteSpawns(job.conf, st, job.pieces[w]);
      RanksSpawned(job.conf.depth, st.threads, Write(job.conf, st, job.pieces[w]).threads);
    } else if st.size > 0 {
      RanksSpawned(job.conf.depth, st.threads, st.threads[st.pos := Ready]);
    }
  }

  lemma NextFresh(job: Job, st: State, st': State)
    requires Next(job, st, st') && FreshSpawns(job, st)
    ensures FreshSpawns(job, st')
    ensures Measure(job, st') < Measure(job, st)
  {
    if MainCanStep(job, st) && st' == MainStep(job, st) {
      MainDecreases(job, st);
      hide Measure, OpenSection;
      var w := st.main.next;
      if w < |job.pieces| {
        WriteSpawns(job.conf, st, job.pieces[w]);
        var written := Write(job.conf, st, job.pieces[w]);
        OpenSectionMonotone(job.conf, written.size, written.size);
        SpawnShape(job.conf, st, st');
      }
    } else {
      var t: nat :| ThreadCanStep(job, st, t) && st' == ThreadStep(job, st, t);
      ThreadDecreases(job, st, t);
      StepShape(job, st, t);
      StepFrame(job, st, t);
      hide ThreadStep, Shape, Ranks, OpenSection;
    }
  }

  /** No run is longer than the measure of its first state allows: the hasher always terminates. */
  lemma {:induction false} RunsEnd(job: Job, run: seq<State>, i: nat)
    requires Steps(job, run) && i < |run|
    ensures FreshSpawns(job, run[i])
    ensures Measure(job, run[i]) + i <= Measure(job, run[0])
  {
    if i == 0 {
      StartFresh(job, run[0]);
    } else {
      RunsEnd(job, run, i - 1);
      hide FreshSpawns, Measure;
      NextFresh(job, run[i - 1], run[i]);
    }
  }

  lemma StartFresh(job: Job, st: State)
    requires Start(job, st)
    ensures FreshSpawns(job, st)
  {
    MulMonotone(1, job.conf.Sections(), job.conf.SecSize());
  }

  lemma {:induction false} RanksIdle(depth: nat, threads: seq<Thread>)
    requires forall t :: 0 <= t < |threads| ==> threads[t] == Idle
    ensures Ranks(depth, threads) == |threads| * (4 * depth + 4)
    decreases |threads|
  {
    if threads != [] {
      var n := |threads| - 1;
      RanksIdle(depth, threads[..n]);
      assert (n + 1) * (4 * depth + 4) == n * (4 * depth + 4) + (4 * depth + 4);
    }
  }

  /** Every run is finite, with a bound known beforehand. */
  lemma RunsAreBounded(job: Job, run: seq<State>)
    requires Steps(job, run)
    ensures |run| <= |job.pieces| + 3 + job.conf.Sections() * (4 * job.conf.depth + 4)
  {
    RanksIdle(job.conf.depth, run[0].threads);
    if |run| >= 2 {
      var i := |run| - 2;
      RunsEnd(job, run, i);
      assert Next(job, run[i], run[i + 1]);
      var st := run[i];
      assert Shape(job.conf, st)
             && (st.main.Writing? ==> st.main.next <= |job.pieces| + 1) by { EmptyOrFull(job, run, i); }
      hide Steps, Next, Shape, FreshSpawns;
      RanksNatural(job.conf, st, |st.threads|);
      assert st.threads[..|st.threads|] == st.threads;
    }
  }

  lemma {:induction false} EmptyOrFull(job: Job, run: seq<State>, i: nat)
    requires Steps(job, run) && i < |run| - 1
    ensures Shape(job.conf, run[i]) && (run[i].main.Writing? ==> run[i].main.next <= |job.pieces| + 1)
  {
    assert Next(job, run[i], run[i + 1]);
    if i > 0 {
      EmptyOrFull(job, run, i - 1);
      NextCount(job, run[i - 1], run[i]);
    }
  }

  lemma NextCount(job: Job, st: State, st': State)
    requires Next(job, st, st') && (st.main.Writing? ==> st.main.next <= |job.pieces| + 1)
    ensures st'.main.Writing? ==> st'.main.next <= |job.pieces| + 1
  {
    if !(MainCanStep(job, st) && st' == MainStep(job, st)) {
      var t: nat :| ThreadCanStep(job, st, t) && st' == ThreadStep(job, st, t);
      StepFrame(job, st, t);
      hide ThreadStep;
    }
  }

  /**
  Total correctness: every run can be continued until Hash has returned, and then the value is the
  reference hash, every toggle rests, and whatever goroutine is left leaves the tree and the result alone.
  */
  lemma HashIsTotal(job: Job, run: seq<State>)
    requires Run(job, run) && PaddingFits(job)
    requires !CanStep(job, run[|run| - 1])
    ensures run[|run| - 1].main == Returned(Expected(job))
  {
    var last := run[|run| - 1];
    hide Padded, PaddingFits, Expected, TreeReady, Next, Inv;
    assert last.main.Returned? by {
      if |Data(job)| == 0 {
        NoDataNoPieces(job);
        EmptyRun(job, run, |run| - 1);
      } else {
        var c, own := OwnersAt(job, run, |run| - 1);
        NoDeadlock(c, last, own);
      }
    }
    ResultIsReference(job, run, |run| - 1);
  }
}
