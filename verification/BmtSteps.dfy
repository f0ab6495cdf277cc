/** Every step of a section goroutine keeps the tree invariant. */
module BmtSteps {
  import opened Common
  import opened BmtTree
  import opened BmtProtocol
  import opened BmtInvariant

  /** What the step lemmas need of the run's constants. */
  ghost predicate Ground(c: Ctx, threads: seq<Thread>) {
    && c.job.conf.depth >= 1
    && c.p < |threads|
    && |c.job.conf.zerohashes| == c.job.conf.depth + 1
    && (forall n :: n in c.init ==> IsInt32(c.init[n].state) && c.init[n].state % 2 == 0 && c.init[n].state >= 0)
    && (forall l: nat :: l < c.job.conf.depth - 1 && Anc(c.p, l) % 2 == 0 ==>
          Value(c.job.conf, c.data, Node(l, Anc(c.p, l) + 1)) == c.job.conf.zerohashes[l + 1])
  }

  /** Goroutine t stands at some node of an invariant tree. */
  ghost predicate At(c: Ctx, threads: seq<Thread>, nodes: map<Node, NodeState>, own: Owners, t: nat) {
    Ground(c, threads) && t <= c.p < |threads| && TreeInv(c, threads, nodes, own)
  }

  // ---------------------------------------------------------------- positions

  /** Where the data ends: behind the last section that has any. */
  lemma DataEnds(c: Ctx)
    requires CtxFor(c)
    ensures |Data(c.job)| <= (c.p + 1) * c.job.conf.SecSize()
  {
    var conf := c.job.conf;
    var n := |Data(c.job)|;
    if n < conf.MaxSize() { QuotientBounds(n, conf.SecSize(), c.p + 1); }
  }

  lemma SectionAfterData(conf: Conf, data: Bytes, used: nat, p: nat, k: nat)
    requires conf.Valid() && |data| == conf.MaxSize() && p < k < conf.Sections()
    requires used <= (p + 1) * conf.SecSize() && used <= |data|
    requires forall i :: used <= i < |data| ==> data[i] == 0
    ensures Section(conf, data, k) == Zeros(conf.SecSize())
  {
    var sec := conf.SecSize();
    MulMonotone(p + 1, k, sec);
    MulMonotone(k + 1, conf.Sections(), sec);
    assert (k + 1) * sec == k * sec + sec;
  }

  /** The sister filled in by the final walker really is all zero in the padded data. */
  lemma ZeroSisterValue(c: Ctx, l: nat)
    requires CtxFor(c) && l < c.job.conf.depth - 1 && Anc(c.p, l) % 2 == 0
    ensures Value(c.job.conf, c.data, Node(l, Anc(c.p, l) + 1)) == c.job.conf.zerohashes[l + 1]
  {
    hide Section, Padded, Data, PaddingFits, TreeReady, LastSection, Value, Anc;
    var conf := c.job.conf;
    hide Pow2;
    SisterInTree(c.p, l, conf.depth);
    forall k: nat | c.p < k < conf.Sections()
      ensures Section(conf, c.data, k) == Zeros(conf.SecSize())
    {
      SectionIsZero(c, k);
    }
    ZeroValue(conf, c.data, c.p, Node(l, Anc(c.p, l) + 1));
  }

  /** The right sister of a left node below the root is a node of the tree. */
  lemma SisterInTree(p: nat, l: nat, depth: nat)
    requires depth >= 1 && p < Pow2(depth - 1) && l < depth - 1 && Anc(p, l) % 2 == 0
    ensures Anc(p, l) + 1 < Pow2(depth - 1 - l)
  {
    assert Pow2(depth - 1 - l) == 2 * Pow2(depth - 2 - l);
    hide Anc, Pow2;
    AncBound(p, l, depth - 1);
    EvenBelow(Anc(p, l), Pow2(depth - 2 - l));
  }

  lemma EvenBelow(a: nat, b: nat)
    requires a % 2 == 0 && a < 2 * b
    ensures a + 1 < 2 * b
  {}

  lemma SectionIsZero(c: Ctx, k: nat)
    requires CtxFor(c) && c.p < k < c.job.conf.Sections()
    ensures Section(c.job.conf, c.data, k) == Zeros(c.job.conf.SecSize())
  {
    DataEnds(c);
    SectionAfterData(c.job.conf, c.data, |Data(c.job)|, c.p, k);
  }

  // ---------------------------------------------------------------- quiet steps

  /** th differs from th0 neither in what it passed nor in what it took. */
  ghost predicate SamePlace(conf: Conf, th0: Thread, th: Thread) {
    forall l: nat {:trigger Passed(th, l)} {:trigger Took(th, l)} {:trigger Passed(th0, l)} {:trigger Took(th0, l)} ::
      1 <= l < conf.depth ==> Passed(th, l) == Passed(th0, l) && Took(th, l) == Took(th0, l)
  }

  lemma QuietRights(c: Ctx, threads: seq<Thread>, own: Owners, t: nat, th: Thread)
    requires t <= c.p < |threads| && Paths(c, own) && Rights(c, threads, own)
    requires SamePlace(c.job.conf, threads[t], th)
    requires t == c.p ==> FinalRights(c, th, own)
    ensures Rights(c, threads[t := th], own)
  {
    var threads' := threads[t := th];
    forall s: nat, l: nat | s <= c.p && 1 <= l && OwnedBy(own, On(s, l), s)
      ensures Took(threads'[s], l)
    {
      assert Took(threads[s], l);
    }
  }

  lemma QuietNodes(c: Ctx, threads: seq<Thread>, nodes: map<Node, NodeState>, own: Owners, t: nat, th: Thread,
                   nodes': map<Node, NodeState>)
    requires t <= c.p < |threads| && Paths(c, own)
    requires SamePlace(c.job.conf, threads[t], th)
    requires Closed(c, threads, own) && Counters(c, threads, nodes, own)
    requires nodes'.Keys == nodes.Keys && forall n :: n in nodes ==> nodes'[n].state == nodes[n].state
    requires forall n :: n in nodes ==> n.level < c.job.conf.depth
    ensures Closed(c, threads[t := th], own) && Counters(c, threads[t := th], nodes', own)
  {
    var threads' := threads[t := th];
    forall n: Node | 1 <= n.level < c.job.conf.depth
      ensures BothPassed(threads', own, n) == BothPassed(threads, own, n)
      ensures Count(threads', own, n) == Count(threads, own, n)
    {
      QuietAt(c.job.conf, threads, own, t, th, n);
    }
    hide BothPassed, Count;
  }

  lemma QuietAt(conf: Conf, threads: seq<Thread>, own: Owners, t: nat, th: Thread, n: Node)
    requires t < |threads| && SamePlace(conf, threads[t], th) && 1 <= n.level < conf.depth
    ensures BothPassed(threads[t := th], own, n) == BothPassed(threads, own, n)
    ensures Count(threads[t := th], own, n) == Count(threads, own, n)
  {}

  /** Thread t moves without passing a level or taking a node; it may write one slot. */
  lemma Quiet(c: Ctx, threads: seq<Thread>, nodes: map<Node, NodeState>, own: Owners, t: nat,
              th: Thread, nodes': map<Node, NodeState>)
    requires At(c, threads, nodes, own, t)
    requires SamePlace(c.job.conf, threads[t], th)
    requires t == c.p ==> FinalRights(c, th, own)
    requires CarriedBy(c, t, th)
    requires nodes'.Keys == nodes.Keys && forall n :: n in nodes ==> nodes'[n].state == nodes[n].state
    requires Slots(c, threads[t := th], nodes', own)
    ensures TreeInv(c, threads[t := th], nodes', own)
  {
    QuietRights(c, threads, own, t, th);
    QuietNodes(c, threads, nodes, own, t, th, nodes');
  }

  lemma SlotsKept(c: Ctx, threads: seq<Thread>, nodes: map<Node, NodeState>, own: Owners, t: nat, th: Thread,
                  nodes': map<Node, NodeState>)
    requires t < |threads| && Slots(c, threads, nodes, own)
    requires nodes'.Keys == nodes.Keys
    requires forall m :: m in nodes ==> nodes'[m].left == nodes[m].left && nodes'[m].right == nodes[m].right
    requires forall l: nat, right: bool {:trigger Wrote(th, l, right)} ::
               1 <= l && Wrote(th, l, right) ==> Wrote(threads[t], l, right)
    ensures Slots(c, threads[t := th], nodes', own)
  {}

  /** The section is hashed. */
  lemma StepReady(c: Ctx, threads: seq<Thread>, nodes: map<Node, NodeState>, own: Owners, t: nat)
    requires At(c, threads, nodes, own, t) && threads[t] == Ready
    ensures TreeInv(c, threads[t := Arrive(1, Some(Value(c.job.conf, c.data, On(t, 0))))], nodes, own)
  {
    var th := Arrive(1, Some(Value(c.job.conf, c.data, On(t, 0))));
    assert OwnedBy(own, Node(0, t), t);
    assert Slots(c, threads[t := th], nodes, own) by { SlotsKept(c, threads, nodes, own, t, th, nodes); }
    Quiet(c, threads, nodes, own, t, th, nodes);
  }

  /** Writing one slot with the right value, by the only thread that may. */
  lemma SlotWritten(c: Ctx, threads: seq<Thread>, nodes: map<Node, NodeState>, own: Owners, t: nat, th: Thread,
                    m: Node, nodes': map<Node, NodeState>)
    requires t <= c.p < |threads| && Slots(c, threads, nodes, own) && OwnedBy(own, m, t) && Parent(m) in nodes
    requires nodes' == if IsLeft(m) then SetLeft(nodes, Parent(m), Value(c.job.conf, c.data, m))
                       else SetRight(nodes, Parent(m), Value(c.job.conf, c.data, m))
    requires forall n: Node {:trigger own[n]} ::
               n in own && own[n] == t && n != m && Wrote(th, n.level + 1, !IsLeft(n)) ==>
               Wrote(threads[t], n.level + 1, !IsLeft(n))
    ensures Slots(c, threads[t := th], nodes', own)
  {
    var threads' := threads[t := th];
    forall n: Node | n in own && own[n] < |threads| && Parent(n) in nodes'
                     && Wrote(threads'[own[n]], n.level + 1, !IsLeft(n))
      ensures Slot(nodes'[Parent(n)], !IsLeft(n)) == Value(c.job.conf, c.data, n)
    {
      if n != m {
        assert Wrote(threads[own[n]], n.level + 1, !IsLeft(n));
        if Parent(n) == Parent(m) {
          assert n.idx == 2 * Parent(m).idx + n.idx % 2;
          assert m.idx == 2 * Parent(m).idx + m.idx % 2;
          assert IsLeft(n) != IsLeft(m);
        }
      }
    }
  }

  /** Moving on to Flip (or WriteLeft) at level l writes one slot only, that of child m. */
  lemma OnlyOneWritten(c: Ctx, own: Owners, t: nat, th0: Thread, th: Thread, l: nat, m: Node)
    requires t <= c.p && Paths(c, own) && 1 <= l
    requires th0.Arrive? && th0.lvl == l
    requires th == Flip(l) || (th.WriteLeft? && th.lvl == l)
    requires m.level == l - 1
    requires m == On(t, l - 1) || (t == c.p && ZeroSister(c.p, m))
    requires th.Flip? && m != On(t, l - 1) ==> !OwnedBy(own, On(t, l - 1), t)
    requires th.WriteLeft? ==> !IsLeft(m)
    requires t == c.p && m == On(t, l - 1) ==> !IsLeft(m)
    ensures forall n: Node {:trigger own[n]} ::
              n in own && own[n] == t && n != m && Wrote(th, n.level + 1, !IsLeft(n)) ==>
              Wrote(th0, n.level + 1, !IsLeft(n))
  {
    forall n: Node | n in own && own[n] == t && n != m && Wrote(th, n.level + 1, !IsLeft(n))
      ensures Wrote(th0, n.level + 1, !IsLeft(n))
    {
      if n.level + 1 == l {
        assert false;
      }
    }
  }

  /** writeNode: assign the child hash to its slot. */
  lemma StepNormalWrite(c: Ctx, threads: seq<Thread>, nodes: map<Node, NodeState>, own: Owners, t: nat, l: nat,
                        v: Bytes)
    requires At(c, threads, nodes, own, t) && t < c.p
    requires threads[t] == Arrive(l, Some(v)) && 1 <= l < c.job.conf.depth && On(t, l) in nodes
    ensures TreeInv(c, threads[t := Flip(l)],
                    if IsLeft(On(t, l - 1)) then SetLeft(nodes, On(t, l), v) else SetRight(nodes, On(t, l), v), own)
  {
    hide Value, Slots, Counters, Closed, Leaves, Paths, Ground;
    var m := On(t, l - 1);
    var nodes' := if IsLeft(m) then SetLeft(nodes, On(t, l), v) else SetRight(nodes, On(t, l), v);
    assert Parent(m) == On(t, l);
    assert CarriedBy(c, t, threads[t]);
    assert OwnedBy(own, m, t) by { HandIsOwned(c, threads, own, t, l, v); }
    assert Slots(c, threads[t := Flip(l)], nodes', own) by {
      OnlyOneWritten(c, own, t, threads[t], Flip(l), l, m);
      SlotWritten(c, threads, nodes, own, t, Flip(l), m, nodes');
    }
    Quiet(c, threads, nodes, own, t, Flip(l), nodes');
  }

  /** A goroutine with a hash in hand owns the node the hash belongs to. */
  lemma HandIsOwned(c: Ctx, threads: seq<Thread>, own: Owners, t: nat, l: nat, v: Bytes)
    requires t <= c.p < |threads| && Leaves(c, own) && Rights(c, threads, own)
    requires threads[t] == Arrive(l, Some(v)) && 1 <= l <= c.job.conf.depth
    ensures OwnedBy(own, On(t, l - 1), t)
  {
    if t < c.p {
      if l == 1 { assert OwnedBy(own, Node(0, t), t); } else { assert Took(threads[t], l - 1); }
    }
  }

  /** writeFinalNode from the left: fill in the zero sister. */
  lemma StepFinalLeft(c: Ctx, threads: seq<Thread>, nodes: map<Node, NodeState>, own: Owners, l: nat)
    requires At(c, threads, nodes, own, c.p)
    requires threads[c.p].Arrive? && threads[c.p].lvl == l && 1 <= l < c.job.conf.depth && On(c.p, l) in nodes
    requires IsLeft(On(c.p, l - 1))
    ensures TreeInv(c, threads[c.p := if threads[c.p].s.Some? then WriteLeft(l, threads[c.p].s.value) else Flip(l)],
                    SetRight(nodes, On(c.p, l), c.job.conf.zerohashes[l]), own)
  {
    hide Value, Slots, Counters, Closed, Leaves, Paths;
    var th := if threads[c.p].s.Some? then WriteLeft(l, threads[c.p].s.value) else Flip(l);
    FinalLeftSlots(c, threads, nodes, own, l);
    assert CarriedBy(c, c.p, threads[c.p]);
    Quiet(c, threads, nodes, own, c.p, th, SetRight(nodes, On(c.p, l), c.job.conf.zerohashes[l]));
  }

  lemma FinalLeftSlots(c: Ctx, threads: seq<Thread>, nodes: map<Node, NodeState>, own: Owners, l: nat)
    requires At(c, threads, nodes, own, c.p)
    requires threads[c.p].Arrive? && threads[c.p].lvl == l && 1 <= l < c.job.conf.depth && On(c.p, l) in nodes
    requires IsLeft(On(c.p, l - 1))
    ensures var th := if threads[c.p].s.Some? then WriteLeft(l, threads[c.p].s.value) else Flip(l);
            Slots(c, threads[c.p := th], SetRight(nodes, On(c.p, l), c.job.conf.zerohashes[l]), own)
  {
    hide Value, Slots, Counters, Closed, Paths;
    var th := if threads[c.p].s.Some? then WriteLeft(l, threads[c.p].s.value) else Flip(l);
    var m := Node(l - 1, Anc(c.p, l - 1) + 1);
    assert OwnedBy(own, m, c.p);
    assert Parent(m) == On(c.p, l);
    assert Value(c.job.conf, c.data, m) == c.job.conf.zerohashes[l];
    hide Leaves, Ground;
    OnlyOneWritten(c, own, c.p, threads[c.p], th, l, m);
    SlotWritten(c, threads, nodes, own, c.p, th, m, SetRight(nodes, On(c.p, l), c.job.conf.zerohashes[l]));
  }

  /** writeFinalNode from the right with a hash in hand. */
  lemma StepFinalRight(c: Ctx, threads: seq<Thread>, nodes: map<Node, NodeState>, own: Owners, l: nat, v: Bytes)
    requires At(c, threads, nodes, own, c.p)
    requires threads[c.p] == Arrive(l, Some(v)) && 1 <= l < c.job.conf.depth && On(c.p, l) in nodes
    requires !IsLeft(On(c.p, l - 1))
    ensures TreeInv(c, threads[c.p := Flip(l)], SetRight(nodes, On(c.p, l), v), own)
  {
    hide Value, Slots, Counters, Closed, Leaves, Paths, Ground;
    FinalRightSlots(c, threads, nodes, own, l, v);
    Quiet(c, threads, nodes, own, c.p, Flip(l), SetRight(nodes, On(c.p, l), v));
  }

  lemma FinalRightSlots(c: Ctx, threads: seq<Thread>, nodes: map<Node, NodeState>, own: Owners, l: nat, v: Bytes)
    requires At(c, threads, nodes, own, c.p)
    requires threads[c.p] == Arrive(l, Some(v)) && 1 <= l < c.job.conf.depth && On(c.p, l) in nodes
    requires !IsLeft(On(c.p, l - 1))
    ensures Slots(c, threads[c.p := Flip(l)], SetRight(nodes, On(c.p, l), v), own)
  {
    hide Value, Slots, Counters, Closed, Leaves, Paths, Ground;
    var m := On(c.p, l - 1);
    assert CarriedBy(c, c.p, threads[c.p]);
    assert Parent(m) == On(c.p, l);
    OnlyOneWritten(c, own, c.p, threads[c.p], Flip(l), l, m);
    SlotWritten(c, threads, nodes, own, c.p, Flip(l), m, SetRight(nodes, On(c.p, l), v));
  }

  /** Leaving the loop at the nil parent of the root. */
  lemma StepStop(c: Ctx, threads: seq<Thread>, nodes: map<Node, NodeState>, own: Owners, t: nat)
    requires At(c, threads, nodes, own, t)
    requires threads[t].Arrive? && threads[t].lvl == c.job.conf.depth
    ensures TreeInv(c, threads[t := Stopped(c.job.conf.depth)], nodes, own)
  {
    hide Slots, Closed, Leaves, Paths, Value, Count;
    StopSlots(c, threads, nodes, own, t);
    Quiet(c, threads, nodes, own, t, Stopped(c.job.conf.depth), nodes);
  }

  lemma StopSlots(c: Ctx, threads: seq<Thread>, nodes: map<Node, NodeState>, own: Owners, t: nat)
    requires t < |threads| && Slots(c, threads, nodes, own)
    requires threads[t].Arrive? && threads[t].lvl == c.job.conf.depth
    requires forall n: Node :: n in nodes ==> n.level < c.job.conf.depth
    ensures Slots(c, threads[t := Stopped(c.job.conf.depth)], nodes, own)
  {
    hide Value;
    var th := Stopped(c.job.conf.depth);
    forall n: Node | n in own && own[n] < |threads| && Parent(n) in nodes
                     && Wrote(threads[t := th][own[n]], n.level + 1, !IsLeft(n))
      ensures Wrote(threads[own[n]], n.level + 1, !IsLeft(n))
    {
      assert Parent(n).level < c.job.conf.depth;
    }
  }

  /** Both slots of a taken node hold the child hashes, so the combined hash is the node's value. */
  lemma CombinedValue(c: Ctx, threads: seq<Thread>, nodes: map<Node, NodeState>, own: Owners, n: Node)
    requires Slots(c, threads, nodes, own) && n.level >= 1 && n in nodes
    requires BothPassed(threads, own, n)
    ensures c.job.conf.base(nodes[n].left + nodes[n].right) == Value(c.job.conf, c.data, n)
  {
    var x, y := LeftChild(n), RightChild(n);
    assert Parent(x) == n && Parent(y) == n;
    assert Wrote(threads[own[x]], x.level + 1, !IsLeft(x));
    assert Wrote(threads[own[y]], y.level + 1, !IsLeft(y));
    assert Slot(nodes[Parent(x)], !IsLeft(x)) == Value(c.job.conf, c.data, x);
    assert Slot(nodes[Parent(y)], !IsLeft(y)) == Value(c.job.conf, c.data, y);
  }

  lemma TakenIsPassed(c: Ctx, threads: seq<Thread>, own: Owners, t: nat, l: nat)
    requires t <= c.p < |threads| && Rights(c, threads, own) && Closed(c, threads, own)
    requires threads[t] == Combine(l) && 1 <= l < c.job.conf.depth
    ensures OwnedBy(own, On(t, l), t) && BothPassed(threads, own, On(t, l))
  {
    assert Took(threads[t], l);
    AncMonotone(t, c.p, l);
  }

  lemma StepCombine(c: Ctx, threads: seq<Thread>, nodes: map<Node, NodeState>, own: Owners, t: nat, l: nat)
    requires At(c, threads, nodes, own, t)
    requires threads[t] == Combine(l) && 1 <= l < c.job.conf.depth && On(t, l) in nodes
    ensures c.job.conf.base(nodes[On(t, l)].left + nodes[On(t, l)].right) == Value(c.job.conf, c.data, On(t, l))
    ensures TreeInv(c, threads[t := Arrive(l + 1, Some(Value(c.job.conf, c.data, On(t, l))))], nodes, own)
  {
    hide Value, Slots, Counters, Closed;
    var n := On(t, l);
    TakenIsPassed(c, threads, own, t, l);
    CombinedValue(c, threads, nodes, own, n);
    var v := Value(c.job.conf, c.data, n);
    var th := Arrive(l + 1, Some(v));
    assert Slots(c, threads[t := th], nodes, own) by { SlotsKept(c, threads, nodes, own, t, th, nodes); }
    Quiet(c, threads, nodes, own, t, th, nodes);
  }

  // ---------------------------------------------------------------- passing a level

  /** The child on whose behalf the final walker or a normal goroutine toggles its level-l node. */
  function FlipChild(c: Ctx, t: nat, l: nat): Node
    requires l >= 1
  {
    if t == c.p && IsLeft(On(t, l - 1)) then Node(l - 1, Anc(t, l - 1) + 1) else On(t, l - 1)
  }

  function Sister(n: Node): Node {
    if IsLeft(n) then Node(n.level, n.idx + 1) else Node(n.level, n.idx - 1)
  }

  /** A toggling goroutine owns the child it toggles for, and not the other one. */
  lemma FlipFacts(c: Ctx, threads: seq<Thread>, own: Owners, t: nat, l: nat)
    requires t <= c.p < |threads| && Leaves(c, own) && Paths(c, own) && Rights(c, threads, own)
    requires threads[t] == Flip(l) && 1 <= l < c.job.conf.depth
    ensures OwnedBy(own, FlipChild(c, t, l), t)
    ensures FlipChild(c, t, l).level == l - 1 && Parent(FlipChild(c, t, l)) == On(t, l)
    ensures !OwnedBy(own, Sister(FlipChild(c, t, l)), t)
  {
    hide Anc;
    FlipPlaces(c, t, l);
    if t < c.p {
      NormalFlip(c, threads, own, t, l);
    } else {
      hide Paths;
      FinalFlip(c, threads, own, l);
    }
  }

  lemma FlipPlaces(c: Ctx, t: nat, l: nat)
    requires l >= 1
    ensures FlipChild(c, t, l).level == l - 1 && Parent(FlipChild(c, t, l)) == On(t, l)
  {}

  lemma NormalFlip(c: Ctx, threads: seq<Thread>, own: Owners, t: nat, l: nat)
    requires t < c.p < |threads| && Leaves(c, own) && Paths(c, own) && Rights(c, threads, own)
    requires threads[t] == Flip(l) && 1 <= l < c.job.conf.depth
    ensures OwnedBy(own, On(t, l - 1), t) && !OwnedBy(own, Sister(On(t, l - 1)), t)
  {
    hide FinalRights, Anc;
    if l == 1 { assert OwnedBy(own, Node(0, t), t); } else { assert Took(threads[t], l - 1); }
  }

  lemma FinalFlip(c: Ctx, threads: seq<Thread>, own: Owners, l: nat)
    requires c.p < |threads| && Leaves(c, own) && Paths(c, own) && Rights(c, threads, own)
    requires threads[c.p] == Flip(l) && 1 <= l < c.job.conf.depth
    ensures OwnedBy(own, FlipChild(c, c.p, l), c.p) && !OwnedBy(own, Sister(FlipChild(c, c.p, l)), c.p)
  {
    hide Anc;
    assert FinalRights(c, threads[c.p], own);
    hide Rights;
    if !IsLeft(On(c.p, l - 1)) {
      hide Leaves;
    } else {
      hide Paths;
    }
  }

  /** t passes level l and changes nothing else. */
  ghost predicate PassesOne(conf: Conf, th0: Thread, th: Thread, l: nat) {
    && !Passed(th0, l)
    && (forall k: nat {:trigger Passed(th, k)} {:trigger Passed(th0, k)} :: 1 <= k < conf.depth ==>
          (Passed(th, k) <==> Passed(th0, k) || k == l))
  }

  /** Nodes that do not have a child of t at level l - 1 do not notice. */
  lemma PassElsewhere(c: Ctx, threads: seq<Thread>, own: Owners, t: nat, th: Thread, l: nat, n: Node)
    requires t <= c.p < |threads| && Paths(c, own)
    requires PassesOne(c.job.conf, threads[t], th, l) && 1 <= l < c.job.conf.depth && 1 <= n.level < c.job.conf.depth
    requires n != On(t, l) || (!OwnedBy(own, LeftChild(n), t) && !OwnedBy(own, RightChild(n), t))
    ensures BothPassed(threads[t := th], own, n) == BothPassed(threads, own, n)
    ensures Count(threads[t := th], own, n) == Count(threads, own, n)
  {
    if n.level == l {
      assert !OwnedBy(own, LeftChild(n), t) && !OwnedBy(own, RightChild(n), t);
    }
  }

  /** Arithmetic of one toggle on a resting, non-overflowed counter. */
  lemma ToggleCount(init: int, count: nat)
    requires IsInt32(init) && init % 2 == 0 && init >= 0 && count <= 1
    ensures ToggleFirst(AddInt32(init, count)) <==> count == 0
    ensures ToggleState(AddInt32(init, count)) == AddInt32(init, count + 1)
  {
    hide AddInt32, GoRem2, ToggleFirst;
    AddZero(init);
    ToggleTellsFirst(init);
  }

  /** Before its toggle, t's node counts exactly the other child's toggle. */
  lemma CountBefore(threads: seq<Thread>, own: Owners, t: nat, m: Node, n: Node)
    requires t < |threads| && n.level == m.level + 1 && Parent(m) == n && OwnedBy(own, m, t)
             && !OwnedBy(own, Sister(m), t)
    requires !Passed(threads[t], n.level)
    ensures Count(threads, own, n) <= 1 && !Alone(own, n) && !BothPassed(threads, own, n)
    ensures Count(threads, own, n) == 1 <==>
              Sister(m) in own && own[Sister(m)] < |threads| && Passed(threads[own[Sister(m)]], n.level)
  {
    assert (m == LeftChild(n) && Sister(m) == RightChild(n)) || (m == RightChild(n) && Sister(m) == LeftChild(n));
    assert Parent(Sister(m)) == n;
  }

  lemma FlipStruct(c: Ctx, threads: seq<Thread>, own: Owners, t: nat, l: nat)
    requires t <= c.p < |threads| && Leaves(c, own) && Paths(c, own) && Rights(c, threads, own)
             && Closed(c, threads, own)
    requires threads[t] == Flip(l) && 1 <= l < c.job.conf.depth
    ensures var n := On(t, l); var sis := Sister(FlipChild(c, t, l));
            && n !in own && !Alone(own, n)
            && Count(threads, own, n) <= 1
            && (Count(threads, own, n) == 1 <==> sis in own && own[sis] < |threads| && Passed(threads[own[sis]], l))
  {
    var n := On(t, l);
    FlipFacts(c, threads, own, t, l);
    hide Rights, Leaves, Paths;
    CountBefore(threads, own, t, FlipChild(c, t, l), n);
    AncMonotone(t, c.p, l);
    hide Count, Sister, FlipChild, Anc;
    assert n !in own;
  }

  /** What t reads off the counter is whether the other child has toggled. */
  lemma FlipCount(c: Ctx, threads: seq<Thread>, nodes: map<Node, NodeState>, own: Owners, n: Node)
    requires Ground(c, threads) && Counters(c, threads, nodes, own)
    requires n in nodes && n.level >= 1 && Count(threads, own, n) <= 1
    ensures ToggleFirst(nodes[n].state) <==> Count(threads, own, n) == 0
    ensures ToggleState(nodes[n].state) == AddInt32(c.init[n].state, Count(threads, own, n) + 1)
  {
    hide Value, AddInt32, ToggleFirst, ToggleState, Count;
    assert nodes[n].state == AddInt32(c.init[n].state, Count(threads, own, n));
    ToggleCount(c.init[n].state, Count(threads, own, n));
  }

  /** The first to toggle leaves the node unowned. */
  lemma FlipFirst(c: Ctx, threads: seq<Thread>, nodes: map<Node, NodeState>, own: Owners, t: nat, l: nat)
    requires At(c, threads, nodes, own, t)
    requires threads[t] == Flip(l) && 1 <= l < c.job.conf.depth && On(t, l) in nodes
    requires ToggleFirst(nodes[On(t, l)].state)
    ensures var th := if t == c.p then Arrive(l + 1, None) else Stopped(l);
            TreeInv(c, threads[t := th], Bump(nodes, On(t, l)), own)
  {
    hide Counters, Closed, Rights, Leaves, Paths, AddInt32, ToggleFirst, ToggleState;
    var th := if t == c.p then Arrive(l + 1, None) else Stopped(l);
    FirstRights(c, threads, nodes, own, t, l);
    FirstNodes(c, threads, nodes, own, t, l);
    SlotsKept(c, threads, nodes, own, t, th, Bump(nodes, On(t, l)));
  }

  lemma FirstRights(c: Ctx, threads: seq<Thread>, nodes: map<Node, NodeState>, own: Owners, t: nat, l: nat)
    requires At(c, threads, nodes, own, t)
    requires threads[t] == Flip(l) && 1 <= l < c.job.conf.depth && On(t, l) in nodes
    ensures Rights(c, threads[t := if t == c.p then Arrive(l + 1, None) else Stopped(l)], own)
  {
    hide Slots, Value, Carried, Counters, Closed, AddInt32, ToggleFirst, ToggleState, Leaves, Paths, Ground, Count, Anc;
    var th := if t == c.p then Arrive(l + 1, None) else Stopped(l);
    var threads' := threads[t := th];
    FlipStruct(c, threads, own, t, l);
    forall s: nat, k: nat | s <= c.p && 1 <= k && OwnedBy(own, On(s, k), s)
      ensures Took(threads'[s], k)
    {
      assert Took(threads[s], k);
    }
  }

  /** At the node itself, t's pass counts once. */
  lemma PassHere(c: Ctx, threads: seq<Thread>, own: Owners, t: nat, th: Thread, l: nat, m: Node)
    requires t <= c.p < |threads| && PassesOne(c.job.conf, threads[t], th, l) && 1 <= l < c.job.conf.depth
    requires m.level == l - 1 && Parent(m) == On(t, l) && OwnedBy(own, m, t) && !OwnedBy(own, Sister(m), t)
    ensures BothPassed(threads[t := th], own, On(t, l)) <==>
              Sister(m) in own && own[Sister(m)] < |threads| && Passed(threads[own[Sister(m)]], l)
    ensures Count(threads[t := th], own, On(t, l)) == Count(threads, own, On(t, l)) + 1
  {
    var n := On(t, l);
    assert (m == LeftChild(n) && Sister(m) == RightChild(n)) || (m == RightChild(n) && Sister(m) == LeftChild(n));
  }

  lemma FirstNodes(c: Ctx, threads: seq<Thread>, nodes: map<Node, NodeState>, own: Owners, t: nat, l: nat)
    requires At(c, threads, nodes, own, t)
    requires threads[t] == Flip(l) && 1 <= l < c.job.conf.depth && On(t, l) in nodes
    requires ToggleFirst(nodes[On(t, l)].state)
    ensures var th := if t == c.p then Arrive(l + 1, None) else Stopped(l);
            && Closed(c, threads[t := th], own)
            && Counters(c, threads[t := th], Bump(nodes, On(t, l)), own)
  {
    hide Slots, Value, Carried, AddInt32, ToggleFirst, ToggleState, Closed, Counters, Paths, Leaves, Rights,
         BothPassed, Count, FlipChild, Sister, Ground, Alone;
    var th := if t == c.p then Arrive(l + 1, None) else Stopped(l);
    var threads' := threads[t := th];
    var here := On(t, l);
    FlipStruct(c, threads, own, t, l);
    FlipCount(c, threads, nodes, own, here);
    FlipFacts(c, threads, own, t, l);
    PassHere(c, threads, own, t, th, l, FlipChild(c, t, l));
    forall n: Node | 1 <= n.level < c.job.conf.depth && n != here
      ensures BothPassed(threads', own, n) == BothPassed(threads, own, n)
      ensures Count(threads', own, n) == Count(threads, own, n)
    {
      PassElsewhere(c, threads, own, t, th, l, n);
    }
    NodesAfter(c, threads, threads', nodes, own, own, here);
  }

  /** Gluing: pointwise facts about one changed node give the node clauses back. */
  lemma NodesAfter(c: Ctx, threads: seq<Thread>, threads': seq<Thread>, nodes: map<Node, NodeState>, own: Owners,
                   own': Owners, here: Node)
    requires Closed(c, threads, own) && Counters(c, threads, nodes, own)
    requires here in nodes && here.level >= 1
    requires forall n: Node :: 1 <= n.level < c.job.conf.depth && n != here ==>
               && BothPassed(threads', own', n) == BothPassed(threads, own, n)
               && Count(threads', own', n) == Count(threads, own, n)
               && (n in own' <==> n in own)
    requires here in own' <==> BothPassed(threads', own', here)
    requires ToggleState(nodes[here].state) == AddInt32(c.init[here].state, Count(threads', own', here))
    ensures Closed(c, threads', own') && Counters(c, threads', Bump(nodes, here), own')
  {
    hide BothPassed, Count, AddInt32, ToggleState;
  }

  // ---------------------------------------------------------------- taking a node

  /** t is about to take its level-l node, which nobody owns. */
  ghost predicate Takes(c: Ctx, threads: seq<Thread>, own: Owners, t: nat, l: nat) {
    && t <= c.p < |threads|
    && 1 <= l < c.job.conf.depth
    && (threads[t] == Flip(l) || (t == c.p && threads[t].WriteLeft? && threads[t].lvl == l))
    && On(t, l) !in own
  }

  lemma TakePaths(c: Ctx, threads: seq<Thread>, own: Owners, t: nat, l: nat)
    requires Takes(c, threads, own, t, l) && Leaves(c, own) && Paths(c, own)
    ensures Leaves(c, own[On(t, l) := t]) && Paths(c, own[On(t, l) := t])
  {}

  lemma TakeRights(c: Ctx, threads: seq<Thread>, own: Owners, t: nat, l: nat)
    requires Takes(c, threads, own, t, l) && Rights(c, threads, own)
    ensures Rights(c, threads[t := Combine(l)], own[On(t, l) := t])
  {
    var threads', own' := threads[t := Combine(l)], own[On(t, l) := t];
    forall s: nat, k: nat | s <= c.p && 1 <= k && OwnedBy(own', On(s, k), s)
      ensures Took(threads'[s], k)
    {
      if On(s, k) != On(t, l) { assert OwnedBy(own, On(s, k), s); assert Took(threads[s], k); }
    }
    forall s: nat, k: nat | s < c.p && 1 <= k < c.job.conf.depth && Took(threads'[s], k)
      ensures OwnedBy(own', On(s, k), s)
    {
      if s != t || k != l { assert Took(threads[s], k); assert OwnedBy(own, On(s, k), s); }
    }
  }

  /** A new owner of `here` is noticed by no other node: its parent has not been passed by t yet. */
  lemma TakeElsewhere(threads: seq<Thread>, own: Owners, t: nat, here: Node, n: Node)
    requires t < |threads| && here !in own && n.level >= 1 && n != here
    requires !Passed(threads[t], here.level + 1)
    ensures BothPassed(threads, own[here := t], n) == BothPassed(threads, own, n)
    ensures Count(threads, own[here := t], n) == Count(threads, own, n)
  {
    assert Parent(LeftChild(n)) == n && Parent(RightChild(n)) == n;
  }

  lemma TakeHere(threads: seq<Thread>, own: Owners, t: nat, here: Node)
    requires here.level >= 1
    ensures BothPassed(threads, own[here := t], here) == BothPassed(threads, own, here)
    ensures Count(threads, own[here := t], here) == Count(threads, own, here)
  {
    assert Parent(LeftChild(here)) == here && Parent(RightChild(here)) == here;
  }

  lemma TakeSlots(c: Ctx, threads: seq<Thread>, nodes: map<Node, NodeState>, own: Owners, t: nat, l: nat)
    requires t < |threads| && threads[t] == Combine(l) && Slots(c, threads, nodes, own)
    ensures Slots(c, threads, nodes, own[On(t, l) := t])
  {
    hide Value;
  }

  lemma SecondNodes(c: Ctx, threads: seq<Thread>, nodes: map<Node, NodeState>, own: Owners, t: nat, l: nat)
    requires At(c, threads, nodes, own, t)
    requires threads[t] == Flip(l) && 1 <= l < c.job.conf.depth && On(t, l) in nodes
    requires !ToggleFirst(nodes[On(t, l)].state)
    ensures On(t, l) !in own
    ensures Closed(c, threads[t := Combine(l)], own[On(t, l) := t])
    ensures Counters(c, threads[t := Combine(l)], Bump(nodes, On(t, l)), own[On(t, l) := t])
  {
    hide Slots, Value, Carried, AddInt32, ToggleFirst, ToggleState, Closed, Counters, Paths, Leaves, Rights,
         BothPassed, Count, FlipChild, Sister, Ground, Alone;
    var th := Combine(l);
    var threads' := threads[t := th];
    var here := On(t, l);
    var own' := own[here := t];
    FlipStruct(c, threads, own, t, l);
    FlipCount(c, threads, nodes, own, here);
    FlipFacts(c, threads, own, t, l);
    PassHere(c, threads, own, t, th, l, FlipChild(c, t, l));
    TakeHere(threads', own, t, here);
    forall n: Node | 1 <= n.level < c.job.conf.depth && n != here
      ensures BothPassed(threads', own', n) == BothPassed(threads, own, n)
      ensures Count(threads', own', n) == Count(threads, own, n)
      ensures n in own' <==> n in own
    {
      PassElsewhere(c, threads, own, t, th, l, n);
      TakeElsewhere(threads', own, t, here, n);
    }
    NodesAfter(c, threads, threads', nodes, own, own', here);
  }

  /** The second to toggle takes the node. */
  lemma FlipSecond(c: Ctx, threads: seq<Thread>, nodes: map<Node, NodeState>, own: Owners, t: nat, l: nat)
    requires At(c, threads, nodes, own, t)
    requires threads[t] == Flip(l) && 1 <= l < c.job.conf.depth && On(t, l) in nodes
    requires !ToggleFirst(nodes[On(t, l)].state)
    ensures TreeInv(c, threads[t := Combine(l)], Bump(nodes, On(t, l)), own[On(t, l) := t])
    ensures On(t, l) !in own
  {
    hide Value, Counters, Closed, Rights, Leaves, Paths, AddInt32, ToggleFirst, ToggleState, Ground;
    SecondNodes(c, threads, nodes, own, t, l);
    TakePaths(c, threads, own, t, l);
    TakeRights(c, threads, own, t, l);
    SlotsKept(c, threads, nodes, own, t, Combine(l), Bump(nodes, On(t, l)));
    TakeSlots(c, threads[t := Combine(l)], Bump(nodes, On(t, l)), own, t, l);
    hide Slots;
  }

  /** Gluing, when no counter moves. */
  lemma NodesAfterQuiet(c: Ctx, threads: seq<Thread>, threads': seq<Thread>, nodes: map<Node, NodeState>,
                        nodes': map<Node, NodeState>,
                        own: Owners, own': Owners, here: Node)
    requires Closed(c, threads, own) && Counters(c, threads, nodes, own)
    requires nodes'.Keys == nodes.Keys && forall n :: n in nodes ==> nodes'[n].state == nodes[n].state
    requires forall n: Node :: 1 <= n.level < c.job.conf.depth ==> Count(threads', own', n) == Count(threads, own, n)
    requires forall n: Node :: 1 <= n.level < c.job.conf.depth && n != here ==>
               && BothPassed(threads', own', n) == BothPassed(threads, own, n)
               && (n in own' <==> n in own)
    requires 1 <= here.level < c.job.conf.depth ==> (here in own' <==> BothPassed(threads', own', here))
    ensures Closed(c, threads', own') && Counters(c, threads', nodes', own')
  {
    hide BothPassed, Count, AddInt32;
  }

  /** The final walker owns both children of the node it fills in alone. */
  lemma AloneOwns(c: Ctx, own: Owners, l: nat, th: Thread)
    requires Leaves(c, own) && FinalRights(c, th, own)
    requires th.WriteLeft? && th.lvl == l && 1 <= l < c.job.conf.depth
    ensures var n := On(c.p, l);
            && LeftChild(n) == On(c.p, l - 1) && ZeroSister(c.p, RightChild(n))
            && OwnedBy(own, LeftChild(n), c.p) && OwnedBy(own, RightChild(n), c.p)
  {
    assert OwnedBy(own, Node(l - 1, Anc(c.p, l - 1) + 1), c.p);
  }

  lemma AloneCounts(threads: seq<Thread>, own: Owners, t: nat, n: Node)
    requires t < |threads| && n.level >= 1 && OwnedBy(own, LeftChild(n), t) && OwnedBy(own, RightChild(n), t)
    ensures Count(threads, own, n) == 0
    ensures BothPassed(threads, own, n) <==> Passed(threads[t], n.level)
  {
    assert Parent(LeftChild(n)) == n && Parent(RightChild(n)) == n;
  }

  lemma AloneFacts(c: Ctx, threads: seq<Thread>, own: Owners, l: nat)
    requires c.p < |threads| && Leaves(c, own) && Rights(c, threads, own) && Closed(c, threads, own)
    requires threads[c.p].WriteLeft? && threads[c.p].lvl == l && 1 <= l < c.job.conf.depth
    ensures var n := On(c.p, l);
            && n !in own
            && Count(threads, own, n) == 0
            && Count(threads[c.p := Combine(l)], own, n) == 0
            && BothPassed(threads[c.p := Combine(l)], own, n)
  {
    hide Leaves, Count, BothPassed;
    var n := On(c.p, l);
    AloneOwns(c, own, l, threads[c.p]);
    hide Rights, FinalRights;
    AloneCounts(threads, own, c.p, n);
    AloneCounts(threads[c.p := Combine(l)], own, c.p, n);
  }

  lemma WriteLeftNodes(c: Ctx, threads: seq<Thread>, nodes: map<Node, NodeState>, own: Owners, l: nat,
                       nodes': map<Node, NodeState>)
    requires At(c, threads, nodes, own, c.p)
    requires threads[c.p].WriteLeft? && threads[c.p].lvl == l && 1 <= l < c.job.conf.depth
    requires nodes'.Keys == nodes.Keys && forall n :: n in nodes ==> nodes'[n].state == nodes[n].state
    ensures On(c.p, l) !in own
    ensures Closed(c, threads[c.p := Combine(l)], own[On(c.p, l) := c.p])
    ensures Counters(c, threads[c.p := Combine(l)], nodes', own[On(c.p, l) := c.p])
  {
    hide Slots, Value, Carried, AddInt32, Closed, Counters, Paths, Leaves, Rights, BothPassed, Count, Ground, Alone;
    var th := Combine(l);
    var threads' := threads[c.p := th];
    var here := On(c.p, l);
    var own' := own[here := c.p];
    AloneFacts(c, threads, own, l);
    TakeHere(threads', own, c.p, here);
    forall n: Node | 1 <= n.level < c.job.conf.depth && n != here
      ensures BothPassed(threads', own', n) == BothPassed(threads, own, n)
      ensures Count(threads', own', n) == Count(threads, own, n)
      ensures n in own' <==> n in own
    {
      PassElsewhere(c, threads, own, c.p, th, l, n);
      TakeElsewhere(threads', own, c.p, here, n);
    }
    NodesAfterQuiet(c, threads, threads', nodes, nodes', own, own', here);
  }

  lemma WriteLeftSlots(c: Ctx, threads: seq<Thread>, nodes: map<Node, NodeState>, own: Owners, l: nat, v: Bytes)
    requires At(c, threads, nodes, own, c.p)
    requires threads[c.p] == WriteLeft(l, v) && 1 <= l < c.job.conf.depth && On(c.p, l) in nodes
    ensures Slots(c, threads[c.p := Combine(l)], SetLeft(nodes, On(c.p, l), v), own)
  {
    hide Value, Closed, Counters, Ground, Slots, Leaves, Paths, Wrote;
    var m := On(c.p, l - 1);
    assert CarriedBy(c, c.p, threads[c.p]);
    AloneOwns(c, own, l, threads[c.p]);
    hide Rights, Carried;
    LeftWritten(c, own, l, v);
    assert Parent(m) == On(c.p, l);
    SlotWritten(c, threads, nodes, own, c.p, Combine(l), m, SetLeft(nodes, On(c.p, l), v));
  }

  /** Of the nodes it owns, the final walker had only its own hash left to write at level l. */
  lemma LeftWritten(c: Ctx, own: Owners, l: nat, v: Bytes)
    requires Paths(c, own) && 1 <= l && Anc(c.p, l - 1) % 2 == 0
    ensures forall n: Node {:trigger own[n]} ::
              n in own && own[n] == c.p && n != On(c.p, l - 1) && Wrote(Combine(l), n.level + 1, !IsLeft(n)) ==>
              Wrote(WriteLeft(l, v), n.level + 1, !IsLeft(n))
  {
    hide Anc;
    forall n: Node | n in own && own[n] == c.p && n != On(c.p, l - 1) && Wrote(Combine(l), n.level + 1, !IsLeft(n))
      ensures Wrote(WriteLeft(l, v), n.level + 1, !IsLeft(n))
    {
      assert n == On(c.p, n.level) || ZeroSister(c.p, n);
    }
  }

  /** writeFinalNode from the left with a hash in hand: write it and go on without a toggle. */
  lemma StepWriteLeft(c: Ctx, threads: seq<Thread>, nodes: map<Node, NodeState>, own: Owners, l: nat, v: Bytes)
    requires At(c, threads, nodes, own, c.p)
    requires threads[c.p] == WriteLeft(l, v) && 1 <= l < c.job.conf.depth && On(c.p, l) in nodes
    ensures On(c.p, l) !in own
    ensures TreeInv(c, threads[c.p := Combine(l)], SetLeft(nodes, On(c.p, l), v), own[On(c.p, l) := c.p])
  {
    hide Value, Slots, Counters, Closed, Rights, Leaves, Paths, AddInt32, Ground;
    var nodes' := SetLeft(nodes, On(c.p, l), v);
    WriteLeftNodes(c, threads, nodes, own, l, nodes');
    TakePaths(c, threads, own, c.p, l);
    TakeRights(c, threads, own, c.p, l);
    WriteLeftSlots(c, threads, nodes, own, l, v);
    TakeSlots(c, threads[c.p := Combine(l)], nodes', own, c.p, l);
  }

  /** The final walker owns no child of a node it enters empty-handed from the right. */
  lemma NilFacts(c: Ctx, threads: seq<Thread>, own: Owners, l: nat)
    requires c.p < |threads| && Paths(c, own) && Rights(c, threads, own)
    requires threads[c.p] == Arrive(l, None) && 1 <= l < c.job.conf.depth && !IsLeft(On(c.p, l - 1))
    ensures forall n: Node :: n.level == l - 1 ==> !OwnedBy(own, n, c.p)
    ensures !OwnedBy(own, On(c.p, l), c.p)
  {}

  lemma NilRights(c: Ctx, threads: seq<Thread>, own: Owners, l: nat)
    requires c.p < |threads| && Paths(c, own) && Rights(c, threads, own)
    requires threads[c.p] == Arrive(l, None) && 1 <= l < c.job.conf.depth && !OwnedBy(own, On(c.p, l), c.p)
    ensures Rights(c, threads[c.p := Arrive(l + 1, None)], own)
  {
    var threads' := threads[c.p := Arrive(l + 1, None)];
    forall s: nat, k: nat | s <= c.p && 1 <= k && OwnedBy(own, On(s, k), s)
      ensures Took(threads'[s], k)
    {
      assert Took(threads[s], k);
    }
  }

  lemma NilSlots(c: Ctx, threads: seq<Thread>, nodes: map<Node, NodeState>, own: Owners, l: nat)
    requires c.p < |threads| && Slots(c, threads, nodes, own)
    requires threads[c.p] == Arrive(l, None) && l >= 1
    requires forall n: Node :: n.level == l - 1 ==> !OwnedBy(own, n, c.p)
    ensures Slots(c, threads[c.p := Arrive(l + 1, None)], nodes, own)
  {
    hide Value;
  }

  /** writeFinalNode from the right empty-handed: nothing to do at this node. */
  lemma StepNil(c: Ctx, threads: seq<Thread>, nodes: map<Node, NodeState>, own: Owners, l: nat)
    requires At(c, threads, nodes, own, c.p)
    requires threads[c.p] == Arrive(l, None) && 1 <= l < c.job.conf.depth && !IsLeft(On(c.p, l - 1))
    ensures TreeInv(c, threads[c.p := Arrive(l + 1, None)], nodes, own)
  {
    hide Value, Slots, Counters, Closed, Rights, Leaves, Paths, AddInt32, Ground, BothPassed, Count;
    var th := Arrive(l + 1, None);
    var threads' := threads[c.p := th];
    NilFacts(c, threads, own, l);
    NilRights(c, threads, own, l);
    NilSlots(c, threads, nodes, own, l);
    forall n: Node | 1 <= n.level < c.job.conf.depth
      ensures BothPassed(threads', own, n) == BothPassed(threads, own, n)
      ensures Count(threads', own, n) == Count(threads, own, n)
    {
      PassElsewhere(c, threads, own, c.p, th, l, n);
    }
    NodesAfterQuiet(c, threads, threads', nodes, nodes, own, own, Node(0, 0));
  }
}
