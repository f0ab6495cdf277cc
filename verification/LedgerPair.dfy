/**
Two connected nodes, each keeping a ledger of the other.  Requests, payments and refreshments are
exchanges with one booking on each side, made at different times and in either order.
*/
module LedgerPair {
  import opened Common
  import opened Ledger
  import opened Pricer

  datatype Side = A | B

  /** A node's own settings. */
  datatype Node = Node(config: Config, pricer: FixedPricer)

  datatype Nodes = Nodes(a: Node, b: Node)
  {
    function Of(side: Side): Node { if side == A then a else b }
  }

  /** A request names a chunk, and each side prices it; a payment or refreshment names its amount in the message. */
  datatype Kind = Service(chunk: Bytes) | Payment(amount: nat) | Refreshment(amount: nat)

  /**
  `gain` is the side whose compensated balance rises: the node that served a request, or that sent a
  payment or refreshment.  `raised` and `lowered` tell which of the two bookings have been made.
  */
  datatype Exchange = Exchange(kind: Kind, gain: Side, raised: bool, lowered: bool)

  datatype Pair = Pair(a: Peer, b: Peer, exchanges: seq<Exchange>)
  {
    function On(side: Side): Peer { if side == A then a else b }
    function With(side: Side, p: Peer): Pair { if side == A then this.(a := p) else this.(b := p) }
  }

  function Other(side: Side): Side { if side == A then B else A }

  /** What the gaining side books: a server charges its own price. */
  function Gained(nodes: Nodes, e: Exchange): nat {
    if e.kind.Service? then nodes.Of(e.gain).pricer.Price(e.kind.chunk) else e.kind.amount
  }

  /** What the other side books: a requester works out the price of the peer it asks. */
  function Lost(nodes: Nodes, e: Exchange): nat {
    if e.kind.Service? then nodes.Of(Other(e.gain)).pricer.PeerPrice(nodes.Of(e.gain).pricer.overlay, e.kind.chunk)
    else e.kind.amount
  }

  datatype Op =
    | Begin(kind: Kind, gain: Side)                                   // a request or refreshment starts
    | Serve(k: nat)                                                   // Apply on the serving side
    | Credited(k: nat, originated: bool)                              // Credit on the requesting side
    | Paid(k: nat, ok: bool, now: int)                                // NotifyPaymentSent on the paying side
    | Received(k: nat)                              // NotifyPaymentReceived / NotifyRefreshmentReceived
    | Reserving(side: Side, price: nat, env: Env, k: nat)             // Reserve, settling exchange k if it refreshes
    | Releasing(side: Side, price: nat)
    | Preparing(side: Side, price: nat)
    | CleaningUp(side: Side, price: nat)
    | Announcing(side: Side, threshold: int)

  /** Each booking is made once, for an exchange under way; a refreshment books what was negotiated. */
  predicate Allowed(nodes: Nodes, s: Pair, op: Op) {
    match op
    case Begin(kind, _) => !kind.Payment?
    case Serve(k) => k < |s.exchanges| && s.exchanges[k].kind.Service? && !s.exchanges[k].raised
    case Credited(k, _) => k < |s.exchanges| && s.exchanges[k].kind.Service? && !s.exchanges[k].lowered
    case Paid(k, _, _) => k < |s.exchanges| && s.exchanges[k].kind.Payment? && !s.exchanges[k].raised
    case Received(k) => k < |s.exchanges| && !s.exchanges[k].kind.Service? && !s.exchanges[k].lowered
    case Reserving(side, price, env, k) =>
      var r := Reserve(nodes.Of(side).config, s.On(side), price, env);
      r.refreshed.Some? ==>
        k < |s.exchanges| && s.exchanges[k].kind == Refreshment(r.refreshed.value) && s.exchanges[k].gain == side
        && !s.exchanges[k].raised
    case _ => true
  }

  function Raise(s: Pair, k: nat): Pair
    requires k < |s.exchanges|
  { s.(exchanges := s.exchanges[k := s.exchanges[k].(raised := true)]) }

  function Lower(s: Pair, k: nat): Pair
    requires k < |s.exchanges|
  { s.(exchanges := s.exchanges[k := s.exchanges[k].(lowered := true)]) }

  function Do(nodes: Nodes, s: Pair, op: Op): Pair
    requires Allowed(nodes, s, op)
  {
    match op
    case Begin(kind, gain) => s.(exchanges := s.exchanges + [Exchange(kind, gain, false, false)])
    case Serve(k) =>
      var e := s.exchanges[k];
      Raise(s, k).With(e.gain, ApplyDebit(s.On(e.gain), Gained(nodes, e)))
    case Credited(k, originated) =>
      var e := s.exchanges[k];
      Lower(s, k).With(Other(e.gain), Credit(s.On(Other(e.gain)), Lost(nodes, e), originated))
    case Paid(k, ok, now) =>
      var e := s.exchanges[k];
      (if ok then Raise(s, k) else s).With(e.gain, PaymentSent(s.On(e.gain), Gained(nodes, e), ok, now))
    case Received(k) =>
      var e := s.exchanges[k];
      var p := s.On(Other(e.gain));
      Lower(s, k).With(Other(e.gain),
                       if e.kind.Payment? then PaymentReceived(p, Lost(nodes, e))
                       else RefreshmentReceived(p, Lost(nodes, e)))
    case Reserving(side, price, env, k) =>
      var r := Reserve(nodes.Of(side).config, s.On(side), price, env);
      var t := (if r.refreshed.Some? then Raise(s, k) else s).With(side, r.peer);
      if r.paid.Some? then t.(exchanges := t.exchanges + [Exchange(Payment(r.paid.value), side, false, false)]) else t
    case Releasing(side, price) => s.With(side, Release(s.On(side), price))
    case Preparing(side, price) => if s.On(side).connected then s.With(side, PrepareDebit(s.On(side), price)) else s
    case CleaningUp(side, price) => s.With(side, CleanupDebit(s.On(side), price))
    case Announcing(side, threshold) => s.With(side, s.On(side).(threshold := threshold))
  }

  // ---------------------------------------------------------------- conservation

  /** What an exchange has added to the two ledgers together. */
  function Half(nodes: Nodes, e: Exchange): int {
    (if e.raised then Gained(nodes, e) else 0) - (if e.lowered then Lost(nodes, e) else 0)
  }

  function Halves(nodes: Nodes, xs: seq<Exchange>): int {
    if xs == [] then 0 else Halves(nodes, xs[..|xs| - 1]) + Half(nodes, xs[|xs| - 1])
  }

  lemma {:induction false} HalvesUpdate(nodes: Nodes, xs: seq<Exchange>, k: nat, e: Exchange)
    requires k < |xs|
    ensures Halves(nodes, xs[k := e]) == Halves(nodes, xs) - Half(nodes, xs[k]) + Half(nodes, e)
    decreases |xs|
  {
    hide Half;
    var n := |xs| - 1;
    if k == n {
      assert xs[k := e][..n] == xs[..n];
    } else {
      HalvesUpdate(nodes, xs[..n], k, e);
      assert xs[k := e][..n] == xs[..n][k := e];
    }
  }

  lemma HalvesAdded(nodes: Nodes, xs: seq<Exchange>, kind: Kind, gain: Side)
    ensures Halves(nodes, xs + [Exchange(kind, gain, false, false)]) == Halves(nodes, xs)
  {
    assert (xs + [Exchange(kind, gain, false, false)])[..|xs|] == xs;
  }

  /** Both ledgers together hold exactly what the exchanges have added. */
  predicate Conserved(nodes: Nodes, s: Pair) {
    && Compensated(s.a) + Compensated(s.b) == Halves(nodes, s.exchanges)
    && s.a.surplus >= 0 && s.b.surplus >= 0
  }

  /** However surplus and balance split an amount, each booking moves the compensated balance by that amount. */
  lemma Bookings(cfg: Config, p: Peer, amount: nat, originated: bool, now: int, price: nat, env: Env)
    requires p.surplus >= 0
    ensures Compensated(ApplyDebit(p, amount)) == Compensated(p) + amount && ApplyDebit(p, amount).surplus >= 0
    ensures Compensated(Credit(p, amount, originated)) == Compensated(p) - amount
            && Credit(p, amount, originated).surplus >= 0
    ensures Compensated(PaymentSent(p, amount, true, now)) == Compensated(p) + amount
            && PaymentSent(p, amount, true, now).surplus >= 0
    ensures Compensated(PaymentSent(p, amount, false, now)) == Compensated(p)
            && PaymentSent(p, amount, false, now).surplus >= 0
    ensures Compensated(PaymentReceived(p, amount)) == Compensated(p) - amount
            && PaymentReceived(p, amount).surplus >= 0
    ensures Compensated(RefreshmentReceived(p, amount)) == Compensated(p) - amount
            && RefreshmentReceived(p, amount).surplus >= 0
    ensures var r := Reserve(cfg, p, price, env);
            Compensated(r.peer) == Compensated(p) + (if r.refreshed.Some? then r.refreshed.value else 0)
            && r.peer.surplus >= 0
  {}

  lemma ConservedReserving(nodes: Nodes, s: Pair, op: Op)
    requires Conserved(nodes, s) && Allowed(nodes, s, op) && op.Reserving?
    ensures Conserved(nodes, Do(nodes, s, op))
  {
    var cfg := nodes.Of(op.side).config;
    var r := Reserve(cfg, s.On(op.side), op.price, op.env);
    Bookings(cfg, s.On(op.side), 0, false, 0, op.price, op.env);
    hide Reserve;
    var t := (if r.refreshed.Some? then Raise(s, op.k) else s).With(op.side, r.peer);
    if r.refreshed.Some? { HalvesUpdate(nodes, s.exchanges, op.k, s.exchanges[op.k].(raised := true)); }
    if r.paid.Some? { HalvesAdded(nodes, t.exchanges, Payment(r.paid.value), op.side); }
    hide Halves;
  }

  lemma ConservedBooking(nodes: Nodes, s: Pair, op: Op)
    requires Conserved(nodes, s) && Allowed(nodes, s, op) && (op.Serve? || op.Credited? || op.Paid? || op.Received?)
    ensures Conserved(nodes, Do(nodes, s, op))
  {
    hide Reserve, ApplyDebit, Credit, PaymentSent, PaymentReceived, RefreshmentReceived, Halves, Gained, Lost;
    var e := s.exchanges[op.k];
    var env := Env(0, RefreshErr, false);
    Bookings(nodes.a.config, s.On(e.gain), Gained(nodes, e), false, if op.Paid? then op.now else 0, 0, env);
    Bookings(nodes.a.config, s.On(Other(e.gain)), Lost(nodes, e),
             if op.Credited? then op.originated else false, 0, 0, env);
    HalvesUpdate(nodes, s.exchanges, op.k, e.(raised := true));
    HalvesUpdate(nodes, s.exchanges, op.k, e.(lowered := true));
    SameAmounts(nodes, e);
  }

  lemma SameAmounts(nodes: Nodes, e: Exchange)
    ensures Gained(nodes, e.(raised := true)) == Gained(nodes, e)
            && Gained(nodes, e.(lowered := true)) == Gained(nodes, e)
    ensures Lost(nodes, e.(raised := true)) == Lost(nodes, e) && Lost(nodes, e.(lowered := true)) == Lost(nodes, e)
  {}

  lemma ConservedStep(nodes: Nodes, s: Pair, op: Op)
    requires Conserved(nodes, s) && Allowed(nodes, s, op)
    ensures Conserved(nodes, Do(nodes, s, op))
  {
    if op.Reserving? {
      ConservedReserving(nodes, s, op);
    } else if op.Serve? || op.Credited? || op.Paid? || op.Received? {
      ConservedBooking(nodes, s, op);
    } else if op.Begin? {
      HalvesAdded(nodes, s.exchanges, op.kind, op.gain);
    }
  }

  ghost predicate PairRun(nodes: Nodes, states: seq<Pair>, ops: seq<Op>) {
    && |states| == |ops| + 1
    && states[0].a == Connect(states[0].a) && states[0].b == Connect(states[0].b) && states[0].exchanges == []
    && forall i :: 0 <= i < |ops| ==> Allowed(nodes, states[i], ops[i]) && states[i + 1] == Do(nodes, states[i], ops[i])
  }

  /** From Connect on both sides, at every moment of every interleaving, whatever each node's settings are. */
  lemma {:induction false} Conservation(nodes: Nodes, states: seq<Pair>, ops: seq<Op>, i: nat)
    requires PairRun(nodes, states, ops) && i <= |ops|
    ensures Conserved(nodes, states[i])
  {
    if i > 0 {
      Conservation(nodes, states, ops, i - 1);
      hide Conserved, Do, Allowed;
      ConservedStep(nodes, states[i - 1], ops[i - 1]);
    }
  }

  /** Both sides book the same amount when they price alike. */
  lemma SameBooking(nodes: Nodes, e: Exchange)
    requires nodes.a.pricer.poPrice == nodes.b.pricer.poPrice < UINT64
    ensures Gained(nodes, e) == Lost(nodes, e)
  {
    PricesAgree(nodes.Of(Other(e.gain)).pricer, nodes.Of(e.gain).pricer);
  }

  lemma {:induction false} NothingHalf(nodes: Nodes, xs: seq<Exchange>)
    requires nodes.a.pricer.poPrice == nodes.b.pricer.poPrice < UINT64
             && forall k :: 0 <= k < |xs| ==> xs[k].raised == xs[k].lowered
    ensures Halves(nodes, xs) == 0
    decreases |xs|
  {
    hide Gained, Lost;
    if xs != [] {
      SameBooking(nodes, xs[|xs| - 1]);
      NothingHalf(nodes, xs[..|xs| - 1]);
    }
  }

  /** With nothing half-booked and the same price per proximity order, the two nodes see exactly opposite
      compensated balances. */
  lemma MirrorBalances(nodes: Nodes, states: seq<Pair>, ops: seq<Op>, i: nat)
    requires PairRun(nodes, states, ops) && i <= |ops| && nodes.a.pricer.poPrice == nodes.b.pricer.poPrice < UINT64
    requires forall k ::
               0 <= k < |states[i].exchanges| ==> states[i].exchanges[k].raised == states[i].exchanges[k].lowered
    ensures Compensated(states[i].a) == -Compensated(states[i].b)
  {
    Conservation(nodes, states, ops, i);
    NothingHalf(nodes, states[i].exchanges);
  }
}
