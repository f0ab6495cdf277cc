/**
One connection session with one peer as a state machine: any number of concurrent requests, debit actions
and settlements, interleaved at the granularity of the per-peer lock.
*/
module LedgerSession {
  import opened Common
  import opened Ledger

  /** A request we make: reserved, perhaps credited, not yet released. */
  datatype Request = Request(price: nat, credited: bool)

  /**
  The ledger together with what the callers hold: open requests, prepared debit actions neither applied
  nor cleaned up, and the amount of the payment goroutine in flight.  `cleaned` sums actions given up.
  */
  datatype Session = Session(peer: Peer, requests: seq<Request>, actions: seq<nat>, payment: Option<nat>, cleaned: int)

  datatype Op =
    | OpReserve(price: nat, env: Env)
    | OpCredit(i: nat, originated: bool)
    | OpRelease(i: nat)
    | OpPaymentSent(ok: bool, now: int)
    | OpThreshold(value: int)
    | OpPaymentReceived(amount: nat)
    | OpRefreshReceived(amount: nat)
    | OpPrepare(price: nat)
    | OpApply(i: nat)
    | OpCleanup(i: nat)
    | OpDisconnect

  /** Callers keep the interface's rules: Credit and Release only for an open reservation, every action settled once. */
  predicate Allowed(s: Session, op: Op) {
    match op
    case OpCredit(i, _) => i < |s.requests| && !s.requests[i].credited
    case OpRelease(i) => i < |s.requests|
    case OpPaymentSent(_, _) => s.payment.Some?
    case OpApply(i) => i < |s.actions|
    case OpCleanup(i) => i < |s.actions|
    case _ => true
  }

  function Remove<T>(s: seq<T>, i: nat): seq<T>
    requires i < |s|
  { s[..i] + s[i + 1..] }

  function Do(cfg: Config, s: Session, op: Op): Session
    requires Allowed(s, op)
  {
    var p := s.peer;
    match op
    case OpReserve(price, env) =>
      var r := Reserve(cfg, p, price, env);
      s.(peer := r.peer,
         requests := if r.error == NoError then s.requests + [Request(price, false)] else s.requests,
         payment := if r.paid.Some? then r.paid else s.payment)
    case OpCredit(i, originated) =>
      s.(peer := Credit(p, s.requests[i].price, originated),
         requests := s.requests[i := Request(s.requests[i].price, true)])
    case OpRelease(i) => s.(peer := Release(p, s.requests[i].price), requests := Remove(s.requests, i))
    case OpPaymentSent(ok, now) => s.(peer := PaymentSent(p, s.payment.value, ok, now), payment := None)
    case OpThreshold(value) => s.(peer := p.(threshold := value))
    case OpPaymentReceived(amount) => s.(peer := PaymentReceived(p, amount))
    case OpRefreshReceived(amount) => s.(peer := RefreshmentReceived(p, amount))
    case OpPrepare(price) =>
      if p.connected then s.(peer := PrepareDebit(p, price), actions := s.actions + [price]) else s
    case OpApply(i) => s.(peer := ApplyDebit(p, s.actions[i]), actions := Remove(s.actions, i))
    case OpCleanup(i) =>
      s.(peer := CleanupDebit(p, s.actions[i]), actions := Remove(s.actions, i), cleaned := s.cleaned + s.actions[i])
    case OpDisconnect => s.(peer := p.(connected := false))
  }

  // ---------------------------------------------------------------- sums

  function Sum(xs: seq<nat>): nat {
    if xs == [] then 0 else Sum(xs[..|xs| - 1]) + xs[|xs| - 1]
  }

  function Held(requests: seq<Request>): seq<nat> {
    seq(|requests|, i requires 0 <= i < |requests| => requests[i].price)
  }

  /** Reserved and not credited yet. */
  function Uncredited(requests: seq<Request>): seq<nat> {
    seq(|requests|, i requires 0 <= i < |requests| => if requests[i].credited then 0 else requests[i].price)
  }

  lemma {:induction false} SumRemove(xs: seq<nat>, i: nat)
    requires i < |xs|
    ensures Sum(Remove(xs, i)) == Sum(xs) - xs[i]
    decreases |xs|
  {
    var n := |xs| - 1;
    if i == n {
      assert Remove(xs, i) == xs[..n];
    } else {
      SumRemove(xs[..n], i);
      assert Remove(xs, i)[..n - 1] == Remove(xs[..n], i);
    }
  }

  lemma {:induction false} SumUpdate(xs: seq<nat>, i: nat, v: nat)
    requires i < |xs|
    ensures Sum(xs[i := v]) == Sum(xs) - xs[i] + v
    decreases |xs|
  {
    var n := |xs| - 1;
    if i == n {
      assert xs[i := v][..n] == xs[..n];
    } else {
      SumUpdate(xs[..n], i, v);
      assert xs[i := v][..n] == xs[..n][i := v];
    }
  }

  lemma {:induction false} SumAtLeast(xs: seq<nat>, i: nat)
    requires i < |xs|
    ensures xs[i] <= Sum(xs)
    decreases |xs|
  {
    if i < |xs| - 1 { SumAtLeast(xs[..|xs| - 1], i); }
  }

  lemma {:induction false} UncreditedAtMostHeld(requests: seq<Request>)
    ensures Sum(Uncredited(requests)) <= Sum(Held(requests))
    decreases |requests|
  {
    if requests != [] {
      var n := |requests| - 1;
      UncreditedAtMostHeld(requests[..n]);
      assert Held(requests)[..n] == Held(requests[..n]);
      assert Uncredited(requests)[..n] == Uncredited(requests[..n]);
    }
  }

  lemma RequestSums(requests: seq<Request>, i: nat)
    requires i < |requests|
    ensures Sum(Held(Remove(requests, i))) == Sum(Held(requests)) - requests[i].price
    ensures Sum(Uncredited(Remove(requests, i))) <= Sum(Uncredited(requests))
    ensures requests[i].price <= Sum(Held(requests))
    ensures var credited := requests[i := Request(requests[i].price, true)];
            && Sum(Held(credited)) == Sum(Held(requests))
            && (!requests[i].credited ==> Sum(Uncredited(credited)) == Sum(Uncredited(requests)) - requests[i].price)
  {
    var credited := requests[i := Request(requests[i].price, true)];
    assert Held(Remove(requests, i)) == Remove(Held(requests), i);
    assert Uncredited(Remove(requests, i)) == Remove(Uncredited(requests), i);
    assert Held(credited) == Held(requests);
    assert Uncredited(credited) == Uncredited(requests)[i := 0];
    SumRemove(Held(requests), i);
    SumRemove(Uncredited(requests), i);
    SumAtLeast(Held(requests), i);
    SumUpdate(Uncredited(requests), i, 0);
  }

  lemma RequestAdded(requests: seq<Request>, price: nat)
    ensures Sum(Held(requests + [Request(price, false)])) == Sum(Held(requests)) + price
    ensures Sum(Uncredited(requests + [Request(price, false)])) == Sum(Uncredited(requests)) + price
  {
    var more := requests + [Request(price, false)];
    assert Held(more)[..|requests|] == Held(requests);
    assert Uncredited(more)[..|requests|] == Uncredited(requests);
  }

  // ---------------------------------------------------------------- bookkeeping

  /** Payment part of the shadow reserve. */
  function InFlight(s: Session): nat { if s.payment.Some? then s.payment.value else 0 }

  /**
  The counters say what the callers hold: the reserve is the sum of open requests, the shadow reserve is
  prepared actions plus the one payment in flight, the ghost balance is what was cleaned up unapplied.
  */
  predicate Books(s: Session) {
    && s.peer.reserved == Sum(Held(s.requests))
    && s.peer.shadow == Sum(s.actions) + InFlight(s)
    && s.peer.paymentOngoing == s.payment.Some?
    && s.peer.ghosted == s.cleaned
    && s.peer.surplus >= 0
  }

  lemma BooksReserve(cfg: Config, s: Session, price: nat, env: Env)
    requires Books(s)
    ensures Books(Do(cfg, s, OpReserve(price, env)))
  {
    hide Held, Sum, OriginatedTo;
    RequestAdded(s.requests, price);
    SettlePays(cfg, s.peer, env);
    hide Config.MinimumPayment;
  }

  lemma BooksRequests(cfg: Config, s: Session, op: Op)
    requires Books(s) && Allowed(s, op) && (op.OpCredit? || op.OpRelease?)
    ensures Books(Do(cfg, s, op))
  {
    hide Held, Sum, Remove, Uncredited;
    RequestSums(s.requests, op.i);
  }

  lemma BooksActions(cfg: Config, s: Session, op: Op)
    requires Books(s) && Allowed(s, op) && (op.OpPrepare? || op.OpApply? || op.OpCleanup?)
    ensures Books(Do(cfg, s, op))
  {
    hide Held, Uncredited;
    if op.OpPrepare? {
      assert (s.actions + [op.price])[..|s.actions|] == s.actions;
    } else {
      SumRemove(s.actions, op.i);
      hide Sum, Remove;
    }
  }

  /** Every operation keeps the books. */
  lemma BooksKept(cfg: Config, s: Session, op: Op)
    requires Books(s) && Allowed(s, op)
    ensures Books(Do(cfg, s, op))
  {
    hide Held, Uncredited, Sum, Remove;
    if op.OpReserve? {
      BooksReserve(cfg, s, op.price, op.env);
    } else if op.OpCredit? || op.OpRelease? {
      BooksRequests(cfg, s, op);
    } else if op.OpPrepare? || op.OpApply? || op.OpCleanup? {
      BooksActions(cfg, s, op);
    } else {
      hide Reserve, ApplyDebit, Credit;
    }
  }

  /** Every operation keeps the originated balance above the debt. */
  lemma OriginatedKept(cfg: Config, s: Session, op: Op)
    requires Books(s) && Allowed(s, op) && OriginatedInDebt(s.peer)
    ensures OriginatedInDebt(Do(cfg, s, op).peer)
  {
    hide Held, Uncredited, Sum, Remove;
    if op.OpReserve? {
      SettlePays(cfg, s.peer, op.env);
      hide Settle;
    } else {
      hide Reserve;
    }
  }

  /** Consequences: no negative reserve, and Release never hits its clamp. */
  lemma BooksConsequences(s: Session, i: nat)
    requires Books(s)
    ensures s.peer.shadow >= 0 && s.peer.reserved >= 0
    ensures i < |s.requests| ==> Release(s.peer, s.requests[i].price).reserved == s.peer.reserved - s.requests[i].price
  {
    if i < |s.requests| { RequestSums(s.requests, i); }
  }

  // ---------------------------------------------------------------- no overspend

  /** Debt if everything reserved is credited stays within the threshold the peer gave us. */
  predicate WithinThreshold(s: Session) {
    Debt(s.peer) + Sum(Uncredited(s.requests)) <= s.peer.threshold
  }

  /** The peer does not lower our threshold, and its refreshments do not exceed what it owes us. */
  predicate FairPeer(s: Session, op: Op) {
    match op
    case OpThreshold(value) => value >= s.peer.threshold
    case OpRefreshReceived(amount) => amount <= Max(0, s.peer.balance)
    case _ => true
  }

  lemma NoOverspendStep(cfg: Config, s: Session, op: Op)
    requires Books(s) && WithinThreshold(s) && Allowed(s, op) && FairPeer(s, op)
    ensures WithinThreshold(Do(cfg, s, op))
  {
    hide Sum, Held, Uncredited, Remove;
    match op {
      case OpReserve(price, env) =>
        RequestAdded(s.requests, price);
        UncreditedAtMostHeld(s.requests);
      case OpCredit(i, originated) => RequestSums(s.requests, i);
      case OpRelease(i) => RequestSums(s.requests, i);
      case _ =>
    }
  }

  /**
  The two conditions on the peer are exact.  A refreshment is harmless in every ledger with the given
  balance if and only if it is no larger than the positive part of that balance; a new threshold is
  harmless in every ledger if and only if it is no lower.
  */
  lemma RefreshmentLimit(balance: int, amount: nat)
    ensures (forall cfg: Config, s: Session :: Books(s) && WithinThreshold(s) && s.peer.balance == balance ==>
               WithinThreshold(Do(cfg, s, OpRefreshReceived(amount))))
            <==> amount <= Max(0, balance)
  {
    if amount > Max(0, balance) {
      var debt := if balance < 0 then -balance else 0;
      var p := Peer(true, balance, 0, 0, 0, 0, 0, debt, 0, false, 0);
      var s := Session(p, [], [], None, 0);
      assert Held([]) == [] && Uncredited([]) == [];
      assert Books(s) && WithinThreshold(s);
      assert !WithinThreshold(Do(Config(0, 0, 0, 0), s, OpRefreshReceived(amount)));
    } else {
      forall cfg: Config, s: Session | Books(s) && WithinThreshold(s) && s.peer.balance == balance
        ensures WithinThreshold(Do(cfg, s, OpRefreshReceived(amount)))
      {
        NoOverspendStep(cfg, s, OpRefreshReceived(amount));
      }
    }
  }

  lemma ThresholdLimit(threshold: nat, value: int)
    ensures (forall cfg: Config, s: Session :: Books(s) && WithinThreshold(s) && s.peer.threshold == threshold ==>
               WithinThreshold(Do(cfg, s, OpThreshold(value))))
            <==> value >= threshold
  {
    if value < threshold {
      var p := Peer(true, 0 - threshold, 0, 0, 0, 0, 0, threshold, 0, false, 0);
      var s := Session(p, [], [], None, 0);
      assert Held([]) == [] && Uncredited([]) == [];
      assert Books(s) && WithinThreshold(s);
      assert !WithinThreshold(Do(Config(0, 0, 0, 0), s, OpThreshold(value)));
    } else {
      forall cfg: Config, s: Session | Books(s) && WithinThreshold(s) && s.peer.threshold == threshold
        ensures WithinThreshold(Do(cfg, s, OpThreshold(value)))
      {
        NoOverspendStep(cfg, s, OpThreshold(value));
      }
    }
  }

  // ---------------------------------------------------------------- whole sessions

  /** A session starts with Connect on a ledger with nothing outstanding; Connect keeps any originated balance. */
  predicate Opened(s: Session) {
    && s.requests == [] && s.actions == [] && s.payment.None? && s.cleaned == 0
    && s.peer == Connect(s.peer) && s.peer.threshold >= 0 && !s.peer.paymentOngoing
  }

  ghost predicate SessionRun(cfg: Config, states: seq<Session>, ops: seq<Op>) {
    && |states| == |ops| + 1
    && Opened(states[0])
    && forall i :: 0 <= i < |ops| ==> Allowed(states[i], ops[i]) && states[i + 1] == Do(cfg, states[i], ops[i])
  }

  lemma {:induction false} SessionBooks(cfg: Config, states: seq<Session>, ops: seq<Op>, i: nat)
    requires SessionRun(cfg, states, ops) && i <= |ops|
    ensures Books(states[i])
  {
    if i == 0 {
      assert Held(states[0].requests) == [];
    } else {
      SessionBooks(cfg, states, ops, i - 1);
      BooksKept(cfg, states[i - 1], ops[i - 1]);
    }
  }

  /** Over any interleaving of any number of requests with a fair peer, we never risk more than our threshold. */
  lemma {:induction false} NoOverspend(cfg: Config, states: seq<Session>, ops: seq<Op>, i: nat)
    requires SessionRun(cfg, states, ops) && i <= |ops|
    requires forall j :: 0 <= j < i ==> FairPeer(states[j], ops[j])
    ensures WithinThreshold(states[i])
  {
    if i == 0 {
      assert Uncredited(states[0].requests) == [];
    } else {
      NoOverspend(cfg, states, ops, i - 1);
      SessionBooks(cfg, states, ops, i - 1);
      NoOverspendStep(cfg, states[i - 1], ops[i - 1]);
    }
  }

  /** A session that starts without originated debt never counts more as originated than it owes. */
  lemma {:induction false} SessionOriginated(cfg: Config, states: seq<Session>, ops: seq<Op>, i: nat)
    requires SessionRun(cfg, states, ops) && i <= |ops| && states[0].peer.originated >= 0
    ensures OriginatedInDebt(states[i].peer)
  {
    if i > 0 {
      SessionOriginated(cfg, states, ops, i - 1);
      SessionBooks(cfg, states, ops, i - 1);
      OriginatedKept(cfg, states[i - 1], ops[i - 1]);
    }
  }

  /**
  In every session a payment starts only while none is in flight.  It is at most the debt at that moment if and only
  if the originated balance was not below the debt or a refreshment comes first; in a session that starts without
  originated debt it always is.
  */
  lemma PaymentsCoverDebt(cfg: Config, states: seq<Session>, ops: seq<Op>, i: nat)
    requires SessionRun(cfg, states, ops) && i < |ops| && ops[i].OpReserve?
    ensures var r := Reserve(cfg, states[i].peer, ops[i].price, ops[i].env);
            r.paid.Some? ==>
              && states[i].payment.None?
              && (r.paid.value <= Debt(states[i + 1].peer) <==>
                    OriginatedInDebt(states[i].peer) || WantsRefresh(states[i].peer, ops[i].env.now))
              && (states[0].peer.originated >= 0 ==> r.paid.value <= Debt(states[i + 1].peer))
  {
    SessionBooks(cfg, states, ops, i);
    if states[0].peer.originated >= 0 { SessionOriginated(cfg, states, ops, i); }
    SettlePays(cfg, states[i].peer, ops[i].env);
    hide Settle;
  }

  // ---------------------------------------------------------------- what an operation leaves alone

  /** Each of these fields has one operation that sets it; the surplus grows by payments and shrinks by debits only. */
  lemma FieldsKept(cfg: Config, s: Session, op: Op)
    requires Allowed(s, op) && s.peer.surplus >= 0
    ensures var p, q := s.peer, Do(cfg, s, op).peer;
      && q.lastFailure == (if op.OpPaymentSent? && !op.ok then op.now else p.lastFailure)
      && q.threshold == (if op.OpThreshold? then op.value else p.threshold)
      && (q.connected <==> p.connected && !op.OpDisconnect?)
      && (q.refreshTimestamp != p.refreshTimestamp ==>
            op.OpReserve? && op.env.refresh.RefreshOk? && q.refreshTimestamp == op.env.refresh.timestamp)
      && (q.surplus > p.surplus ==> op.OpPaymentReceived?) && (q.surplus < p.surplus ==> op.OpApply?)
  {
    hide Config.MinimumPayment, Sum, Remove;
  }

  /** After a failed payment its time is kept until the next one fails. */
  lemma {:induction false} FailureKept(cfg: Config, states: seq<Session>, ops: seq<Op>, i: nat, j: nat)
    requires SessionRun(cfg, states, ops) && i < j <= |ops| && ops[i].OpPaymentSent? && !ops[i].ok
    requires forall k :: i < k < j ==> !(ops[k].OpPaymentSent? && !ops[k].ok)
    ensures states[j].peer.lastFailure == ops[i].now
  {
    hide Do, Books;
    if j > i + 1 { FailureKept(cfg, states, ops, i, j - 1); }
    SessionBooks(cfg, states, ops, j - 1);
    SurplusKept(states[j - 1]);
    FieldsKept(cfg, states[j - 1], ops[j - 1]);
  }

  lemma SurplusKept(s: Session)
    requires Books(s)
    ensures s.peer.surplus >= 0
  {}

  /** Over any session, after a failed payment none is started before the interval has passed. */
  lemma NoPaymentSoonAfterFailure(cfg: Config, states: seq<Session>, ops: seq<Op>, i: nat, j: nat)
    requires SessionRun(cfg, states, ops) && i < j < |ops| && ops[i].OpPaymentSent? && !ops[i].ok && ops[j].OpReserve?
    requires forall k :: i < k < j ==> !(ops[k].OpPaymentSent? && !ops[k].ok)
    requires Reserve(cfg, states[j].peer, ops[j].price, ops[j].env).paid.Some?
    ensures ops[j].env.now > ops[i].now + FAILED_SETTLEMENT_INTERVAL
  {
    hide Do, Books, Config.MinimumPayment;
    FailureKept(cfg, states, ops, i, j);
  }

  // ---------------------------------------------------------------- paying the whole debt

  /** The steps after which our whole debt is still the one we originated. */
  predicate OwnStep(s: Session, op: Op)
    requires Allowed(s, op)
  {
    match op
    case OpCredit(i, originated) => originated || s.peer.balance >= s.requests[i].price || s.requests[i].price == 0
    case OpPaymentSent(ok, _) => ok ==> s.payment.value <= Debt(s.peer)
    case OpRefreshReceived(amount) => amount <= Max(0, s.peer.balance)
    case _ => true
  }

  /** Every other step keeps the originated debt equal to the debt, and these do if and only if they are such steps. */
  lemma OwnKept(cfg: Config, s: Session, op: Op)
    requires Books(s) && Allowed(s, op) && OwnDebt(s.peer)
    ensures OwnDebt(Do(cfg, s, op).peer) <==> OwnStep(s, op)
  {
    hide Held, Uncredited, Sum, Remove, Config.MinimumPayment;
    if !op.OpReserve? { hide Reserve; }
  }

  lemma {:induction false} SessionOwn(cfg: Config, states: seq<Session>, ops: seq<Op>, i: nat)
    requires SessionRun(cfg, states, ops) && i <= |ops| && states[0].peer.originated == 0
    requires forall j :: 0 <= j < i ==> OwnStep(states[j], ops[j])
    ensures OwnDebt(states[i].peer)
  {
    hide Do, Books, OwnStep, OwnDebt;
    if i == 0 {
      OwnAtStart(states[0]);
    } else {
      SessionOwn(cfg, states, ops, i - 1);
      SessionBooks(cfg, states, ops, i - 1);
      OwnKept(cfg, states[i - 1], ops[i - 1]);
      assert states[i - 1 + 1] == Do(cfg, states[i - 1], ops[i - 1]);
    }
  }

  lemma OwnAtStart(s: Session)
    requires Opened(s) && s.peer.originated == 0
    ensures OwnDebt(s.peer)
  {}

  /** In such a session every payment that is started is the whole debt, after the refreshment if there was one. */
  lemma PaysWholeDebt(cfg: Config, states: seq<Session>, ops: seq<Op>, i: nat)
    requires SessionRun(cfg, states, ops) && i < |ops| && ops[i].OpReserve? && states[0].peer.originated == 0
    requires forall j :: 0 <= j < i ==> OwnStep(states[j], ops[j])
    ensures var r := Reserve(cfg, states[i].peer, ops[i].price, ops[i].env);
      r.paid.Some? ==> r.paid.value == Debt(states[i + 1].peer)
  {
    SessionOwn(cfg, states, ops, i);
    SessionBooks(cfg, states, ops, i);
    OwnKept(cfg, states[i], ops[i]);
    hide Held, Sum, Books;
  }

  /** A ledger that kept 5 of originated debt over a reconnect. */
  function Reconnected(): Session {
    Session(Connect(Peer(false, -5, 0, -5, 0, 0, 0, 10, 50, false, 0)), [], [], None, 0)
  }

  /**
  A session that owes 1, for a request made on behalf of another node, and pays 5 when it reserves the next one.
  The refresh of that second has been used.
  */
  lemma KeptOriginatedOverpays() returns (states: seq<Session>, ops: seq<Op>)
    ensures var cfg := Config(10, 0, 0, 10);
      && states != [] && states[0] == Reconnected() && |ops| == 3 && SessionRun(cfg, states, ops)
      && ops[2].OpReserve? && Reserve(cfg, states[2].peer, ops[2].price, ops[2].env).paid == Some(5)
      && Debt(states[3].peer) == 1
  {
    hide Do, Reserve, Reconnected;
    var env := Env(50, RefreshErr, true);
    FirstRequest();
    SecondRequest();
    states := [Reconnected(), Owing(0, [Request(1, false)]), Owing(-1, [Request(1, true)]), Overpaying()];
    ops := [OpReserve(1, env), OpCredit(0, false), OpReserve(8, env)];
  }

  /** The session above with this balance and these requests. */
  function Owing(balance: int, requests: seq<Request>): Session {
    Session(Peer(true, balance, 0, -5, 1, 0, 0, 10, 50, false, 0), requests, [], None, 0)
  }

  /** ... and at its end. */
  function Overpaying(): Session {
    Session(Peer(true, -1, 0, -5, 9, 5, 0, 10, 50, true, 0), [Request(1, true), Request(8, false)], [], Some(5), 0)
  }

  lemma FirstRequest()
    ensures var cfg, env := Config(10, 0, 0, 10), Env(50, RefreshErr, true);
      && Opened(Reconnected())
      && Do(cfg, Reconnected(), OpReserve(1, env)) == Owing(0, [Request(1, false)])
      && Do(cfg, Owing(0, [Request(1, false)]), OpCredit(0, false)) == Owing(-1, [Request(1, true)])
  {
    assert [Request(1, false)][0 := Request(1, true)] == [Request(1, true)];
  }

  lemma SecondRequest()
    ensures var cfg, env := Config(10, 0, 0, 10), Env(50, RefreshErr, true);
      && Reserve(cfg, Owing(-1, [Request(1, true)]).peer, 8, env).paid == Some(5)
      && Do(cfg, Owing(-1, [Request(1, true)]), OpReserve(8, env)) == Overpaying()
  {
    hide Reserve;
    ReservesEight();
    assert [Request(1, true)] + [Request(8, false)] == [Request(1, true), Request(8, false)];
  }

  lemma ReservesEight()
    ensures var p := Owing(-1, [Request(1, true)]).peer;
      Reserve(Config(10, 0, 0, 10), p, 8, Env(50, RefreshErr, true)) ==
        Reserved(p.(paymentOngoing := true, shadow := 5, reserved := 9), NoError, None, Some(5))
  {
    hide Settle;
    PaysFive();
  }

  lemma PaysFive()
    ensures var p := Peer(true, -1, 0, -5, 1, 0, 0, 10, 50, false, 0);
      Settle(Config(10, 0, 0, 10), p, Env(50, RefreshErr, true)) ==
        Settled(p.(paymentOngoing := true, shadow := 5), false, None, Some(5))
  {
    var p, env := Peer(true, -1, 0, -5, 1, 0, 0, 10, 50, false, 0), Env(50, RefreshErr, true);
    assert !WantsRefresh(p, env.now) && Config(10, 0, 0, 10).MinimumPayment() == 2;
    assert StartPayment(Config(10, 0, 0, 10), p, env).1 == Some(5);
  }
}
