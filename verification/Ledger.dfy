/**
Per-peer accounting (pkg/accounting/accounting.go): what each operation does to the ledger of one peer
during one connection session.  Amounts are unbounded integers, as big.Int; the store never fails.
*/
module Ledger {
  import opened Common

  datatype Config = Config(paymentThreshold: nat, paymentTolerance: nat, earlyPayment: nat, refreshRate: nat)
  {
    function DisconnectLimit(): nat { paymentThreshold + paymentTolerance }
    /** One fifth of the refresh rate; smaller debts are not settled with money. */
    function MinimumPayment(): nat { refreshRate / 5 }
  }

  const FAILED_SETTLEMENT_INTERVAL: int := 10

  /** The ledger: stored balances and in-memory bookkeeping. */
  datatype Peer = Peer(connected: bool, balance: int, surplus: int, originated: int,
                       reserved: int, shadow: int, ghosted: int, threshold: int,
                       refreshTimestamp: int, paymentOngoing: bool, lastFailure: int)

  /** Balance decreased by surplus: what the peer owes us, all told. */
  function Compensated(p: Peer): int { p.balance - p.surplus }

  function Debt(p: Peer): nat { if p.balance < 0 then -p.balance else 0 }

  /** getIncreasedExpectedDebt */
  function IncreasedExpectedDebt(p: Peer, price: nat): int { Debt(p) + (p.reserved + price) + p.surplus }

  /** decreaseOriginatedBalanceTo */
  function OriginatedTo(originated: int, limit: int): int {
    var toSet := if limit > 0 then 0 else limit;
    if originated < toSet then toSet else originated
  }

  /** The time-based settlement call: refused, or an amount with the time it was accepted. */
  datatype Refresh = RefreshErr | RefreshOk(accepted: nat, timestamp: int)

  /** What settle() sees of the outside world. */
  datatype Env = Env(now: int, refresh: Refresh, canPay: bool)

  datatype Settled = Settled(peer: Peer, failed: bool, refreshed: Option<nat>, paid: Option<nat>)

  predicate WantsRefresh(p: Peer, now: int) { -Compensated(p) > 0 && now - p.refreshTimestamp > 0 }

  /** The refreshment part of settle. */
  function Refreshed(p: Peer, accepted: nat, timestamp: int): Peer {
    var balance := p.balance + accepted;
    p.(refreshTimestamp := timestamp, balance := balance, originated := OriginatedTo(p.originated, balance))
  }

  /** The monetary part of settle: at most one payment at a time, its amount moved to the shadow reserve. */
  function StartPayment(cfg: Config, p: Peer, env: Env): (Peer, Option<nat>) {
    if env.canPay && !p.paymentOngoing && env.now - p.lastFailure > FAILED_SETTLEMENT_INTERVAL
       && -p.originated >= cfg.MinimumPayment()
    then (p.(paymentOngoing := true, shadow := p.shadow + -p.originated), Some(-p.originated))
    else (p, None)
  }

  function Settle(cfg: Config, p: Peer, env: Env): Settled {
    if WantsRefresh(p, env.now) then
      match env.refresh
      case RefreshErr => Settled(p, true, None, None)
      case RefreshOk(accepted, timestamp) =>
        var (q, paid) := StartPayment(cfg, Refreshed(p, accepted, timestamp), env);
        Settled(q, false, Some(accepted), paid)
    else
      var (q, paid) := StartPayment(cfg, p, env);
      Settled(q, false, None, paid)
  }

  datatype ReserveError = NoError | NotConnected | SettleFailed | Overdraft
  datatype Reserved = Reserved(peer: Peer, error: ReserveError, refreshed: Option<nat>, paid: Option<nat>)

  function EarlyThreshold(cfg: Config, p: Peer): int {
    if p.threshold > cfg.earlyPayment then p.threshold - cfg.earlyPayment else 0
  }

  /** The reduced expected debt is close to the threshold and we really are in debt. */
  predicate MustSettle(cfg: Config, p: Peer, price: nat) {
    IncreasedExpectedDebt(p, price) - p.shadow >= EarlyThreshold(cfg, p) && p.balance < 0
  }

  function Reserve(cfg: Config, p: Peer, price: nat, env: Env): Reserved {
    if !p.connected then Reserved(p, NotConnected, None, None)
    else
      var s := if MustSettle(cfg, p, price) then Settle(cfg, p, env) else Settled(p, false, None, None);
      if s.failed then Reserved(s.peer, SettleFailed, s.refreshed, s.paid)
      else if IncreasedExpectedDebt(s.peer, price) > s.peer.threshold then
        Reserved(s.peer, Overdraft, s.refreshed, s.paid)
      else Reserved(s.peer.(reserved := s.peer.reserved + price), NoError, s.refreshed, s.paid)
  }

  /** Release clamps at zero when more is released than was reserved. */
  function Release(p: Peer, price: nat): Peer {
    if price > p.reserved then p.(reserved := 0) else p.(reserved := p.reserved - price)
  }

  function Credit(p: Peer, price: nat, originated: bool): Peer {
    var next := p.balance - price;
    if !originated then p.(balance := next)
    else
      var floor := if next > 0 then 0 else next;
      var origin := p.originated - price;
      p.(balance := next, originated := if origin < floor then floor else origin)
  }

  function PaymentSent(p: Peer, amount: int, ok: bool, now: int): Peer {
    var q := p.(paymentOngoing := false, shadow := p.shadow - amount);
    if !ok then q.(lastFailure := now)
    else q.(balance := p.balance + amount, originated := p.originated + amount)
  }

  function PaymentReceived(p: Peer, amount: nat): Peer {
    if p.balance <= 0 then p.(surplus := p.surplus + amount)
    else if p.balance - amount < 0 then p.(balance := 0, surplus := p.surplus + (amount - p.balance))
    else p.(balance := p.balance - amount)
  }

  function RefreshmentReceived(p: Peer, amount: nat): Peer {
    p.(balance := p.balance - amount)
  }

  function PrepareDebit(p: Peer, price: nat): Peer {
    p.(shadow := p.shadow + price)
  }

  /** increaseBalance: surplus first, the rest to the balance. */
  function IncreaseBalance(p: Peer, price: nat): Peer {
    if p.surplus > 0 && p.surplus - price >= 0 then p.(surplus := p.surplus - price)
    else
      var cost := if p.surplus > 0 then price - p.surplus else price;
      var surplus := if p.surplus > 0 then 0 else p.surplus;
      var balance := p.balance + cost;
      p.(surplus := surplus, balance := balance, originated := OriginatedTo(p.originated, balance))
  }

  /** Apply of a debit action. */
  function ApplyDebit(p: Peer, price: nat): Peer {
    var q := IncreaseBalance(p, price);
    q.(shadow := q.shadow - price)
  }

  /** Cleanup of an action that was not applied. */
  function CleanupDebit(p: Peer, price: nat): Peer {
    p.(shadow := p.shadow - price, ghosted := p.ghosted + price)
  }

  function Connect(p: Peer): Peer {
    p.(connected := true, shadow := 0, ghosted := 0, reserved := 0, balance := 0, surplus := 0)
  }

  // ---------------------------------------------------------------- what single operations keep

  /** We never count more as self-originated debt than we owe. */
  predicate OriginatedInDebt(p: Peer) { p.originated >= Min(0, p.balance) }

  /**
  settle keeps that relation, pays once at a time and at least the minimum, and moves the amount to the shadow
  reserve.  The payment is at most the debt if and only if the relation held or a refreshment came first, which
  restores it.
  */
  lemma SettlePays(cfg: Config, p: Peer, env: Env)
    ensures OriginatedInDebt(p) ==> OriginatedInDebt(Settle(cfg, p, env).peer)
    ensures var s := Settle(cfg, p, env);
      s.paid.Some? ==>
        && cfg.MinimumPayment() <= s.paid.value && s.peer.shadow == p.shadow + s.paid.value
        && !p.paymentOngoing && s.peer.paymentOngoing
        && (s.paid.value <= Debt(s.peer) <==> OriginatedInDebt(p) || WantsRefresh(p, env.now))
  {}

  /**
  Connect zeroes the balance but not the originated balance, so across a reconnect the relation
  survives exactly when no originated debt was outstanding.
  */
  lemma ConnectKeepsOriginated(p: Peer)
    ensures OriginatedInDebt(Connect(p)) <==> p.originated >= 0
  {}

  // ---------------------------------------------------------------- what single operations do

  /** All of our debt, and nothing else, is counted as originated. */
  predicate OwnDebt(p: Peer) { p.originated == Min(0, p.balance) }

  /** A credit we originated adds to the originated debt what it adds to the debt; another one leaves it alone. */
  lemma CreditBooks(p: Peer, price: nat)
    ensures OwnDebt(p) ==> OwnDebt(Credit(p, price, true))
    ensures OriginatedInDebt(p) && p.originated <= 0 ==>
              var q := Credit(p, price, true); -q.originated == Min(-p.originated + price, Debt(q))
    ensures Credit(p, price, false).originated == p.originated
    ensures Credit(p, price, true).balance == Credit(p, price, false).balance == p.balance - price
  {}

  /** A payment first pays what the peer owes; only the rest becomes surplus, and it never puts us into debt. */
  lemma PaymentSplits(p: Peer, amount: nat)
    ensures var q := PaymentReceived(p, amount);
      var owed := Max(0, p.balance);
      && q.balance == p.balance - Min(owed, amount) && q.surplus == p.surplus + (amount - Min(owed, amount))
      && q.originated == p.originated && Debt(q) == Debt(p)
  {}

  /** A debit first uses up the surplus; what was paid in advance is worth exactly as much service. */
  lemma DebitUsesSurplus(p: Peer, price: nat)
    requires p.surplus >= 0
    ensures var q := IncreaseBalance(p, price);
      q.surplus == p.surplus - Min(p.surplus, price) && q.balance == p.balance + (price - Min(p.surplus, price))
    ensures p.balance <= 0 ==>
              var q := IncreaseBalance(PaymentReceived(p, price), price);
              q.balance == p.balance && q.surplus == p.surplus
  {}

  /** A release gives back what a reservation took, and never more than is reserved. */
  lemma ReleaseFrees(cfg: Config, p: Peer, price: nat, env: Env)
    requires p.reserved >= 0
    ensures Release(p, price) == p.(reserved := Max(0, p.reserved - price))
    ensures var r := Reserve(cfg, p, price, env);
      r.error == NoError ==> Release(r.peer, price) == r.peer.(reserved := p.reserved)
  {
    hide Config.MinimumPayment;
  }

  /** Our debt, with everything reserved and this price, and without what the peer may have been credited with. */
  function ReducedDebt(p: Peer, price: nat): int { Debt(p) + p.reserved + price + p.surplus - p.shadow }

  /**
  When Reserve settles: only when we are in debt and, with this request, no farther than earlyPayment from the
  threshold. It then refreshes if any time has passed, and it pays whatever it may.
  */
  lemma SettlesEarly(cfg: Config, p: Peer, price: nat, env: Env)
    requires p.connected && p.surplus >= 0
    ensures var r := Reserve(cfg, p, price, env);
      var near := Debt(p) > 0 && ReducedDebt(p, price) >= Max(0, p.threshold - cfg.earlyPayment);
      && (r.refreshed.Some? || r.error == SettleFailed <==> near && env.now > p.refreshTimestamp)
      && (r.error == SettleFailed <==> near && env.now > p.refreshTimestamp && env.refresh.RefreshErr?)
      && (r.refreshed.Some? ==> r.refreshed == Some(env.refresh.accepted)
                                && r.peer.refreshTimestamp == env.refresh.timestamp
                                && r.peer.balance == p.balance + env.refresh.accepted)
      && (r.refreshed.None? ==> r.peer.balance == p.balance && r.peer.refreshTimestamp == p.refreshTimestamp
                                && r.peer.originated == p.originated)
      && (r.paid.Some? <==>
            && near && r.error != SettleFailed && env.canPay && !p.paymentOngoing
            && env.now - p.lastFailure > FAILED_SETTLEMENT_INTERVAL && -r.peer.originated >= cfg.refreshRate / 5)
      && (r.paid.Some? ==> r.paid.value == -r.peer.originated)
  {}

  /** Reserve refuses a connected caller for nothing but a failed settlement or a debt that would pass the threshold. */
  lemma ReserveExact(cfg: Config, p: Peer, price: nat, env: Env)
    ensures var r := Reserve(cfg, p, price, env);
      && (r.error == NotConnected <==> !p.connected)
      && (r.error == NoError || r.error == Overdraft ==>
            (r.error == NoError <==> Debt(r.peer) + p.reserved + price + p.surplus <= p.threshold))
      && r.peer.reserved == p.reserved + (if r.error == NoError then price else 0)
      && (r.error == NotConnected || r.error == SettleFailed ==> r.peer == p)
  {
    hide Config.MinimumPayment;
  }

  /** No second refreshment before the time of the last one has passed, and no payment soon after one has failed. */
  lemma NotTooSoon(cfg: Config, p: Peer, price: nat, env: Env, amount: int, now: int)
    ensures env.now <= p.refreshTimestamp ==> Reserve(cfg, p, price, env).refreshed.None?
    ensures env.now <= now + FAILED_SETTLEMENT_INTERVAL ==>
              Reserve(cfg, PaymentSent(p, amount, false, now), price, env).paid.None?
  {
    hide Config.MinimumPayment;
  }
}
