/** accountingPeer and its operations as an object updated in place, one method per locked operation. */
module LedgerPeer {
  import opened Common
  import opened Ledger

  class AccountingPeer {
    const cfg: Config
    var connected: bool
    var balance: int
    var surplusBalance: int
    var originatedBalance: int
    var reservedBalance: int
    var shadowReservedBalance: int
    var ghostBalance: int
    var paymentThreshold: int
    var refreshTimestamp: int
    var paymentOngoing: bool
    var lastSettlementFailureTimestamp: int

    function View(): Peer
      reads this
    {
      Peer(connected, balance, surplusBalance, originatedBalance, reservedBalance, shadowReservedBalance, ghostBalance,
           paymentThreshold, refreshTimestamp, paymentOngoing, lastSettlementFailureTimestamp)
    }

    /** getAccountingPeer for a peer not seen before: assume it has our own threshold. */
    constructor (cfg: Config)
      ensures this.cfg == cfg
      ensures View() == Peer(false, 0, 0, 0, 0, 0, 0, cfg.paymentThreshold, 0, false, 0)
    {
      this.cfg := cfg;
      connected, balance, surplusBalance, originatedBalance := false, 0, 0, 0;
      reservedBalance, shadowReservedBalance, ghostBalance := 0, 0, 0;
      paymentThreshold, refreshTimestamp := cfg.paymentThreshold, 0;
      paymentOngoing, lastSettlementFailureTimestamp := false, 0;
    }

    method DecreaseOriginatedBalanceTo(limit: int)
      modifies this`originatedBalance
      ensures originatedBalance == OriginatedTo(old(originatedBalance), limit)
      ensures originatedBalance >= old(originatedBalance) && originatedBalance >= Min(0, limit)
    {
      var toSet := limit;
      if toSet > 0 { toSet := 0; }
      if originatedBalance < toSet { originatedBalance := toSet; }
    }

    method DoSettle(env: Env) returns (failed: bool, refreshed: Option<nat>, paid: Option<nat>)
      modifies this
      ensures Settled(View(), failed, refreshed, paid) == Settle(cfg, old(View()), env)
      ensures Compensated(View()) == Compensated(old(View())) + if refreshed.Some? then refreshed.value else 0
      ensures reservedBalance == old(reservedBalance)
    {
      refreshed, paid := None, None;
      var timeElapsed := env.now - refreshTimestamp;
      var paymentAmount := -(balance - surplusBalance);
      if paymentAmount > 0 && timeElapsed > 0 {
        if env.refresh.RefreshErr? { return true, None, None; }
        refreshTimestamp := env.refresh.timestamp;
        balance := balance + env.refresh.accepted;
        refreshed := Some(env.refresh.accepted);
        DecreaseOriginatedBalanceTo(balance);
      }
      if env.canPay && !paymentOngoing {
        if env.now - lastSettlementFailureTimestamp > FAILED_SETTLEMENT_INTERVAL {
          paymentAmount := -originatedBalance;
          if paymentAmount >= cfg.MinimumPayment() {
            paymentOngoing := true;
            shadowReservedBalance := shadowReservedBalance + paymentAmount;
            paid := Some(paymentAmount);
          }
        }
      }
      failed := false;
    }

    method ExpectedDebt(price: nat) returns (debt: int)
      ensures debt == IncreasedExpectedDebt(View(), price)
    {
      var nextReserved := reservedBalance + price;
      var currentDebt := -balance;
      if currentDebt < 0 { currentDebt := 0; }
      debt := currentDebt + nextReserved + surplusBalance;
    }

    method DoReserve(price: nat, env: Env) returns (error: ReserveError, refreshed: Option<nat>, paid: Option<nat>)
      modifies this
      ensures Reserved(View(), error, refreshed, paid) == Reserve(cfg, old(View()), price, env)
      ensures error == NoError ==> Debt(View()) + reservedBalance + surplusBalance <= paymentThreshold
      ensures reservedBalance == old(reservedBalance) + if error == NoError then price else 0
    {
      hide Settle;
      refreshed, paid := None, None;
      if !connected { return NotConnected, None, None; }
      var threshold := paymentThreshold;
      if threshold > cfg.earlyPayment { threshold := threshold - cfg.earlyPayment; } else { threshold := 0; }
      var debt := ExpectedDebt(price);
      if debt - shadowReservedBalance >= threshold && balance < 0 {
        var failed;
        failed, refreshed, paid := DoSettle(env);
        if failed { return SettleFailed, refreshed, paid; }
        debt := ExpectedDebt(price);
      }
      if debt > paymentThreshold { return Overdraft, refreshed, paid; }
      reservedBalance := reservedBalance + price;
      error := NoError;
    }

    method DoRelease(price: nat)
      modifies this
      ensures View() == Release(old(View()), price)
      ensures price <= old(reservedBalance) ==> reservedBalance == old(reservedBalance) - price
      ensures Compensated(View()) == Compensated(old(View()))
    {
      if price > reservedBalance { reservedBalance := 0; } else { reservedBalance := reservedBalance - price; }
    }

    method DoCredit(price: nat, originated: bool)
      modifies this
      ensures View() == Credit(old(View()), price, originated)
      ensures Compensated(View()) == Compensated(old(View())) - price
      ensures old(OriginatedInDebt(View())) ==> OriginatedInDebt(View())
    {
      var nextBalance := balance - price;
      balance := nextBalance;
      if !originated { return; }
      var nextOriginBalance := originatedBalance - price;
      if nextBalance > 0 { nextBalance := 0; }
      if nextOriginBalance < nextBalance { nextOriginBalance := nextBalance; }
      originatedBalance := nextOriginBalance;
    }

    method NotifyPaymentSent(amount: nat, ok: bool, now: int)
      modifies this
      ensures View() == PaymentSent(old(View()), amount, ok, now)
      ensures Compensated(View()) == Compensated(old(View())) + if ok then amount else 0
    {
      paymentOngoing := false;
      shadowReservedBalance := shadowReservedBalance - amount;
      if !ok {
        lastSettlementFailureTimestamp := now;
        return;
      }
      balance := balance + amount;
      originatedBalance := originatedBalance + amount;
    }

    method NotifyPaymentReceived(amount: nat)
      modifies this
      ensures View() == PaymentReceived(old(View()), amount)
      ensures Compensated(View()) == Compensated(old(View())) - amount && (balance >= 0 || balance == old(balance))
    {
      if balance <= 0 {
        surplusBalance := surplusBalance + amount;
        return;
      }
      var currentBalance := balance;
      var newBalance := currentBalance - amount;
      balance := if newBalance < 0 then 0 else newBalance;
      if newBalance < 0 { surplusBalance := surplusBalance + (amount - currentBalance); }
    }

    method NotifyRefreshmentReceived(amount: nat)
      modifies this
      ensures View() == RefreshmentReceived(old(View()), amount)
      ensures Compensated(View()) == Compensated(old(View())) - amount
    {
      balance := balance - amount;
    }

    /** Returns the balance after the debit; the sanity check in the middle can never fire. */
    method DoIncreaseBalance(price: nat) returns (next: int)
      modifies this
      ensures View() == IncreaseBalance(old(View()), price) && next == balance
      ensures Compensated(View()) == Compensated(old(View())) + price
              && (surplusBalance <= 0 || balance == old(balance))
      ensures old(OriginatedInDebt(View())) ==> OriginatedInDebt(View())
    {
      var cost := price;
      if surplusBalance > 0 {
        var newSurplus := surplusBalance - cost;
        if newSurplus >= 0 {
          surplusBalance := newSurplus;
          return balance;
        }
        var debitIncrease := price - surplusBalance;
        assert debitIncrease > 0;
        cost := debitIncrease;
        surplusBalance := 0;
      }
      balance := balance + cost;
      DecreaseOriginatedBalanceTo(balance);
      next := balance;
    }

    method DoConnect()
      modifies this
      ensures View() == Connect(old(View()))
      ensures Compensated(View()) == 0 && originatedBalance == old(originatedBalance)
    {
      connected := true;
      shadowReservedBalance := 0;
      ghostBalance := 0;
      reservedBalance := 0;
      balance := 0;
      surplusBalance := 0;
    }

    /** PrepareDebit hands out an action object, or fails before the connection is initialised. */
    method DoPrepareDebit(price: nat) returns (action: DebitAction?)
      modifies this
      ensures action == null <==> !old(connected)
      ensures action == null ==> View() == old(View())
      ensures action != null ==> fresh(action) && action.price == price && !action.applied && action.peer == this
                                 && View() == PrepareDebit(old(View()), price)
      ensures Compensated(View()) == Compensated(old(View()))
    {
      if !connected { return null; }
      shadowReservedBalance := shadowReservedBalance + price;
      action := new DebitAction(this, price);
    }
  }

  /** debitAction: a future debit, to be applied or given up once. */
  class DebitAction {
    const peer: AccountingPeer
    const price: nat
    var applied: bool

    constructor (peer: AccountingPeer, price: nat)
      ensures this.peer == peer && this.price == price && !applied
    {
      this.peer := peer;
      this.price := price;
      applied := false;
    }

    /** True when the peer's debt reaches the disconnect limit. */
    method Apply() returns (disconnect: bool)
      modifies this, peer
      ensures applied && peer.View() == ApplyDebit(old(peer.View()), price)
      ensures Compensated(peer.View()) == Compensated(old(peer.View())) + price
      ensures disconnect <==> peer.balance >= peer.cfg.paymentThreshold + peer.cfg.paymentTolerance
    {
      var nextBalance := peer.DoIncreaseBalance(price);
      applied := true;
      peer.shadowReservedBalance := peer.shadowReservedBalance - price;
      disconnect := nextBalance >= peer.cfg.DisconnectLimit();
    }

    /** No effect once applied; otherwise the price moves from the shadow reserve to the ghost balance. */
    method Cleanup() returns (blocklist: bool)
      modifies peer
      ensures applied ==> peer.View() == old(peer.View()) && !blocklist
      ensures !applied ==> peer.View() == CleanupDebit(old(peer.View()), price)
                           && (blocklist <==> peer.ghostBalance >
                                                peer.cfg.paymentThreshold + peer.cfg.paymentTolerance)
      ensures Compensated(peer.View()) == Compensated(old(peer.View()))
    {
      blocklist := false;
      if !applied {
        peer.shadowReservedBalance := peer.shadowReservedBalance - price;
        peer.ghostBalance := peer.ghostBalance + price;
        blocklist := peer.ghostBalance > peer.cfg.DisconnectLimit();
      }
    }
  }
}
