/**
 The session state of the exchange front-end as a state machine. Each awaited ledger result
 arrives as an argument; a rejected promise or a TypeError aborts the async step before any
 state update, so the session is left as it was.
 */
module App {
  import opened Optional
  import opened Ledger
  import opened TradeFeed

  /**
   The component's state: token catalog, the user record (accounts, balances, selected
   token), the order book of the selected token, the trade feed of the current subscription
   and the token that subscription filters on.
   */
  datatype Session = Session(
    tokens: seq<Token>,
    accounts: seq<Address>,
    balances: Balances,
    selectedToken: Option<Token>,
    orders: OrderBook,
    feed: Feed,
    listener: Option<Token>)

  /**
   What every reachable session satisfies: the feed is consistent, there are no trades
   without a subscription, and a subscription exists only once a token is selected.
   */
  predicate Inv(s: Session)
  {
    && Consistent(s.feed)
    && (s.listener.None? ==> |s.feed.trades| == 0)
    && (s.listener.Some? ==> s.selectedToken.Some?)
  }

  /** `r` differs from `s` at most in the selected token. */
  predicate OnlySelectionChanged(s: Session, r: Session)
  {
    r == s.(selectedToken := r.selectedToken)
  }

  /** `r` differs from `s` at most in the balances. */
  predicate OnlyBalancesChanged(s: Session, r: Session)
  {
    r == s.(balances := r.balances)
  }

  /** `r` differs from `s` at most in the order book. */
  predicate OnlyOrdersChanged(s: Session, r: Session)
  {
    r == s.(orders := r.orders)
  }

  /** `r` differs from `s` at most in the trade feed. */
  predicate OnlyFeedChanged(s: Session, r: Session)
  {
    r == s.(feed := r.feed)
  }

  /** `r` keeps the catalog, the accounts and the selected token of `s`. */
  predicate KeepsUserChoice(s: Session, r: Session)
  {
    r.tokens == s.tokens && r.accounts == s.accounts && r.selectedToken == s.selectedToken
  }

  /** The state before the first effect runs: nothing loaded, nothing selected. */
  function Initial(): (s: Session)
    ensures Inv(s)
    ensures s.selectedToken.None? && s.listener.None? && |s.tokens| == 0 && |s.accounts| == 0
    ensures s.balances.tokenDex == 0 && s.balances.tokenWallet == 0
    ensures |s.orders.buy| == 0 && |s.orders.sell| == 0
  {
    Session([], [], Balances(0, 0), None, OrderBook([], []), Start(), None)
  }

  /** listenToTrades: a new subscription for `token`, with an empty list and seen set. */
  function ListenToTrades(s: Session, token: Token): (r: Session)
    ensures r == s.(feed := r.feed, listener := r.listener)
    ensures r.listener == Some(token)
    ensures |r.feed.trades| == 0 && |r.feed.seenIds| == 0 && Consistent(r.feed)
  {
    s.(feed := Start(), listener := Some(token))
  }

  /**
   The mount effect: read the catalog, then the balances and order book of its first token;
   when both settle, subscribe to that token and replace the user record wholesale. An empty
   catalog makes the reads throw on the missing token.
   */
  function Mount(s: Session, accounts: seq<Address>, catalog: seq<Token>,
                 bal: BalanceReads, book: BookReads): (r: Session)
    ensures r != s ==> |catalog| > 0 && FetchBalances(bal).Ok? && FetchOrders(book).Ok?
    ensures |catalog| > 0 && bal.dex.Ok? && bal.wallet.Ok? && book.buy.Ok? && book.sell.Ok? ==>
              && r.tokens == catalog
              && r.accounts == accounts
              && r.selectedToken == Some(catalog[0])
              && r.listener == Some(catalog[0])
              && r.balances == Balances(bal.dex.value, bal.wallet.value)
              && r.orders == OrderBook(book.buy.value, book.sell.value)
              && r.feed == Start()
  {
    if |catalog| == 0 then s
    else
      match (FetchBalances(bal), FetchOrders(book))
      case (Ok(b), Ok(o)) =>
        ListenToTrades(s, catalog[0]).(tokens := catalog, accounts := accounts, balances := b,
                                       selectedToken := Some(catalog[0]), orders := o)
      case _ => s
  }

  /** selectToken: record the chosen token and nothing else. */
  function SelectToken(s: Session, token: Token): (r: Session)
    ensures OnlySelectionChanged(s, r)
    ensures r.selectedToken == Some(token)
  {
    s.(selectedToken := Some(token))
  }

  /**
   The effect on a change of the selected token. It does nothing while no token is
   selected. Otherwise, once balances and order book of the selected token are both read,
   it resubscribes to that token, which clears the trades, and publishes balances and
   orders; if either read rejects, nothing changes and the old subscription stays.
   */
  function SelectionEffect(s: Session, bal: BalanceReads, book: BookReads): (r: Session)
    ensures s.selectedToken.None? ==> r == s
    ensures KeepsUserChoice(s, r)
    ensures r != s ==> FetchBalances(bal).Ok? && FetchOrders(book).Ok?
    ensures s.selectedToken.Some? && bal.dex.Ok? && bal.wallet.Ok? && book.buy.Ok? && book.sell.Ok? ==>
              && r.listener == s.selectedToken
              && r.feed == Start()
              && r.balances == Balances(bal.dex.value, bal.wallet.value)
              && r.orders == OrderBook(book.buy.value, book.sell.value)
  {
    if s.selectedToken.None? then s
    else
      match (FetchBalances(bal), FetchOrders(book))
      case (Ok(b), Ok(o)) => ListenToTrades(s, s.selectedToken.value).(balances := b, orders := o)
      case _ => s
  }

  /**
   deposit: approve the exchange as spender, deposit, then re-read the balances. Reading
   the symbol of an unselected token throws before any transaction is sent.
   */
  function Deposit(s: Session, approve: TxOutcome, deposit: TxOutcome, bal: BalanceReads): (r: Session)
    ensures OnlyBalancesChanged(s, r)
    ensures if s.selectedToken.Some? && approve.Confirmed? && deposit.Confirmed?
               && bal.dex.Ok? && bal.wallet.Ok?
            then r.balances == Balances(bal.dex.value, bal.wallet.value)
            else r == s
  {
    if s.selectedToken.None? || approve.Reverted? || deposit.Reverted? then s
    else
      match FetchBalances(bal)
      case Ok(b) => s.(balances := b)
      case Rejected => s
  }

  /** withdraw: one withdrawal transaction, then re-read the balances. */
  function Withdraw(s: Session, withdraw: TxOutcome, bal: BalanceReads): (r: Session)
    ensures OnlyBalancesChanged(s, r)
    ensures if s.selectedToken.Some? && withdraw.Confirmed? && bal.dex.Ok? && bal.wallet.Ok?
            then r.balances == Balances(bal.dex.value, bal.wallet.value)
            else r == s
  {
    if s.selectedToken.None? || withdraw.Reverted? then s
    else
      match FetchBalances(bal)
      case Ok(b) => s.(balances := b)
      case Rejected => s
  }

  /**
   createMarketOrder and createLimitOrder: one order transaction, then re-read the order
   book. Amount, price and side only shape the transaction, so they are not parameters.
   */
  function CreateOrder(s: Session, order: TxOutcome, book: BookReads): (r: Session)
    ensures OnlyOrdersChanged(s, r)
    ensures if s.selectedToken.Some? && order.Confirmed? && book.buy.Ok? && book.sell.Ok?
            then r.orders == OrderBook(book.buy.value, book.sell.value)
            else r == s
  {
    if s.selectedToken.None? || order.Reverted? then s
    else
      match FetchOrders(book)
      case Ok(o) => s.(orders := o)
      case Rejected => s
  }

  /** A NewTrade event reaches the handler of the current subscription, if there is one. */
  function TradeArrives(s: Session, t: Trade): (r: Session)
    ensures OnlyFeedChanged(s, r)
    ensures s.listener.None? || t.tradeId in s.feed.seenIds ==> r == s
    ensures s.listener.Some? && t.tradeId !in s.feed.seenIds ==>
              r.feed.trades == s.feed.trades + [t] && r.feed.seenIds == s.feed.seenIds + {t.tradeId}
  {
    if s.listener.None? then s else s.(feed := OnTrade(s.feed, t))
  }

  /** Everything that can happen to a session, with the ledger's answers it involves. */
  datatype Event =
    | Mounted(accounts: seq<Address>, catalog: seq<Token>, bal: BalanceReads, book: BookReads)
    | Selected(token: Token)
    | SelectionRefreshed(bal: BalanceReads, book: BookReads)
    | Deposited(approve: TxOutcome, deposit: TxOutcome, bal: BalanceReads)
    | Withdrew(withdraw: TxOutcome, bal: BalanceReads)
    | OrderCreated(order: TxOutcome, book: BookReads)
    | TradeArrived(trade: Trade)

  function Step(s: Session, e: Event): Session
  {
    match e
    case Mounted(accounts, catalog, bal, book) => Mount(s, accounts, catalog, bal, book)
    case Selected(token) => SelectToken(s, token)
    case SelectionRefreshed(bal, book) => SelectionEffect(s, bal, book)
    case Deposited(approve, deposit, bal) => Deposit(s, approve, deposit, bal)
    case Withdrew(withdraw, bal) => Withdraw(s, withdraw, bal)
    case OrderCreated(order, book) => CreateOrder(s, order, book)
    case TradeArrived(t) => TradeArrives(s, t)
  }

  /** The session after the events `es`, in order. */
  function Run(s: Session, es: seq<Event>): Session
    decreases |es|
  {
    if |es| == 0 then s else Step(Run(s, es[..|es| - 1]), es[|es| - 1])
  }

  /** Every transition preserves the session invariant. */
  lemma StepKeepsInv(s: Session, e: Event)
    requires Inv(s)
    ensures Inv(Step(s, e))
  {
    if e.TradeArrived? && s.listener.Some? {
      OnTradeKeepsConsistent(s.feed, e.trade);
    }
  }

  /** The invariant holds after any sequence of events. */
  lemma {:induction false} RunKeepsInv(s: Session, es: seq<Event>)
    requires Inv(s)
    ensures Inv(Run(s, es))
    decreases |es|
  {
    if |es| > 0 {
      RunKeepsInv(s, es[..|es| - 1]);
      StepKeepsInv(Run(s, es[..|es| - 1]), es[|es| - 1]);
    }
  }

  /**
   In every reachable session the current subscription's seen-id set is exactly the set of
   ids on its trade list, and that list holds no id twice. Trades appended by earlier
   listeners that were never released are not part of this list.
   */
  lemma Reachable(es: seq<Event>)
    ensures Run(Initial(), es).feed.seenIds == IdsOf(Run(Initial(), es).feed.trades)
    ensures DistinctIds(Run(Initial(), es).feed.trades)
  {
    RunKeepsInv(Initial(), es);
  }

  function Arrivals(ts: seq<Trade>): (es: seq<Event>)
    ensures |es| == |ts|
    ensures forall i :: 0 <= i < |ts| ==> es[i] == TradeArrived(ts[i])
  {
    seq(|ts|, i requires 0 <= i < |ts| => TradeArrived(ts[i]))
  }

  /** Trades arriving at a subscribed session run the subscription's handler, and nothing else. */
  lemma {:induction false} ArrivalsDeliver(s: Session, ts: seq<Trade>)
    requires s.listener.Some?
    ensures Run(s, Arrivals(ts)) == s.(feed := Deliver(s.feed, ts))
    decreases |ts|
  {
    if |ts| > 0 {
      var init := ts[..|ts| - 1];
      assert Arrivals(ts)[..|ts| - 1] == Arrivals(init);
      ArrivalsDeliver(s, init);
    }
  }

  /**
   Selecting a token whose reads succeed resubscribes to it: afterwards the trade list
   holds exactly the first event of each id among the deliveries of the new subscription,
   in delivery order, and accounts and catalog are untouched.
   */
  lemma SwitchToken(s: Session, token: Token, bal: BalanceReads, book: BookReads, ts: seq<Trade>)
    requires bal.dex.Ok? && bal.wallet.Ok? && book.buy.Ok? && book.sell.Ok?
    ensures var r := Run(s, [Selected(token), SelectionRefreshed(bal, book)] + Arrivals(ts));
            && r.selectedToken == Some(token)
            && r.listener == Some(token)
            && r.accounts == s.accounts && r.tokens == s.tokens
            && r.feed == Deliver(Start(), ts)
  {
    var switched := SelectionEffect(SelectToken(s, token), bal, book);
    var pre := [Selected(token), SelectionRefreshed(bal, book)];
    assert Run(s, pre) == switched by {
      assert pre[..1] == [Selected(token)];
      assert [Selected(token)][..0] == [];
      assert Run(s, [Selected(token)]) == SelectToken(s, token);
    }
    RunAppend(s, pre, Arrivals(ts));
    ArrivalsDeliver(switched, ts);
  }

  /** Running two event sequences one after the other is running their concatenation. */
  lemma {:induction false} RunAppend(s: Session, es: seq<Event>, more: seq<Event>)
    ensures Run(s, es + more) == Run(Run(s, es), more)
    decreases |more|
  {
    if |more| == 0 {
      assert es + more == es;
    } else {
      var init := more[..|more| - 1];
      assert (es + more)[..|es + more| - 1] == es + init;
      RunAppend(s, es, init);
    }
  }

  /**
   When the reads after a selection change reject, the new token is selected while the
   subscription and trade list of the previous token stay in place.
   */
  lemma FailedSwitchKeepsOldListener(s: Session, token: Token, bal: BalanceReads, book: BookReads)
    requires FetchBalances(bal).Rejected? || FetchOrders(book).Rejected?
    ensures var r := SelectionEffect(SelectToken(s, token), bal, book);
            && r.selectedToken == Some(token)
            && r.listener == s.listener
            && r.feed == s.feed
  {
  }
}
