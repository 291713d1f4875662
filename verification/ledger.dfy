/**
 What the exchange ledger hands to the client (tokens, balances, orders) and how the client
 joins the replies of its replies. Every ledger call is foreign: its outcome is a parameter.
 */
module Ledger {

  type Address = string

  /** The settled outcome of one awaited read: its value, or a rejected promise. */
  datatype Reply<T> = Ok(value: T) | Rejected

  /** The settled outcome of one transaction sent with `send`. */
  datatype TxOutcome = Confirmed | Reverted

  /** Order side. */
  datatype Side = Buy | Sell

  /** A token of the catalog, its symbol already decoded from bytes32. */
  datatype Token = Token(ticker: string, symbol: string, tokenAddress: Address)

  /** Balance held by the exchange contract for the trader, and balance in the trader's own wallet. */
  datatype Balances = Balances(tokenDex: nat, tokenWallet: nat)

  datatype Order = Order(id: nat, trader: Address, side: Side, ticker: string,
                         amount: nat, filled: nat, price: nat, date: nat)

  /** The two sides of the order book of one token. */
  datatype OrderBook = OrderBook(buy: seq<Order>, sell: seq<Order>)

  /** Replies of the two reads behind a balance refresh: exchange balance, then wallet balance. */
  datatype BalanceReads = BalanceReads(dex: Reply<nat>, wallet: Reply<nat>)

  /** Replies of the two order-book reads, one for the buy side and one for the sell side. */
  datatype BookReads = BookReads(buy: Reply<seq<Order>>, sell: Reply<seq<Order>>)

  /**
   getBalances: the exchange balance is awaited first and the wallet balance second, so a
   rejected first read means the second is never issued; either rejection rejects the whole.
   */
  function FetchBalances(replies: BalanceReads): (r: Reply<Balances>)
    ensures r.Ok? <==> replies.dex.Ok? && replies.wallet.Ok?
    ensures r.Ok? ==> r.value.tokenDex == replies.dex.value && r.value.tokenWallet == replies.wallet.value
  {
    if replies.dex.Rejected? then Rejected
    else if replies.wallet.Rejected? then Rejected
    else Ok(Balances(replies.dex.value, replies.wallet.value))
  }

  /** getOrders: both sides are read together and the join rejects if either read rejects. */
  function FetchOrders(replies: BookReads): (r: Reply<OrderBook>)
    ensures r.Ok? <==> replies.buy.Ok? && replies.sell.Ok?
    ensures r.Ok? ==> r.value.buy == replies.buy.value && r.value.sell == replies.sell.value
  {
    match (replies.buy, replies.sell)
    case (Ok(b), Ok(s)) => Ok(OrderBook(b, s))
    case _ => Rejected
  }
}
