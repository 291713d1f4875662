/**
 The "my orders" view: from each side of the order book, the orders whose trader is the
 user's first account, addresses compared without regard to letter case.
 */
module MyOrders {
  import opened Optional
  import opened Ledger
  import opened Subsequence

  /** ASCII lower-casing of one character. */
  function LowerChar(c: char): (l: char)
    ensures !('A' <= l <= 'Z')
    ensures 'A' <= c <= 'Z' ==> 'a' <= l <= 'z' && l as int - c as int == 'a' as int - 'A' as int
    ensures !('A' <= c <= 'Z') ==> l == c
  {
    if 'A' <= c <= 'Z' then (c as int - 'A' as int + 'a' as int) as char else c
  }

  /** ASCII lower-casing of a string, character by character. */
  function Lower(s: string): (r: string)
    ensures |r| == |s|
    ensures forall i :: 0 <= i < |s| ==> r[i] == LowerChar(s[i])
  {
    seq(|s|, i requires 0 <= i < |s| => LowerChar(s[i]))
  }

  /** Lower-casing twice is lower-casing once. */
  lemma LowerIdempotent(s: string)
    ensures Lower(Lower(s)) == Lower(s)
  {
  }

  /** Two addresses name the same account when they agree after lower-casing. */
  predicate SameAccount(a: Address, b: Address)
  {
    Lower(a) == Lower(b)
  }

  predicate IsMine(o: Order, account: Address)
  {
    SameAccount(o.trader, account)
  }

  /**
   The orders of one side placed by `account`: a subsequence of the side that holds every
   order of `account` as often as the side does, and no other order.
   */
  function MineOf(side: seq<Order>, account: Address): (r: seq<Order>)
    ensures IsSubseq(r, side)
    ensures forall k :: 0 <= k < |r| ==> IsMine(r[k], account)
    ensures forall o :: multiset(r)[o] == if IsMine(o, account) then multiset(side)[o] else 0
    decreases |side|
  {
    if |side| == 0 then []
    else
      var init, last := side[..|side| - 1], side[|side| - 1];
      assert side == init + [last];
      var mine := MineOf(init, account);
      if IsMine(last, account) then
        SubseqSnoc(mine, init, last);
        mine + [last]
      else
        SubseqExtend(mine, init, last);
        mine
  }

  /** Comparing against any spelling of the same account selects the same orders. */
  lemma {:induction false} MineOfCaseInsensitive(side: seq<Order>, a: Address, b: Address)
    requires SameAccount(a, b)
    ensures MineOf(side, a) == MineOf(side, b)
    decreases |side|
  {
    if |side| > 0 {
      MineOfCaseInsensitive(side[..|side| - 1], a, b);
    }
  }

  /** Filtering an already filtered side changes nothing. */
  lemma {:induction false} MineOfIdempotent(side: seq<Order>, account: Address)
    ensures MineOf(MineOf(side, account), account) == MineOf(side, account)
    decreases |side|
  {
    if |side| > 0 {
      var init := side[..|side| - 1];
      MineOfIdempotent(init, account);
      var m := MineOf(init, account);
      if IsMine(side[|side| - 1], account) {
        var m' := m + [side[|side| - 1]];
        assert m'[..|m'| - 1] == m;
      }
    }
  }

  /**
   The view handed to the MyOrders component. The account is the first of `accounts`;
   with no account, comparing against it throws as soon as a side holds an order to test,
   while two empty sides are filtered without ever reading it.
   */
  function MyOrdersOf(book: OrderBook, accounts: seq<Address>): (r: Option<OrderBook>)
    ensures r.None? <==> |accounts| == 0 && (|book.buy| > 0 || |book.sell| > 0)
    ensures r.Some? ==> IsSubseq(r.value.buy, book.buy) && IsSubseq(r.value.sell, book.sell)
    ensures r.Some? && |accounts| > 0 ==>
              && (forall o :: multiset(r.value.buy)[o] ==
                                if IsMine(o, accounts[0]) then multiset(book.buy)[o] else 0)
              && (forall o :: multiset(r.value.sell)[o] ==
                                if IsMine(o, accounts[0]) then multiset(book.sell)[o] else 0)
  {
    if |accounts| == 0 then
      if |book.buy| == 0 && |book.sell| == 0 then Some(OrderBook([], [])) else None
    else
      Some(OrderBook(MineOf(book.buy, accounts[0]), MineOf(book.sell, accounts[0])))
  }
}
