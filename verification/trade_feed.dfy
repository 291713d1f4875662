/**
 The trade list of one NewTrade subscription and its deduplication boundary. Each
 subscription starts with no trades and a private set of seen trade ids; a delivered
 event whose id was already seen is dropped, any other is recorded and appended.
 */
module TradeFeed {
  import opened Subsequence

  type TradeId = string

  /** The returnValues payload of a NewTrade event. */
  datatype Trade = Trade(tradeId: TradeId, orderId: nat, ticker: string, trader1: string,
                         trader2: string, amount: nat, price: nat, date: nat)

  /** Trades shown for the current subscription, and the ids its handler has seen. */
  datatype Feed = Feed(trades: seq<Trade>, seenIds: set<TradeId>)

  function IdsOf(ts: seq<Trade>): set<TradeId>
  {
    set i | 0 <= i < |ts| :: ts[i].tradeId
  }

  predicate DistinctIds(ts: seq<Trade>)
  {
    forall i, j :: 0 <= i < j < |ts| ==> ts[i].tradeId != ts[j].tradeId
  }

  /** The seen set is exactly the ids on the list, and no id is listed twice. */
  predicate Consistent(f: Feed)
  {
    f.seenIds == IdsOf(f.trades) && DistinctIds(f.trades)
  }

  /** No earlier event of `ts` carries the id of the event at index `i`. */
  predicate IsFirstOccurrence(ts: seq<Trade>, i: int)
    requires 0 <= i < |ts|
  {
    forall j :: 0 <= j < i ==> ts[j].tradeId != ts[i].tradeId
  }

  /** `t` is an event of `ts` and the first of `ts` with its id. */
  predicate FirstOccurs(t: Trade, ts: seq<Trade>)
  {
    exists i :: 0 <= i < |ts| && ts[i] == t && IsFirstOccurrence(ts, i)
  }

  /** Every entry of `r` is the first event of `ts` with its id. */
  predicate KeepsFirstOccurrences(r: seq<Trade>, ts: seq<Trade>)
  {
    forall k :: 0 <= k < |r| ==> FirstOccurs(r[k], ts)
  }

  /** A fresh subscription: nothing shown, nothing seen. */
  function Start(): (f: Feed)
    ensures |f.trades| == 0 && |f.seenIds| == 0
    ensures Consistent(f)
  {
    Feed([], {})
  }

  /** The subscription's data handler. */
  function OnTrade(f: Feed, t: Trade): (r: Feed)
    ensures t.tradeId in f.seenIds ==> r == f
    ensures t.tradeId !in f.seenIds ==>
              && |r.trades| == |f.trades| + 1
              && r.trades[..|f.trades|] == f.trades
              && r.trades[|f.trades|] == t
              && r.seenIds == f.seenIds + {t.tradeId}
  {
    if t.tradeId in f.seenIds then f
    else Feed(f.trades + [t], f.seenIds + {t.tradeId})
  }

  lemma IdsOfSnoc(ts: seq<Trade>, t: Trade)
    ensures IdsOf(ts + [t]) == IdsOf(ts) + {t.tradeId}
  {
    var ts' := ts + [t];
    forall id | id in IdsOf(ts')
      ensures id in IdsOf(ts) + {t.tradeId}
    {
      var i :| 0 <= i < |ts'| && ts'[i].tradeId == id;
      if i < |ts| {
        assert ts[i] == ts'[i];
      }
    }
    forall id | id in IdsOf(ts)
      ensures id in IdsOf(ts')
    {
      var i :| 0 <= i < |ts| && ts[i].tradeId == id;
      assert ts'[i] == ts[i];
    }
    assert ts'[|ts|] == t;
  }

  /** The handler keeps the seen set in step with the list, and the listed ids distinct. */
  lemma OnTradeKeepsConsistent(f: Feed, t: Trade)
    requires Consistent(f)
    ensures Consistent(OnTrade(f, t))
  {
    if t.tradeId !in f.seenIds {
      IdsOfSnoc(f.trades, t);
      var ts := f.trades + [t];
      forall i, j | 0 <= i < j < |ts|
        ensures ts[i].tradeId != ts[j].tradeId
      {
        if j == |f.trades| {
          assert ts[i].tradeId in IdsOf(f.trades) by { assert ts[i] == f.trades[i]; }
        }
      }
    }
  }

  /** The feed after the stream delivers the events `ts`, in order, to the handler. */
  function Deliver(f: Feed, ts: seq<Trade>): Feed
    decreases |ts|
  {
    if |ts| == 0 then f
    else OnTrade(Deliver(f, ts[..|ts| - 1]), ts[|ts| - 1])
  }

  /** After a run of deliveries the handler has seen every delivered id and nothing else new. */
  lemma {:induction false} DeliverSeen(f: Feed, ts: seq<Trade>)
    ensures Deliver(f, ts).seenIds == f.seenIds + IdsOf(ts)
    decreases |ts|
  {
    if |ts| > 0 {
      var init := ts[..|ts| - 1];
      DeliverSeen(f, init);
      assert ts == init + [ts[|ts| - 1]];
      IdsOfSnoc(init, ts[|ts| - 1]);
    }
  }

  /** Consistency holds after any sequence of deliveries. */
  lemma {:induction false} DeliverKeepsConsistent(f: Feed, ts: seq<Trade>)
    requires Consistent(f)
    ensures Consistent(Deliver(f, ts))
    decreases |ts|
  {
    if |ts| > 0 {
      DeliverKeepsConsistent(f, ts[..|ts| - 1]);
      OnTradeKeepsConsistent(Deliver(f, ts[..|ts| - 1]), ts[|ts| - 1]);
    }
  }

  /** The list is append-only: what was shown before the deliveries keeps its place and value. */
  lemma {:induction false} DeliverAppendOnly(f: Feed, ts: seq<Trade>)
    ensures |f.trades| <= |Deliver(f, ts).trades|
    ensures Deliver(f, ts).trades[..|f.trades|] == f.trades
    decreases |ts|
  {
    if |ts| > 0 {
      var before := Deliver(f, ts[..|ts| - 1]);
      DeliverAppendOnly(f, ts[..|ts| - 1]);
      var after := OnTrade(before, ts[|ts| - 1]);
      assert after.trades[..|before.trades|] == before.trades;
      assert after.trades[..|f.trades|] == after.trades[..|before.trades|][..|f.trades|];
    }
  }

  /** Redelivering an id that was already delivered changes nothing. */
  lemma {:induction false} RedeliveryChangesNothing(f: Feed, ts: seq<Trade>, t: Trade)
    requires t.tradeId in f.seenIds + IdsOf(ts)
    ensures Deliver(f, ts + [t]) == Deliver(f, ts)
  {
    DeliverSeen(f, ts);
    assert (ts + [t])[..|ts|] == ts;
  }

  lemma FirstOccursExtend(x: Trade, ts: seq<Trade>, t: Trade)
    requires FirstOccurs(x, ts)
    ensures FirstOccurs(x, ts + [t])
  {
    var ts' := ts + [t];
    var i :| 0 <= i < |ts| && ts[i] == x && IsFirstOccurrence(ts, i);
    assert ts'[i] == ts[i];
    forall j | 0 <= j < i
      ensures ts'[j].tradeId != ts'[i].tradeId
    {
      assert ts'[j] == ts[j];
    }
    assert IsFirstOccurrence(ts', i);
  }

  lemma KeepsFirstOccurrencesExtend(r: seq<Trade>, ts: seq<Trade>, t: Trade)
    requires KeepsFirstOccurrences(r, ts)
    ensures KeepsFirstOccurrences(r, ts + [t])
  {
    forall k | 0 <= k < |r|
      ensures FirstOccurs(r[k], ts + [t])
    {
      FirstOccursExtend(r[k], ts, t);
    }
  }

  /** From a fresh subscription the list keeps the delivery order: a subsequence of `ts`. */
  lemma {:induction false} DeliverFromStartIsSubseq(ts: seq<Trade>)
    ensures IsSubseq(Deliver(Start(), ts).trades, ts)
    decreases |ts|
  {
    if |ts| > 0 {
      var init, t := ts[..|ts| - 1], ts[|ts| - 1];
      assert ts == init + [t];
      DeliverFromStartIsSubseq(init);
      var p := Deliver(Start(), init);
      if t.tradeId in p.seenIds {
        SubseqExtend(p.trades, init, t);
      } else {
        SubseqSnoc(p.trades, init, t);
      }
    }
  }

  /** From a fresh subscription each listed trade is the first delivered event with its id. */
  lemma {:induction false} DeliverFromStartKeepsFirst(ts: seq<Trade>)
    ensures KeepsFirstOccurrences(Deliver(Start(), ts).trades, ts)
    decreases |ts|
  {
    if |ts| > 0 {
      var init, t := ts[..|ts| - 1], ts[|ts| - 1];
      assert ts == init + [t];
      DeliverFromStartKeepsFirst(init);
      DeliverSeen(Start(), init);
      var p := Deliver(Start(), init);
      KeepsFirstOccurrencesExtend(p.trades, init, t);
      if t.tradeId !in p.seenIds {
        assert IsFirstOccurrence(ts, |init|) by {
          forall j | 0 <= j < |init|
            ensures ts[j].tradeId != t.tradeId
          {
            assert ts[j] == init[j];
            assert init[j].tradeId in IdsOf(init);
          }
        }
        assert FirstOccurs(t, ts) by { assert ts[|init|] == t; }
        var r := p.trades + [t];
        forall k | 0 <= k < |r|
          ensures FirstOccurs(r[k], ts)
        {
          if k < |p.trades| {
            assert r[k] == p.trades[k];
          }
        }
      }
    }
  }

  /**
   Reference for the deduplicated list: the events of `ts` at the indices that are first
   occurrences of their id, in index order.
   */
  function FirstsOf(ts: seq<Trade>): seq<Trade>
    decreases |ts|
  {
    if |ts| == 0 then []
    else FirstsOf(ts[..|ts| - 1]) + (if IsFirstOccurrence(ts, |ts| - 1) then [ts[|ts| - 1]] else [])
  }

  /** From a fresh subscription the list is exactly the reference `FirstsOf(ts)`. */
  lemma {:induction false} DeliverFromStartIsFirsts(ts: seq<Trade>)
    ensures Deliver(Start(), ts).trades == FirstsOf(ts)
    decreases |ts|
  {
    if |ts| > 0 {
      var init, t := ts[..|ts| - 1], ts[|ts| - 1];
      DeliverFromStartIsFirsts(init);
      DeliverSeen(Start(), init);
      assert IsFirstOccurrence(ts, |init|) <==> t.tradeId !in IdsOf(init) by {
        if t.tradeId in IdsOf(init) {
          var j :| 0 <= j < |init| && init[j].tradeId == t.tradeId;
          assert ts[j] == init[j];
        } else {
          forall j | 0 <= j < |init|
            ensures ts[j].tradeId != t.tradeId
          {
            assert ts[j] == init[j];
            assert init[j].tradeId in IdsOf(init);
          }
        }
      }
    }
  }

  /**
   From a fresh subscription the list holds, in delivery order, exactly the first event of
   `ts` for each id: it equals the reference `FirstsOf(ts)`, it is a subsequence of `ts`,
   each entry is the first occurrence of its id, no event is listed more often than it was
   delivered, and every delivered id is present once.
   */
  lemma DeliverFromStart(ts: seq<Trade>)
    ensures Deliver(Start(), ts).trades == FirstsOf(ts)
    ensures IsSubseq(Deliver(Start(), ts).trades, ts)
    ensures multiset(Deliver(Start(), ts).trades) <= multiset(ts)
    ensures KeepsFirstOccurrences(Deliver(Start(), ts).trades, ts)
    ensures IdsOf(Deliver(Start(), ts).trades) == IdsOf(ts)
    ensures DistinctIds(Deliver(Start(), ts).trades)
  {
    DeliverFromStartIsFirsts(ts);
    DeliverKeepsConsistent(Start(), ts);
    DeliverSeen(Start(), ts);
    DeliverFromStartIsSubseq(ts);
    SubseqMultiset(Deliver(Start(), ts).trades, ts);
    DeliverFromStartKeepsFirst(ts);
  }
}
