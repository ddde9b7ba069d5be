/** The bounded tape of recent trades and the set of trade ids kept beside it. */
module TradeTape {
  import opened Common

  datatype Trade = Trade(tradeId: string, exchangeTime: int, sequenceId: Option<int>)

  /** Strictly earlier, or at the same time with a lower sequence id where both have one. */
  predicate Older(current: Trade, previous: Trade) {
    if current.exchangeTime != previous.exchangeTime then current.exchangeTime < previous.exchangeTime
    else current.sequenceId.Some? && previous.sequenceId.Some? && current.sequenceId.value < previous.sequenceId.value
  }

  datatype Tape = Tape(trades: seq<Trade>, ids: set<string>)

  function Admitted(t: Tape, trade: Trade, limit: nat): (bool, Tape)
    requires limit >= 1
  {
    if trade.tradeId in t.ids then (false, t)
    else if t.trades != [] && Older(trade, t.trades[|t.trades| - 1]) then (false, t)
    else if |t.trades| == limit then
      (true, Tape(t.trades[1..] + [trade], t.ids - {t.trades[0].tradeId} + {trade.tradeId}))
    else (true, Tape(t.trades + [trade], t.ids + {trade.tradeId}))
  }

  class RecentTrades {
    const limit: nat
    var trades: seq<Trade>
    var ids: set<string>

    function State(): Tape
      reads this
    {
      Tape(trades, ids)
    }

    /** The id set is exactly the ids on the tape, each there once, so expiring an id always finds it. */
    ghost predicate Valid()
      reads this
    {
      limit >= 1 && |trades| <= limit && Indexed(State())
    }

    constructor (limit: nat)
      requires limit >= 1
      ensures Valid() && this.limit == limit && State() == Tape([], {})
    {
      this.limit := limit;
      trades, ids := [], {};
    }

    method Apply(trade: Trade) returns (applied: bool)
      requires Valid()
      modifies this
      ensures Valid()
      ensures (applied, State()) == Admitted(old(State()), trade, limit)
    {
      if trade.tradeId in ids {
        return false;
      }
      if trades != [] && Older(trade, trades[|trades| - 1]) {
        return false;
      }
      AdmittedStaysIndexed(State(), trade, limit);
      if |trades| == limit {
        var expired := trades[0];
        assert expired.tradeId in ids;
        trades := trades[1..];
        ids := ids - {expired.tradeId};
      }
      trades := trades + [trade];
      ids := ids + {trade.tradeId};
      return true;
    }
  }

  ghost predicate Indexed(t: Tape) {
    && (forall i :: 0 <= i < |t.trades| ==> t.trades[i].tradeId in t.ids)
    && (forall id :: id in t.ids ==> Mentions(t.trades, id))
    && (forall i, j :: 0 <= i < j < |t.trades| ==> t.trades[i].tradeId != t.trades[j].tradeId)
  }

  ghost predicate Mentions(trades: seq<Trade>, id: string) {
    exists i :: 0 <= i < |trades| && trades[i].tradeId == id
  }

  lemma AdmittedStaysIndexed(t: Tape, trade: Trade, limit: nat)
    requires limit >= 1 && Indexed(t) && |t.trades| <= limit
    ensures Indexed(Admitted(t, trade, limit).1) && |Admitted(t, trade, limit).1.trades| <= limit
  {
    var (applied, t') := Admitted(t, trade, limit);
    if applied {
      var shift := if |t.trades| == limit then 1 else 0;
      forall id | id in t'.ids ensures Mentions(t'.trades, id) {
        if id == trade.tradeId {
          assert t'.trades[|t'.trades| - 1].tradeId == id;
        } else {
          assert Mentions(t.trades, id);
          var i :| 0 <= i < |t.trades| && t.trades[i].tradeId == id;
          assert t'.trades[i - shift] == t.trades[i];
        }
      }
    }
  }

  // ---------- against the full history ----------

  /** Not earlier, and with no lower sequence id where the times are equal and both have one. */
  predicate MayFollow(previous: Trade, trade: Trade) {
    && previous.exchangeTime <= trade.exchangeTime
    && (previous.exchangeTime == trade.exchangeTime && previous.sequenceId.Some? && trade.sequenceId.Some? ==>
          previous.sequenceId.value <= trade.sequenceId.value)
  }

  /** Every trade ever admitted, judged by scanning the last `limit` of them and the latest time. */
  ghost function Judged(history: seq<Trade>, trade: Trade, limit: nat): (bool, seq<Trade>)
    requires limit >= 1
  {
    if Mentions(LastOf(history, limit), trade.tradeId) then (false, history)
    else if history != [] && !MayFollow(history[|history| - 1], trade) then (false, history)
    else (true, history + [trade])
  }

  ghost predicate Represents(t: Tape, history: seq<Trade>, limit: nat) {
    && limit >= 1 && Indexed(t) && t.trades == LastOf(history, limit)
    && InOrder(history)
  }

  ghost predicate InOrder(trades: seq<Trade>) {
    && (forall i, j :: 0 <= i < j < |trades| ==> trades[i].exchangeTime <= trades[j].exchangeTime)
    && forall i :: 0 < i < |trades| ==> MayFollow(trades[i - 1], trades[i])
  }

  lemma OrderExtends(trades: seq<Trade>, trade: Trade)
    requires InOrder(trades) && (trades != [] ==> MayFollow(trades[|trades| - 1], trade))
    ensures InOrder(trades + [trade])
  {
  }

  lemma OrderEndsIn(trades: seq<Trade>, n: nat)
    requires InOrder(trades)
    ensures InOrder(LastOf(trades, n))
  {
    var last := LastOf(trades, n);
    forall i | 0 < i < |last| ensures MayFollow(last[i - 1], last[i]) {
      var at := |trades| - |last| + i;
      assert last[i] == trades[at] && last[i - 1] == trades[at - 1];
    }
  }

  lemma SameId(t: Tape, id: string)
    requires Indexed(t)
    ensures id in t.ids <==> Mentions(t.trades, id)
  {
  }

  lemma SameLast(history: seq<Trade>, limit: nat)
    requires limit >= 1
    ensures history == [] <==> LastOf(history, limit) == []
    ensures history != [] ==> LastOf(history, limit)[|LastOf(history, limit)| - 1] == history[|history| - 1]
  {
  }

  lemma TapeSlides(t: Tape, trade: Trade, limit: nat)
    requires limit >= 1 && |t.trades| <= limit && Admitted(t, trade, limit).0
    ensures Admitted(t, trade, limit).1.trades == LastOf(t.trades + [trade], limit)
  {
  }

  lemma OlderMayNotFollow(previous: Trade, trade: Trade)
    ensures Older(trade, previous) <==> !MayFollow(previous, trade)
  {
  }

  lemma SameVerdict(t: Tape, history: seq<Trade>, trade: Trade, limit: nat)
    requires Represents(t, history, limit)
    ensures Admitted(t, trade, limit).0 == Judged(history, trade, limit).0
  {
    SameId(t, trade.tradeId);
    SameLast(history, limit);
    if history != [] {
      OlderMayNotFollow(history[|history| - 1], trade);
    }
  }

  lemma AdmissionRefines(t: Tape, history: seq<Trade>, trade: Trade, limit: nat)
    requires Represents(t, history, limit) && Admitted(t, trade, limit).0 && Judged(history, trade, limit).0
    ensures Represents(Admitted(t, trade, limit).1, Judged(history, trade, limit).1, limit)
  {
    AdmittedStaysIndexed(t, trade, limit);
    TapeSlides(t, trade, limit);
    LastOfGrows(history, trade, limit);
    OrderExtends(history, trade);
  }

  /** The bounded tape with its id set decides like the full history, and the tape is its latest part, in
      time order. */
  lemma StepRefines(t: Tape, history: seq<Trade>, trade: Trade, limit: nat)
    requires Represents(t, history, limit)
    ensures var (applied, t') := Admitted(t, trade, limit);
            var (wanted, history') := Judged(history, trade, limit);
            applied == wanted && Represents(t', history', limit)
  {
    SameVerdict(t, history, trade, limit);
    if Admitted(t, trade, limit).0 {
      AdmissionRefines(t, history, trade, limit);
    }
  }

  function Decisions(t: Tape, trades: seq<Trade>, limit: nat): (r: seq<bool>)
    requires limit >= 1
    decreases |trades|
  {
    if trades == [] then []
    else var (applied, t') := Admitted(t, trades[0], limit); [applied] + Decisions(t', trades[1..], limit)
  }

  ghost function Judgements(history: seq<Trade>, trades: seq<Trade>, limit: nat): (r: seq<bool>)
    requires limit >= 1
    decreases |trades|
  {
    if trades == [] then []
    else
      var (applied, history') := Judged(history, trades[0], limit);
      [applied] + Judgements(history', trades[1..], limit)
  }

  lemma {:induction false} RunRefines(t: Tape, history: seq<Trade>, trades: seq<Trade>, limit: nat)
    requires Represents(t, history, limit)
    ensures Decisions(t, trades, limit) == Judgements(history, trades, limit)
    decreases |trades|
  {
    if trades != [] {
      StepRefines(t, history, trades[0], limit);
      RunRefines(Admitted(t, trades[0], limit).1, Judged(history, trades[0], limit).1, trades[1..], limit);
    }
  }

  function TapeAfter(trades: seq<Trade>, limit: nat, n: nat): Tape
    requires limit >= 1 && n <= |trades|
  {
    if n == 0 then Tape([], {}) else Admitted(TapeAfter(trades, limit, n - 1), trades[n - 1], limit).1
  }

  ghost function HistoryAfter(trades: seq<Trade>, limit: nat, n: nat): seq<Trade>
    requires limit >= 1 && n <= |trades|
  {
    if n == 0 then [] else Judged(HistoryAfter(trades, limit, n - 1), trades[n - 1], limit).1
  }

  /** After each of the first n trades the tape is the latest part of the history. */
  ghost predicate RepresentsUpTo(trades: seq<Trade>, limit: nat, n: nat)
    requires limit >= 1 && n <= |trades|
  {
    && (n > 0 ==> RepresentsUpTo(trades, limit, n - 1))
    && Represents(TapeAfter(trades, limit, n), HistoryAfter(trades, limit, n), limit)
  }

  lemma OneMoreTrade(trades: seq<Trade>, limit: nat, n: nat)
    requires limit >= 1 && 0 < n <= |trades| && RepresentsUpTo(trades, limit, n - 1)
    ensures RepresentsUpTo(trades, limit, n)
  {
    StepRefines(TapeAfter(trades, limit, n - 1), HistoryAfter(trades, limit, n - 1), trades[n - 1], limit);
  }

  lemma {:induction false} AfterRepresents(trades: seq<Trade>, limit: nat, n: nat)
    requires limit >= 1 && n <= |trades|
    ensures RepresentsUpTo(trades, limit, n)
  {
    if n > 0 {
      AfterRepresents(trades, limit, n - 1);
      OneMoreTrade(trades, limit, n);
    }
  }

  /** The tape is in order without a repeated id, and it admits a trade exactly when no trade on it has its id and it
      may follow the latest one. */
  ghost predicate OrderlyFor(t: Tape, limit: nat, trade: Trade)
    requires limit >= 1
  {
    && |t.trades| <= limit && InOrder(t.trades)
    && (forall i, j :: 0 <= i < j < |t.trades| ==> t.trades[i].tradeId != t.trades[j].tradeId)
    && (Admitted(t, trade, limit).0 <==>
         && (forall i :: 0 <= i < |t.trades| ==> t.trades[i].tradeId != trade.tradeId)
         && (t.trades != [] ==> MayFollow(t.trades[|t.trades| - 1], trade)))
  }

  lemma RepresentingIsOrderly(t: Tape, history: seq<Trade>, limit: nat, trade: Trade)
    requires Represents(t, history, limit)
    ensures OrderlyFor(t, limit, trade)
  {
    OrderEndsIn(history, limit);
    SameId(t, trade.tradeId);
    if t.trades != [] {
      OlderMayNotFollow(t.trades[|t.trades| - 1], trade);
    }
  }

  /** After any stream. */
  lemma TapeIsOrderly(trades: seq<Trade>, limit: nat, n: nat, trade: Trade)
    requires limit >= 1 && n <= |trades|
    ensures OrderlyFor(TapeAfter(trades, limit, n), limit, trade)
  {
    AfterRepresents(trades, limit, n);
    RepresentingIsOrderly(TapeAfter(trades, limit, n), HistoryAfter(trades, limit, n), limit, trade);
  }
}
