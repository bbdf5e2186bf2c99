/** Event numbers and trade ids over whole runs. */
module Numbering {
  import opened Model
  import opened Matching
  import opened Books
  import opened Executions

  /** How many events carry the number `n`. */
  function EventUses(es: seq<Event>, n: nat): nat {
    if es == [] then 0 else EventUses(es[..|es| - 1], n) + if es[|es| - 1].sequence == n then 1 else 0
  }

  function TradeUses(ts: seq<Trade>, n: nat): nat {
    if ts == [] then 0 else TradeUses(ts[..|ts| - 1], n) + if ts[|ts| - 1].sequence == n then 1 else 0
  }

  /** How many events and trades of a report carry the number `n`. */
  function Uses(r: Report, n: nat): nat {
    EventUses(r.events, n) + TradeUses(r.trades, n)
  }

  function Size(r: Report): nat {
    |r.events| + |r.trades|
  }

  /** 1 for the numbers `start`, ..., `start + count - 1`, and 0 for all others. */
  function Within(start: nat, count: nat, n: nat): nat {
    if start <= n < start + count then 1 else 0
  }

  lemma {:induction false} EventUsesOfSum(a: seq<Event>, b: seq<Event>, n: nat)
    ensures EventUses(a + b, n) == EventUses(a, n) + EventUses(b, n)
  {
    if b == [] {
      assert a + b == a;
    } else {
      EventUsesOfSum(a, b[..|b| - 1], n);
      assert (a + b)[..|a + b| - 1] == a + b[..|b| - 1];
    }
  }

  lemma UsesOfOne(e: Event, n: nat)
    ensures EventUses([e], n) == if e.sequence == n then 1 else 0
  {
    assert EventUses([e], n) == EventUses([], n) + if e.sequence == n then 1 else 0;
  }

  lemma {:induction false} SweepUses(es: seq<Execution>, tradeId: nat, sequence: nat, n: nat)
    ensures EventUses(Events(es, sequence), n) + TradeUses(Trades(es, tradeId, sequence), n)
         == Within(sequence, 3 * |es|, n)
  {
    if es != [] {
      var k := |es| - 1;
      SweepUses(es[..k], tradeId, sequence, n);
      var taker := ExecutionEvent(es[k].taker, sequence + 3 * k + 1);
      var maker := ExecutionEvent(es[k].maker, sequence + 3 * k + 2);
      EventUsesOfSum(Events(es[..k], sequence), [taker] + [maker], n);
      EventUsesOfSum([taker], [maker], n);
      UsesOfOne(taker, n);
      UsesOfOne(maker, n);
      assert [taker] + [maker] == [taker, maker];
    }
  }

  predicate CountsFrom(ts: seq<Trade>, tradeId: nat) {
    forall k :: 0 <= k < |ts| ==> ts[k].tradeId == tradeId + k
  }

  /** The report of a step uses each number that the step consumes once, and no other. */
  ghost predicate Consecutive(b: Book, o: Outcome, n: nat) {
    && Uses(o.report, n) == Within(b.nextEvent, Size(o.report), n)
    && o.book.nextEvent == b.nextEvent + Size(o.report)
    && CountsFrom(o.report.trades, b.nextTrade)
    && o.book.nextTrade == b.nextTrade + |o.report.trades|
  }

  lemma AcceptNumbers(b: Book, r: NewOrderRequest, n: nat)
    requires NewOrderFault(b, r).None?
    ensures Consecutive(b, Accept(b, r), n)
  {
    hide Sweep, Events, Trades, EventUses, TradeUses;
    var es := SweepOf(b, r).executions;
    var ack := AckEvent(NewOrderValue(r, b.nextOrder), b.nextEvent);
    UsesOfOne(ack, n);
    SweepUses(es, b.nextTrade, b.nextEvent + 1, n);
    EventsLength(es, b.nextEvent + 1);
    EventUsesOfSum([ack], Events(es, b.nextEvent + 1), n);
    TradesAt(es, b.nextTrade, b.nextEvent + 1, 0);
    var ts := Trades(es, b.nextTrade, b.nextEvent + 1);
    forall k | 0 <= k < |es| ensures ts[k].tradeId == b.nextTrade + k {
      TradesAt(es, b.nextTrade, b.nextEvent + 1, k);
    }
  }

  lemma ReplaceNumbers(b: Book, r: ReplaceRequest, n: nat)
    requires ReplaceFault(b, r).None?
    ensures Consecutive(b, ReplaceOrder(b, r), n)
  {
    hide Accept, EventUses, TradeUses;
    var request := SubmitHalf(r, b.bag[r.oldOrderId]);
    var submitted := Accept(AfterCancel(b, r), request);
    var first := CancelAckEvent(b.bag[r.oldOrderId], b.nextEvent, r.timestamp);
    var ack := ReplaceAckEvent(r.oldOrderId, Residual(SweepOf(AfterCancel(b, r), request)),
                               submitted.book.nextEvent, r.timestamp);
    AcceptNumbers(AfterCancel(b, r), request, n);
    UsesOfOne(first, n);
    UsesOfOne(ack, n);
    EventUsesOfSum([first], [ack], n);
    EventUsesOfSum([first] + [ack], submitted.report.events, n);
    assert ReplaceOrder(b, r).report.events == ([first] + [ack]) + submitted.report.events;
    assert ReplaceOrder(b, r).report.trades == submitted.report.trades;
  }

  /** Every call consumes exactly as many consecutive numbers as it reports events and trades. */
  lemma StepNumbers(b: Book, c: Command, n: nat)
    ensures Consecutive(b, Step(b, c), n)
  {
    hide Accept, EventUses;
    match c
    case NewOrder(r) =>
      var fault := NewOrderFault(b, r);
      if fault.None? {
        AcceptNumbers(b, r, n);
      } else {
        UsesOfOne(RejectEvent(Reject, r.orderId, b.symbolId, fault, b.nextEvent, r.timestamp), n);
      }
    case Cancel(r) =>
      var fault := CancelFault(b, r);
      if fault.None? {
        UsesOfOne(CancelAckEvent(b.bag[r.orderId], b.nextEvent, r.timestamp), n);
      } else {
        UsesOfOne(RejectEvent(CancelReject, r.orderId, b.symbolId, fault, b.nextEvent, r.timestamp), n);
      }
    case Replace(r) =>
      var fault := ReplaceFault(b, r);
      if fault.None? {
        ReplaceNumbers(b, r, n);
      } else {
        UsesOfOne(RejectEvent(ReplaceReject, r.oldOrderId, b.symbolId, fault, b.nextEvent, r.timestamp), n);
      }
  }

  /** How often a whole run reports the number `n`. */
  ghost function RunUses(b: Book, cs: seq<Command>, n: nat): nat {
    if cs == [] then 0
    else RunUses(b, cs[..|cs| - 1], n) + Uses(Step(Run(b, cs[..|cs| - 1]), cs[|cs| - 1]).report, n)
  }

  ghost function RunTrades(b: Book, cs: seq<Command>): seq<Trade> {
    if cs == [] then []
    else RunTrades(b, cs[..|cs| - 1]) + Step(Run(b, cs[..|cs| - 1]), cs[|cs| - 1]).report.trades
  }

  lemma NothingCounts()
    ensures CountsFrom([], 1) && forall n :: Within(1, 0, n) == 0
  {
  }

  lemma WithinGrows(start: nat, count: nat, more: nat, n: nat)
    ensures Within(start, count + more, n) == Within(start, count, n) + Within(start + count, more, n)
  {
  }

  lemma CountsOn(a: seq<Trade>, b: seq<Trade>, tradeId: nat)
    requires CountsFrom(a, tradeId) && CountsFrom(b, tradeId + |a|)
    ensures CountsFrom(a + b, tradeId)
  {
  }

  /** Over a whole run each number from 1 on is reported once, and trade ids count up from 1. */
  lemma {:induction false} NumbersAreConsecutive(symbolId: nat, cs: seq<Command>, n: nat)
    ensures var b := EmptyBook(symbolId);
      && Run(b, cs).nextEvent >= 1
      && RunUses(b, cs, n) == Within(1, Run(b, cs).nextEvent - 1, n)
      && Run(b, cs).nextTrade == 1 + |RunTrades(b, cs)|
      && CountsFrom(RunTrades(b, cs), 1)
  {
    hide Step, Uses, CountsFrom, Within;
    NothingCounts();
    if cs != [] {
      var b := EmptyBook(symbolId);
      var before := cs[..|cs| - 1];
      NumbersAreConsecutive(symbolId, before, n);
      StepNumbers(Run(b, before), cs[|cs| - 1], n);
      WithinGrows(1, Run(b, before).nextEvent - 1, Size(Step(Run(b, before), cs[|cs| - 1]).report), n);
      CountsOn(RunTrades(b, before), Step(Run(b, before), cs[|cs| - 1]).report.trades, 1);
    }
  }

  // ---------- The order of events inside a report ----------

  predicate Sorted(es: seq<Event>) {
    forall i, j :: 0 <= i < j < |es| ==> es[i].sequence < es[j].sequence
  }

  lemma {:induction false} SweepSorted(es: seq<Execution>, sequence: nat)
    ensures Sorted(Events(es, sequence))
    ensures forall e :: e in Events(es, sequence) ==> sequence <= e.sequence < sequence + 3 * |es|
  {
    if es != [] {
      SweepSorted(es[..|es| - 1], sequence);
    }
  }

  /** Reports list their events in number order, except those of an accepted replace, which never do. */
  lemma SortedUnlessReplaced(b: Book, c: Command)
    ensures Sorted(Step(b, c).report.events) <==> !(c.Replace? && ReplaceFault(b, c.replace).None?)
  {
    match c
    case NewOrder(r) =>
      if NewOrderFault(b, r).None? { SweepSorted(SweepOf(b, r).executions, b.nextEvent + 1); }
    case Cancel(r) =>
    case Replace(r) =>
      if ReplaceFault(b, r).None? {
        var es := Step(b, c).report.events;
        assert es[1].sequence > es[2].sequence;
      }
  }
}
