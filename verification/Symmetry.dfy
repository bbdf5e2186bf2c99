/**
 * What matching does not depend on: which side is which, where prices start, and how sequences and event numbers
 * are spaced. Each is an image of books, commands and reports that commutes with every run.
 */
module Symmetry {
  import opened Model
  import opened Matching
  import opened Books

  /**
   * An image swaps the sides and reflects every price p to `top` - p, if it is `mirrored`; it moves order sequences
   * from `from` on up by `late`, and event numbers up by `shift`.
   */
  datatype Lens = Lens(mirrored: bool, top: int, from: nat, late: nat, shift: nat)
  {
    function FlipSide(side: Side): Side {
      if mirrored then side.Opposite() else side
    }

    function ReflectPrice(price: int): int {
      if mirrored then top - price else price
    }

    function Renumber(n: nat): nat {
      if n >= from then n + late else n
    }

    function MapOrder(o: OrderValue): OrderValue {
      o.(side := FlipSide(o.side), price := ReflectPrice(o.price), sequence := Renumber(o.sequence))
    }

    function MapBag(bag: Bag): Bag {
      map id | id in bag :: MapOrder(bag[id])
    }

    function MapExecution(e: Execution): Execution {
      Execution(MapOrder(e.taker), MapOrder(e.maker), e.quantity)
    }

    function MapExecutions(es: seq<Execution>): seq<Execution> {
      seq(|es|, i requires 0 <= i < |es| => MapExecution(es[i]))
    }

    function MapSwept(s: Swept): Swept {
      s.(bag := MapBag(s.bag), taker := MapOrder(s.taker), executions := MapExecutions(s.executions))
    }

    /** Rejects carry no price; every other event carries the price of its order. */
    function MapEvent(e: Event): Event {
      e.(sequence := e.sequence + shift, price := if IsRefusal(e) then e.price else ReflectPrice(e.price))
    }

    function MapEvents(es: seq<Event>): seq<Event> {
      seq(|es|, i requires 0 <= i < |es| => MapEvent(es[i]))
    }

    /** In a mirror, buyer and seller change places. */
    function MapTrade(t: Trade): Trade {
      var u := t.(sequence := t.sequence + shift, price := ReflectPrice(t.price));
      if mirrored then u.(buyOrderId := t.sellOrderId, sellOrderId := t.buyOrderId) else u
    }

    function MapTrades(ts: seq<Trade>): seq<Trade> {
      seq(|ts|, i requires 0 <= i < |ts| => MapTrade(ts[i]))
    }

    function MapReport(r: Report): Report {
      r.(events := MapEvents(r.events), trades := MapTrades(r.trades))
    }

    function MapReports(rs: seq<Report>): seq<Report> {
      seq(|rs|, i requires 0 <= i < |rs| => MapReport(rs[i]))
    }

    function MapBook(b: Book): Book {
      b.(nextOrder := b.nextOrder + late, nextEvent := b.nextEvent + shift, bag := MapBag(b.bag))
    }

    function MapOutcome(o: Outcome): Outcome {
      o.(book := MapBook(o.book), report := MapReport(o.report))
    }

    /** An asked price that is no price stays as it is, to be refused in the image as well. */
    function ReflectAsked(price: int): int {
      if price <= 0 then price else ReflectPrice(price)
    }

    function MapRequest(r: NewOrderRequest): NewOrderRequest {
      r.(side := FlipSide(r.side), price := if r.orderType.Limit? then ReflectAsked(r.price) else ReflectPrice(r.price))
    }

    function MapCommand(c: Command): Command {
      match c
      case NewOrder(r) => NewOrder(MapRequest(r))
      case Cancel(r) => c
      case Replace(r) => Replace(r.(newPrice := ReflectAsked(r.newPrice)))
    }

    function MapCommands(cs: seq<Command>): seq<Command> {
      seq(|cs|, i requires 0 <= i < |cs| => MapCommand(cs[i]))
    }

    /** A mirror must lie above the limit prices it reflects. */
    predicate Admits(c: Command) {
      mirrored ==>
        match c
        case NewOrder(r) => r.orderType.Limit? ==> r.price < top
        case Cancel(_) => true
        case Replace(r) => r.newPrice < top
    }
  }

  /** Sides swapped, prices reflected in `top`. */
  function Mirror(top: int): Lens {
    Lens(true, top, 0, 0, 0)
  }

  /** Orders from sequence `from` on are numbered `late` later, and all events `shift` later. */
  function Delay(from: nat, late: nat, shift: nat): Lens {
    Lens(false, 0, from, late, shift)
  }

  // ---------- Sweeps ----------

  predicate DistinctSequences(bag: Bag) {
    forall i, j :: i in bag && j in bag && bag[i].sequence == bag[j].sequence ==> i == j
  }

  lemma SequencesDiffer(b: Book)
    requires WellFormed(b)
    ensures DistinctSequences(b.bag)
  {
  }

  /** The image of the taker selects the same resting order. */
  lemma FirstImage(bag: Bag, taker: OrderValue, lens: Lens)
    requires DistinctSequences(bag)
    ensures Matches(lens.MapBag(bag), lens.MapOrder(taker)) == Matches(bag, taker)
    ensures Matches(bag, taker) != {} ==> First(lens.MapBag(bag), lens.MapOrder(taker)) == First(bag, taker)
  {
    var image := lens.MapBag(bag);
    assert forall id :: id in bag ==> CanMatch(taker, bag[id]) == CanMatch(lens.MapOrder(taker), image[id]);
    var ids := Matches(bag, taker);
    assert Matches(image, lens.MapOrder(taker)) == ids;
    if ids != {} {
      var a, b := First(bag, taker), First(image, lens.MapOrder(taker));
      assert !Ahead(bag[b], bag[a]) && !Ahead(image[a], image[b]);
    }
  }

  lemma SettleImage(bag: Bag, taker: OrderValue, id: nat, lens: Lens)
    requires id in bag && DistinctSequences(bag)
    ensures var e := Execute(taker, bag[id]);
      && Execute(lens.MapOrder(taker), lens.MapOrder(bag[id])) == lens.MapExecution(e)
      && lens.MapBag(Settle(bag, id, e.maker)) == Settle(lens.MapBag(bag), id, lens.MapOrder(e.maker))
      && DistinctSequences(Settle(bag, id, e.maker))
  {
  }

  lemma FirstInBag(bag: Bag, taker: OrderValue, lens: Lens)
    requires Matches(bag, taker) != {}
    ensures var id := First(bag, taker);
      && id in bag && id in lens.MapBag(bag)
      && lens.MapBag(bag)[id] == lens.MapOrder(bag[id])
      && Execute(taker, bag[id]).taker.leaves < taker.leaves
  {
  }

  lemma ExecsImage(e: Execution, es: seq<Execution>, lens: Lens)
    ensures lens.MapExecutions([]) == []
    ensures lens.MapExecutions([e] + es) == [lens.MapExecution(e)] + lens.MapExecutions(es)
  {
  }

  /** A sweep and its image proceed execution by execution. */
  lemma {:induction false} SweepImage(bag: Bag, taker: OrderValue, lens: Lens)
    requires DistinctSequences(bag)
    ensures Sweep(lens.MapBag(bag), lens.MapOrder(taker)) == lens.MapSwept(Sweep(bag, taker))
    decreases taker.leaves
  {
    hide Execute, Settle, Lens.MapBag, Lens.MapExecutions, Matches, First, DistinctSequences;
    FirstImage(bag, taker, lens);
    ExecsImage(Execution(taker, taker, 0), [], lens);
    if Matches(bag, taker) != {} {
      FirstInBag(bag, taker, lens);
      var id := First(bag, taker);
      var e := Execute(taker, bag[id]);
      var rest := Sweep(Settle(bag, id, e.maker), e.taker);
      SettleImage(bag, taker, id, lens);
      SweepImage(Settle(bag, id, e.maker), e.taker, lens);
      ExecsImage(e, rest.executions, lens);
    }
  }

  // ---------- Reports ----------

  lemma ExecsImageOfLast(es: seq<Execution>, lens: Lens)
    requires es != []
    ensures lens.MapExecutions(es) != [] && |lens.MapExecutions(es)| == |es|
    ensures lens.MapExecutions(es)[|es| - 1] == lens.MapExecution(es[|es| - 1])
    ensures lens.MapExecutions(es)[..|lens.MapExecutions(es)| - 1] == lens.MapExecutions(es[..|es| - 1])
  {
  }

  lemma NoEventsImage(lens: Lens)
    ensures lens.MapExecutions([]) == [] && lens.MapEvents([]) == []
  {
  }

  /** The two events of an execution. */
  lemma PairImage(e: Execution, sequence: nat, lens: Lens)
    ensures [ExecutionEvent(lens.MapExecution(e).taker, sequence + lens.shift),
             ExecutionEvent(lens.MapExecution(e).maker, sequence + 1 + lens.shift)]
         == lens.MapEvents([ExecutionEvent(e.taker, sequence), ExecutionEvent(e.maker, sequence + 1)])
  {
  }

  lemma {:induction false} EventsImage(es: seq<Execution>, sequence: nat, lens: Lens)
    ensures Events(lens.MapExecutions(es), sequence + lens.shift) == lens.MapEvents(Events(es, sequence))
  {
    hide ExecutionEvent, Lens.MapExecutions, Lens.MapEvents, Lens.MapEvent;
    NoEventsImage(lens);
    if es != [] {
      var k := |es| - 1;
      EventsImage(es[..k], sequence, lens);
      ExecsImageOfLast(es, lens);
      PairImage(es[k], sequence + 3 * k + 1, lens);
      EventsImageOfSum(Events(es[..k], sequence), [ExecutionEvent(es[k].taker, sequence + 3 * k + 1),
                                                   ExecutionEvent(es[k].maker, sequence + 3 * k + 2)], lens);
    }
  }

  lemma {:induction false} TradesImage(es: seq<Execution>, tradeId: nat, sequence: nat, lens: Lens)
    ensures Trades(lens.MapExecutions(es), tradeId, sequence + lens.shift)
         == lens.MapTrades(Trades(es, tradeId, sequence))
  {
    if es != [] {
      TradesImage(es[..|es| - 1], tradeId, sequence, lens);
      ExecsImageOfLast(es, lens);
    }
  }

  lemma EventsImageOfSum(a: seq<Event>, b: seq<Event>, lens: Lens)
    ensures lens.MapEvents(a + b) == lens.MapEvents(a) + lens.MapEvents(b)
  {
  }

  lemma OneEventImage(e: Event, lens: Lens)
    ensures lens.MapEvents([e]) == [lens.MapEvent(e)]
  {
  }

  // ---------- Requests ----------

  lemma FaultImage(b: Book, c: Command, lens: Lens)
    requires lens.Admits(c)
    ensures match c
      case NewOrder(r) => NewOrderFault(lens.MapBook(b), lens.MapRequest(r)) == NewOrderFault(b, r)
      case Cancel(r) => CancelFault(lens.MapBook(b), r) == CancelFault(b, r)
      case Replace(r) =>
        ReplaceFault(lens.MapBook(b), r.(newPrice := lens.ReflectAsked(r.newPrice))) == ReplaceFault(b, r)
  {
  }

  lemma RestImage(s: Swept, lens: Lens)
    ensures Residual(lens.MapSwept(s)) == lens.MapOrder(Residual(s))
    ensures RestResidual(lens.MapSwept(s)) == lens.MapBag(RestResidual(s))
  {
  }

  lemma AcceptImage(b: Book, r: NewOrderRequest, lens: Lens)
    requires DistinctSequences(b.bag) && lens.from <= b.nextOrder
    requires NewOrderFault(b, r).None? && NewOrderFault(lens.MapBook(b), lens.MapRequest(r)).None?
    ensures Accept(lens.MapBook(b), lens.MapRequest(r)) == lens.MapOutcome(Accept(b, r))
    ensures Residual(SweepOf(lens.MapBook(b), lens.MapRequest(r))) == lens.MapOrder(Residual(SweepOf(b, r)))
  {
    hide Sweep, Events, Trades, RestResidual, Residual, Lens.MapBag, Lens.MapEvents, Lens.MapTrades;
    var s := SweepOf(b, r);
    var taker := NewOrderValue(r, b.nextOrder);
    SweepImage(b.bag, taker, lens);
    assert SweepOf(lens.MapBook(b), lens.MapRequest(r)) == lens.MapSwept(s);
    RestImage(s, lens);
    EventsImage(s.executions, b.nextEvent + 1, lens);
    TradesImage(s.executions, b.nextTrade, b.nextEvent + 1, lens);
    var ack := AckEvent(taker, b.nextEvent);
    EventsImageOfSum([ack], Events(s.executions, b.nextEvent + 1), lens);
    OneEventImage(ack, lens);
  }

  lemma RefusalImage(b: Book, lens: Lens)
    ensures forall kind: EventType, orderId, reason, timestamp {:trigger Refuse(b, kind, orderId, reason, timestamp)} ::
      kind.Reject? || kind.CancelReject? || kind.ReplaceReject? ==>
        Refuse(lens.MapBook(b), kind, orderId, reason, timestamp)
          == lens.MapOutcome(Refuse(b, kind, orderId, reason, timestamp))
  {
  }

  lemma CancelImage(b: Book, r: CancelRequest, lens: Lens)
    ensures CancelOrder(lens.MapBook(b), r) == lens.MapOutcome(CancelOrder(b, r))
  {
  }

  lemma AfterCancelImage(b: Book, r: ReplaceRequest, lens: Lens)
    requires ReplaceFault(b, r).None? && lens.Admits(Replace(r))
    ensures var image := r.(newPrice := lens.ReflectAsked(r.newPrice));
      && ReplaceFault(lens.MapBook(b), image).None?
      && SubmitHalf(image, lens.MapBook(b).bag[r.oldOrderId]) == lens.MapRequest(SubmitHalf(r, b.bag[r.oldOrderId]))
      && AfterCancel(lens.MapBook(b), image) == lens.MapBook(AfterCancel(b, r))
  {
    FaultImage(b, Replace(r), lens);
  }

  lemma BetweenDiffer(b: Book, r: ReplaceRequest)
    requires DistinctSequences(b.bag) && ReplaceFault(b, r).None?
    ensures DistinctSequences(AfterCancel(b, r).bag) && AfterCancel(b, r).nextOrder == b.nextOrder
  {
  }

  lemma ReplaceImage(b: Book, r: ReplaceRequest, lens: Lens)
    requires DistinctSequences(b.bag) && lens.from <= b.nextOrder
    requires lens.Admits(Replace(r)) && ReplaceFault(b, r).None?
    ensures Step(lens.MapBook(b), lens.MapCommand(Replace(r))) == lens.MapOutcome(Step(b, Replace(r)))
  {
    hide Accept, Sweep, AfterCancel, SubmitHalf, DistinctSequences, Lens.MapBag, Lens.MapEvents;
    var request := SubmitHalf(r, b.bag[r.oldOrderId]);
    AfterCancelImage(b, r, lens);
    CancelImage(b, CancelHalf(r), lens);
    BetweenDiffer(b, r);
    AcceptImage(AfterCancel(b, r), request, lens);
    var submitted := Accept(AfterCancel(b, r), request);
    var ack := ReplaceAckEvent(r.oldOrderId, Residual(SweepOf(AfterCancel(b, r), request)),
                               submitted.book.nextEvent, r.timestamp);
    var cancelled := CancelOrder(b, CancelHalf(r)).report.events;
    EventsImageOfSum(cancelled, [ack], lens);
    EventsImageOfSum(cancelled + [ack], submitted.report.events, lens);
    OneEventImage(ack, lens);
  }

  lemma StepImage(b: Book, c: Command, lens: Lens)
    requires WellFormed(b) && lens.from <= b.nextOrder && lens.Admits(c)
    ensures Step(lens.MapBook(b), lens.MapCommand(c)) == lens.MapOutcome(Step(b, c))
  {
    hide Accept, Sweep, NewOrderFault, CancelFault, ReplaceFault, CancelOrder, WellFormed, DistinctSequences;
    hide Lens.MapBook;
    FaultImage(b, c, lens);
    RefusalImage(b, lens);
    SequencesDiffer(b);
    match c
    case NewOrder(r) =>
      if NewOrderFault(b, r).None? { AcceptImage(b, r, lens); }
    case Cancel(r) => CancelImage(b, r, lens);
    case Replace(r) =>
      if ReplaceFault(b, r).None? { ReplaceImage(b, r, lens); }
  }

  // ---------- Whole runs ----------

  lemma CommandsImageOfLast(cs: seq<Command>, lens: Lens)
    requires cs != []
    ensures |lens.MapCommands(cs)| == |cs|
    ensures lens.MapCommands(cs)[..|cs| - 1] == lens.MapCommands(cs[..|cs| - 1])
    ensures lens.MapCommands(cs)[|cs| - 1] == lens.MapCommand(cs[|cs| - 1])
  {
  }

  lemma ReportsImageOfSum(rs: seq<Report>, r: Report, lens: Lens)
    ensures lens.MapReports([]) == []
    ensures lens.MapReports(rs + [r]) == lens.MapReports(rs) + [lens.MapReport(r)]
  {
  }

  /** A run and its image stay images of each other, books and reports alike, from any well-formed book on. */
  lemma {:induction false} RunImage(b: Book, cs: seq<Command>, lens: Lens)
    requires WellFormed(b) && lens.from <= b.nextOrder
    requires forall c :: c in cs ==> lens.Admits(c)
    ensures Run(lens.MapBook(b), lens.MapCommands(cs)) == lens.MapBook(Run(b, cs))
    ensures Reports(lens.MapBook(b), lens.MapCommands(cs)) == lens.MapReports(Reports(b, cs))
    ensures WellFormed(Run(b, cs)) && b.nextOrder <= Run(b, cs).nextOrder
  {
    hide WellFormed, Step, Lens.MapBook, Lens.MapCommand, Lens.MapReports, Lens.Admits;
    ReportsImageOfSum([], EMPTY_REPORT, lens);
    if cs != [] {
      var before, last := cs[..|cs| - 1], cs[|cs| - 1];
      RunImage(b, before, lens);
      CommandsImageOfLast(cs, lens);
      StepKeepsWellFormed(Run(b, before), last);
      StepKeepsNumbering(Run(b, before), last);
      StepImage(Run(b, before), last, lens);
      ReportsImageOfSum(Reports(b, before), Step(Run(b, before), last).report, lens);
    }
  }

  lemma StepKeepsNumbering(b: Book, c: Command)
    ensures Step(b, c).book.nextOrder >= b.nextOrder
  {
  }

  /** For every history there is a mirror that lies high enough. */
  lemma {:induction false} MirrorAbove(cs: seq<Command>) returns (top: int)
    ensures forall c :: c in cs ==> Mirror(top).Admits(c)
  {
    if cs == [] {
      top := 0;
    } else {
      var below := MirrorAbove(cs[..|cs| - 1]);
      var price := match cs[|cs| - 1]
        case NewOrder(r) => r.price
        case Cancel(_) => 0
        case Replace(r) => r.newPrice;
      top := if price < below then below else price + 1;
      forall c | c in cs ensures Mirror(top).Admits(c) {
        if c in cs[..|cs| - 1] {
          assert Mirror(below).Admits(c);
        }
      }
    }
  }

  /** Buys and sells are treated alike: the mirror image of a run from an empty book is the run of the mirror image. */
  lemma MirroredRun(symbolId: nat, cs: seq<Command>, top: int)
    requires forall c :: c in cs ==> Mirror(top).Admits(c)
    ensures var b := EmptyBook(symbolId);
      && Run(b, Mirror(top).MapCommands(cs)) == Mirror(top).MapBook(Run(b, cs))
      && Reports(b, Mirror(top).MapCommands(cs)) == Mirror(top).MapReports(Reports(b, cs))
  {
    hide Step;
    RunImage(EmptyBook(symbolId), cs, Mirror(top));
    assert Mirror(top).MapBook(EmptyBook(symbolId)) == EmptyBook(symbolId);
  }

  lemma DelayKeepsPriority(bag: Bag, lens: Lens)
    requires !lens.mirrored
    ensures SamePriority(bag, lens.MapBag(bag))
  {
  }

  /** Only the order of sequences matters: a book whose counters are ahead runs alike, new numbers being ahead too. */
  lemma DelayedRun(b: Book, cs: seq<Command>, late: nat, shift: nat)
    requires WellFormed(b)
    ensures var delay := Delay(b.nextOrder, late, shift);
      var ahead := b.(nextOrder := b.nextOrder + late, nextEvent := b.nextEvent + shift);
      && Run(ahead, cs) == delay.MapBook(Run(b, cs))
      && Reports(ahead, cs) == delay.MapReports(Reports(b, cs))
  {
    hide Step;
    var delay := Delay(b.nextOrder, late, shift);
    RunImage(b, cs, delay);
    assert delay.MapBag(b.bag) == b.bag;
    assert delay.MapCommands(cs) == cs;
  }
}
