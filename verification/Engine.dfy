/** The multi-symbol engine: routing of commands to books, as a value and as the class of the source. */
module Engine {
  import opened Model
  import opened Books
  import opened OrderBooks
  import opened Answers

  /** The books of the registered symbols. */
  type Shelf = map<nat, Book>

  datatype Dispatched = Dispatched(books: Shelf, report: Report)

  /** The engine's own reject: no book is involved, so it carries event number 0. */
  function UnknownSymbolReport(c: Command): Report {
    var e := match c
      case NewOrder(r) => RejectEvent(EventType.Reject, r.orderId, r.symbolId, UnknownSymbol, 0, r.timestamp)
      case Cancel(r) => RejectEvent(CancelReject, r.orderId, r.symbolId, UnknownSymbol, 0, r.timestamp)
      case Replace(r) => RejectEvent(ReplaceReject, r.oldOrderId, r.symbolId, UnknownSymbol, 0, r.timestamp);
    Report([e], [])
  }

  ghost function Dispatch(books: Shelf, c: Command): Dispatched {
    if c.Symbol() !in books then Dispatched(books, UnknownSymbolReport(c))
    else
      var o := Step(books[c.Symbol()], c);
      Dispatched(books[c.Symbol() := o.book], o.report)
  }

  ghost function RunEngine(books: Shelf, cs: seq<Command>): Shelf {
    if cs == [] then books else Dispatch(RunEngine(books, cs[..|cs| - 1]), cs[|cs| - 1]).books
  }

  ghost function EngineReports(books: Shelf, cs: seq<Command>): seq<Report> {
    if cs == [] then []
    else EngineReports(books, cs[..|cs| - 1]) + [Dispatch(RunEngine(books, cs[..|cs| - 1]), cs[|cs| - 1]).report]
  }

  /** The engine on a history that ends in `c`. */
  lemma RunEngineOfLast(books: Shelf, cs: seq<Command>, c: Command)
    ensures var d := Dispatch(RunEngine(books, cs), c);
      && RunEngine(books, cs + [c]) == d.books
      && EngineReports(books, cs + [c]) == EngineReports(books, cs) + [d.report]
  {
    assert (cs + [c])[..|cs|] == cs;
  }

  /** A command for a symbol that is not registered is answered by the engine itself, and no book knows of it. */
  lemma UnknownSymbolAnswer(books: Shelf, c: Command)
    requires c.Symbol() !in books
    ensures var d := Dispatch(books, c);
      && d.books == books && d.report.trades == [] && |d.report.events| == 1
      && var e := d.report.events[0];
        && e.kind == RefusalOf(c) && e.symbolId == c.Symbol() && e.orderId == Target(c)
        && e.relatedOrderId == INVALID_ID && e.price == e.quantity == e.leaves == 0
        && e.reason.UnknownSymbol? && e.sequence == 0 && e.timestamp == TimeOf(c)
  {
    assert Dispatch(books, c).report == UnknownSymbolReport(c);
  }

  // ---------- Projection on one symbol ----------

  function Only(cs: seq<Command>, symbol: nat): seq<Command> {
    if cs == [] then []
    else Only(cs[..|cs| - 1], symbol) + if cs[|cs| - 1].Symbol() == symbol then [cs[|cs| - 1]] else []
  }

  /** The reports that answer the commands of one symbol. */
  function OnlyReports(rs: seq<Report>, cs: seq<Command>, symbol: nat): seq<Report>
    requires |rs| == |cs|
  {
    if cs == [] then []
    else
      OnlyReports(rs[..|rs| - 1], cs[..|cs| - 1], symbol)
      + if cs[|cs| - 1].Symbol() == symbol then [rs[|rs| - 1]] else []
  }

  lemma {:induction false} ReportsAnswer(books: Shelf, cs: seq<Command>)
    ensures |EngineReports(books, cs)| == |cs|
    ensures RunEngine(books, cs).Keys == books.Keys
  {
    if cs != [] {
      ReportsAnswer(books, cs[..|cs| - 1]);
    }
  }

  /** Run and Reports on a history that ends in `c`. */
  lemma RunOfLast(b: Book, cs: seq<Command>, c: Command)
    ensures Run(b, cs + [c]) == Step(Run(b, cs), c).book
    ensures Reports(b, cs + [c]) == Reports(b, cs) + [Step(Run(b, cs), c).report]
  {
    assert (cs + [c])[..|cs|] == cs;
  }

  lemma OnlyReportsOfLast(rs: seq<Report>, cs: seq<Command>, r: Report, c: Command, symbol: nat)
    requires |rs| == |cs|
    ensures OnlyReports(rs + [r], cs + [c], symbol)
         == OnlyReports(rs, cs, symbol) + if c.Symbol() == symbol then [r] else []
  {
    assert (cs + [c])[..|cs|] == cs && (rs + [r])[..|rs|] == rs;
  }

  /** A registered symbol sees its own commands and nothing else. */
  lemma {:induction false} SymbolsAreIndependent(books: Shelf, cs: seq<Command>, symbol: nat)
    requires symbol in books
    ensures symbol in RunEngine(books, cs) && |EngineReports(books, cs)| == |cs|
    ensures RunEngine(books, cs)[symbol] == Run(books[symbol], Only(cs, symbol))
    ensures OnlyReports(EngineReports(books, cs), cs, symbol) == Reports(books[symbol], Only(cs, symbol))
  {
    hide Step, Run, Reports, OnlyReports;
    NothingRuns(books[symbol]);
    if cs != [] {
      var before, last := cs[..|cs| - 1], cs[|cs| - 1];
      SymbolsAreIndependent(books, before, symbol);
      RunOfLast(books[symbol], Only(before, symbol), last);
      OnlyReportsOfLast(EngineReports(books, before), before,
                        Dispatch(RunEngine(books, before), last).report, last, symbol);
      assert cs == before + [last];
      assert Only(before, symbol) + [] == Only(before, symbol);
      var reports := OnlyReports(EngineReports(books, before), before, symbol);
      assert reports + [] == reports;
    }
  }

  lemma NothingRuns(b: Book)
    ensures Run(b, []) == b && Reports(b, []) == [] && forall symbol :: OnlyReports([], [], symbol) == []
  {
  }

  /** Adjacent commands of different symbols may be exchanged: same books, same answers. */
  lemma DifferentSymbolsCommute(books: Shelf, c: Command, d: Command)
    requires c.Symbol() != d.Symbol()
    ensures var cd := Dispatch(Dispatch(books, c).books, d);
      var dc := Dispatch(Dispatch(books, d).books, c);
      && cd.books == dc.books
      && cd.report == Dispatch(books, d).report
      && dc.report == Dispatch(books, c).report
  {
    hide Step;
  }

  /** Books are registered under their own symbol, and each of them is reachable. */
  predicate Registered(books: Shelf) {
    forall s :: s in books ==> books[s].symbolId == s && WellFormed(books[s])
  }

  /** Dispatch keeps that, so no book ever answers a dispatched command with UnknownSymbol. */
  lemma DispatchKeepsRegistered(books: Shelf, c: Command)
    requires Registered(books)
    ensures Registered(Dispatch(books, c).books)
    ensures c.Symbol() in books ==>
      match c
      case NewOrder(r) => !NewOrderFault(books[r.symbolId], r).UnknownSymbol?
      case Cancel(r) => !CancelFault(books[r.symbolId], r).UnknownSymbol?
      case Replace(r) => !ReplaceFault(books[r.symbolId], r).UnknownSymbol?
  {
    hide WellFormed, Accept;
    if c.Symbol() in books {
      StepKeepsWellFormed(books[c.Symbol()], c);
      StepKeepsSymbol(books[c.Symbol()], c);
    }
  }

  // ---------- The class ----------

  class MatchingEngine {
    var books: map<nat, OrderBook>
    ghost var repr: set<object>

    ghost predicate Valid()
      reads this, repr
    {
      && this in repr
      && (forall s :: s in books ==>
            && books[s] in repr && books[s] in books[s].repr && books[s].repr <= repr && this !in books[s].repr
            && books[s].symbolId == s && books[s].Valid())
      && (forall s, t :: s in books && t in books && s != t ==> books[s].repr !! books[t].repr)
    }

    ghost function View(): Shelf
      reads this`books, books.Values
    {
      map s | s in books :: books[s].View()
    }

    constructor ()
      ensures Valid() && fresh(repr) && View() == map[]
    {
      books := map[];
      repr := {this};
    }

    predicate HasSymbol(symbol: nat)
      reads this
    {
      symbol in books
    }

    /** Register a symbol with an empty book, unless it is invalid or already registered. */
    method AddSymbol(symbol: nat) returns (added: bool)
      requires Valid()
      modifies this
      ensures Valid() && fresh(repr - old(repr)) && old(repr) <= repr
      ensures added <==> symbol != INVALID_ID && symbol !in old(View())
      ensures View() == if added then old(View())[symbol := EmptyBook(symbol)] else old(View())
    {
      hide OrderBook.Valid, OrderBook.View;
      if symbol == INVALID_ID || HasSymbol(symbol) {
        return false;
      }
      var book := new OrderBook(symbol);
      books := books[symbol := book];
      repr := repr + book.repr;
      added := true;
    }

    method RemoveSymbol(symbol: nat) returns (removed: bool)
      requires Valid()
      modifies this
      ensures Valid() && repr == old(repr)
      ensures removed <==> symbol in old(View())
      ensures View() == old(View()) - {symbol}
    {
      hide OrderBook.Valid;
      removed := HasSymbol(symbol);
      books := books - {symbol};
    }

    /** Route a command to the book of its symbol, or reject it. */
    method DispatchCommand(c: Command) returns (report: Report)
      requires Valid()
      modifies repr
      ensures Valid() && fresh(repr - old(repr)) && old(repr) <= repr
      ensures Dispatched(View(), report) == Dispatch(old(View()), c)
    {
      hide OrderBook.Valid, Step;
      if !HasSymbol(c.Symbol()) {
        report := UnknownSymbolReport(c);
        return;
      }
      var book := books[c.Symbol()];
      report := Route(book, c);
      assert View() == old(View())[c.Symbol() := book.View()];
      repr := repr + book.repr;
    }

    static method Route(book: OrderBook, c: Command) returns (report: Report)
      requires book.Valid() && book in book.repr
      modifies book.repr
      ensures book.Valid() && book in book.repr && old(book.repr) <= book.repr && fresh(book.repr - old(book.repr))
      ensures Outcome(book.View(), report) == Step(old(book.View()), c)
    {
      hide OrderBook.Valid, Accept, Submit;
      match c
      case NewOrder(r) => report := book.SubmitOrder(r);
      case Cancel(r) => report := book.CancelOrder(r);
      case Replace(r) => report := book.ReplaceOrder(r);
    }
  }
}
