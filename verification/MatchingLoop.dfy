/** The polling loop as a class: batches of commands from the ring buffer through the engine to the sink. */
module MatchingLoops {
  import opened Model
  import opened Engine
  import opened SpscRingBuffers

  class MatchingLoop {
    const engine: MatchingEngine
    const queue: SpscRingBuffer<Command>
    /** The sink: all reports handed to it. */
    var log: seq<Report>
    var totalCommandsProcessed: nat

    ghost predicate Valid()
      reads this, engine, engine.repr, queue, queue.buffer
    {
      && engine.Valid() && queue.Valid()
      && this !in engine.repr && queue !in engine.repr && queue.buffer !in engine.repr
    }

    constructor (engine: MatchingEngine, queue: SpscRingBuffer<Command>)
      requires engine.Valid() && queue.Valid()
      requires queue !in engine.repr && queue.buffer !in engine.repr
      ensures Valid() && this.engine == engine && this.queue == queue
      ensures log == [] && totalCommandsProcessed == 0
    {
      this.engine, this.queue := engine, queue;
      log, totalCommandsProcessed := [], 0;
    }

    /** Pop one command if there is one, dispatch it, and hand the report to the sink. */
    method PollOnce() returns (polled: bool)
      requires Valid()
      modifies this, engine.repr, queue
      ensures Valid() && fresh(engine.repr - old(engine.repr))
      ensures polled <==> old(queue.Contents()) != []
      ensures !polled ==> queue.Contents() == [] && engine.View() == old(engine.View())
      ensures !polled ==> log == old(log) && totalCommandsProcessed == old(totalCommandsProcessed)
      ensures polled ==>
        var d := Dispatch(old(engine.View()), old(queue.Contents())[0]);
        && queue.Contents() == old(queue.Contents())[1..]
        && engine.View() == d.books
        && log == old(log) + [d.report]
        && totalCommandsProcessed == old(totalCommandsProcessed) + 1
    {
      hide MatchingEngine.Valid, MatchingEngine.View, Dispatch, SpscRingBuffer.Stored, SpscRingBuffer.Counted;
      var popped, command := queue.Pop(BLANK_COMMAND);
      if !popped {
        return false;
      }
      var report := engine.DispatchCommand(command);
      log := log + [report];
      totalCommandsProcessed := totalCommandsProcessed + 1;
      polled := true;
    }

    /** At most `maxCount` commands, as many as are queued, in queue order. */
    method PollBatch(maxCount: nat) returns (consumed: nat)
      requires Valid()
      modifies this, engine.repr, queue
      ensures Valid() && fresh(engine.repr - old(engine.repr))
      ensures consumed == if maxCount < |old(queue.Contents())| then maxCount else |old(queue.Contents())|
      ensures var taken := old(queue.Contents())[..consumed];
        && queue.Contents() == old(queue.Contents())[consumed..]
        && engine.View() == RunEngine(old(engine.View()), taken)
        && log == old(log) + EngineReports(old(engine.View()), taken)
        && totalCommandsProcessed == old(totalCommandsProcessed) + consumed
    {
      hide MatchingEngine.Valid, MatchingEngine.View, Dispatch, RunEngine, EngineReports;
      hide SpscRingBuffer.Stored, SpscRingBuffer.Counted;
      ghost var all, books := queue.Contents(), engine.View();
      NothingPolled(books);
      consumed := 0;
      while consumed < maxCount
        invariant Valid() && fresh(engine.repr - old(engine.repr))
        invariant consumed <= |all| && consumed <= maxCount
        invariant queue.Contents() == all[consumed..]
        invariant engine.View() == RunEngine(books, all[..consumed])
        invariant log == old(log) + EngineReports(books, all[..consumed])
        invariant totalCommandsProcessed == old(totalCommandsProcessed) + consumed
        decreases maxCount - consumed
      {
        var polled := PollOnce();
        if !polled {
          break;
        }
        assert all[..consumed + 1] == all[..consumed] + [all[consumed]];
        RunEngineOfLast(books, all[..consumed], all[consumed]);
        consumed := consumed + 1;
      }
    }

    static lemma NothingPolled(books: Shelf)
      ensures RunEngine(books, []) == books && EngineReports(books, []) == []
    {
    }
  }
}
