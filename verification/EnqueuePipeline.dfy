/** The loops of `enqueue_batch` over its own lists, in place. Each method does to the
    lists what one step of the machine in EnqueueBatch does to the state. */
module EnqueuePipeline {
  import opened Wrappers
  import opened EnqueueChain
  import opened EnqueueBatch

  class BatchRun<C(!new)> {
    const cells: array<Cell<C>>
    var main: Main
    var pushes: seq<seq<Request>>

    ghost function View(): Batch<C>
      reads this, cells
    {
      Batch(cells[..], main, pushes)
    }

    constructor (requests: seq<Request>)
      ensures fresh(cells) && View() == Start(requests)
    {
      cells := new Cell<C>[|requests|](i requires 0 <= i < |requests| =>
                                         Cell(Fresh(requests[i]), false, None, None, None, None));
      main := if requests == [] then Done(Ok([])) else Gathering;
      pushes := [];
      new;
      assert cells[..] == Start<C>(requests).cells;
    }

    /** One scheduling of item `i`'s task. */
    method RunChain(code: Code<C>, i: nat)
      requires !main.Done? && i < cells.Length && Enabled(cells[i]) && NothingYet(cells[i])
      modifies cells
      ensures ChainStep(code, old(View()), View(), i)
    {
      var cell := cells[i];
      if cell.local.Parked? {
        cell := cell.(local := Resumed(cell.local, cell.future.value));
      } else {
        var next := Advance(code, cell.local);
        cell := cell.(local := next);
        if next.Parked? {
          cell := cell.(terminal := Some(next.candidate));
          if !cell.decided { cell := cell.(decided := true); }
        } else if next.Over? {
          match next.outcome {
            case Returned(job) => cell := cell.(result := job);
            case Raised(e) => cell := cell.(error := Some(e));
            case Cancelled =>
          }
          if !cell.decided { cell := cell.(decided := true); }
        }
      }
      cells[i] := cell;
    }

    method MarkRejected()
      modifies cells
      ensures cells[..] == MarkAll(old(cells[..]))
    {
      for i := 0 to cells.Length
        invariant forall k | 0 <= k < i :: cells[k] == Mark(old(cells[k]), k)
        invariant forall k | i <= k < cells.Length :: cells[k] == old(cells[k])
      {
        cells[i] := Mark(cells[i], i);
      }
    }

    method FailTerminals(e: Error)
      modifies cells
      ensures cells[..] == FailAll(old(cells[..]), e)
    {
      for i := 0 to cells.Length
        invariant forall k | 0 <= k < i :: cells[k] == Fail(old(cells[k]), e)
        invariant forall k | i <= k < cells.Length :: cells[k] == old(cells[k])
      {
        cells[i] := Fail(cells[i], e);
      }
    }

    method LowestError() returns (e: Option<Error>)
      ensures e == FirstError(cells[..])
    {
      for i := 0 to cells.Length
        invariant FirstError(cells[..]) == FirstError(cells[i..])
      {
        assert cells[i..][0] == cells[i] && cells[i..][1..] == cells[i + 1..];
        if cells[i].error.Some? { return cells[i].error; }
      }
      return None;
    }

    method CollectPending() returns (batch: seq<Request>)
      ensures batch == Pending(cells[..])
    {
      batch := [];
      for i := 0 to cells.Length
        invariant batch == Pending(cells[..i])
      {
        assert cells[..i + 1][..i] == cells[..i];
        if cells[i].terminal.Some? { batch := batch + [cells[i].terminal.value]; }
      }
      assert cells[..cells.Length] == cells[..];
    }

    /** All gates are open: abort the batch, or hand over its one list to push. */
    method OpenBarrier()
      requires main.Gathering? && AllDecided(cells[..])
      modifies this, cells
      ensures View() == PassBarrier(old(View()))
    {
      MarkRejected();
      var failure := LowestError();
      if failure.Some? {
        FailTerminals(failure.value);
        main := Joining(Abort(failure.value));
      } else {
        var batch := CollectPending();
        if batch == [] {
          main := Joining(Settled);
        } else {
          main := Pushing(batch);
          pushes := pushes + [batch];
        }
      }
    }

    /** `zip(pending, dispatched)`: each terminal gets the next job. */
    method AnswerTerminals(jobs: seq<Job>)
      requires Rank(cells[..], cells.Length) == |jobs|
      modifies cells
      ensures cells[..] == AnswerAll(old(cells[..]), jobs)
    {
      ghost var was := cells[..];
      var next := 0;
      for i := 0 to cells.Length
        invariant next == Rank(was, i)
        invariant forall k | 0 <= k < i :: cells[k] == Answer(was, jobs, k)
        invariant forall k | i <= k < cells.Length :: cells[k] == was[k]
      {
        if cells[i].terminal.Some? {
          RankMonotone(was, i + 1, cells.Length);
          if cells[i].future.None? {
            cells[i] := cells[i].(future := Some(Returned(Some(jobs[next]))));
          }
          next := next + 1;
        }
      }
    }

    method ReceiveReply(reply: Result<seq<Job>, Error>)
      requires main.Pushing? && |main.batch| == Rank(cells[..], cells.Length)
      modifies this, cells
      ensures View() == TakeReply(old(View()), reply)
    {
      match Received(reply, |main.batch|)
      case Err(e) =>
        FailTerminals(e);
        main := Joining(PushFailed(e));
      case Ok(jobs) =>
        AnswerTerminals(jobs);
        main := Joining(Settled);
    }

    /** All tasks are done: raise the lowest error or return what is left. */
    method Finish() returns (result: Result<seq<Job>, Error>)
      requires main.Joining? && AllOver(cells[..])
      modifies this`main
      ensures result == Conclude(cells[..], old(main).end)
      ensures View() == old(View()).(main := Done(result))
    {
      if !main.end.Settled? {
        result := Err(main.end.error);
      } else {
        var e := LowestError();
        if e.Some? {
          result := Err(e.value);
        } else {
          var kept: seq<Job> := [];
          for i := 0 to cells.Length
            invariant kept == Kept(cells[..i])
          {
            assert cells[..i + 1][..i] == cells[..i];
            if cells[i].result.Some? { kept := kept + [cells[i].result.value]; }
          }
          assert cells[..cells.Length] == cells[..];
          result := Ok(kept);
        }
      }
      main := Done(result);
    }
  }
}
