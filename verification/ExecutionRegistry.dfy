/** The running executions of one worker run and their `_empty` event
    (src/ojs/worker/execution_registry.py). */
module ExecutionRegistry {
  import opened LeaseAdmission

  datatype Executions = Executions(jobs: map<Token, string>, emptySet: bool)

  const NONE := Executions(map[], true)

  function Registered(e: Executions, token: Token, jobId: string): Executions {
    Executions(e.jobs[token := jobId], false)
  }

  function Completed(e: Executions, token: Token): Executions {
    if token in e.jobs then
      var left := e.jobs - {token};
      Executions(left, if left == map[] then true else e.emptySet)
    else e
  }

  /** The event is set exactly when nothing is registered. */
  predicate EventTells(e: Executions) {
    e.emptySet <==> e.jobs == map[]
  }

  class Registry {
    const admission: Admission
    var jobs: map<Token, string>
    var emptySet: bool

    ghost function View(): Executions
      reads this
    {
      Executions(jobs, emptySet)
    }

    ghost predicate Valid()
      reads this, admission
    {
      admission.Valid() && EventTells(View())
    }

    constructor (admission: Admission)
      requires admission.Valid()
      ensures Valid() && View() == NONE && this.admission == admission
    {
      this.admission := admission;
      jobs := map[];
      emptySet := true;
    }

    /** A token already registered raises and changes nothing. */
    method Register(token: Token, jobId: string) returns (duplicate: bool)
      requires Valid()
      modifies this
      ensures Valid() && duplicate == (token in old(jobs))
      ensures View() == if duplicate then old(View()) else Registered(old(View()), token, jobId)
    {
      duplicate := token in jobs;
      if !duplicate {
        jobs := jobs[token := jobId];
        emptySet := false;
        assert token in jobs;
      }
    }

    /** Forgets the execution and gives its permit back, once. */
    method Complete(token: Token) returns (known: bool)
      requires Valid()
      modifies this, admission
      ensures Valid() && known == (token in old(jobs))
      ensures View() == Completed(old(View()), token)
      ensures admission.View() == if known then Release(old(admission.View()), token) else old(admission.View())
      ensures known ==> token !in admission.permits
      ensures known && token in old(admission.permits) ==> admission.semaphore == old(admission.semaphore) + 1
    {
      known := token in jobs;
      if known {
        jobs := jobs - {token};
        var released := admission.Free(token);
        if jobs == map[] { emptySet := true; }
      }
    }
  }
}
