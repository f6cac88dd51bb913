/** One iteration of the fetch loop on the objects it works with
    (src/ojs/worker/runtime.py:193-217). */
module FetchIteration {
  import opened Numbers
  import opened LeaseAdmission
  import opened ExecutionRegistry
  import opened WorkerProtocol

  /** What the request for jobs comes to; either exception leaves the job list empty. */
  datatype Reply = Jobs(ids: seq<string>) | Raised

  function IdsOf(reply: Reply): seq<string> {
    match reply
    case Jobs(ids) => ids
    case Raised => []
  }

  function RegisterAll(e: Executions, tokens: seq<Token>, jobs: seq<string>): Executions
    requires |tokens| == |jobs|
  {
    if tokens == [] then e
    else Registered(RegisterAll(e, tokens[..|tokens| - 1], jobs[..|jobs| - 1]), tokens[|tokens| - 1], jobs[|jobs| - 1])
  }

  lemma RegisterNext(e: Executions, tokens: seq<Token>, jobs: seq<string>, k: nat)
    requires k < |tokens| && k < |jobs|
    ensures RegisterAll(e, tokens[..k + 1], jobs[..k + 1])
         == Registered(RegisterAll(e, tokens[..k], jobs[..k]), tokens[k], jobs[k])
  {
    assert tokens[..k + 1][..k] == tokens[..k] && jobs[..k + 1][..k] == jobs[..k];
  }

  lemma {:induction false} RegisterFirst(e: Executions, tokens: seq<Token>, jobs: seq<string>)
    requires 0 < |tokens| == |jobs|
    ensures RegisterAll(e, tokens, jobs) == RegisterAll(Registered(e, tokens[0], jobs[0]), tokens[1..], jobs[1..])
  {
    var n := |tokens| - 1;
    if n > 0 {
      RegisterFirst(e, tokens[..n], jobs[..n]);
      assert tokens[..n][1..] == tokens[1..][..n - 1] && jobs[..n][1..] == jobs[1..][..n - 1];
    } else {
      assert tokens[..0] == [] && tokens[1..] == [];
    }
  }

  /** The protocol's way of starting jobs is registering them in order. */
  lemma {:induction false} StartAllRegisters(w: Worker, tokens: seq<Token>, jobs: seq<string>)
    requires |tokens| == |jobs|
    ensures StartAll(w, tokens, jobs).executions == RegisterAll(w.executions, tokens, jobs)
    ensures StartAll(w, tokens, jobs).pool == w.pool
    decreases |tokens|
  {
    if tokens != [] {
      RegisterFirst(w.executions, tokens, jobs);
      StartAllRegisters(w.(executions := Registered(w.executions, tokens[0], jobs[0]),
                           tasks := w.tasks[tokens[0] := Created]), tokens[1..], jobs[1..]);
    }
  }

  lemma {:induction false} RegisterAllKeys(e: Executions, tokens: seq<Token>, jobs: seq<string>)
    requires |tokens| == |jobs|
    ensures RegisterAll(e, tokens, jobs).jobs.Keys == e.jobs.Keys + Elements(tokens)
  {
    if tokens == [] {
      assert Elements(tokens) == {};
    } else {
      var n := |tokens| - 1;
      RegisterAllKeys(e, tokens[..n], jobs[..n]);
      assert tokens == tokens[..n] + [tokens[n]];
      assert Elements(tokens) == Elements(tokens[..n]) + {tokens[n]};
    }
  }

  /** The loop over admitted jobs and their permits. */
  method StartAdmitted(registry: Registry, permits: seq<Token>, jobs: seq<string>) returns (used: nat)
    requires registry.Valid() && Distinct(permits)
    requires forall t | t in permits :: t !in registry.jobs
    modifies registry
    ensures registry.Valid() && used == Min(|jobs|, |permits|)
    ensures registry.View() == RegisterAll(old(registry.View()), permits[..used], jobs[..used])
  {
    used := 0;
    while used < |jobs| && used < |permits|
      invariant registry.Valid() && used <= |jobs| && used <= |permits|
      invariant forall k | used <= k < |permits| :: permits[k] !in registry.jobs
      invariant registry.View() == RegisterAll(old(registry.View()), permits[..used], jobs[..used])
    {
      var duplicate := registry.Register(permits[used], jobs[used]);
      RegisterNext(old(registry.View()), permits, jobs, used);
      used := used + 1;
    }
  }

  /** The `finally`: every permit from `unused` is released. */
  method ReleaseUnused(registry: Registry, unused: seq<Token>)
    requires registry.Valid()
    modifies registry.admission
    ensures registry.Valid() && registry.View() == old(registry.View())
    ensures registry.admission.View() == ReleaseAll(old(registry.admission.View()), unused)
  {
    for k := 0 to |unused|
      invariant registry.Valid() && registry.View() == old(registry.View())
      invariant ReleaseAll(registry.admission.View(), unused[k..]) == ReleaseAll(old(registry.admission.View()), unused)
    {
      assert unused[k..][0] == unused[k] && unused[k..][1..] == unused[k + 1..];
      var released := registry.admission.Free(unused[k]);
    }
  }

  /** What an iteration leaves, as the protocol's steps have it. */
  function After(w: Worker, jobs: seq<string>): Worker
    requires w.fetch.Fetching?
  {
    GiveBack(Admitted(w, jobs), Top)
  }

  lemma AfterIs(w: Worker, jobs: seq<string>)
    requires w.fetch.Fetching?
    ensures var held, used := w.fetch.held, Min(|jobs|, |w.fetch.held|);
      && After(w, jobs).executions == RegisterAll(w.executions, held[..used], jobs[..used])
      && After(w, jobs).pool == ReleaseAll(w.pool, held[used..])
  {
    var used := Min(|jobs|, |w.fetch.held|);
    StartAllRegisters(w, w.fetch.held[..used], jobs[..used]);
  }

  lemma UnusedLeft(permits: seq<Token>, used: nat)
    requires Distinct(permits) && used <= |permits|
    ensures Elements(permits) == Elements(permits[..used]) + Elements(permits[used..])
    ensures Elements(permits[..used]) !! Elements(permits[used..]) && Distinct(permits[used..])
  {
    assert permits == permits[..used] + permits[used..];
  }

  /** Every live permit belongs to an execution or to this iteration. */
  ghost predicate Holding(w: Worker, permits: seq<Token>) {
    && Conserved(w.pool) && Distinct(permits)
    && w.pool.permits == w.executions.jobs.Keys + Elements(permits)
    && w.executions.jobs.Keys !! Elements(permits)
  }

  lemma AfterHolds(w: Worker, jobs: seq<string>)
    requires w.fetch.Fetching? && Holding(w, w.fetch.held)
    ensures Conserved(After(w, jobs).pool) && After(w, jobs).pool.permits == After(w, jobs).executions.jobs.Keys
  {
    var held, used := w.fetch.held, Min(|jobs|, |w.fetch.held|);
    AfterIs(w, jobs);
    UnusedLeft(held, used);
    RegisterAllKeys(w.executions, held[..used], jobs[..used]);
    ReleaseAllConserves(w.pool, held[used..]);
  }

  /** One iteration from the request on. Whatever the reply, the registry and the pool end as
      the protocol's steps leave them, and every live permit belongs to an execution. */
  method Iterate(registry: Registry, permits: seq<Token>, reply: Reply, ghost w: Worker)
    requires registry.Valid() && w.pool == registry.admission.View() && w.executions == registry.View()
    requires w.fetch == Fetching(permits) && Holding(w, permits)
    modifies registry, registry.admission
    ensures registry.Valid()
    ensures registry.View() == After(w, IdsOf(reply)).executions
    ensures registry.admission.View() == After(w, IdsOf(reply)).pool
    ensures registry.admission.View().permits == registry.View().jobs.Keys
  {
    var jobs: seq<string> := [];
    if reply.Jobs? { jobs := reply.ids; }
    AfterIs(w, jobs);
    AfterHolds(w, jobs);
    PermitsFree(w, permits);
    var used := StartAdmitted(registry, permits, jobs);
    RegisterAllKeys(w.executions, permits[..used], jobs[..used]);
    UnusedFree(w, permits, used);
    ReleaseUnused(registry, permits[used..]);
  }

  lemma PermitsFree(w: Worker, permits: seq<Token>)
    requires Holding(w, permits)
    ensures forall t | t in permits :: t in w.pool.permits && t !in w.executions.jobs
  {
    forall t | t in permits ensures t in w.pool.permits && t !in w.executions.jobs { assert t in Elements(permits); }
  }

  lemma UnusedFree(w: Worker, permits: seq<Token>, used: nat)
    requires Holding(w, permits) && used <= |permits|
    ensures forall t | t in permits[used..] :: t !in w.executions.jobs.Keys + Elements(permits[..used])
  {
    UnusedLeft(permits, used);
    forall t | t in permits[used..] ensures t !in w.executions.jobs.Keys + Elements(permits[..used]) {
      assert t in Elements(permits[used..]) && t in Elements(permits);
    }
  }
}
