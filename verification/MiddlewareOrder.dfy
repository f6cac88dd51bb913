/** The first middleware of a list is the outermost (src/ojs/middleware/__init__.py:69-84). */
module MiddlewareOrder {
  import opened Wrappers
  import opened EnqueueChain
  import opened MiddlewareChain

  /** A middleware that changes the request on its way in and the outcome on its way out. */
  datatype Wrap = Wrap(inward: Request -> Request, outward: Outcome -> Outcome)

  datatype Phase = Before(request: Request) | Behind(outcome: Outcome)

  function Wrapping(w: Wrap): Code<Phase> {
    Code(request => Before(request), phase => Through(w, phase))
  }

  function Through(w: Wrap, phase: Phase): Action<Phase> {
    match phase
    case Before(request) => Dispatch(w.inward(request), outcome => Behind(outcome))
    case Behind(outcome) => Settle(w.outward(outcome))
  }

  function Codes(ws: seq<Wrap>): (r: seq<Code<Phase>>)
    ensures |r| == |ws|
  {
    seq(|ws|, i requires 0 <= i < |ws| => Wrapping(ws[i]))
  }

  /** The request as the terminal gets it: changed by the first middleware first. */
  function Inward(ws: seq<Wrap>, request: Request): Request {
    if ws == [] then request else Inward(ws[1..], ws[0].inward(request))
  }

  /** The outcome as the caller gets it: changed by the first middleware last. */
  function Outward(ws: seq<Wrap>, outcome: Outcome): Outcome {
    if ws == [] then outcome else ws[0].outward(Outward(ws[1..], outcome))
  }

  lemma {:induction false} OutermostFirst(ws: seq<Wrap>, request: Request, answers: seq<Outcome>)
    requires answers != []
    ensures Execute(Codes(ws), request, answers, 2 * |ws| + 1)
         == Some(Run(Outward(ws, answers[0]), [Inward(ws, request)], answers[1..]))
    decreases |ws|
  {
    if ws != [] {
      var ms, fuel := Codes(ws), 2 * |ws[1..]| + 1;
      assert ms[1..] == Codes(ws[1..]) && ms[0] == Wrapping(ws[0]);
      OutermostFirst(ws[1..], ws[0].inward(request), answers);
      OneWrap(ws[0], ms, request, answers, fuel, Execute(ms[1..], ws[0].inward(request), answers, fuel).value);
    }
  }

  lemma OneWrap(w: Wrap, ms: seq<Code<Phase>>, request: Request, answers: seq<Outcome>, fuel: nat, inner: Run)
    requires ms != [] && ms[0] == Wrapping(w) && fuel > 0
    requires Execute(ms[1..], w.inward(request), answers, fuel) == Some(inner)
    ensures Execute(ms, request, answers, fuel + 2) == Some(Run(w.outward(inner.outcome), inner.calls, inner.left))
  {
    assert Inside(ms, Behind(inner.outcome), inner.left, fuel) == Some(Run(w.outward(inner.outcome), [], inner.left));
    assert inner.calls + [] == inner.calls;
    var dispatched := ms[0].act(Before(request));
    assert dispatched.Dispatch? && dispatched.candidate == w.inward(request);
    assert dispatched.resume(inner.outcome) == Behind(inner.outcome);
  }
}
