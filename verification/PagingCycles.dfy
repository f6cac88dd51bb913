/** Exactly when collecting an offset page is rejected
    (src/ojs/transport/grpc/paging.py:41-68). */
module PagingCycles {
  import opened Numbers
  import opened Wrappers
  import opened Paging

  /** What the loop holds at the start of a turn. */
  datatype Turn<T> = Turn(skip: nat, got: seq<T>, cursor: string)

  /** The turn after this one, if there is one and cursors may repeat. */
  function NextTurn<T>(fetch: Fetch<T>, limit: nat, t: Turn<T>): Option<Turn<T>>
    requires |t.got| <= limit
  {
    var response := fetch(t.skip + (limit - |t.got|), t.cursor);
    if response.items.None? || response.total == Text(None) then None else
      var got := Taken(t.got, response.items.value, t.skip, limit);
      if |got| >= limit || response.next == "" then None
      else Some(Turn(t.skip - Min(t.skip, |response.items.value|), got, response.next))
  }

  function TurnAt<T>(fetch: Fetch<T>, limit: nat, first: Turn<T>, n: nat): (r: Option<Turn<T>>)
    requires |first.got| < limit
    ensures r.Some? ==> |r.value.got| < limit
    decreases n
  {
    if n == 0 then Some(first) else
      match NextTurn(fetch, limit, first)
      case None => None
      case Some(next) => TurnAt(fetch, limit, next, n - 1)
  }

  /** Turn n comes to a cursor that was in `seen` or that an earlier turn came to. */
  ghost predicate Repeats<T>(fetch: Fetch<T>, limit: nat, first: Turn<T>, seen: set<string>, n: nat)
    requires |first.got| < limit
  {
    && n > 0 && TurnAt(fetch, limit, first, n).Some?
    && (TurnAt(fetch, limit, first, n).value.cursor in seen || exists m :: Meets(fetch, limit, first, m, n))
  }

  /** Turns m and n, in this order, both came to the same cursor. */
  ghost predicate Meets<T>(fetch: Fetch<T>, limit: nat, first: Turn<T>, m: nat, n: nat)
    requires |first.got| < limit
  {
    && 0 < m < n && TurnAt(fetch, limit, first, m).Some? && TurnAt(fetch, limit, first, n).Some?
    && TurnAt(fetch, limit, first, m).value.cursor == TurnAt(fetch, limit, first, n).value.cursor
  }

  lemma ShiftRepeats<T>(fetch: Fetch<T>, limit: nat, first: Turn<T>, next: Turn<T>, seen: set<string>, n: nat)
    requires |first.got| < limit && NextTurn(fetch, limit, first) == Some(next) && n > 0
    ensures Repeats(fetch, limit, next, seen + {next.cursor}, n) <==> Repeats(fetch, limit, first, seen, n + 1)
  {
    assert TurnAt(fetch, limit, first, 1) == TurnAt(fetch, limit, next, 0) == Some(next);
    var k := n + 1;
    if m: nat :| Meets(fetch, limit, next, m, n) { assert Meets(fetch, limit, first, m + 1, n + 1); }
    if Repeats(fetch, limit, next, seen + {next.cursor}, n) {
      if TurnAt(fetch, limit, next, n).value.cursor == next.cursor { assert Meets(fetch, limit, first, 1, n + 1); }
    }
    if m: nat :| Meets(fetch, limit, first, m, k) {
      if m > 1 { assert Meets(fetch, limit, next, m - 1, n); }
    }
  }

  /** The walk rejects exactly when some turn comes to a cursor again. */
  lemma {:induction false} WalkRejectsExactly<T(!new)>(fetch: Fetch<T>, limit: nat, t: Turn<T>, total: int,
                                                       seen: set<string>, space: set<string>)
    requires |t.got| < limit && FiniteCursors(fetch, space) && seen <= space
    ensures Walk(fetch, limit, t.skip, t.got, t.cursor, total, seen, space) == Err(RepeatedCursor)
            <==> exists n :: Repeats(fetch, limit, t, seen, n)
    decreases |space - seen|
  {
    var response := fetch(t.skip + (limit - |t.got|), t.cursor);
    if response.items.Some? && GoodTotal(response.total) {
      WalkGoesOn(fetch, limit, t.skip, t.got, t.cursor, total, seen, space);
      match NextTurn(fetch, limit, t) {
        case None => NoNextTurn(fetch, limit, t, seen);
        case Some(next) =>
          if next.cursor in seen {
            RepeatsNow(fetch, limit, t, next, seen);
          } else {
            FewerUnseen(space, seen, next.cursor);
            var total' := TotalAfter(response.total, total).value;
            WalkRejectsExactly(fetch, limit, next, total', seen + {next.cursor}, space);
            LaterRepeats(fetch, limit, t, next, seen);
          }
      }
    } else {
      NoNextTurn(fetch, limit, t, seen);
    }
  }

  lemma RepeatsNow<T(!new)>(fetch: Fetch<T>, limit: nat, t: Turn<T>, next: Turn<T>, seen: set<string>)
    requires |t.got| < limit && NextTurn(fetch, limit, t) == Some(next) && next.cursor in seen
    ensures Repeats(fetch, limit, t, seen, 1)
  {
    assert TurnAt(fetch, limit, t, 1) == TurnAt(fetch, limit, next, 0);
  }

  lemma NoNextTurn<T(!new)>(fetch: Fetch<T>, limit: nat, t: Turn<T>, seen: set<string>)
    requires |t.got| < limit && NextTurn(fetch, limit, t).None?
    ensures !exists n :: Repeats(fetch, limit, t, seen, n)
  {
  }

  lemma LaterRepeats<T(!new)>(fetch: Fetch<T>, limit: nat, t: Turn<T>, next: Turn<T>, seen: set<string>)
    requires |t.got| < limit && NextTurn(fetch, limit, t) == Some(next) && next.cursor !in seen
    ensures (exists n :: Repeats(fetch, limit, next, seen + {next.cursor}, n))
            <==> exists n :: Repeats(fetch, limit, t, seen, n)
  {
    if n: nat :| Repeats(fetch, limit, next, seen + {next.cursor}, n) {
      ShiftRepeats(fetch, limit, t, next, seen, n);
      assert Repeats(fetch, limit, t, seen, n + 1);
    }
    if n: nat :| Repeats(fetch, limit, t, seen, n) {
      assert TurnAt(fetch, limit, t, 1) == TurnAt(fetch, limit, next, 0) == Some(next);
      assert n > 1;
      ShiftRepeats(fetch, limit, t, next, seen, n - 1);
    }
  }

  // -------------------------------------------------------------- a backend serving a list

  /** Where the cursor stands tells what has been collected and what is left to skip. */
  ghost predicate Standing<T>(list: seq<T>, stands: string -> nat, limit: nat, offset: nat, t: Turn<T>) {
    && stands(t.cursor) <= |list|
    && t.got == Sliced(list[..stands(t.cursor)], limit, offset) && t.skip == SkipAt(offset, stands(t.cursor))
  }

  lemma NextStands<T(!new)>(fetch: Fetch<T>, list: seq<T>, stands: string -> nat, limit: nat, offset: nat, t: Turn<T>,
                            next: Turn<T>, space: set<string>)
    requires FiniteCursors(fetch, space) && Serves(fetch, list, stands, space)
    requires |t.got| < limit && (t.cursor == "" || t.cursor in space) && Standing(list, stands, limit, offset, t)
    requires NextTurn(fetch, limit, t) == Some(next)
    ensures next.cursor in space && Standing(list, stands, limit, offset, next)
    ensures stands(t.cursor) <= stands(next.cursor)
  {
    var end := TurnServed(fetch, list, stands, limit, offset, t.skip + (limit - |t.got|), t.cursor, space);
  }

  lemma {:induction false} TurnStands<T(!new)>(fetch: Fetch<T>, list: seq<T>, stands: string -> nat, limit: nat,
                                               offset: nat, t: Turn<T>, n: nat, space: set<string>)
    requires FiniteCursors(fetch, space) && Serves(fetch, list, stands, space)
    requires |t.got| < limit && (t.cursor == "" || t.cursor in space) && Standing(list, stands, limit, offset, t)
    requires TurnAt(fetch, limit, t, n).Some?
    ensures var at := TurnAt(fetch, limit, t, n).value;
      Standing(list, stands, limit, offset, at) && stands(t.cursor) <= stands(at.cursor)
          && (at.cursor == "" || at.cursor in space)
    decreases n
  {
    if n > 0 {
      var next := NextTurn(fetch, limit, t).value;
      NextStands(fetch, list, stands, limit, offset, t, next, space);
      TurnStands(fetch, list, stands, limit, offset, next, n - 1, space);
    }
  }

  lemma {:induction false} TurnsCompose<T>(fetch: Fetch<T>, limit: nat, t: Turn<T>, m: nat, n: nat)
    requires |t.got| < limit && TurnAt(fetch, limit, t, m).Some?
    ensures TurnAt(fetch, limit, TurnAt(fetch, limit, t, m).value, n) == TurnAt(fetch, limit, t, m + n)
    decreases m
  {
    if m > 0 { TurnsCompose(fetch, limit, NextTurn(fetch, limit, t).value, m - 1, n); }
  }

  lemma {:induction false} EarlierTurn<T>(fetch: Fetch<T>, limit: nat, t: Turn<T>, m: nat, n: nat)
    requires |t.got| < limit && m <= n && TurnAt(fetch, limit, t, n).Some?
    ensures TurnAt(fetch, limit, t, m).Some?
    decreases m
  {
    if m > 0 { EarlierTurn(fetch, limit, NextTurn(fetch, limit, t).value, m - 1, n - 1); }
  }

  function Start<T>(offset: nat): Turn<T> {
    Turn(offset, [], "")
  }

  predicate SameItems<T(==)>(a: Turn<T>, b: Turn<T>) {
    a.got == b.got && a.skip == b.skip
  }

  /** Between two meetings of a cursor a serving backend gave only empty pages. */
  ghost predicate EmptyCycle<T>(fetch: Fetch<T>, limit: nat, offset: nat, m: nat, n: nat)
    requires limit > 0
  {
    && Meets(fetch, limit, Start(offset), m, n)
    && forall k | m <= k <= n ::
         TurnAt(fetch, limit, Start(offset), k).Some?
         && SameItems(TurnAt(fetch, limit, Start(offset), k).value, TurnAt(fetch, limit, Start(offset), m).value)
  }

  lemma MeetingIsEmpty<T(!new)>(fetch: Fetch<T>, list: seq<T>, stands: string -> nat, limit: nat, offset: nat,
                                m: nat, n: nat, space: set<string>)
    requires FiniteCursors(fetch, space) && Serves(fetch, list, stands, space) && limit > 0
    requires Meets(fetch, limit, Start(offset), m, n)
    ensures EmptyCycle(fetch, limit, offset, m, n)
  {
    forall k | m <= k <= n
      ensures TurnAt(fetch, limit, Start(offset), k).Some?
      ensures SameItems(TurnAt(fetch, limit, Start(offset), k).value, TurnAt(fetch, limit, Start(offset), m).value)
    {
      MeetingAt(fetch, list, stands, limit, offset, m, k, n, space);
    }
  }

  lemma MeetingAt<T(!new)>(fetch: Fetch<T>, list: seq<T>, stands: string -> nat, limit: nat, offset: nat,
                           m: nat, k: nat, n: nat, space: set<string>)
    requires FiniteCursors(fetch, space) && Serves(fetch, list, stands, space) && limit > 0
    requires Meets(fetch, limit, Start(offset), m, n) && m <= k <= n
    ensures TurnAt(fetch, limit, Start(offset), k).Some?
    ensures SameItems(TurnAt(fetch, limit, Start(offset), k).value, TurnAt(fetch, limit, Start(offset), m).value)
  {
    var first := Start<T>(offset);
    assert Sliced(list[..0], limit, offset) == [];
    TurnStands(fetch, list, stands, limit, offset, first, m, space);
    EarlierTurn(fetch, limit, first, k, n);
    TurnsCompose(fetch, limit, first, m, k - m);
    TurnsCompose(fetch, limit, first, k, n - k);
    BetweenIsEmpty(fetch, list, stands, limit, offset, TurnAt(fetch, limit, first, m).value, k - m, n - k, space);
  }

  lemma BetweenIsEmpty<T(!new)>(fetch: Fetch<T>, list: seq<T>, stands: string -> nat, limit: nat, offset: nat,
                                a: Turn<T>, i: nat, j: nat, space: set<string>)
    requires FiniteCursors(fetch, space) && Serves(fetch, list, stands, space)
    requires |a.got| < limit && (a.cursor == "" || a.cursor in space) && Standing(list, stands, limit, offset, a)
    requires TurnAt(fetch, limit, a, i).Some?
    requires var b := TurnAt(fetch, limit, a, i).value;
      TurnAt(fetch, limit, b, j).Some? && TurnAt(fetch, limit, b, j).value.cursor == a.cursor
    ensures SameItems(TurnAt(fetch, limit, a, i).value, a)
  {
    TurnStands(fetch, list, stands, limit, offset, a, i, space);
    TurnStands(fetch, list, stands, limit, offset, TurnAt(fetch, limit, a, i).value, j, space);
  }

  /** A serving backend is rejected exactly when, before the limit is met, the cursors run
      into a cycle of empty pages. */
  lemma RejectedExactly<T(!new)>(fetch: Fetch<T>, list: seq<T>, stands: string -> nat, limit: int, offset: int,
                                 space: set<string>)
    requires FiniteCursors(fetch, space) && Serves(fetch, list, stands, space) && limit >= 1 && offset >= 0
    ensures Collect(fetch, limit, offset, space) == Err(RepeatedCursor)
            <==> exists m, n :: EmptyCycle(fetch, limit, offset, m, n)
  {
    var first := Start<T>(offset);
    WalkRejectsExactly(fetch, limit, first, 0, {}, space);
    if n: nat :| Repeats(fetch, limit, first, {}, n) {
      var m: nat :| Meets(fetch, limit, first, m, n);
      MeetingIsEmpty(fetch, list, stands, limit, offset, m, n, space);
    }
    if m: nat, n: nat :| EmptyCycle(fetch, limit, offset, m, n) {
      assert Repeats(fetch, limit, first, {}, n);
    }
  }
}
