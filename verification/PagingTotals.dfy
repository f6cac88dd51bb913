/** What collecting an offset page visits, and what the page says, for every backend
    (src/ojs/transport/grpc/paging.py:29-74). */
module PagingTotals {
  import opened Numbers
  import opened Wrappers
  import opened Paging

  // ------------------------------------------------------------------- the responses seen

  function ItemsOf<T>(response: Response<T>): seq<T> {
    if response.items.Some? then response.items.value else []
  }

  /** All items of the responses, in order. */
  function AllItems<T>(visited: seq<Response<T>>): seq<T> {
    if visited == [] then [] else AllItems(visited[..|visited| - 1]) + ItemsOf(visited[|visited| - 1])
  }

  /** The response was asked for with the cursor of the one before, and with the number of items
      that were still missing then. */
  ghost predicate AskedFor<T(!new)>(fetch: Fetch<T>, need: nat, visited: seq<Response<T>>, k: nat)
    requires k < |visited|
  {
    && |AllItems(visited[..k])| < need
    && visited[k] == fetch(need - |AllItems(visited[..k])|, if k == 0 then "" else visited[k - 1].next)
  }

  /** The cursor was handed out before response k. */
  ghost predicate HandedOut<T>(visited: seq<Response<T>>, k: nat, cursor: string)
    requires k <= |visited|
  {
    exists j :: 0 <= j < k && visited[j].next == cursor
  }

  /** After response k the loop goes on: it could be read, more is missing, and its cursor is a
      new one. */
  ghost predicate GoesOn<T>(need: nat, visited: seq<Response<T>>, k: nat)
    requires k < |visited|
  {
    && visited[k].items.Some? && visited[k].total != Text(None)
    && |AllItems(visited[..k + 1])| < need && visited[k].next != ""
    && !HandedOut(visited, k, visited[k].next)
  }

  /** The number the response names, if it names one. */
  function Named(total: Total): Option<int> {
    match total
    case Count(n) => Some(n)
    case Text(Some(n)) => Some(n)
    case _ => None
  }

  /** `total` is what the last response that named a number said, or 0 when none did. */
  ghost predicate TotalIs<T>(visited: seq<Response<T>>, total: int) {
    || (total == 0 && forall k | 0 <= k < |visited| :: Named(visited[k].total).None?)
    || exists k :: NamedLastAt(visited, k, total)
  }

  ghost predicate NamedLastAt<T>(visited: seq<Response<T>>, k: int, total: int) {
    && 0 <= k < |visited| && Named(visited[k].total) == Some(total)
    && forall j | k < j < |visited| :: Named(visited[j].total).None?
  }

  /** What the page is, from the responses alone. */
  ghost predicate PageOf<T>(limit: nat, offset: nat, visited: seq<Response<T>>, r: Result<OffsetPage<T>, PageError>)
    requires visited != []
  {
    var last := visited[|visited| - 1];
    var missing := |AllItems(visited)| < offset + limit;
    if last.items.None? then r == Err(NotAnArray)
    else if last.total == Text(None) then r == Err(BadTotal)
    else if missing && last.next != "" then
      HandedOut(visited, |visited| - 1, last.next) && r == Err(RepeatedCursor)
    else
      && r.Ok? && r.value.items == Sliced(AllItems(visited), limit, offset)
      && TotalIs(visited, r.value.total) && r.value.nextCursor == last.next
  }

  /** The responses a walk sees. */
  ghost predicate Visited<T(!new)>(fetch: Fetch<T>, need: nat, visited: seq<Response<T>>) {
    && visited != []
    && (forall k: nat | k < |visited| :: AskedFor(fetch, need, visited, k))
    && (forall k: nat | k + 1 < |visited| :: GoesOn(need, visited, k))
  }

  // -------------------------------------------------------------------------- one turn more

  lemma MoreItems<T>(before: seq<Response<T>>, response: Response<T>)
    ensures AllItems(before + [response]) == AllItems(before) + ItemsOf(response)
  {
    assert (before + [response])[..|before|] == before;
  }

  lemma TotalNext<T>(before: seq<Response<T>>, response: Response<T>, total: int)
    requires TotalIs(before, total) && response.total != Text(None)
    ensures TotalAfter(response.total, total).Ok?
    ensures TotalIs(before + [response], TotalAfter(response.total, total).value)
  {
    var after := before + [response];
    var total' := TotalAfter(response.total, total).value;
    if Named(response.total).Some? {
      assert NamedLastAt(after, |before|, total');
    } else if k :| NamedLastAt(before, k, total) {
      forall j | k < j < |after| ensures Named(after[j].total).None? {
        if j < |before| { assert after[j] == before[j]; }
      }
      assert NamedLastAt(after, k, total');
    } else {
      forall j | 0 <= j < |after| ensures Named(after[j].total).None? {
        if j < |before| { assert after[j] == before[j]; }
      }
    }
  }

  /** What the loop holds is what the responses so far come to. */
  ghost predicate Holds<T>(limit: nat, offset: nat, before: seq<Response<T>>, skip: nat, got: seq<T>, cursor: string,
                           total: int, seen: set<string>)
  {
    && got == Sliced(AllItems(before), limit, offset) && |AllItems(before)| < offset + limit
    && skip == SkipAt(offset, |AllItems(before)|)
    && cursor == (if before == [] then "" else before[|before| - 1].next)
    && TotalIs(before, total)
    && forall c :: c in seen <==> HandedOut(before, |before|, c)
  }

  /** Every response was asked for, and the loop went on after each. */
  ghost predicate AllGo<T(!new)>(fetch: Fetch<T>, need: nat, before: seq<Response<T>>) {
    forall k: nat | k < |before| :: AskedFor(fetch, need, before, k) && GoesOn(need, before, k)
  }

  lemma SameHandedOut<T>(before: seq<Response<T>>, response: Response<T>, k: nat, cursor: string)
    requires k <= |before|
    ensures HandedOut(before + [response], k, cursor) <==> HandedOut(before, k, cursor)
  {
    var visited := before + [response];
    if HandedOut(before, k, cursor) {
      var j :| 0 <= j < k && before[j].next == cursor;
      assert visited[j].next == cursor;
    }
    if HandedOut(visited, k, cursor) {
      var j :| 0 <= j < k && visited[j].next == cursor;
      assert before[j].next == cursor;
    }
  }

  lemma SameTurn<T(!new)>(fetch: Fetch<T>, need: nat, before: seq<Response<T>>, response: Response<T>, k: nat)
    requires k < |before| && AskedFor(fetch, need, before, k) && GoesOn(need, before, k)
    ensures AskedFor(fetch, need, before + [response], k) && GoesOn(need, before + [response], k)
  {
    var visited := before + [response];
    assert visited[..k] == before[..k] && visited[..k + 1] == before[..k + 1] && visited[k] == before[k];
    SameHandedOut(before, response, k, before[k].next);
  }

  lemma AskedStill<T(!new)>(fetch: Fetch<T>, need: nat, before: seq<Response<T>>, response: Response<T>)
    requires AllGo(fetch, need, before) && |AllItems(before)| < need
    requires response == fetch(need - |AllItems(before)|, if before == [] then "" else before[|before| - 1].next)
    ensures Visited(fetch, need, before + [response])
  {
    var visited := before + [response];
    forall k: nat | k < |visited|
      ensures AskedFor(fetch, need, visited, k) && (k < |before| ==> GoesOn(need, visited, k))
    {
      if k < |before| {
        SameTurn(fetch, need, before, response, k);
      } else {
        assert visited[..k] == before;
      }
    }
  }

  /** One response more leaves the loop with what the responses come to. */
  lemma TurnHolds<T>(limit: nat, offset: nat, before: seq<Response<T>>, skip: nat, got: seq<T>, cursor: string,
                     total: int, seen: set<string>, response: Response<T>)
    requires Holds(limit, offset, before, skip, got, cursor, total, seen)
    requires response.items.Some? && response.total != Text(None) && |got| < limit
    ensures var visited, items := before + [response], response.items.value;
      && |got| <= limit && Taken(got, items, skip, limit) == Sliced(AllItems(visited), limit, offset)
      && skip - Min(skip, |items|) == SkipAt(offset, |AllItems(visited)|)
      && (|Taken(got, items, skip, limit)| >= limit <==> |AllItems(visited)| >= offset + limit)
      && TotalAfter(response.total, total).Ok? && TotalIs(visited, TotalAfter(response.total, total).value)
  {
    var visited, items, at := before + [response], response.items.value, |AllItems(before)|;
    MoreItems(before, response);
    TotalNext(before, response, total);
    var all := AllItems(visited);
    assert all[..at] == AllItems(before) && all[at..] == items && all[at..|all|] == items && all[..|all|] == all;
    TakenIsSliced(all, limit, offset, at, |all|);
    SkipMoves(offset, at, |items|);
  }

  lemma SizeAsked(limit: nat, offset: nat, items: nat, got: nat)
    requires limit > 0 && items < offset + limit && got == Min(offset + limit, items) - Min(offset, items)
    ensures got < limit && SkipAt(offset, items) + (limit - got) == offset + limit - items
  {
  }

  // -------------------------------------------------------------------------- the theorem

  /** The loop goes on after the response. */
  predicate Continues<T>(limit: nat, skip: nat, got: seq<T>, seen: set<string>, response: Response<T>)
    requires |got| <= limit
  {
    && response.items.Some? && response.total != Text(None)
    && |Taken(got, response.items.value, skip, limit)| < limit && response.next != "" && response.next !in seen
  }

  lemma TurnEnds<T(!new)>(fetch: Fetch<T>, limit: nat, offset: nat, skip: nat, got: seq<T>, cursor: string, total: int,
                          seen: set<string>, space: set<string>, before: seq<Response<T>>)
    requires FiniteCursors(fetch, space) && seen <= space && |got| < limit
    requires Holds(limit, offset, before, skip, got, cursor, total, seen)
    requires !Continues(limit, skip, got, seen, fetch(skip + (limit - |got|), cursor))
    ensures PageOf(limit, offset, before + [fetch(skip + (limit - |got|), cursor)],
                   Walk(fetch, limit, skip, got, cursor, total, seen, space))
  {
    var response := fetch(skip + (limit - |got|), cursor);
    var visited := before + [response];
    if response.items.Some? && response.total != Text(None) {
      TurnHolds(limit, offset, before, skip, got, cursor, total, seen, response);
      WalkGoesOn(fetch, limit, skip, got, cursor, total, seen, space);
      SameHandedOut(before, response, |before|, response.next);
      assert |visited| - 1 == |before|;
    }
  }

  /** What the loop holds after a turn that goes on. */
  lemma HoldsNext<T>(limit: nat, offset: nat, before: seq<Response<T>>, skip: nat, got: seq<T>, cursor: string,
                     total: int, seen: set<string>, response: Response<T>)
    requires Holds(limit, offset, before, skip, got, cursor, total, seen) && |got| < limit
    requires Continues(limit, skip, got, seen, response)
    ensures TotalAfter(response.total, total).Ok?
    ensures var got', skip' := Taken(got, response.items.value, skip, limit), skip - Min(skip, |response.items.value|);
      Holds(limit, offset, before + [response], skip', got', response.next, TotalAfter(response.total, total).value,
            seen + {response.next})
    ensures |AllItems(before + [response])| < offset + limit && !HandedOut(before, |before|, response.next)
  {
    TurnHolds(limit, offset, before, skip, got, cursor, total, seen, response);
    SeenNext(before, response, seen);
    assert (before + [response])[|before|] == response;
  }

  lemma WalkNext<T(!new)>(fetch: Fetch<T>, limit: nat, skip: nat, got: seq<T>, cursor: string, total: int,
                          seen: set<string>, space: set<string>, response: Response<T>, total': int)
    requires FiniteCursors(fetch, space) && seen <= space && |got| < limit
    requires response == fetch(skip + (limit - |got|), cursor) && Continues(limit, skip, got, seen, response)
    requires TotalAfter(response.total, total) == Ok(total')
    ensures response.next in space && seen + {response.next} <= space
    ensures |space - (seen + {response.next})| < |space - seen|
    ensures Walk(fetch, limit, skip, got, cursor, total, seen, space)
         == Walk(fetch, limit, skip - Min(skip, |response.items.value|), Taken(got, response.items.value, skip, limit),
                 response.next, total', seen + {response.next}, space)
  {
    WalkGoesOn(fetch, limit, skip, got, cursor, total, seen, space);
    FewerUnseen(space, seen, response.next);
  }

  lemma VisitsNow<T(!new)>(fetch: Fetch<T>, limit: nat, offset: nat, skip: nat, got: seq<T>, cursor: string, total: int,
                           seen: set<string>, before: seq<Response<T>>)
    requires |got| < limit && Holds(limit, offset, before, skip, got, cursor, total, seen)
    requires AllGo(fetch, offset + limit, before)
    ensures Visited(fetch, offset + limit, before + [fetch(skip + (limit - |got|), cursor)])
  {
    SizeAsked(limit, offset, |AllItems(before)|, |got|);
    AskedStill(fetch, offset + limit, before, fetch(skip + (limit - |got|), cursor));
  }

  /** The variables of the loop. */
  datatype Loop<T> = Loop(skip: nat, got: seq<T>, cursor: string, total: int, seen: set<string>)

  function AsksNow<T(!new)>(fetch: Fetch<T>, limit: nat, l: Loop<T>): Response<T>
    requires |l.got| < limit
  {
    fetch(l.skip + (limit - |l.got|), l.cursor)
  }

  function LoopNext<T>(limit: nat, l: Loop<T>, response: Response<T>): Loop<T>
    requires |l.got| < limit && Continues(limit, l.skip, l.got, l.seen, response)
  {
    var items := response.items.value;
    Loop(l.skip - Min(l.skip, |items|), Taken(l.got, items, l.skip, limit), response.next,
         TotalAfter(response.total, l.total).value, l.seen + {response.next})
  }

  /** The loop holds what the responses so far come to, and it went on after each. */
  ghost predicate Stands<T(!new)>(fetch: Fetch<T>, limit: nat, offset: nat, l: Loop<T>, before: seq<Response<T>>,
                                  space: set<string>)
  {
    && |l.got| < limit && l.seen <= space
    && Holds(limit, offset, before, l.skip, l.got, l.cursor, l.total, l.seen) && AllGo(fetch, offset + limit, before)
  }

  function WalkFrom<T(!new)>(fetch: Fetch<T>, limit: nat, l: Loop<T>, ghost space: set<string>):
    Result<OffsetPage<T>, PageError>
    requires FiniteCursors(fetch, space) && |l.got| < limit && l.seen <= space
  {
    Walk(fetch, limit, l.skip, l.got, l.cursor, l.total, l.seen, space)
  }

  lemma WalkFromNext<T(!new)>(fetch: Fetch<T>, limit: nat, l: Loop<T>, space: set<string>)
    requires FiniteCursors(fetch, space) && |l.got| < limit && l.seen <= space
    requires Continues(limit, l.skip, l.got, l.seen, AsksNow(fetch, limit, l))
    ensures var next := LoopNext(limit, l, AsksNow(fetch, limit, l));
      && |next.got| < limit && next.seen <= space && |space - next.seen| < |space - l.seen|
      && WalkFrom(fetch, limit, l, space) == WalkFrom(fetch, limit, next, space)
  {
    var response := AsksNow(fetch, limit, l);
    WalkNext(fetch, limit, l.skip, l.got, l.cursor, l.total, l.seen, space, response,
             TotalAfter(response.total, l.total).value);
  }

  lemma AllGoNext<T(!new)>(fetch: Fetch<T>, limit: nat, offset: nat, l: Loop<T>, before: seq<Response<T>>)
    requires |l.got| < limit && Holds(limit, offset, before, l.skip, l.got, l.cursor, l.total, l.seen)
    requires AllGo(fetch, offset + limit, before) && Continues(limit, l.skip, l.got, l.seen, AsksNow(fetch, limit, l))
    ensures AllGo(fetch, offset + limit, before + [AsksNow(fetch, limit, l)])
  {
    var response := AsksNow(fetch, limit, l);
    VisitsNow(fetch, limit, offset, l.skip, l.got, l.cursor, l.total, l.seen, before);
    HoldsNext(limit, offset, before, l.skip, l.got, l.cursor, l.total, l.seen, response);
    OneMoreGoesOn(fetch, offset + limit, before, response);
  }

  lemma StandsNext<T(!new)>(fetch: Fetch<T>, limit: nat, offset: nat, l: Loop<T>, before: seq<Response<T>>,
                            space: set<string>)
    requires FiniteCursors(fetch, space) && Stands(fetch, limit, offset, l, before, space)
    requires Continues(limit, l.skip, l.got, l.seen, AsksNow(fetch, limit, l))
    ensures var response := AsksNow(fetch, limit, l);
      Stands(fetch, limit, offset, LoopNext(limit, l, response), before + [response], space)
  {
    WalkFromNext(fetch, limit, l, space);
    AllGoNext(fetch, limit, offset, l, before);
    HoldsNext(limit, offset, before, l.skip, l.got, l.cursor, l.total, l.seen, AsksNow(fetch, limit, l));
  }

  lemma {:induction false} WalkVisits<T(!new)>(fetch: Fetch<T>, limit: nat, offset: nat, l: Loop<T>, space: set<string>,
                                               before: seq<Response<T>>) returns (visited: seq<Response<T>>)
    requires FiniteCursors(fetch, space) && Stands(fetch, limit, offset, l, before, space)
    ensures Visited(fetch, offset + limit, visited)
    ensures PageOf(limit, offset, visited, WalkFrom(fetch, limit, l, space))
    decreases |space - l.seen|
  {
    var response := AsksNow(fetch, limit, l);
    visited := before + [response];
    if Continues(limit, l.skip, l.got, l.seen, response) {
      StandsNext(fetch, limit, offset, l, before, space);
      WalkFromNext(fetch, limit, l, space);
      visited := WalkVisits(fetch, limit, offset, LoopNext(limit, l, response), space, visited);
    } else {
      VisitsNow(fetch, limit, offset, l.skip, l.got, l.cursor, l.total, l.seen, before);
      TurnEnds(fetch, limit, offset, l.skip, l.got, l.cursor, l.total, l.seen, space, before);
    }
  }

  lemma SeenNext<T>(before: seq<Response<T>>, response: Response<T>, seen: set<string>)
    requires forall c :: c in seen <==> HandedOut(before, |before|, c)
    ensures var visited := before + [response];
      forall c :: c in seen + {response.next} <==> HandedOut(visited, |visited|, c)
  {
    var visited := before + [response];
    forall c ensures c in seen + {response.next} <==> HandedOut(visited, |visited|, c) {
      SameHandedOut(before, response, |before|, c);
      if c == response.next { assert visited[|before|].next == c; }
      if HandedOut(visited, |before|, c) {
        var j :| 0 <= j < |before| && visited[j].next == c;
        assert HandedOut(visited, |visited|, c);
      }
    }
  }

  lemma OneMoreGoesOn<T(!new)>(fetch: Fetch<T>, need: nat, before: seq<Response<T>>, response: Response<T>)
    requires Visited(fetch, need, before + [response])
    requires response.items.Some? && response.total != Text(None) && response.next != ""
    requires |AllItems(before + [response])| < need && !HandedOut(before, |before|, response.next)
    ensures AllGo(fetch, need, before + [response])
  {
    var visited := before + [response];
    SameHandedOut(before, response, |before|, response.next);
    assert visited[..|visited|] == visited;
    forall k: nat | k < |visited| ensures AskedFor(fetch, need, visited, k) && GoesOn(need, visited, k) {
      if k == |before| { assert visited[..k + 1] == visited; }
    }
  }

  /** Whatever the backend answers: collecting asks each time, with the cursor it was given last,
      for exactly what is still missing, until an answer cannot be read, nothing is missing, there
      is no cursor, or the cursor was handed out before. The page holds the plain slice of all
      items received, the number that was named last as its total, and the last cursor. */
  lemma CollectVisits<T(!new)>(fetch: Fetch<T>, limit: nat, offset: nat, space: set<string>)
    returns (visited: seq<Response<T>>)
    requires FiniteCursors(fetch, space) && limit >= 1
    ensures Visited(fetch, offset + limit, visited)
    ensures PageOf(limit, offset, visited, Collect(fetch, limit, offset, space))
  {
    visited := WalkVisits(fetch, limit, offset, Loop(offset, [], "", 0, {}), space, []);
  }

  /** A limit below one and a negative offset are refused before anything is asked for. */
  lemma BadArguments<T(!new)>(fetch: Fetch<T>, limit: int, offset: int, space: set<string>)
    requires FiniteCursors(fetch, space)
    ensures Collect(fetch, limit, offset, space) == Err(BadLimit) <==> limit < 1
    ensures Collect(fetch, limit, offset, space) == Err(BadOffset) <==> limit >= 1 && offset < 0
  {
    if limit >= 1 && offset >= 0 {
      var visited := CollectVisits(fetch, limit, offset, space);
    }
  }

  // ---------------------------------------------------------------------- serving backends

  /** Every response names the length of the list. */
  ghost predicate NamesLength<T(!new)>(fetch: Fetch<T>, list: seq<T>) {
    forall size, cursor :: Named(fetch(size, cursor).total) == Some(|list|)
  }

  /** From a backend that serves a list and names its length, the page has the items and the
      total of the plain slice. */
  lemma PageIsSlice<T(!new)>(fetch: Fetch<T>, list: seq<T>, stands: string -> nat, limit: nat, offset: nat,
                             space: set<string>)
    requires FiniteCursors(fetch, space) && Serves(fetch, list, stands, space) && NamesLength(fetch, list)
    requires limit >= 1 && Collect(fetch, limit, offset, space).Ok?
    ensures var page, slice := Collect(fetch, limit, offset, space).value, SliceOffsetPage(list, limit, offset).value;
      page.items == slice.items && page.total == slice.total
  {
    CollectIsSlice(fetch, list, stands, limit, offset, space);
    var visited := CollectVisits(fetch, limit, offset, space);
    var last := |visited| - 1;
    assert AskedFor(fetch, offset + limit, visited, last);
    assert Named(visited[last].total) == Some(|list|);
  }

  lemma {:induction false} ServedItems<T(!new)>(fetch: Fetch<T>, list: seq<T>, stands: string -> nat, need: nat,
                                                visited: seq<Response<T>>, space: set<string>, k: nat)
    requires FiniteCursors(fetch, space) && Serves(fetch, list, stands, space) && Obeys(fetch)
    requires Visited(fetch, need, visited) && k < |visited|
    ensures |AllItems(visited[..k + 1])| <= need
    ensures if visited[k].next == "" then |AllItems(visited[..k + 1])| == |list|
            else stands(visited[k].next) == |AllItems(visited[..k + 1])|
  {
    if k > 0 { ServedItems(fetch, list, stands, need, visited, space, k - 1); }
    ServedNext(fetch, list, stands, need, visited, space, k);
  }

  lemma ServedNext<T(!new)>(fetch: Fetch<T>, list: seq<T>, stands: string -> nat, need: nat, visited: seq<Response<T>>,
                            space: set<string>, k: nat)
    requires FiniteCursors(fetch, space) && Serves(fetch, list, stands, space) && Obeys(fetch)
    requires Visited(fetch, need, visited) && k < |visited|
    requires k > 0 && visited[k - 1].next != "" ==> stands(visited[k - 1].next) == |AllItems(visited[..k])|
    ensures |AllItems(visited[..k + 1])| <= need
    ensures if visited[k].next == "" then |AllItems(visited[..k + 1])| == |list|
            else stands(visited[k].next) == |AllItems(visited[..k + 1])|
  {
    var cursor := if k == 0 then "" else visited[k - 1].next;
    if k > 0 { CursorGoesOn(fetch, need, visited, space, k - 1); }
    assert AskedFor(fetch, need, visited, k);
    assert visited[..k + 1] == visited[..k] + [visited[k]];
    MoreItems(visited[..k], visited[k]);
    ServedOne(fetch, list, stands, need - |AllItems(visited[..k])|, cursor, space);
  }

  lemma CursorGoesOn<T(!new)>(fetch: Fetch<T>, need: nat, visited: seq<Response<T>>, space: set<string>, k: nat)
    requires FiniteCursors(fetch, space) && Visited(fetch, need, visited) && k + 1 < |visited|
    ensures visited[k].next != "" && visited[k].next in space
  {
    assert GoesOn(need, visited, k) && AskedFor(fetch, need, visited, k);
  }

  lemma ServedOne<T(!new)>(fetch: Fetch<T>, list: seq<T>, stands: string -> nat, size: nat, cursor: string,
                           space: set<string>)
    requires FiniteCursors(fetch, space) && Serves(fetch, list, stands, space) && Obeys(fetch)
    requires cursor == "" || cursor in space
    ensures var response := fetch(size, cursor);
      && response.items.Some? && |response.items.value| <= size && (response.next == "" || response.next in space)
      && var end := stands(cursor) + |response.items.value|;
         if response.next == "" then end == |list| else stands(response.next) == end
  {
    assert ServesAt(fetch, list, stands, size, cursor);
  }

  /** When a backend that never sends more than it was asked for serves the list, a page without
      a next cursor reaches the end of the list: nothing comes after it. */
  lemma NoCursorAtEnd<T(!new)>(fetch: Fetch<T>, list: seq<T>, stands: string -> nat, limit: nat, offset: nat,
                               space: set<string>)
    requires FiniteCursors(fetch, space) && Serves(fetch, list, stands, space) && Obeys(fetch)
    requires limit >= 1 && Collect(fetch, limit, offset, space).Ok?
    ensures var page := Collect(fetch, limit, offset, space).value;
      page.nextCursor == "" ==> page.items == list[Min(offset, |list|)..]
  {
    CollectIsSlice(fetch, list, stands, limit, offset, space);
    var visited := CollectVisits(fetch, limit, offset, space);
    ServedItems(fetch, list, stands, offset + limit, visited, space, |visited| - 1);
    assert visited[..|visited|] == visited;
  }
}
