/** Offset pages collected over opaque backend cursors
    (src/ojs/transport/grpc/paging.py). */
module Paging {
  import opened Numbers
  import opened Wrappers

  /** The total_count field: absent or of another type, a number, or text that may be one. */
  datatype Total = NoTotal | Count(n: int) | Text(parsed: Option<int>)

  /** A backend response; `items` is None when the field is not an array, and `next` is
      empty when the cursor is absent or not text. */
  datatype Response<T> = Response(items: Option<seq<T>>, total: Total, next: string)

  /** The page fetcher: what it answers to a requested size and a cursor. */
  type Fetch<!T> = (nat, string) -> Response<T>

  datatype OffsetPage<T> = OffsetPage(items: seq<T>, total: int, nextCursor: string)

  datatype PageError = BadLimit | BadOffset | NotAnArray | BadTotal | RepeatedCursor

  function TotalAfter(total: Total, before: int): Result<int, PageError> {
    match total
    case NoTotal => Ok(before)
    case Count(n) => Ok(n)
    case Text(None) => Err(BadTotal)
    case Text(Some(n)) => Ok(n)
  }

  /** All cursors the backend hands out come from one finite set. */
  ghost predicate FiniteCursors<T(!new)>(fetch: Fetch<T>, space: set<string>) {
    forall size, cursor :: fetch(size, cursor).next == "" || fetch(size, cursor).next in space
  }

  function Taken<T>(got: seq<T>, items: seq<T>, skip: nat, limit: nat): seq<T>
    requires |got| <= limit
  {
    var rest := items[Min(skip, |items|)..];
    got + rest[..Min(limit - |got|, |rest|)]
  }

  /** What the loop comes to from one of its turns on. */
  function Walk<T(!new)>(fetch: Fetch<T>, limit: nat, skip: nat, got: seq<T>, cursor: string, total: int,
                         seen: set<string>, ghost space: set<string>): Result<OffsetPage<T>, PageError>
    requires |got| < limit && FiniteCursors(fetch, space) && seen <= space
    decreases |space - seen|
  {
    var response := fetch(skip + (limit - |got|), cursor);
    if response.items.None? then Err(NotAnArray)
    else match TotalAfter(response.total, total)
      case Err(e) => Err(e)
      case Ok(total') =>
        var items, next := response.items.value, response.next;
        var got' := Taken(got, items, skip, limit);
        if |got'| >= limit || next == "" then Ok(OffsetPage(got', total', next))
        else if next in seen then Err(RepeatedCursor)
        else
          assert space - (seen + {next}) < space - seen;
          Walk(fetch, limit, skip - Min(skip, |items|), got', next, total', seen + {next}, space)
  }

  function Collect<T(!new)>(fetch: Fetch<T>, limit: int, offset: int, ghost space: set<string>): Result<OffsetPage<T>,
                     PageError>
    requires FiniteCursors(fetch, space)
  {
    if limit < 1 then Err(BadLimit)
    else if offset < 0 then Err(BadOffset)
    else Walk(fetch, limit, offset, [], "", 0, {}, space)
  }

  /** `collect_offset_page`. Only the finiteness of the cursors makes it end: each turn
      that goes on uses up a cursor not seen before. */
  method CollectOffsetPage<T(!new)>(fetch: Fetch<T>, limit: int, offset: int, ghost space: set<string>)
    returns (r: Result<OffsetPage<T>, PageError>)
    requires FiniteCursors(fetch, space)
    ensures r == Collect(fetch, limit, offset, space)
  {
    if limit < 1 { return Err(BadLimit); }
    if offset < 0 { return Err(BadOffset); }
    var remainingSkip: nat, collected: seq<T> := offset, [];
    var cursor, nextCursor, total := "", "", 0;
    var seen: set<string> := {};
    while |collected| < limit
      invariant |collected| < limit && seen <= space
      invariant Walk(fetch, limit, remainingSkip, collected, cursor, total, seen, space)
             == Walk(fetch, limit, offset, [], "", 0, {}, space)
      decreases |space - seen|
    {
      var response := fetch(remainingSkip + (limit - |collected|), cursor);
      if response.items.None? { return Err(NotAnArray); }
      var items := response.items.value;
      match response.total {
        case NoTotal =>
        case Count(n) => total := n;
        case Text(None) => return Err(BadTotal);
        case Text(Some(n)) => total := n;
      }
      nextCursor := response.next;
      var skipped := Min(remainingSkip, |items|);
      remainingSkip := remainingSkip - skipped;
      items := items[skipped..];
      collected := collected + items[..Min(limit - |collected|, |items|)];
      if |collected| >= limit || nextCursor == "" {
        return Ok(OffsetPage(collected, total, nextCursor));
      }
      if nextCursor in seen { return Err(RepeatedCursor); }
      assert space - (seen + {nextCursor}) < space - seen;
      seen := seen + {nextCursor};
      cursor := nextCursor;
    }
  }

  // --------------------------------------------------------------- the plain slice

  function Sliced<T>(items: seq<T>, limit: nat, offset: nat): seq<T> {
    items[Min(offset, |items|)..Min(offset + limit, |items|)]
  }

  function SliceOffsetPage<T>(items: seq<T>, limit: int, offset: int): Result<OffsetPage<T>, PageError> {
    if limit < 1 then Err(BadLimit)
    else if offset < 0 then Err(BadOffset)
    else Ok(OffsetPage(Sliced(items, limit, offset), |items|, ""))
  }

  // ----------------------------------------------------- a backend that serves one list

  predicate GoodTotal(total: Total) {
    total != Text(None)
  }

  /** From a known cursor the backend answers any request with some page of `list`, of
      whatever length, starting where the cursor stands; the next cursor stands where
      the page ends, and is missing only at the end of the list. */
  ghost predicate Serves<T(!new)>(fetch: Fetch<T>, list: seq<T>, stands: string -> nat, space: set<string>) {
    && stands("") == 0
    && forall size, cursor | cursor == "" || cursor in space :: ServesAt(fetch, list, stands, size, cursor)
  }

  ghost predicate ServesAt<T>(fetch: Fetch<T>, list: seq<T>, stands: string -> nat, size: nat, cursor: string) {
    var response := fetch(size, cursor);
    && response.items.Some? && GoodTotal(response.total)
    && var end := stands(cursor) + |response.items.value|;
       && end <= |list| && response.items.value == list[stands(cursor)..end]
       && if response.next == "" then end == |list| else stands(response.next) == end
  }

  /** What is left to skip where the cursor stands at `at`. */
  function SkipAt(offset: nat, at: nat): nat {
    if offset < at then 0 else offset - at
  }

  lemma SkipMoves(offset: nat, at: nat, n: nat)
    ensures SkipAt(offset, at) - Min(SkipAt(offset, at), n) == SkipAt(offset, at + n)
  {
  }

  /** One turn moves the collected items from one cursor to the next. */
  lemma TakenIsSliced<T>(list: seq<T>, limit: nat, offset: nat, at: nat, end: nat)
    requires at <= end <= |list|
    requires |Sliced(list[..at], limit, offset)| < limit
    ensures Taken(Sliced(list[..at], limit, offset), list[at..end], SkipAt(offset, at), limit)
         == Sliced(list[..end], limit, offset)
  {
    SlicedPrefix(list, limit, offset, at);
    SlicedPrefix(list, limit, offset, end);
    if offset < at { TakenPast(list, limit, offset, at, end); } else { TakenUpTo(list, limit, offset, at, end); }
  }

  lemma SlicedPrefix<T>(list: seq<T>, limit: nat, offset: nat, end: nat)
    requires end <= |list|
    ensures Sliced(list[..end], limit, offset) == list[Min(offset, end)..Min(offset + limit, end)]
  {
  }

  /** The offset was passed before this turn. */
  lemma TakenPast<T>(list: seq<T>, limit: nat, offset: nat, at: nat, end: nat)
    requires offset < at <= end <= |list| && at < offset + limit
    ensures Taken(list[offset..at], list[at..end], 0, limit) == list[offset..Min(offset + limit, end)]
  {
    var last := Min(offset + limit, end);
    assert list[at..end][..last - at] == list[at..last];
    assert list[offset..at] + list[at..last] == list[offset..last];
  }

  /** The offset is not passed before this turn. */
  lemma TakenUpTo<T>(list: seq<T>, limit: nat, offset: nat, at: nat, end: nat)
    requires at <= end <= |list| && at <= offset
    ensures Taken([], list[at..end], offset - at, limit) == list[Min(offset, end)..Min(offset + limit, end)]
  {
    var from, last := Min(offset, end), Min(offset + limit, end);
    assert list[at..end][from - at..] == list[from..end];
    assert list[from..end][..last - from] == list[from..last];
  }

  lemma SlicedStops<T>(list: seq<T>, limit: nat, offset: nat, end: nat)
    requires end <= |list| && |Sliced(list[..end], limit, offset)| >= limit
    ensures Sliced(list[..end], limit, offset) == Sliced(list, limit, offset)
  {
  }

  lemma FewerUnseen(space: set<string>, seen: set<string>, next: string)
    requires next in space && next !in seen
    ensures |space - (seen + {next})| < |space - seen|
  {
    assert space - (seen + {next}) == (space - seen) - {next};
  }

  /** What one turn of the loop finds at the backend. */
  lemma TurnServed<T(!new)>(fetch: Fetch<T>, list: seq<T>, stands: string -> nat, limit: nat, offset: nat,
                            size: nat, cursor: string, space: set<string>) returns (end: nat)
    requires FiniteCursors(fetch, space) && Serves(fetch, list, stands, space)
    requires (cursor == "" || cursor in space) && stands(cursor) <= |list|
    requires |Sliced(list[..stands(cursor)], limit, offset)| < limit
    ensures var response, at := fetch(size, cursor), stands(cursor);
      && response.items.Some? && GoodTotal(response.total)
      && at <= end == at + |response.items.value| <= |list|
      && Taken(Sliced(list[..at], limit, offset), response.items.value, SkipAt(offset, at), limit)
         == Sliced(list[..end], limit, offset)
      && SkipAt(offset, at) - Min(SkipAt(offset, at), |response.items.value|) == SkipAt(offset, end)
      && (if response.next == "" then end == |list| else response.next in space && stands(response.next) == end)
  {
    assert ServesAt(fetch, list, stands, size, cursor);
    end := stands(cursor) + |fetch(size, cursor).items.value|;
    TakenIsSliced(list, limit, offset, stands(cursor), end);
    SkipMoves(offset, stands(cursor), |fetch(size, cursor).items.value|);
  }

  /** Where the walk goes after a turn that found items and a total. */
  function Onward<T(!new)>(fetch: Fetch<T>, limit: nat, skip: nat, got: seq<T>, next: string, total: int,
                           seen: set<string>, ghost space: set<string>): Result<OffsetPage<T>, PageError>
    requires FiniteCursors(fetch, space) && seen <= space && (next == "" || next in space)
  {
    if |got| >= limit || next == "" then Ok(OffsetPage(got, total, next))
    else if next in seen then Err(RepeatedCursor)
    else Walk(fetch, limit, skip, got, next, total, seen + {next}, space)
  }

  lemma WalkGoesOn<T(!new)>(fetch: Fetch<T>, limit: nat, skip: nat, got: seq<T>, cursor: string, total: int,
                            seen: set<string>, space: set<string>)
    requires |got| < limit && FiniteCursors(fetch, space) && seen <= space
    requires var response := fetch(skip + (limit - |got|), cursor); response.items.Some? && GoodTotal(response.total)
    ensures var response := fetch(skip + (limit - |got|), cursor);
      && (response.next == "" || response.next in space)
      && TotalAfter(response.total, total).Ok?
      && Walk(fetch, limit, skip, got, cursor, total, seen, space)
         == Onward(fetch, limit, skip - Min(skip, |response.items.value|),
                   Taken(got, response.items.value, skip, limit),
                   response.next, TotalAfter(response.total, total).value, seen, space)
  {
  }

  lemma {:induction false} WalkIsSlice<T(!new)>(fetch: Fetch<T>, list: seq<T>, stands: string -> nat, limit: nat,
                                                offset: nat, skip: nat, got: seq<T>, cursor: string, total: int,
                                                seen: set<string>, space: set<string>)
    requires FiniteCursors(fetch, space) && Serves(fetch, list, stands, space)
    requires (cursor == "" || cursor in space) && stands(cursor) <= |list| && seen <= space
    requires got == Sliced(list[..stands(cursor)], limit, offset) && |got| < limit
    requires skip == SkipAt(offset, stands(cursor))
    ensures var r := Walk(fetch, limit, skip, got, cursor, total, seen, space);
      && (r.Ok? ==> r.value.items == Sliced(list, limit, offset))
      && (r.Err? ==> r.error == RepeatedCursor)
    decreases |space - seen|
  {
    var response := fetch(skip + (limit - |got|), cursor);
    var end := TurnServed(fetch, list, stands, limit, offset, skip + (limit - |got|), cursor, space);
    var got', next := Sliced(list[..end], limit, offset), response.next;
    WalkGoesOn(fetch, limit, skip, got, cursor, total, seen, space);
    if |got'| >= limit {
      SlicedStops(list, limit, offset, end);
    } else if next == "" {
      assert list[..end] == list;
    } else if next !in seen {
      FewerUnseen(space, seen, next);
      WalkIsSlice(fetch, list, stands, limit, offset, SkipAt(offset, end), got', next,
                  TotalAfter(response.total, total).value, seen + {next}, space);
    }
  }

  /** However the backend chops the list into pages, empty ones included, collecting over
      its cursors gives the items of the plain slice, or rejects a repeated cursor. */
  lemma CollectIsSlice<T(!new)>(fetch: Fetch<T>, list: seq<T>, stands: string -> nat, limit: int, offset: int,
                         space: set<string>)
    requires FiniteCursors(fetch, space) && Serves(fetch, list, stands, space)
    ensures var r, slice := Collect(fetch, limit, offset, space), SliceOffsetPage(list, limit, offset);
      && (r.Ok? ==> slice.Ok? && r.value.items == slice.value.items)
      && (slice.Err? ==> r == Err(slice.error))
      && (slice.Ok? && r.Err? ==> r.error == RepeatedCursor)
  {
    if limit >= 1 && offset >= 0 {
      assert Sliced(list[..0], limit, offset) == [];
      WalkIsSlice(fetch, list, stands, limit, offset, offset, [], "", 0, {}, space);
    }
  }

  // -------------------------------------------------------- when no cursor is rejected

  /** Cursors only lead forward in some order; an empty page may still lead to another. */
  ghost predicate Forward<T(!new)>(fetch: Fetch<T>, order: string -> nat) {
    forall size, cursor :: fetch(size, cursor).next != "" ==> order(fetch(size, cursor).next) > order(cursor)
  }

  lemma {:induction false} ForwardWalkAccepted<T(!new)>(fetch: Fetch<T>, order: string -> nat, limit: nat, skip: nat,
                                                 got: seq<T>,
                                                        cursor: string, total: int, seen: set<string>,
                                                        space: set<string>)
    requires |got| < limit && FiniteCursors(fetch, space) && seen <= space
    requires Forward(fetch, order) && forall c | c in seen :: order(c) <= order(cursor)
    ensures Walk(fetch, limit, skip, got, cursor, total, seen, space) != Err(RepeatedCursor)
    decreases |space - seen|
  {
    var response := fetch(skip + (limit - |got|), cursor);
    if response.items.Some? && TotalAfter(response.total, total).Ok? {
      var items, next := response.items.value, response.next;
      var got' := Taken(got, items, skip, limit);
      if |got'| < limit && next != "" {
        assert space - (seen + {next}) < space - seen;
        ForwardWalkAccepted(fetch, order, limit, skip - Min(skip, |items|), got', next,
                            TotalAfter(response.total, total).value, seen + {next}, space);
      }
    }
  }

  /** A backend whose cursors lead forward is never rejected: its page is the slice. */
  lemma ForwardCollectIsSlice<T(!new)>(fetch: Fetch<T>, list: seq<T>, stands: string -> nat, order: string -> nat,
                                       limit: int, offset: int, space: set<string>)
    requires FiniteCursors(fetch, space) && Serves(fetch, list, stands, space) && Forward(fetch, order)
    requires limit >= 1 && offset >= 0
    ensures Collect(fetch, limit, offset, space).Ok?
    ensures Collect(fetch, limit, offset, space).value.items == SliceOffsetPage(list, limit, offset).value.items
  {
    CollectIsSlice(fetch, list, stands, limit, offset, space);
    ForwardWalkAccepted(fetch, order, limit, offset, [], "", 0, {}, space);
  }

  // --------------------------------------------------------------- resuming afterwards

  /** No page is longer than was asked for. */
  ghost predicate Obeys<T(!new)>(fetch: Fetch<T>) {
    forall size, cursor :: fetch(size, cursor).items.Some? ==> |fetch(size, cursor).items.value| <= size
  }

  lemma TurnResumes<T(!new)>(fetch: Fetch<T>, list: seq<T>, stands: string -> nat, limit: nat, skip: nat, got: seq<T>,
                             cursor: string, space: set<string>)
    requires |got| < limit && FiniteCursors(fetch, space) && Serves(fetch, list, stands, space) && Obeys(fetch)
    requires cursor == "" || cursor in space
    ensures var response := fetch(skip + (limit - |got|), cursor);
      && response.items.Some? && GoodTotal(response.total)
      && var got' := Taken(got, response.items.value, skip, limit);
         var skip' := skip - Min(skip, |response.items.value|);
         && |got'| <= limit && (|got'| >= limit ==> skip' == 0)
         && (response.next != "" ==>
               && response.next in space
               && stands(response.next) + skip' - |got'| == stands(cursor) + skip - |got|)
  {
    assert ServesAt(fetch, list, stands, skip + (limit - |got|), cursor);
  }

  lemma {:induction false} WalkResumes<T(!new)>(fetch: Fetch<T>, list: seq<T>, stands: string -> nat, limit: nat,
                                                skip: nat, got: seq<T>, cursor: string, total: int,
                                                seen: set<string>, space: set<string>)
    requires |got| < limit && FiniteCursors(fetch, space) && Serves(fetch, list, stands, space) && Obeys(fetch)
    requires (cursor == "" || cursor in space) && seen <= space
    ensures var r := Walk(fetch, limit, skip, got, cursor, total, seen, space);
      r.Ok? && r.value.nextCursor != "" ==>
        stands(r.value.nextCursor) - |r.value.items| == stands(cursor) + skip - |got|
    decreases |space - seen|
  {
    var response := fetch(skip + (limit - |got|), cursor);
    TurnResumes(fetch, list, stands, limit, skip, got, cursor, space);
    var next := response.next;
    var got' := Taken(got, response.items.value, skip, limit);
    WalkGoesOn(fetch, limit, skip, got, cursor, total, seen, space);
    if |got'| < limit && next != "" && next !in seen {
      FewerUnseen(space, seen, next);
      WalkResumes(fetch, list, stands, limit, skip - Min(skip, |response.items.value|), got', next,
                  TotalAfter(response.total, total).value, seen + {next}, space);
    }
  }

  /** The returned cursor stands right behind the returned items, so the next page can
      start there, provided the backend never sends more than it was asked for. */
  lemma NextCursorResumes<T(!new)>(fetch: Fetch<T>, list: seq<T>, stands: string -> nat, limit: int, offset: int,
                            space: set<string>)
    requires FiniteCursors(fetch, space) && Serves(fetch, list, stands, space) && Obeys(fetch)
    requires limit >= 1 && offset >= 0
    ensures var r := Collect(fetch, limit, offset, space);
      r.Ok? && r.value.nextCursor != "" ==> stands(r.value.nextCursor) == offset + |r.value.items|
  {
    WalkResumes(fetch, list, stands, limit, offset, [], "", 0, {}, space);
  }
}
