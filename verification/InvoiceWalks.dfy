/** Walks of the client over linked invoices: the forward chain, the clone chain, and cursor paging
    through a creator's invoice list. */
module InvoiceWalks {
  import opened Basics

  const MAX_DEPTH := 10

  /** An invoice as fetched: its id, status and the next invoice it points to, if any. */
  datatype Invoice = Invoice(id: string, status: string, next: Option<string>)

  /** The id a loop continues with; an absent or empty one ends it. */
  function Truthy(id: Option<string>): Option<string> {
    if id.Some? && id.value != "" then id else None
  }

  /** The id visited at step `n` by following links without any limit. */
  function Hop(fetch: string -> Invoice, start: string, n: nat): Option<string> {
    if n == 0 then Truthy(Some(start))
    else
      match Hop(fetch, start, n - 1)
      case None => None
      case Some(id) => Truthy(fetch(id).next)
  }

  /** The path is over after at most ten invoices. */
  predicate EndsWithinTen(fetch: string -> Invoice, start: string) {
    Hop(fetch, start, 10).None?
  }

  /** Step `n` visits an id visited before. */
  predicate Revisits(fetch: string -> Invoice, start: string, n: nat) {
    Hop(fetch, start, n).Some? && exists i :: 0 <= i < n && Hop(fetch, start, i) == Hop(fetch, start, n)
  }

  lemma {:induction false} EndedStaysEnded(fetch: string -> Invoice, start: string, n: nat, m: nat)
    requires n <= m && Hop(fetch, start, n).None?
    ensures Hop(fetch, start, m).None?
  {
    if n < m { EndedStaysEnded(fetch, start, n, m - 1); }
  }

  lemma {:induction false} Repeats(fetch: string -> Invoice, start: string, i: nat, k: nat, d: nat)
    requires i < k && Hop(fetch, start, i) == Hop(fetch, start, k)
    ensures Hop(fetch, start, i + d) == Hop(fetch, start, k + d)
  {
    if d > 0 { Repeats(fetch, start, i, k, d - 1); }
  }

  /** A path that comes back to an id never ends. */
  lemma {:induction false} RevisitNeverEnds(fetch: string -> Invoice, start: string, i: nat, k: nat, n: nat)
    requires i < k && Hop(fetch, start, k).Some? && Hop(fetch, start, i) == Hop(fetch, start, k)
    ensures Hop(fetch, start, n).Some?
  {
    if n <= k {
      if Hop(fetch, start, n).None? { EndedStaysEnded(fetch, start, n, k); }
    } else {
      RevisitNeverEnds(fetch, start, i, k, n - (k - i));
      Repeats(fetch, start, i, k, n - k);
    }
  }

  datatype ForwardResult = Chain(invoices: seq<Invoice>) | Circular(id: string) | TooDeep(id: string)

  /** The ids visited so far are the first steps of the path. */
  predicate Followed(fetch: string -> Invoice, start: string, ids: seq<string>) {
    forall i :: 0 <= i < |ids| ==> Hop(fetch, start, i) == Some(ids[i])
  }

  predicate FetchedAll(fetch: string -> Invoice, ids: seq<string>, invoices: seq<Invoice>) {
    |invoices| == |ids| && forall i :: 0 <= i < |ids| ==> invoices[i] == fetch(ids[i])
  }

  /** MAIN RESULT (`getForwardChain`). At most ten invoices are fetched, in path order. The chain is
      returned if and only if the path ends within ten; otherwise the walk reports a circular chain
      exactly when a step before the tenth revisits an id, namely the first one that does, and else
      that the chain is too deep. */
  method GetForwardChain(invoiceId: string, fetch: string -> Invoice)
    returns (r: ForwardResult, fetched: seq<string>)
    ensures |fetched| <= 10 && Followed(fetch, invoiceId, fetched)
    ensures r.Chain? <==> EndsWithinTen(fetch, invoiceId)
    ensures r.Chain? ==> FetchedAll(fetch, fetched, r.invoices) && Hop(fetch, invoiceId, |fetched|).None?
    ensures r.Circular? <==> exists n :: 0 <= n < 10 && Revisits(fetch, invoiceId, n)
    ensures r.Circular? ==> Revisits(fetch, invoiceId, |fetched|) && Hop(fetch, invoiceId, |fetched|) == Some(r.id)
                            && forall n :: 0 <= n < |fetched| ==> !Revisits(fetch, invoiceId, n)
    ensures r.TooDeep? ==> Hop(fetch, invoiceId, 10) == Some(r.id)
  {
    hide Hop;
    var chain: seq<Invoice> := [];
    fetched := [];
    var visited: set<string> := {};
    var currentId := Truthy(Some(invoiceId));
    var depth := 0;
    FirstHop(fetch, invoiceId);
    while currentId.Some?
      invariant depth == |fetched| <= MAX_DEPTH && FetchedAll(fetch, fetched, chain)
      invariant visited == set id | id in fetched
      invariant Followed(fetch, invoiceId, fetched) && Hop(fetch, invoiceId, depth) == currentId
      invariant forall n :: 0 <= n < depth ==> !Revisits(fetch, invoiceId, n)
      decreases MAX_DEPTH + 1 - depth
    {
      if depth >= MAX_DEPTH {
        return TooDeep(currentId.value), fetched;
      }
      if currentId.value in visited {
        var i :| 0 <= i < |fetched| && fetched[i] == currentId.value;
        assert Hop(fetch, invoiceId, i) == Hop(fetch, invoiceId, depth);
        RevisitNeverEnds(fetch, invoiceId, i, depth, MAX_DEPTH);
        assert Revisits(fetch, invoiceId, depth);
        return Circular(currentId.value), fetched;
      }
      NotSeenBefore(fetch, invoiceId, fetched, currentId.value);
      visited := visited + {currentId.value};
      depth := depth + 1;
      var invoice := fetch(currentId.value);
      chain := chain + [invoice];
      fetched := fetched + [currentId.value];
      NextHop(fetch, invoiceId, depth);
      currentId := Truthy(invoice.next);
    }
    EndedStaysEnded(fetch, invoiceId, depth, MAX_DEPTH);
    forall n | 0 <= n < MAX_DEPTH ensures !Revisits(fetch, invoiceId, n) {
      if n >= depth { EndedStaysEnded(fetch, invoiceId, depth, n); }
    }
    return Chain(chain), fetched;
  }

  lemma FirstHop(fetch: string -> Invoice, start: string)
    ensures Hop(fetch, start, 0) == Truthy(Some(start))
  {
  }

  lemma NextHop(fetch: string -> Invoice, start: string, n: nat)
    requires n > 0
    ensures Hop(fetch, start, n - 1).Some? ==> Hop(fetch, start, n) == Truthy(fetch(Hop(fetch, start, n - 1).value).next)
  {
  }

  lemma NotSeenBefore(fetch: string -> Invoice, start: string, ids: seq<string>, id: string)
    requires Followed(fetch, start, ids) && Hop(fetch, start, |ids|) == Some(id) && id !in ids
    ensures !Revisits(fetch, start, |ids|)
  {
    hide Hop;
  }

  datatype CloneResult = Ancestry(invoices: seq<Invoice>) | CloneCycle(id: string) | CloneTooDeep

  function Reverse<T>(s: seq<T>): (r: seq<T>)
    ensures |r| == |s| && forall i :: 0 <= i < |s| ==> r[i] == s[|s| - 1 - i]
  {
    if s == [] then [] else Reverse(s[1..]) + [s[0]]
  }

  /** MAIN RESULT (`resolveCloneChain`). At most ten invoices are fetched. The ancestry is returned,
      root first, if and only if the parent path ends within ten; the error names an id exactly when
      one of the first ten steps after the leaf revisits one. */
  method ResolveCloneChain(invoiceId: string, fetch: string -> Invoice)
    returns (r: CloneResult, fetched: seq<string>)
    ensures |fetched| <= 10 && Followed(fetch, invoiceId, fetched)
    ensures r.Ancestry? <==> EndsWithinTen(fetch, invoiceId)
    ensures r.Ancestry? ==> FetchedAll(fetch, Reverse(fetched), r.invoices) && Hop(fetch, invoiceId, |fetched|).None?
    ensures r.CloneCycle? <==> exists n :: 0 <= n <= 10 && Revisits(fetch, invoiceId, n)
    ensures r.CloneCycle? ==> Revisits(fetch, invoiceId, |fetched|) && Hop(fetch, invoiceId, |fetched|) == Some(r.id)
  {
    hide Hop;
    var chain: seq<Invoice> := [];
    fetched := [];
    var currentId := Truthy(Some(invoiceId));
    var seen: set<string> := {};
    var depth := 0;
    FirstHop(fetch, invoiceId);
    while currentId.Some?
      invariant depth == |fetched| <= MAX_DEPTH && FetchedAll(fetch, Reverse(fetched), chain)
      invariant seen == set id | id in fetched
      invariant Followed(fetch, invoiceId, fetched) && Hop(fetch, invoiceId, depth) == currentId
      invariant forall n :: 0 <= n < depth ==> !Revisits(fetch, invoiceId, n)
      decreases MAX_DEPTH + 1 - depth
    {
      if currentId.value in seen {
        var i :| 0 <= i < |fetched| && fetched[i] == currentId.value;
        assert Hop(fetch, invoiceId, i) == Hop(fetch, invoiceId, depth);
        RevisitNeverEnds(fetch, invoiceId, i, depth, MAX_DEPTH);
        assert Revisits(fetch, invoiceId, depth);
        return CloneCycle(currentId.value), fetched;
      }
      NotSeenBefore(fetch, invoiceId, fetched, currentId.value);
      if depth >= MAX_DEPTH {
        return CloneTooDeep, fetched;
      }
      seen := seen + {currentId.value};
      var invoice := fetch(currentId.value);
      chain := [invoice] + chain;
      fetched := fetched + [currentId.value];
      depth := depth + 1;
      NextHop(fetch, invoiceId, depth);
      currentId := Truthy(invoice.next);
    }
    EndedStaysEnded(fetch, invoiceId, depth, MAX_DEPTH);
    forall n | 0 <= n <= MAX_DEPTH ensures !Revisits(fetch, invoiceId, n) {
      if n >= depth { EndedStaysEnded(fetch, invoiceId, depth, n); }
    }
    return Ancestry(chain), fetched;
  }

  // ---------------------------------------------------------------------------
  // Cursor paging

  datatype Page = Page(items: seq<string>, nextCursor: Option<string>, total: nat)

  /** `indexOf`: the first position of `id`, or -1. */
  function IndexOf(ids: seq<string>, id: string): (i: int)
    ensures -1 <= i < |ids|
    ensures i >= 0 ==> ids[i] == id && forall j :: 0 <= j < i ==> ids[j] != id
    ensures i < 0 ==> forall j :: 0 <= j < |ids| ==> ids[j] != id
  {
    if ids == [] then -1
    else if ids[0] == id then 0
    else
      var i := IndexOf(ids[1..], id);
      assert forall j :: 1 <= j < |ids| ==> ids[j] == ids[1..][j - 1];
      if i < 0 then -1 else i + 1
  }

  /** Where the page after `cursor` starts; an absent or empty cursor starts at the beginning. */
  function StartIndex(ids: seq<string>, cursor: Option<string>): (s: nat)
    ensures s <= |ids|
  {
    if Truthy(cursor).None? then 0 else IndexOf(ids, cursor.value) + 1
  }

  function PageOf(ids: seq<string>, cursor: Option<string>, limit: nat): Page {
    var start := StartIndex(ids, cursor);
    var items := ids[start..Min(start + limit, |ids|)];
    var next := if start + limit < |ids| && items != [] then Some(items[|items| - 1]) else None;
    Page(items, next, |ids|)
  }

  /** The id that ends the page before position `p` leads the next request to `p`. */
  predicate GoodCursor(ids: seq<string>, p: nat)
    requires 0 < p <= |ids|
  {
    ids[p - 1] != "" && forall j :: 0 <= j < p - 1 ==> ids[j] != ids[p - 1]
  }

  /** Every cursor handed out at a page boundary after `start` is good. */
  predicate GoodCursors(ids: seq<string>, limit: nat, start: nat)
    requires limit >= 1
    decreases if start < |ids| then |ids| - start else 0
  {
    start + limit < |ids| ==> GoodCursor(ids, start + limit) && GoodCursors(ids, limit, start + limit)
  }

  lemma CursorLeadsTo(ids: seq<string>, p: nat)
    requires 0 < p <= |ids|
    ensures StartIndex(ids, Some(ids[p - 1])) <= p
    ensures StartIndex(ids, Some(ids[p - 1])) == p <==> GoodCursor(ids, p)
  {
    if ids[p - 1] != "" {
      var i := IndexOf(ids, ids[p - 1]);
      assert 0 <= i <= p - 1;
    }
  }

  lemma {:induction false} DistinctIdsAreGood(ids: seq<string>, limit: nat, start: nat)
    requires limit >= 1
    requires forall i :: 0 <= i < |ids| ==> ids[i] != ""
    requires forall i, j :: 0 <= i < j < |ids| ==> ids[i] != ids[j]
    ensures GoodCursors(ids, limit, start)
    decreases if start < |ids| then |ids| - start else 0
  {
    if start + limit < |ids| { DistinctIdsAreGood(ids, limit, start + limit); }
  }

  lemma NoCursorStartsAtZero(ids: seq<string>)
    ensures StartIndex(ids, None) == 0
  {
  }

  lemma PageMeans(ids: seq<string>, cursor: Option<string>, limit: nat)
    requires limit >= 1
    ensures var start, page := StartIndex(ids, cursor), PageOf(ids, cursor, limit);
            if start + limit < |ids|
            then page.items == ids[start..start + limit] && page.nextCursor == Some(ids[start + limit - 1])
            else page.items == ids[start..] && page.nextCursor.None?
  {
  }

  function Prepend(items: seq<string>, more: Option<seq<string>>): Option<seq<string>> {
    match more case None => None case Some(rest) => Some(items + rest)
  }

  /** The ids collected by following cursors, if that ends within `fuel` pages. */
  function Collected(ids: seq<string>, limit: nat, cursor: Option<string>, fuel: nat): Option<seq<string>>
    decreases fuel
  {
    if fuel == 0 then None
    else
      var page := PageOf(ids, cursor, limit);
      if page.nextCursor.None? then Some(page.items)
      else
        Prepend(page.items, Collected(ids, limit, page.nextCursor, fuel - 1))
  }

  lemma {:induction false} CollectedEnough(ids: seq<string>, limit: nat, cursor: Option<string>, fuel: nat)
    requires limit >= 1 && Collected(ids, limit, cursor, fuel).Some?
    ensures |Collected(ids, limit, cursor, fuel).value| >= |ids| - StartIndex(ids, cursor)
    decreases fuel
  {
    hide PageOf, GoodCursor, StartIndex;
    PageMeans(ids, cursor, limit);
    var start := StartIndex(ids, cursor);
    var page := PageOf(ids, cursor, limit);
    if page.nextCursor.Some? {
      CollectedEnough(ids, limit, page.nextCursor, fuel - 1);
      CursorLeadsTo(ids, start + limit);
    }
  }

  lemma {:induction false} CollectedExact(ids: seq<string>, limit: nat, cursor: Option<string>, fuel: nat)
    requires limit >= 1 && Collected(ids, limit, cursor, fuel).Some?
    requires |Collected(ids, limit, cursor, fuel).value| == |ids| - StartIndex(ids, cursor)
    ensures GoodCursors(ids, limit, StartIndex(ids, cursor))
    decreases fuel
  {
    hide PageOf, GoodCursor, StartIndex;
    PageMeans(ids, cursor, limit);
    var start := StartIndex(ids, cursor);
    var page := PageOf(ids, cursor, limit);
    if page.nextCursor.Some? {
      CollectedEnough(ids, limit, page.nextCursor, fuel - 1);
      CursorLeadsTo(ids, start + limit);
      CollectedExact(ids, limit, page.nextCursor, fuel - 1);
    }
  }

  lemma {:induction false} CollectedGood(ids: seq<string>, limit: nat, cursor: Option<string>, fuel: nat)
    requires limit >= 1 && GoodCursors(ids, limit, StartIndex(ids, cursor))
    requires fuel > |ids| - StartIndex(ids, cursor)
    ensures Collected(ids, limit, cursor, fuel) == Some(ids[StartIndex(ids, cursor)..])
    decreases fuel
  {
    hide PageOf, GoodCursor, StartIndex;
    PageMeans(ids, cursor, limit);
    var start := StartIndex(ids, cursor);
    var page := PageOf(ids, cursor, limit);
    if page.nextCursor.Some? {
      CursorLeadsTo(ids, start + limit);
      CollectedGood(ids, limit, page.nextCursor, fuel - 1);
      assert ids[start..] == ids[start..start + limit] + ids[start + limit..];
    } else {
      assert page.items == ids[start..];
    }
  }

  /** MAIN RESULT. Following cursors from the start ends with exactly the whole list if and only if
      every page but the last ends with a non-empty id that does not occur earlier in the list. */
  lemma PagingExactly(ids: seq<string>, limit: nat)
    requires limit >= 1
    ensures (exists fuel: nat :: Collected(ids, limit, None, fuel) == Some(ids)) <==> GoodCursors(ids, limit, 0)
  {
    hide Collected, GoodCursors;
    if fuel: nat :| Collected(ids, limit, None, fuel) == Some(ids) {
      CollectedExact(ids, limit, None, fuel);
    }
    if GoodCursors(ids, limit, 0) {
      CollectedGood(ids, limit, None, |ids| + 1);
      assert ids[0..] == ids;
      assert Collected(ids, limit, None, |ids| + 1) == Some(ids);
    }
  }

  /** The paging loop of `queryInvoices`, cut off after `pages` pages, since on some lists it would
      not end by itself: it collects what following cursors yields. With good cursors, in particular
      for distinct non-empty ids, it ends with the whole list, nothing missing and nothing twice. */
  method AllIds(ids: seq<string>, limit: nat, pages: nat) returns (all: Option<seq<string>>)
    ensures all == Collected(ids, limit, None, pages)
    ensures limit >= 1 && pages > |ids| && GoodCursors(ids, limit, 0) ==> all == Some(ids)
  {
    hide PageOf, GoodCursors;
    var collected: seq<string> := [];
    var cursor: Option<string> := None;
    EnoughPages(ids, limit, pages);
    PrependTwice([], [], Collected(ids, limit, None, pages));
    for n := 0 to pages
      invariant Collected(ids, limit, None, pages) == Prepend(collected, Collected(ids, limit, cursor, pages - n))
    {
      var page := PageOf(ids, cursor, limit);
      PrependTwice(collected, page.items, Collected(ids, limit, page.nextCursor, pages - n - 1));
      collected := collected + page.items;
      if page.nextCursor.None? {
        return Some(collected);
      }
      cursor := page.nextCursor;
    }
    all := None;
  }

  lemma PrependTwice(a: seq<string>, b: seq<string>, more: Option<seq<string>>)
    ensures Prepend(a, Prepend(b, more)) == Prepend(a + b, more) && Prepend([], more) == more
  {
    if more.Some? { assert a + (b + more.value) == a + b + more.value && [] + more.value == more.value; }
  }

  lemma EnoughPages(ids: seq<string>, limit: nat, pages: nat)
    ensures limit >= 1 && pages > |ids| && GoodCursors(ids, limit, 0) ==> Collected(ids, limit, None, pages) == Some(ids)
  {
    hide Collected, PageOf;
    NoCursorStartsAtZero(ids);
    if limit >= 1 && pages > |ids| && GoodCursors(ids, limit, 0) {
      CollectedGood(ids, limit, None, pages);
      assert ids[0..] == ids;
    }
  }
}
