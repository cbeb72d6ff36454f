/** Cursor paging: pages bounded by count, bytes and time, and plain slices. */
module Paging {
  import opened Common
  import opened Decimal

  /** Encoded text. */
  datatype Text = Text(bytes: seq<bv8>)

  datatype BoundedPage = BoundedPage(items: seq<Text>, truncated: bool, nextCursor: Option<string>, bytesUsed: nat)

  /** The bytes charged for an item: its text, quotes and a comma. */
  function Framed(value: Text): nat {
    SatAdd(|value.bytes|, 3)
  }

  /** The items of `values[from..to]` that fit into a page at all, in order. */
  function Fitting(values: seq<Text>, from: nat, to: nat, maxBytes: nat): seq<Text>
    requires from <= to <= |values|
  {
    if from == to then []
    else Fitting(values, from, to - 1, maxBytes) +
         (if Framed(values[to - 1]) <= maxBytes then [values[to - 1]] else [])
  }

  lemma {:induction false} FittingJoin(values: seq<Text>, from: nat, mid: nat, to: nat, maxBytes: nat)
    requires from <= mid <= to <= |values|
    ensures Fitting(values, from, to, maxBytes) ==
            Fitting(values, from, mid, maxBytes) + Fitting(values, mid, to, maxBytes)
  {
    if mid == to {
    } else {
      FittingJoin(values, from, mid, to - 1, maxBytes);
    }
  }

  /** An item fits exactly if its bytes and three more do not exceed the limit. */
  lemma FittingOne(values: seq<Text>, i: nat, maxBytes: U64)
    requires i < |values|
    ensures Fitting(values, i, i + 1, maxBytes) ==
            if |values[i].bytes| + 3 <= maxBytes || maxBytes == U64_MAX then [values[i]] else []
  {
    assert Fitting(values, i, i, maxBytes) == [];
  }

  /** The true size of the items of `values[from..to]`. */
  ghost function SpanBytes(values: seq<Text>, from: nat, to: nat): nat
    requires from <= to <= |values|
  {
    if from == to then 0 else SpanBytes(values, from, to - 1) + |values[to - 1].bytes| + 3
  }

  /** Why a page that does not reach the end stopped at `next`. */
  ghost predicate Stopped(values: seq<Text>, items: seq<Text>, bytesUsed: nat, next: nat, limit: nat, maxBytes: nat,
                          maxDurationMs: nat, elapsed: nat -> nat)
    requires 0 < next < |values|
  {
    || |items| == Max(limit, 1)
    || (items != [] && elapsed(next) >= maxDurationMs)
    || (items != [] && SatAdd(bytesUsed, Framed(values[next])) > maxBytes)
    || (items == [] && Framed(values[next - 1]) > maxBytes)
  }

  /** The items from `start` up to the first limit met.  `elapsed(i)` is the clock
      reading taken before item `i`, on which nothing is assumed. */
  method FillPage(values: seq<Text>, start: nat, limit: nat, maxBytes: nat, maxDurationMs: nat, elapsed: nat -> nat)
    returns (items: seq<Text>, bytesUsed: nat, next: nat)
    requires start <= |values|
    ensures start <= next <= |values| && (start < |values| ==> start < next)
    ensures items == Fitting(values, start, next, maxBytes)
    ensures if items == [] then next <= start + 1 else items == values[start..next] && |items| <= Max(limit, 1)
    ensures bytesUsed == Min(SpanBytes(values, start, start + |items|), U64_MAX) && bytesUsed <= maxBytes
    ensures next < |values| ==> Stopped(values, items, bytesUsed, next, limit, maxBytes, maxDurationMs, elapsed)
  {
    items, bytesUsed, next := [], 0, start;
    var end := Min(start + Max(limit, 1), |values|);
    while next < end
      invariant start <= next <= end
      invariant items == values[start..next] == Fitting(values, start, next, maxBytes)
      invariant bytesUsed == Min(SpanBytes(values, start, next), U64_MAX) && bytesUsed <= maxBytes
    {
      var value := values[next];
      if elapsed(next) >= maxDurationMs && items != [] {
        return;
      }
      var itemBytes := Framed(value);
      if SatAdd(bytesUsed, itemBytes) > maxBytes && items != [] {
        return;
      }
      next := next + 1;
      if itemBytes > maxBytes && items == [] {
        return;
      }
      bytesUsed := SatAdd(bytesUsed, itemBytes);
      items := items + [value];
    }
  }

  /** A page from `cursor`. */
  method BoundedStringPage(values: seq<Text>, cursor: nat, limit: nat, maxBytes: nat, maxDurationMs: nat,
                           elapsed: nat -> nat)
    returns (page: BoundedPage, ghost next: nat)
    ensures var start := Min(cursor, |values|);
            && start <= next <= |values| && (start < |values| ==> start < next)
            && page.items == Fitting(values, start, next, maxBytes)
            && page.items <= values[start..]
            && page.bytesUsed == Min(SpanBytes(values, start, start + |page.items|), U64_MAX)
    ensures page.bytesUsed <= maxBytes
    ensures |page.items| <= Max(limit, 1)
    ensures page.truncated == (next < |values|)
    ensures page.nextCursor == if next < |values| then Some(Numeral(next)) else None
    ensures 0 < next < |values| ==>
              Stopped(values, page.items, page.bytesUsed, next, limit, maxBytes, maxDurationMs, elapsed)
  {
    var items, bytesUsed, nextIndex := FillPage(values, Min(cursor, |values|), limit, maxBytes, maxDurationMs, elapsed);
    next := nextIndex;
    var truncated := nextIndex < |values|;
    page := BoundedPage(items, truncated, if truncated then Some(Numeral(nextIndex)) else None, bytesUsed);
  }

  /** A client that follows `next_cursor` from the start, with any clock on each
      page, ends after at most one page per item and one more, and receives every
      item that fits a page once, in order. */
  method FollowCursors(values: seq<Text>, limit: nat, maxBytes: nat, maxDurationMs: nat, clocks: nat -> nat -> nat)
    returns (received: seq<Text>, pages: nat)
    ensures received == Fitting(values, 0, |values|, maxBytes)
    ensures pages <= |values| + 1
  {
    received, pages := [], 0;
    var cursor := 0;
    var more := true;
    while more
      invariant 0 <= cursor <= |values| && pages <= cursor + if more then 0 else 1
      invariant received == Fitting(values, 0, cursor, maxBytes)
      invariant !more ==> cursor == |values|
      decreases more, |values| - cursor
    {
      ghost var from := cursor;
      var page, next := BoundedStringPage(values, cursor, limit, maxBytes, maxDurationMs, clocks(pages));
      received := received + page.items;
      pages := pages + 1;
      FittingJoin(values, 0, from, next, maxBytes);
      if page.nextCursor.Some? {
        NumeralRoundTrip(next);
        cursor := Parse(page.nextCursor.value).value;
      } else {
        more, cursor := false, |values|;
      }
    }
  }

  // ------------------------------------------------------------------ slices

  datatype SlicePage<T> = SlicePage(
    results: seq<T>, offset: nat, limit: nat, total: nat, truncated: bool, nextOffset: Option<nat>,
    nextCursor: Option<string>)

  /** The selected items in order. */
  function Select<T>(items: seq<T>, matches: T -> bool): seq<T> {
    if items == [] then []
    else if matches(items[0]) then [items[0]] + Select(items[1..], matches)
    else Select(items[1..], matches)
  }

  /** Selection keeps exactly the matching items, in order: it is decided item by
      item and joins over lists. */
  lemma {:induction false} SelectJoins<T>(a: seq<T>, b: seq<T>, matches: T -> bool)
    ensures Select(a + b, matches) == Select(a, matches) + Select(b, matches)
  {
    if a == [] {
      assert a + b == b;
    } else {
      assert (a + b)[1..] == a[1..] + b;
      SelectJoins(a[1..], b, matches);
    }
  }

  lemma SelectOne<T>(x: T, matches: T -> bool)
    ensures Select([x], matches) == if matches(x) then [x] else []
  {
    assert [x][1..] == [];
  }

  /** One page of a list of matches, as node queries, renderings and entity
      queries return it. */
  function PageOf<T>(matches: seq<T>, offset: nat, limit: nat): (page: SlicePage<T>)
    requires |matches| <= U64_MAX
    ensures offset < |matches| ==> |page.results| > 0
    ensures page.nextOffset.Some? ==> page.nextOffset.value == page.offset + |page.results| < |matches|
    ensures page.offset == if offset < |matches| then offset else |matches|
    ensures page.results <= matches[page.offset..] && |page.results| <= page.limit
    ensures page.limit == (if limit == 0 then 1 else limit) && page.total == |matches|
    ensures page.offset + |page.results| < |matches| ==> |page.results| == page.limit
    ensures page.truncated <==> page.offset + |page.results| < |matches|
    ensures page.truncated <==> page.nextOffset.Some?
    ensures page.truncated <==> page.nextCursor.Some?
    ensures page.truncated ==> Parse(page.nextCursor.value) == page.nextOffset
  {
    var start := Min(offset, |matches|);
    var end := Min(SatAdd(start, Max(limit, 1)), |matches|);
    var truncated := end < |matches|;
    NumeralRoundTrip(end);
    SlicePage(matches[start..end], start, Max(limit, 1), |matches|, truncated,
              if truncated then Some(end) else None, if truncated then Some(Numeral(end)) else None)
  }

  /** The results of all pages from `offset` on, following `next_offset`. */
  ghost function AllPages<T>(matches: seq<T>, offset: nat, limit: nat): seq<T>
    requires |matches| <= U64_MAX
    decreases |matches| - Min(offset, |matches|)
  {
    var page := PageOf(matches, offset, limit);
    match page.nextOffset
    case None => page.results
    case Some(next) => page.results + AllPages(matches, next, limit)
  }

  lemma {:induction false} AllPagesFrom<T>(matches: seq<T>, offset: nat, limit: nat)
    requires |matches| <= U64_MAX
    ensures AllPages(matches, offset, limit) == matches[Min(offset, |matches|)..]
    decreases |matches| - Min(offset, |matches|)
  {
    var page := PageOf(matches, offset, limit);
    if page.nextOffset.Some? {
      AllPagesFrom(matches, page.nextOffset.value, limit);
    }
  }

  /** Chained pages of a query concatenate to the unpaged query. */
  lemma QueryPagesConcatenate<T>(items: seq<T>, matches: T -> bool, limit: nat)
    requires |Select(items, matches)| <= U64_MAX
    ensures AllPages(Select(items, matches), 0, limit) == Select(items, matches)
  {
    AllPagesFrom(Select(items, matches), 0, limit);
  }
}
