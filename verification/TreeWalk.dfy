/**
  The paged walk over a btrfs tree. The kernel answers a search with some of the items at or after a cursor, in
  key order; the walk hands each item to a callback, moves the cursor past the last one and asks again.
  */
module TreeWalk {
  import opened Wrappers

  const U64: int := 0x1_0000_0000_0000_0000
  const U32: int := 0x1_0000_0000

  type uint64 = n: nat | n < U64
  type uint32 = n: nat | n < U32

  datatype Key = Key(objectid: uint64, typ: uint32, offset: uint64)

  // Keys are ordered by object, then type, then offset.
  predicate Less(a: Key, b: Key) {
    || a.objectid < b.objectid
    || (a.objectid == b.objectid && a.typ < b.typ)
    || (a.objectid == b.objectid && a.typ == b.typ && a.offset < b.offset)
  }

  predicate AtMost(a: Key, b: Key) { a == b || Less(a, b) }

  datatype Item = Item(key: Key, data: seq<nat>)

  // The search bounds. The kernel compares whole keys with (minimum, minimum, minimum) and (maximum, ...).
  datatype Params = Params(minObjectid: uint64, maxObjectid: uint64, minType: uint32, maxType: uint32,
                           minOffset: uint64, maxOffset: uint64)
  {
    function Low(): Key { Key(minObjectid, minType, minOffset) }
    function High(): Key { Key(maxObjectid, maxType, maxOffset) }

    predicate TypeInBounds(k: Key) { minType <= k.typ <= maxType }

    // Within all three bounds, which is what callers are after.
    predicate InBounds(k: Key) {
      && minObjectid <= k.objectid <= maxObjectid
      && TypeInBounds(k)
      && minOffset <= k.offset <= maxOffset
    }
  }

  ghost predicate AscendingKeys(items: seq<Item>) {
    forall i, j | 0 <= i < j < |items| :: Less(items[i].key, items[j].key)
  }

  // A tree: keys ascend, and a key on disk has a type of one byte.
  ghost predicate Store(items: seq<Item>) {
    AscendingKeys(items) && forall i <- items :: i.key.typ < 256
  }

  // ---- the kernel's side of a search

  // The number of items before the cursor.
  function Before(items: seq<Item>, cursor: Key): (n: nat)
    ensures n <= |items|
    ensures forall i | 0 <= i < n :: Less(items[i].key, cursor)
    ensures n < |items| ==> AtMost(cursor, items[n].key)
  {
    if items == [] || AtMost(cursor, items[0].key) then 0 else 1 + Before(items[1..], cursor)
  }

  // The number of items up to and including a bound.
  function UpTo(items: seq<Item>, bound: Key): (n: nat)
    ensures n <= |items|
    ensures forall i | 0 <= i < n :: AtMost(items[i].key, bound)
    ensures n < |items| ==> Less(bound, items[n].key)
  {
    if items == [] || Less(bound, items[0].key) then 0 else 1 + UpTo(items[1..], bound)
  }

  // One search: it may fail; otherwise it returns a nonempty prefix of what there is in range, or nothing if
  // there is nothing.
  method TreeSearch(items: seq<Item>, cursor: Key, bound: Key) returns (ok: bool, page: seq<Item>)
    requires Store(items)
    ensures var from := Before(items, cursor);
            && (ok && page == [] ==> UpTo(items, bound) <= from)
            && (ok && page != [] ==>
                  from + |page| <= UpTo(items, bound) && page == items[from..from + |page|] && |page| <= 4096)
  {
    ok := *;
    var a, b := Before(items, cursor), UpTo(items, bound);
    if b <= a {
      page := [];
    } else {
      var n: nat :| 1 <= n <= b - a && n <= 4096;
      page := items[a..a + n];
    }
  }

  // ---- the cursor

  // The cursor after an item: the offset plus one, with carries, in the widths of the fields. None ends the walk.
  function NextCursor(last: Key, p: Params): (r: (bool, Key)) {
    var offset := (last.offset + 1) % U64;
    if offset != 0 then (true, last.(offset := offset))
    else
      var typ := (last.typ + 1) % U32;
      if typ <= p.maxType then (true, Key(last.objectid, typ, 0))
      else
        var objectid := (last.objectid + 1) % U64;
        (objectid <= p.maxObjectid, Key(objectid, p.minType, 0))
  }

  // After this key the object id itself wraps around.
  predicate Wraps(last: Key, p: Params) {
    last.offset == U64 - 1 && last.typ >= p.maxType && last.objectid == U64 - 1
  }

  // The cursor moves forward except when the object id wraps around.
  lemma CursorAdvances(last: Key, p: Params)
    requires last.typ < 256
    ensures Less(last, NextCursor(last, p).1) <==> !Wraps(last, p)
  {
  }

  // The walk goes on only to objects in bounds.
  lemma GoesOnInBounds(last: Key, p: Params)
    requires last.objectid <= p.maxObjectid
    ensures var (more, next) := NextCursor(last, p); more ==> next.objectid <= p.maxObjectid
  {
  }

  // Where it wraps, the walk goes on from the lowest object id, before everything in range.
  lemma WrapStartsOver(last: Key, p: Params, k: Key)
    requires Wraps(last, p) && last.typ < 256
    ensures NextCursor(last, p) == (true, Key(0, p.minType, 0))
    ensures AtMost(p.Low(), k) ==> AtMost(NextCursor(last, p).1, k)
  {
  }

  // What the carry jumps over lies outside the type bounds.
  lemma CarrySkipsNothing(last: Key, p: Params, k: Key)
    requires last.typ < 256 && k.typ < 256 && !Wraps(last, p)
    requires AtMost(last, p.High()) && Less(last, k) && AtMost(k, p.High())
    requires var (more, next) := NextCursor(last, p); more ==> Less(k, next)
    ensures !p.TypeInBounds(k)
  {
  }

  // ---- the callback

  datatype Error = StopWalk | Other(code: nat)

  // The callback's state and result; the error it returns is passed to the next call.
  type Callback<!S> = (S, Item, Option<Error>) -> (S, Option<Error>)

  // Calls for each item in turn, until one asks to stop.
  function CallEach<S>(fn: Callback<S>, items: seq<Item>, s: S, lastErr: Option<Error>): (S, Option<Error>)
  {
    if items == [] then (s, lastErr)
    else
      var (s', e) := CallEach(fn, items[..|items| - 1], s, lastErr);
      fn(s', items[|items| - 1], e)
  }

  // None of the calls on these items asks to stop.
  ghost predicate NeverStops<S>(fn: Callback<S>, items: seq<Item>, s: S) {
    forall i | 0 < i <= |items| :: CallEach(fn, items[..i], s, None).1 != Some(StopWalk)
  }

  const ROOT_BACKREF: uint32 := 144
  const ROOT_REF: uint32 := 156

  // The walk decodes reference items itself, before it calls back; `ok` tells which payloads decode.
  predicate RefDecodes(ok: seq<nat> -> bool, item: Item) {
    (item.key.typ == ROOT_BACKREF || item.key.typ == ROOT_REF) ==> ok(item.data)
  }

  datatype Outcome = Finished(lastErr: Option<Error>) | Stopped | SearchFailed | BadReference(bad: Item)

  // All items in key range before the bound were visited, or have a type that was not asked for.
  ghost predicate Accounted(items: seq<Item>, p: Params, visited: seq<Item>, upTo: nat) {
    forall i | 0 <= i < upTo && i < |items| && AtMost(p.Low(), items[i].key) && AtMost(items[i].key, p.High()) ::
      items[i] in visited || !p.TypeInBounds(items[i].key)
  }

  // Visited in order, only what is in the tree and in key range.
  ghost predicate ProperVisit(items: seq<Item>, p: Params, visited: seq<Item>) {
    && AscendingKeys(visited)
    && forall v <- visited :: v in items && AtMost(p.Low(), v.key) && AtMost(v.key, p.High())
  }

  lemma InBoundsInRange(p: Params, k: Key)
    ensures p.InBounds(k) ==> AtMost(p.Low(), k) && AtMost(k, p.High())
  {
  }

  lemma {:induction false} StoreOrder(items: seq<Item>, cursor: Key, i: nat)
    requires Store(items) && i < |items|
    ensures i < Before(items, cursor) <==> Less(items[i].key, cursor)
  {
    var n := Before(items, cursor);
    if n <= i {
      assert n == i || Less(items[n].key, items[i].key);
    }
  }

  lemma {:induction false} NothingInRange(items: seq<Item>, p: Params, visited: seq<Item>, from: nat)
    requires Store(items) && Accounted(items, p, visited, from) && UpTo(items, p.High()) <= from
    ensures Accounted(items, p, visited, |items|)
  {
    var n := UpTo(items, p.High());
    forall i | from <= i < |items| ensures Less(p.High(), items[i].key) {
      assert n == i || Less(items[n].key, items[i].key);
    }
  }

  lemma PageOrder(items: seq<Item>, from: nat, end: nat)
    requires Store(items) && from < end <= |items|
    ensures forall v <- items[from..end] :: AtMost(v.key, items[end - 1].key) && AtMost(items[from].key, v.key)
    ensures forall v <- items[from..end] :: v in items
    ensures AscendingKeys(items[from..end])
  {
    hide Less;
    forall v | v in items[from..end] ensures AtMost(v.key, items[end - 1].key) && AtMost(items[from].key, v.key) {
      var i :| from <= i < end && items[i] == v;
      assert i == end - 1 || Less(items[i].key, items[end - 1].key);
      assert i == from || Less(items[from].key, items[i].key);
    }
    var page := items[from..end];
    forall i, j | 0 <= i < j < |page| ensures Less(page[i].key, page[j].key) {
      assert page[i] == items[from + i] && page[j] == items[from + j];
    }
  }

  lemma LessTransitive(a: Key, b: Key, c: Key)
    ensures AtMost(a, b) && AtMost(b, c) ==> AtMost(a, c)
    ensures Less(a, b) && AtMost(b, c) ==> Less(a, c)
    ensures AtMost(a, b) && Less(b, c) ==> Less(a, c)
  {
  }

  lemma AscendingConcat(a: seq<Item>, b: seq<Item>, k: Key)
    requires AscendingKeys(a) && AscendingKeys(b)
    requires (forall v <- a :: Less(v.key, k)) && (forall v <- b :: AtMost(k, v.key))
    ensures AscendingKeys(a + b)
  {
    hide Less, AtMost;
    var c := a + b;
    forall i, j | 0 <= i < j < |c| ensures Less(c[i].key, c[j].key) {
      if i < |a| <= j {
        assert c[i] in a && c[j] in b;
        LessTransitive(c[i].key, k, c[j].key);
      }
    }
  }

  // The state between two searches.
  ghost predicate WalkState(items: seq<Item>, p: Params, visited: seq<Item>, cursor: Key) {
    && ProperVisit(items, p, visited)
    && (forall v <- visited :: Less(v.key, cursor))
    && AtMost(p.Low(), cursor)
    && Accounted(items, p, visited, Before(items, cursor))
  }

  lemma {:induction false} VisitPage(items: seq<Item>, p: Params, seen: seq<Item>, cursor: Key, end: nat)
    requires Store(items) && WalkState(items, p, seen, cursor)
    requires Before(items, cursor) < end <= UpTo(items, p.High())
    ensures var all := seen + items[Before(items, cursor)..end];
            && ProperVisit(items, p, all) && Accounted(items, p, all, end)
            && (forall v <- all :: AtMost(v.key, items[end - 1].key))
            && AtMost(p.Low(), items[end - 1].key)
  {
    hide Less, AtMost, AscendingKeys, Accounted, Store, WalkState, ProperVisit;
    var from := Before(items, cursor);
    var page := items[from..end];
    WalkStateFacts(items, p, seen, cursor);
    PageBounds(items, p, cursor, end);
    PageOrder(items, from, end);
    SeenBelow(seen, cursor, page[end - 1 - from].key);
    ProperConcat(items, p, seen, page, cursor);
    PageAccounted(items, p, seen, from, end);
  }

  lemma {:induction false} WalkStateFacts(items: seq<Item>, p: Params, visited: seq<Item>, cursor: Key)
    requires WalkState(items, p, visited, cursor)
    ensures ProperVisit(items, p, visited) && Accounted(items, p, visited, Before(items, cursor))
    ensures AtMost(p.Low(), cursor) && forall v <- visited :: Less(v.key, cursor)
  {
  }

  lemma {:induction false} PageBounds(items: seq<Item>, p: Params, cursor: Key, end: nat)
    requires Store(items) && AtMost(p.Low(), cursor) && Before(items, cursor) < end <= UpTo(items, p.High())
    ensures forall v <- items[Before(items, cursor)..end] ::
              AtMost(cursor, v.key) && AtMost(p.Low(), v.key) && AtMost(v.key, p.High())
  {
    hide Less, AtMost, AscendingKeys;
    var from := Before(items, cursor);
    PageOrder(items, from, end);
    forall v | v in items[from..end]
      ensures AtMost(cursor, v.key) && AtMost(p.Low(), v.key) && AtMost(v.key, p.High())
    {
      LessTransitive(cursor, items[from].key, v.key);
      LessTransitive(p.Low(), cursor, v.key);
      LessTransitive(v.key, items[end - 1].key, p.High());
    }
  }

  lemma SeenBelow(seen: seq<Item>, cursor: Key, last: Key)
    requires (forall v <- seen :: Less(v.key, cursor)) && AtMost(cursor, last)
    ensures forall v <- seen :: AtMost(v.key, last)
  {
    hide Less, AtMost;
    forall v | v in seen ensures AtMost(v.key, last) {
      LessTransitive(v.key, cursor, last);
      LessIsAtMost(v.key, last);
    }
  }

  lemma ProperConcat(items: seq<Item>, p: Params, seen: seq<Item>, page: seq<Item>, cursor: Key)
    requires ProperVisit(items, p, seen) && AscendingKeys(page)
    requires forall v <- seen :: Less(v.key, cursor)
    requires forall v <- page :: v in items && AtMost(cursor, v.key) && AtMost(p.Low(), v.key)
              && AtMost(v.key, p.High())
    ensures ProperVisit(items, p, seen + page)
  {
    hide Less, AtMost, AscendingKeys;
    AscendingConcat(seen, page, cursor);
  }

  lemma PageAccounted(items: seq<Item>, p: Params, seen: seq<Item>, from: nat, end: nat)
    requires Accounted(items, p, seen, from) && from <= end <= |items|
    ensures Accounted(items, p, seen + items[from..end], end)
  {
    hide Less, AtMost;
    var page := items[from..end];
    forall i | from <= i < end ensures items[i] in seen + page {
      assert page[i - from] == items[i];
    }
  }

  lemma LessIsAtMost(a: Key, b: Key)
    ensures Less(a, b) ==> AtMost(a, b)
  {
  }

  lemma {:induction false} AfterPage(items: seq<Item>, p: Params, visited: seq<Item>, end: nat)
    requires Store(items) && 0 < end <= UpTo(items, p.High()) && !Wraps(items[end - 1].key, p)
    requires Accounted(items, p, visited, end) && ProperVisit(items, p, visited)
    requires AtMost(p.Low(), items[end - 1].key)
    requires forall v <- visited :: AtMost(v.key, items[end - 1].key)
    ensures var (more, next) := NextCursor(items[end - 1].key, p);
            if more then end <= Before(items, next) && WalkState(items, p, visited, next)
            else Accounted(items, p, visited, |items|)
  {
    var last := items[end - 1].key;
    var (more, next) := NextCursor(last, p);
    assert items[end - 1] in items;
    CursorAdvances(last, p);
    hide NextCursor, Less, AtMost, Wraps;
    if more {
      StoreOrder(items, next, end - 1);
      LessTransitive(p.Low(), last, next);
      LessIsAtMost(p.Low(), next);
      forall v | v in visited ensures Less(v.key, next) {
        LessTransitive(v.key, last, next);
      }
    }
    forall i | end <= i < |items| && AtMost(items[i].key, p.High()) && (more ==> i < Before(items, next))
      ensures !p.TypeInBounds(items[i].key)
    {
      assert items[i] in items && Less(last, items[i].key);
      StoreOrder(items, next, i);
      CarrySkipsNothing(last, p, items[i].key);
    }
  }

  datatype PageEnd = AllCalled | CallStopped | RefBroken(bad: Item)

  // The callback was called on the first `calls` items of a page, all of which decode. It asked to stop nowhere but at
  // the last of them, and a broken reference is the item after them.
  ghost predicate PageCalled<S>(fn: Callback<S>, ok: seq<nat> -> bool, s0: S, seen: seq<Item>, page: seq<Item>,
                                s: S, lastErr: Option<Error>, end: PageEnd, calls: nat)
  {
    && calls <= |page| && (s, lastErr) == CallEach(fn, seen + page[..calls], s0, None)
    && (forall i | 0 <= i < calls :: RefDecodes(ok, page[i]))
    && match end
       case AllCalled => calls == |page| && NeverStops(fn, seen + page, s0)
       case CallStopped => calls > 0 && lastErr == Some(StopWalk) && NeverStops(fn, seen + page[..calls - 1], s0)
       case RefBroken(bad) =>
         calls < |page| && bad == page[calls] && !RefDecodes(ok, bad) && NeverStops(fn, seen + page[..calls], s0)
  }

  // The callback on the items of one page, until it asks to stop or a reference does not decode.
  method CallOnPage<S>(fn: Callback<S>, ok: seq<nat> -> bool, ghost s0: S, ghost seen: seq<Item>, page: seq<Item>,
                       s1: S, lastErr1: Option<Error>)
    returns (s: S, lastErr: Option<Error>, end: PageEnd)
    requires (s1, lastErr1) == CallEach(fn, seen, s0, None) && NeverStops(fn, seen, s0)
    ensures exists calls: nat :: PageCalled(fn, ok, s0, seen, page, s, lastErr, end, calls)
  {
    hide CallEach, NeverStops, RefDecodes;
    s, lastErr := s1, lastErr1;
    assert seen + page[..0] == seen;
    for i := 0 to |page|
      invariant (s, lastErr) == CallEach(fn, seen + page[..i], s0, None) && NeverStops(fn, seen + page[..i], s0)
      invariant forall j | 0 <= j < i :: RefDecodes(ok, page[j])
    {
      if !RefDecodes(ok, page[i]) {
        assert PageCalled(fn, ok, s0, seen, page, s, lastErr, RefBroken(page[i]), i);
        return s, lastErr, RefBroken(page[i]);
      }
      var (s', err) := fn(s, page[i], lastErr);
      CallNext(fn, seen + page[..i], page[i], s0);
      assert seen + page[..i + 1] == seen + page[..i] + [page[i]];
      s, lastErr := s', err;
      if lastErr == Some(StopWalk) {
        assert PageCalled(fn, ok, s0, seen, page, s, lastErr, CallStopped, i + 1);
        return s, lastErr, CallStopped;
      }
      NoStopYet(fn, seen + page[..i], page[i], s0);
    }
    assert page[..|page|] == page;
    end := AllCalled;
    assert PageCalled(fn, ok, s0, seen, page, s, lastErr, AllCalled, |page|);
  }

  // Up to the last item visited, only items outside the type bounds were left out.
  ghost predicate NoGaps(items: seq<Item>, p: Params, visited: seq<Item>) {
    visited != [] ==>
      forall i <- items :: AtMost(p.Low(), i.key) && Less(i.key, visited[|visited| - 1].key) && i !in visited
                           ==> !p.TypeInBounds(i.key)
  }

  // No key in range is one after which the cursor wraps around.
  ghost predicate NeverWraps(items: seq<Item>, p: Params) {
    forall i <- items :: AtMost(p.Low(), i.key) && AtMost(i.key, p.High()) ==> !Wraps(i.key, p)
  }

  // All items with keys before the last visited one have been accounted for.
  lemma AccountedNoGaps(items: seq<Item>, p: Params, visited: seq<Item>, upTo: nat)
    requires Accounted(items, p, visited, upTo) && ProperVisit(items, p, visited)
    requires visited != [] ==> forall i | upTo <= i < |items| :: !Less(items[i].key, visited[|visited| - 1].key)
    ensures NoGaps(items, p, visited)
  {
    hide Less, AtMost;
    if visited != [] {
      var last := visited[|visited| - 1];
      assert last in visited;
      forall x | x in items && AtMost(p.Low(), x.key) && Less(x.key, last.key) && x !in visited
        ensures !p.TypeInBounds(x.key)
      {
        var i :| 0 <= i < |items| && items[i] == x;
        LessIsAtMost(x.key, last.key);
        LessTransitive(x.key, last.key, p.High());
      }
    }
  }

  lemma LessIsStrict(a: Key, b: Key)
    ensures Less(a, b) ==> !Less(b, a) && a != b
  {
  }

  // Every item visited decodes as far as the walk itself decodes.
  ghost predicate AllRefsDecode(ok: seq<nat> -> bool, visited: seq<Item>) {
    forall v <- visited :: v.key.typ == 144 || v.key.typ == 156 ==> ok(v.data)
  }

  // The reference that broke the walk is the next item in range after those visited.
  ghost predicate BreaksAfter(items: seq<Item>, p: Params, ok: seq<nat> -> bool, visited: seq<Item>, bad: Item) {
    && bad in items && AtMost(p.Low(), bad.key) && AtMost(bad.key, p.High())
    && (bad.key.typ == 144 || bad.key.typ == 156) && !ok(bad.data)
    && (forall v <- visited :: Less(v.key, bad.key))
    && (forall i <- items :: AtMost(p.Low(), i.key) && Less(i.key, bad.key) && i !in visited ==> !p.TypeInBounds(i.key))
  }

  // What a walk did: it called back for these items in turn, and ended so.
  ghost predicate Walked<S>(items: seq<Item>, p: Params, fn: Callback<S>, ok: seq<nat> -> bool, s0: S,
                            visited: seq<Item>, s: S, outcome: Outcome)
  {
    && ProperVisit(items, p, visited)
    && NoGaps(items, p, visited)
    && AllRefsDecode(ok, visited)
    && s == CallEach(fn, visited, s0, None).0
    && match outcome
       case Finished(lastErr) =>
         && lastErr == CallEach(fn, visited, s0, None).1
         && NeverStops(fn, visited, s0)
         && (forall i <- items :: p.InBounds(i.key) ==> i in visited)
         && (forall i <- items :: AtMost(p.Low(), i.key) && AtMost(i.key, p.High()) && i !in visited
                                  ==> !p.TypeInBounds(i.key))
       case Stopped =>
         && visited != []
         && CallEach(fn, visited, s0, None).1 == Some(StopWalk)
         && NeverStops(fn, visited[..|visited| - 1], s0)
       case SearchFailed => NeverStops(fn, visited, s0)
       case BadReference(bad) => NeverStops(fn, visited, s0) && BreaksAfter(items, p, ok, visited, bad)
  }

  lemma {:induction false} WalkFinishes<S>(items: seq<Item>, p: Params, fn: Callback<S>, ok: seq<nat> -> bool, s0: S,
                                           visited: seq<Item>, s: S, lastErr: Option<Error>)
    requires ProperVisit(items, p, visited) && Accounted(items, p, visited, |items|) && AllRefsDecode(ok, visited)
    requires (s, lastErr) == CallEach(fn, visited, s0, None) && NeverStops(fn, visited, s0)
    ensures Walked(items, p, fn, ok, s0, visited, s, Finished(lastErr))
  {
    hide Less, AtMost, ProperVisit, Accounted, NeverStops, CallEach, NoGaps, AllRefsDecode;
    AllAccounted(items, p, visited);
    AccountedNoGaps(items, p, visited, |items|);
  }

  // What was visited when the callback on a page ended after `calls` items.
  lemma {:induction false} PartVisited(items: seq<Item>, p: Params, seen: seq<Item>, cursor: Key, page: seq<Item>,
      calls: nat)
    returns (visited: seq<Item>)
    requires Store(items) && WalkState(items, p, seen, cursor) && 0 < calls <= |page|
    requires var from := Before(items, cursor);
             from + |page| <= UpTo(items, p.High()) && page == items[from..from + |page|]
    ensures visited == seen + page[..calls] && ProperVisit(items, p, visited) && NoGaps(items, p, visited)
    ensures Accounted(items, p, visited, Before(items, cursor) + calls)
  {
    hide ProperVisit, WalkState, Accounted, NoGaps, Less, AtMost, AscendingKeys, Before, UpTo;
    var from := Before(items, cursor);
    visited := seen + page[..calls];
    assert page[..calls] == items[from..from + calls];
    VisitPage(items, p, seen, cursor, from + calls);
    assert visited[|visited| - 1] == items[from + calls - 1];
    NothingBetween(items, from + calls);
    AccountedNoGaps(items, p, visited, from + calls);
  }

  lemma NothingBetween(items: seq<Item>, end: nat)
    requires Store(items) && 0 < end <= |items|
    ensures forall i | end <= i < |items| :: !Less(items[i].key, items[end - 1].key)
  {
    hide Less;
    forall i | end <= i < |items| ensures !Less(items[i].key, items[end - 1].key) {
      LessIsStrict(items[end - 1].key, items[i].key);
    }
  }

  lemma MoreDecode(ok: seq<nat> -> bool, seen: seq<Item>, page: seq<Item>, calls: nat)
    requires calls <= |page| && AllRefsDecode(ok, seen) && forall i | 0 <= i < calls :: RefDecodes(ok, page[i])
    ensures AllRefsDecode(ok, seen + page[..calls])
  {
  }

  lemma {:induction false} WalkStops<S>(items: seq<Item>, p: Params, fn: Callback<S>, ok: seq<nat> -> bool, s0: S,
                                        seen: seq<Item>, cursor: Key, page: seq<Item>,
                                        s: S, lastErr: Option<Error>, calls: nat) returns (visited: seq<Item>)
    requires Store(items) && WalkState(items, p, seen, cursor) && AllRefsDecode(ok, seen)
    requires var from := Before(items, cursor);
             from + |page| <= UpTo(items, p.High()) && page == items[from..from + |page|]
    requires PageCalled(fn, ok, s0, seen, page, s, lastErr, CallStopped, calls)
    ensures Walked(items, p, fn, ok, s0, visited, s, Stopped)
  {
    hide ProperVisit, NeverStops, CallEach, WalkState, Accounted, NoGaps, AllRefsDecode, RefDecodes, Store, Before,
        UpTo;
    visited := PartVisited(items, p, seen, cursor, page, calls);
    MoreDecode(ok, seen, page, calls);
    assert visited[..|visited| - 1] == seen + page[..calls - 1];
  }

  lemma {:induction false} StateNoGaps(items: seq<Item>, p: Params, visited: seq<Item>, cursor: Key)
    requires Store(items) && WalkState(items, p, visited, cursor)
    ensures ProperVisit(items, p, visited) && NoGaps(items, p, visited)
  {
    hide ProperVisit, WalkState, Accounted, NoGaps, Less, AtMost, Before;
    WalkStateFacts(items, p, visited, cursor);
    var from := Before(items, cursor);
    if visited != [] {
      var last := visited[|visited| - 1];
      assert last in visited;
      forall i | from <= i < |items| ensures !Less(items[i].key, last.key) {
        StoreOrder(items, cursor, i);
        if Less(items[i].key, last.key) {
          LessIsAtMost(last.key, cursor);
          LessTransitive(items[i].key, last.key, cursor);
        }
      }
    }
    AccountedNoGaps(items, p, visited, from);
  }

  lemma {:induction false} WalkFails<S>(items: seq<Item>, p: Params, fn: Callback<S>, ok: seq<nat> -> bool, s0: S,
                     visited: seq<Item>, cursor: Key, s: S)
    requires Store(items) && WalkState(items, p, visited, cursor) && AllRefsDecode(ok, visited)
    requires s == CallEach(fn, visited, s0, None).0 && NeverStops(fn, visited, s0)
    ensures Walked(items, p, fn, ok, s0, visited, s, SearchFailed)
  {
    hide ProperVisit, NeverStops, CallEach, WalkState, NoGaps, AllRefsDecode, Store;
    StateNoGaps(items, p, visited, cursor);
  }

  // The items on the page before the broken reference have smaller keys, and nothing else was left out.
  lemma {:induction false} ReferenceBreaks(items: seq<Item>, p: Params, ok: seq<nat> -> bool, seen: seq<Item>,
                                           cursor: Key, page: seq<Item>, calls: nat) returns (visited: seq<Item>)
    requires Store(items) && WalkState(items, p, seen, cursor) && calls < |page| && !RefDecodes(ok, page[calls])
    requires var from := Before(items, cursor);
             from + |page| <= UpTo(items, p.High()) && page == items[from..from + |page|]
    ensures visited == seen + page[..calls] && ProperVisit(items, p, visited) && NoGaps(items, p, visited)
    ensures BreaksAfter(items, p, ok, visited, page[calls])
  {
    hide WalkState, Accounted, NoGaps, Less, AtMost, Before, UpTo;
    var from := Before(items, cursor);
    visited := seen + page[..calls];
    WalkStateFacts(items, p, seen, cursor);
    if calls == 0 {
      assert visited == seen;
      StateNoGaps(items, p, seen, cursor);
    } else {
      var part := PartVisited(items, p, seen, cursor, page, calls);
      assert part == visited;
    }
    var bad := page[calls];
    assert bad == items[from + calls] && bad in items;
    PageBounds(items, p, cursor, from + calls + 1);
    assert bad in items[from..from + calls + 1] by { assert items[from..from + calls + 1][calls] == bad; }
    VisitedBelow(items, seen, cursor, from, calls);
    assert page[..calls] == items[from..from + calls];
    hide AscendingKeys;
    forall i | i in items && AtMost(p.Low(), i.key) && Less(i.key, bad.key) && i !in visited
      ensures !p.TypeInBounds(i.key)
    {
      BeforeBad(items, p, visited, from + calls, i);
    }
  }

  lemma VisitedBelow(items: seq<Item>, seen: seq<Item>, cursor: Key, from: nat, calls: nat)
    requires Store(items) && from + calls < |items| && AtMost(cursor, items[from + calls].key)
    requires forall v <- seen :: Less(v.key, cursor)
    ensures forall v <- seen + items[from..from + calls] :: Less(v.key, items[from + calls].key)
  {
    hide Less, AtMost;
    forall v | v in seen + items[from..from + calls] ensures Less(v.key, items[from + calls].key) {
      if v in seen {
        LessTransitive(v.key, cursor, items[from + calls].key);
      } else {
        var i :| from <= i < from + calls && items[i] == v;
      }
    }
  }

  lemma {:induction false} BeforeBad(items: seq<Item>, p: Params, visited: seq<Item>, end: nat, x: Item)
    requires Store(items) && Accounted(items, p, visited, end) && end < |items| && AtMost(items[end].key, p.High())
    requires x in items && x !in visited && AtMost(p.Low(), x.key) && Less(x.key, items[end].key)
    ensures !p.TypeInBounds(x.key)
  {
    hide Less, AtMost;
    var i :| 0 <= i < |items| && items[i] == x;
    LessIsStrict(x.key, items[end].key);
    LessIsAtMost(x.key, items[end].key);
    LessTransitive(x.key, items[end].key, p.High());
  }

  lemma {:induction false} WalkBreaks<S>(items: seq<Item>, p: Params, fn: Callback<S>, ok: seq<nat> -> bool, s0: S,
                                         seen: seq<Item>, cursor: Key, page: seq<Item>,
                                         s: S, lastErr: Option<Error>, bad: Item, calls: nat)
    returns (visited: seq<Item>)
    requires Store(items) && WalkState(items, p, seen, cursor) && AllRefsDecode(ok, seen)
    requires var from := Before(items, cursor);
             from + |page| <= UpTo(items, p.High()) && page == items[from..from + |page|]
    requires PageCalled(fn, ok, s0, seen, page, s, lastErr, RefBroken(bad), calls)
    ensures Walked(items, p, fn, ok, s0, visited, s, BadReference(bad))
  {
    hide ProperVisit, NeverStops, CallEach, WalkState, NoGaps, AllRefsDecode, RefDecodes, BreaksAfter, Store, Before,
        UpTo;
    visited := ReferenceBreaks(items, p, ok, seen, cursor, page, calls);
    MoreDecode(ok, seen, page, calls);
  }

  lemma {:induction false} PageDone<S>(fn: Callback<S>, ok: seq<nat> -> bool, s0: S, seen: seq<Item>, page: seq<Item>,
                                       s: S, lastErr: Option<Error>, calls: nat)
    requires PageCalled(fn, ok, s0, seen, page, s, lastErr, AllCalled, calls) && AllRefsDecode(ok, seen)
    ensures (s, lastErr) == CallEach(fn, seen + page, s0, None) && NeverStops(fn, seen + page, s0)
    ensures AllRefsDecode(ok, seen + page)
  {
    hide NeverStops, CallEach, AllRefsDecode;
    assert page[..|page|] == page;
    MoreDecode(ok, seen, page, calls);
  }

  lemma {:induction false} LastDoesNotWrap(items: seq<Item>, p: Params, end: nat)
    requires NeverWraps(items, p) && 0 < end <= UpTo(items, p.High()) && AtMost(p.Low(), items[end - 1].key)
    ensures !Wraps(items[end - 1].key, p)
  {
    hide Less, AtMost, Wraps;
    assert items[end - 1] in items;
  }

  method Walk<S>(items: seq<Item>, p: Params, fn: Callback<S>, ok: seq<nat> -> bool, s0: S)
    returns (s: S, outcome: Outcome)
    requires Store(items) && NeverWraps(items, p)
    ensures exists visited :: Walked(items, p, fn, ok, s0, visited, s, outcome)
  {
    hide Less, AtMost, NextCursor, ProperVisit, Accounted, NeverStops, Store, Before, UpTo, CallEach, WalkState, Walked,
      PageCalled, NeverWraps, Wraps, AllRefsDecode;
    s := s0;
    ghost var visited := [];
    var lastErr := None;
    var cursor := p.Low();
    Begin(items, p, fn, ok, s0);
    while true
      invariant WalkState(items, p, visited, cursor) && AllRefsDecode(ok, visited)
      invariant (s, lastErr) == CallEach(fn, visited, s0, None) && NeverStops(fn, visited, s0)
      decreases |items| - Before(items, cursor)
    {
      ghost var from := Before(items, cursor);
      var found, page := TreeSearch(items, cursor, p.High());
      WalkStateFacts(items, p, visited, cursor);
      if !found {
        WalkFails(items, p, fn, ok, s0, visited, cursor, s);
        return s, SearchFailed;
      }
      if |page| == 0 {
        NothingInRange(items, p, visited, from);
        WalkFinishes(items, p, fn, ok, s0, visited, s, lastErr);
        return s, Finished(lastErr);
      }
      ghost var seen, end := visited, from + |page|;
      VisitPage(items, p, seen, cursor, end);
      var pageEnd;
      s, lastErr, pageEnd := CallOnPage(fn, ok, s0, seen, page, s, lastErr);
      ghost var calls: nat :| PageCalled(fn, ok, s0, seen, page, s, lastErr, pageEnd, calls);
      if pageEnd.RefBroken? {
        visited := WalkBreaks(items, p, fn, ok, s0, seen, cursor, page, s, lastErr, pageEnd.bad, calls);
        return s, BadReference(pageEnd.bad);
      }
      if pageEnd == CallStopped {
        visited := WalkStops(items, p, fn, ok, s0, seen, cursor, page, s, lastErr, calls);
        return s, Stopped;
      }
      visited := seen + page;
      PageDone(fn, ok, s0, seen, page, s, lastErr, calls);
      cursor := page[|page| - 1].key;
      var (more, next) := NextCursor(cursor, p);
      LastDoesNotWrap(items, p, end);
      AfterPage(items, p, visited, end);
      if !more {
        WalkFinishes(items, p, fn, ok, s0, visited, s, lastErr);
        return s, Finished(lastErr);
      }
      cursor := next;
    }
  }

  lemma Begin<S>(items: seq<Item>, p: Params, fn: Callback<S>, ok: seq<nat> -> bool, s0: S)
    ensures AllRefsDecode(ok, [])
    ensures WalkState(items, p, [], p.Low()) && NeverStops(fn, [], s0) && CallEach(fn, [], s0, None) == (s0, None)
  {
    forall i | 0 <= i < Before(items, p.Low()) ensures !AtMost(p.Low(), items[i].key) {
    }
  }

  lemma {:induction false} CallNext<S>(fn: Callback<S>, visited: seq<Item>, item: Item, s0: S)
    ensures var (s, e) := CallEach(fn, visited, s0, None);
            CallEach(fn, visited + [item], s0, None) == fn(s, item, e)
  {
    assert (visited + [item])[..|visited|] == visited;
  }

  lemma {:induction false} NoStopYet<S>(fn: Callback<S>, visited: seq<Item>, item: Item, s0: S)
    requires NeverStops(fn, visited, s0) && CallEach(fn, visited + [item], s0, None).1 != Some(StopWalk)
    ensures NeverStops(fn, visited + [item], s0)
  {
    hide CallEach;
    var all := visited + [item];
    forall i | 0 < i <= |all| ensures CallEach(fn, all[..i], s0, None).1 != Some(StopWalk) {
      if i < |all| {
        assert all[..i] == visited[..i];
      } else {
        assert all[..i] == all;
      }
    }
  }

  lemma AllAccounted(items: seq<Item>, p: Params, visited: seq<Item>)
    requires Accounted(items, p, visited, |items|)
    ensures forall i <- items :: p.InBounds(i.key) ==> i in visited
    ensures forall i <- items :: AtMost(p.Low(), i.key) && AtMost(i.key, p.High()) && i !in visited ==>
              !p.TypeInBounds(i.key)
  {
    forall i | i in items && p.InBounds(i.key) ensures i in visited {
      InBoundsInRange(p, i.key);
    }
  }
}
