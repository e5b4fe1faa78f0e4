/** The walk with the index's callback: from the items of the root tree to the index, page by page. */
module WalkedIndex {
  import opened RootInfos
  import opened TreeWalk
  import opened Trees
  import opened Wrappers

  datatype RootBody = RootBody(flags: uint64, generation: uint64, otransid: uint64, otime: int, stime: int, rtime: int,
                               uuid: nat, parentUUID: nat, receivedUUID: nat)

  datatype RefBody = RefBody(dirid: uint64, name: string)

  // How the payloads of the two item types decode, if they do, and which references the walk itself can decode.
  datatype Decoder = Decoder(root: seq<nat> -> Option<RootBody>, ref: seq<nat> -> Option<RefBody>,
                             walkRef: seq<nat> -> bool)

  const ROOT_ITEM: uint32 := 132
  const LAST_FREE_OBJECTID: uint64 := 0xFFFF_FFFF_FFFF_FF00

  function DecodeItem(d: Decoder, item: Item): RootItem {
    var k := item.key;
    if k.typ == ROOT_ITEM then
      match d.root(item.data)
      case None => Undecodable(k.objectid)
      case Some(b) => Root(k.objectid, k.offset, b.flags, b.generation, b.otransid, b.otime, b.stime, b.rtime,
                           b.uuid, b.parentUUID, b.receivedUUID)
    else if k.typ == ROOT_BACKREF then
      match d.ref(item.data)
      case None => Undecodable(k.objectid)
      case Some(b) => Backref(k.objectid, k.offset, b.dirid, b.name)
    else OtherItem(k.objectid)
  }

  function DecodeAll(d: Decoder, items: seq<Item>): (r: seq<RootItem>)
    ensures |r| == |items|
  {
    seq(|items|, i requires 0 <= i < |items| => DecodeItem(d, items[i]))
  }

  // The walk delivers items in ascending key order, which is the order the build relies on.
  lemma WalkedItemsAscend(d: Decoder, visited: seq<Item>)
    requires AscendingKeys(visited)
    ensures AscendingItems(DecodeAll(d, visited))
  {
    var all := DecodeAll(d, visited);
    forall i, j | 0 <= i < j < |all| ensures all[i].objectid <= all[j].objectid {
      assert Less(visited[i].key, visited[j].key);
    }
  }

  // The search: every object from the given root on, the types from root item to root backref, any offset.
  function IndexParams(rootID: uint64): Params {
    Params(rootID, LAST_FREE_OBJECTID, ROOT_ITEM, ROOT_BACKREF, 0, 0xFFFF_FFFF_FFFF_FFFF)
  }

  // The callback: hands an earlier error on, fails on an item that cannot be decoded, else updates or inserts.
  function IndexItem(d: Decoder, t: Tree, item: Item, lastErr: Option<Error>): (Tree, Option<Error>) {
    if lastErr != None then (t, lastErr)
    else
      var i := DecodeItem(d, item);
      if i.Undecodable? then (t, Some(Other(0))) else (if i.Carries() then UpdateOrInsert(t, i.Info()) else t, None)
  }

  function IndexCallback(d: Decoder): Callback<Tree> {
    (t, item, lastErr) => IndexItem(d, t, item, lastErr)
  }

  ghost predicate AllDecode(d: Decoder, items: seq<Item>) {
    forall i <- items :: !DecodeItem(d, i).Undecodable?
  }

  // The index after the callback has seen these items.
  ghost predicate Indexed(d: Decoder, items: seq<Item>, t: Tree, e: Option<Error>) {
    && (e == None <==> AllDecode(d, items))
    && e != Some(StopWalk)
    && (e == None ==> Represents(t, Fold(DecodeAll(d, items))))
    && (e == None ==> forall i <- InOrder(t) :: items != [] && i.rootID <= items[|items| - 1].key.objectid)
  }

  lemma {:induction false} CallsIndex(d: Decoder, items: seq<Item>)
    requires AscendingKeys(items)
    ensures var (t, e) := CallEach(IndexCallback(d), items, Leaf, None); Indexed(d, items, t, e)
    decreases |items|
  {
    hide Merge, Insert, Update, Lookup, InsertsOnce, Represents, Fold, DecodeItem, UpdateOrInsert;
    if items == [] {
      NothingRepresented();
      assert DecodeAll(d, []) == [];
    } else {
      var n := |items| - 1;
      var x := items[n];
      assert items == items[..n] + [x];
      CallsIndex(d, items[..n]);
      var (t, e) := CallEach(IndexCallback(d), items[..n], Leaf, None);
      NextDecoded(d, items);
      if e == None {
        var i := DecodeItem(d, x);
        DecodedId(d, x);
        forall y | y in InOrder(t) ensures y.rootID <= x.key.objectid {
          assert Less(items[n - 1].key, x.key);
        }
        if i.Carries() {
          BuildStep(t, Fold(DecodeAll(d, items[..n])), i.Info());
        }
      }
    }
  }

  lemma NothingRepresented()
    ensures Represents(Leaf, map[]) && Fold([]) == map[] && InOrder(Leaf) == []
  {
  }

  lemma DecodedId(d: Decoder, item: Item)
    ensures DecodeItem(d, item).objectid == item.key.objectid
    ensures DecodeItem(d, item).Carries() ==> DecodeItem(d, item).Info().rootID == item.key.objectid
  {
  }

  lemma NextDecoded(d: Decoder, items: seq<Item>)
    requires items != []
    ensures var n := |items| - 1;
            var m, i := Fold(DecodeAll(d, items[..n])), DecodeItem(d, items[n]);
            Fold(DecodeAll(d, items)) ==
            if !i.Carries() then m
            else m[i.objectid := if i.objectid in m then Merge(m[i.objectid], i.Info()) else i.Info()]
  {
    hide Merge, DecodeItem;
    var n := |items| - 1;
    var all := DecodeAll(d, items);
    assert all[..n] == DecodeAll(d, items[..n]);
  }

  // ---- only the items in the search bounds count

  function Wanted(p: Params, items: seq<Item>): (r: seq<Item>)
    ensures forall i :: i in r <==> i in items && p.InBounds(i.key)
  {
    if items == [] then []
    else
      var n := |items| - 1;
      assert items == items[..n] + [items[n]];
      Wanted(p, items[..n]) + if p.InBounds(items[n].key) then [items[n]] else []
  }

  lemma {:induction false} WantedAscends(p: Params, items: seq<Item>)
    requires AscendingKeys(items)
    ensures AscendingKeys(Wanted(p, items))
  {
    hide Less;
    if items != [] {
      var n := |items| - 1;
      WantedAscends(p, items[..n]);
      var w := Wanted(p, items[..n]);
      forall i | 0 <= i < |w| ensures Less(w[i].key, items[n].key) {
        assert w[i] in items[..n];
      }
    }
  }

  lemma LastIsLargest(a: seq<Item>, x: Item)
    requires AscendingKeys(a) && x in a
    ensures AtMost(x.key, a[|a| - 1].key)
  {
    hide Less;
    var i :| 0 <= i < |a| && a[i] == x;
  }

  lemma AtMostBoth(a: Key, b: Key)
    requires AtMost(a, b) && AtMost(b, a)
    ensures a == b
  {
  }

  lemma SameKeySameItem(a: seq<Item>, x: Item, y: Item)
    requires AscendingKeys(a) && x in a && y in a && x.key == y.key
    ensures x == y
  {
    hide Less;
    var i :| 0 <= i < |a| && a[i] == x;
    var j :| 0 <= j < |a| && a[j] == y;
    LessIsStrict(a[i].key, a[j].key);
  }

  lemma NotEmpty(a: seq<Item>, b: seq<Item>)
    requires b != [] && forall x :: x in b ==> x in a
    ensures a != []
  {
    assert b[0] in b;
  }

  // An ascending list is determined by what is in it.
  lemma {:induction false} SameAscending(a: seq<Item>, b: seq<Item>)
    requires AscendingKeys(a) && AscendingKeys(b) && forall x :: x in a <==> x in b
    ensures a == b
    decreases |a|
  {
    hide AscendingKeys, AtMost;
    if a == [] {
      if b != [] {
        NotEmpty(a, b);
        assert false;
      }
    } else {
      var x := a[|a| - 1];
      assert x in a && x in b;
      var y := b[|b| - 1];
      assert y in b && y in a;
      LastIsLargest(a, y);
      LastIsLargest(b, x);
      AtMostBoth(x.key, y.key);
      SameKeySameItem(a, x, y);
      var a' := FrontOf(a);
      var b' := FrontOf(b);
      forall z ensures z in a' <==> z in b' {
        assert z in a <==> z in b;
      }
      SameAscending(a', b');
      assert a == a[..|a| - 1] + [x] && b == b[..|b| - 1] + [x];
    }
  }

  lemma FrontOf(a: seq<Item>) returns (front: seq<Item>)
    requires AscendingKeys(a) && a != []
    ensures front == a[..|a| - 1] && AscendingKeys(front)
    ensures forall x :: x in front <==> x in a && x != a[|a| - 1]
  {
    hide Less;
    var m := |a| - 1;
    front := a[..m];
    assert a == front + [a[m]];
    forall x | x in front ensures x != a[m] {
      var i :| 0 <= i < m && a[i] == x;
      LessIsStrict(a[i].key, a[m].key);
    }
  }

  ghost predicate InRange(rootID: uint64, items: seq<Item>) {
    forall i <- items :: AtMost(IndexParams(rootID).Low(), i.key) && AtMost(i.key, IndexParams(rootID).High())
  }

  // Items out of the search bounds but in key range are of other types and leave the index as it is.
  lemma {:induction false} FoldWanted(rootID: uint64, d: Decoder, items: seq<Item>)
    requires InRange(rootID, items)
    ensures Fold(DecodeAll(d, items)) == Fold(DecodeAll(d, Wanted(IndexParams(rootID), items)))
  {
    hide Merge, Fold, DecodeAll, DecodeItem, Less, AtMost, Params.InBounds;
    var p := IndexParams(rootID);
    if items != [] {
      var n := |items| - 1;
      FoldWanted(rootID, d, items[..n]);
      NextDecoded(d, items);
      var w := Wanted(p, items[..n]);
      if p.InBounds(items[n].key) {
        assert (w + [items[n]])[..|w|] == w;
        NextDecoded(d, w + [items[n]]);
      } else {
        OtherType(rootID, d, items[n]);
        assert Wanted(p, items) == w;
      }
    }
  }

  lemma {:induction false} DecodeWanted(rootID: uint64, d: Decoder, items: seq<Item>)
    requires InRange(rootID, items)
    ensures AllDecode(d, items) <==> AllDecode(d, Wanted(IndexParams(rootID), items))
  {
    hide DecodeItem, Less, AtMost, Params.InBounds;
    forall i | i in items && DecodeItem(d, i).Undecodable? ensures i in Wanted(IndexParams(rootID), items) {
      OtherType(rootID, d, i);
    }
  }

  lemma OtherType(rootID: uint64, d: Decoder, item: Item)
    requires AtMost(IndexParams(rootID).Low(), item.key) && AtMost(item.key, IndexParams(rootID).High())
    ensures IndexParams(rootID).InBounds(item.key) || DecodeItem(d, item).OtherItem?
  {
  }

  lemma IndexNeverWraps(rootID: uint64, store: seq<Item>)
    ensures NeverWraps(store, IndexParams(rootID))
  {
  }

  // A finished walk of a tree has built the index of its items in bounds, or met one that cannot be decoded.
  method WalkIndex(store: seq<Item>, rootID: uint64, d: Decoder) returns (t: Tree, outcome: Outcome)
    requires Store(store)
    ensures !outcome.Stopped?
    ensures outcome.BadReference? ==> outcome.bad in store && !d.walkRef(outcome.bad.data)
                                      && (outcome.bad.key.typ == 144 || outcome.bad.key.typ == 156)
                                      && InRange(rootID, [outcome.bad])
    ensures outcome.Finished? ==> (outcome.lastErr == None <==> AllDecode(d, Wanted(IndexParams(rootID), store)))
    ensures outcome == Finished(None) ==> Represents(t, Fold(DecodeAll(d, Wanted(IndexParams(rootID), store))))
  {
    hide Represents, Fold, DecodeAll, Wanted, AtMost, Less, CallEach, NoGaps, NeverStops, NeverWraps, AllDecode;
    var p := IndexParams(rootID);
    IndexNeverWraps(rootID, store);
    t, outcome := Walk(store, p, IndexCallback(d), d.walkRef, Leaf);
    ghost var visited :| Walked(store, p, IndexCallback(d), d.walkRef, Leaf, visited, t, outcome);
    CallsIndex(d, visited);
    if outcome.Finished? {
      FoldWanted(rootID, d, visited);
      DecodeWanted(rootID, d, visited);
      WantedAscends(p, visited);
      WantedAscends(p, store);
      SameAscending(Wanted(p, visited), Wanted(p, store));
    }
  }

  // ---- what the index holds, on the items of the store: type 132 is a root item, type 144 a backref

  lemma PlaceOf(rootID: uint64, store: seq<Item>, d: Decoder, x: Item) returns (k: nat)
    requires x in store && 132 <= x.key.typ <= 144 && rootID <= x.key.objectid <= 0xFFFF_FFFF_FFFF_FF00
    ensures var w := Wanted(IndexParams(rootID), store);
            k < |w| && w[k] == x && DecodeAll(d, w)[k] == DecodeItem(d, x)
  {
    hide DecodeItem;
    var w := Wanted(IndexParams(rootID), store);
    assert x in w;
    k :| 0 <= k < |w| && w[k] == x;
  }

  lemma {:induction false} OnlyOfType(rootID: uint64, store: seq<Item>, x: Item, k: nat, j: nat)
    requires AscendingKeys(store)
    requires var w := Wanted(IndexParams(rootID), store); k < |w| && w[k] == x && j < |w| && j != k
    requires forall y <- store :: y.key.typ == x.key.typ && y.key.objectid == x.key.objectid ==> y == x
    ensures var y := Wanted(IndexParams(rootID), store)[j];
            y in store && (y.key.typ == x.key.typ ==> y.key.objectid != x.key.objectid)
  {
    hide Wanted, Less;
    var w := Wanted(IndexParams(rootID), store);
    WantedAscends(IndexParams(rootID), store);
    assert w[j] in w;
    WantedAreThere(rootID, store, w[j]);
    if k < j { LessIsStrict(w[k].key, w[j].key); } else { LessIsStrict(w[j].key, w[k].key); }
  }

  lemma {:induction false} WantedAreThere(rootID: uint64, store: seq<Item>, x: Item)
    requires x in Wanted(IndexParams(rootID), store)
    ensures x in store && 132 <= x.key.typ <= 144 && rootID <= x.key.objectid <= 0xFFFF_FFFF_FFFF_FF00
  {
  }

  // The record of a subvolume says what its root item says.
  lemma {:induction false} IndexedRoot(rootID: uint64, store: seq<Item>, d: Decoder, t: Tree, x: Item, b: RootBody)
    requires AscendingKeys(store)
    requires Represents(t, Fold(DecodeAll(d, Wanted(IndexParams(rootID), store))))
    requires x in store && x.key.typ == 132 && rootID <= x.key.objectid <= 0xFFFF_FFFF_FFFF_FF00
    requires d.root(x.data) == Some(b)
    requires forall y <- store :: y.key.typ == 132 && y.key.objectid == x.key.objectid ==> y == x
    ensures Lookup(t, x.key.objectid).Some?
    ensures var r := Lookup(t, x.key.objectid).value;
            && r.rootID == x.key.objectid && r.rootOffset == x.key.offset && r.flags == b.flags
            && r.generation == b.generation && r.originalGeneration == b.otransid
            && r.creationTime == b.otime && r.sendTime == b.stime && r.receiveTime == b.rtime
            && r.uuid == b.uuid && r.parentUUID == b.parentUUID && r.receivedUUID == b.receivedUUID
            && r.item == Some(x.key)
  {
    hide Fold, Lookup, Wanted, DecodeItem, AscendingKeys;
    var k := PlaceOf(rootID, store, d, x);
    var all := DecodeAll(d, Wanted(IndexParams(rootID), store));
    RootDecodes(d, x);
    forall j | 0 <= j < |all| && j != k ensures all[j].objectid == all[k].objectid ==> !all[j].Root? {
      OnlyOfType(rootID, store, x, k, j);
      RootDecodes(d, Wanted(IndexParams(rootID), store)[j]);
    }
    OnlyRoot(all, k);
  }

  // And what its backref says of its place.
  lemma {:induction false} IndexedBackref(rootID: uint64, store: seq<Item>, d: Decoder, t: Tree, x: Item, b: RefBody)
    requires AscendingKeys(store)
    requires Represents(t, Fold(DecodeAll(d, Wanted(IndexParams(rootID), store))))
    requires x in store && x.key.typ == 144 && rootID <= x.key.objectid <= 0xFFFF_FFFF_FFFF_FF00
    requires d.ref(x.data) == Some(b)
    requires forall y <- store :: y.key.typ == 144 && y.key.objectid == x.key.objectid ==> y == x
    ensures Lookup(t, x.key.objectid).Some?
    ensures var r := Lookup(t, x.key.objectid).value;
            && r.rootID == x.key.objectid && r.refTree == x.key.offset && r.dirID == b.dirid && r.name == b.name
            && r.ref == Some(x.key)
  {
    hide Fold, Lookup, Wanted, DecodeItem, AscendingKeys;
    var k := PlaceOf(rootID, store, d, x);
    var all := DecodeAll(d, Wanted(IndexParams(rootID), store));
    RootDecodes(d, x);
    forall j | 0 <= j < |all| && j != k ensures all[j].objectid == all[k].objectid ==> !all[j].Backref? {
      OnlyOfType(rootID, store, x, k, j);
      RootDecodes(d, Wanted(IndexParams(rootID), store)[j]);
    }
    OnlyBackref(all, k);
  }

  // An item decodes by its type.
  lemma RootDecodes(d: Decoder, x: Item)
    ensures DecodeItem(d, x).objectid == x.key.objectid
    ensures DecodeItem(d, x).Root? <==> x.key.typ == 132 && d.root(x.data).Some?
    ensures DecodeItem(d, x).Backref? <==> x.key.typ == 144 && d.ref(x.data).Some?
    ensures DecodeItem(d, x).Undecodable? <==>
            (x.key.typ == 132 && d.root(x.data) == None) || (x.key.typ == 144 && d.ref(x.data) == None)
    ensures match DecodeItem(d, x)
            case Root(o, off, fl, gen, otr, ot, st, rt, u, pu, ru) =>
              o == x.key.objectid && off == x.key.offset && d.root(x.data) ==
                  Some(RootBody(fl, gen, otr, ot, st, rt, u, pu, ru))
            case Backref(o, p, dir, n) =>
              o == x.key.objectid && p == x.key.offset && d.ref(x.data) == Some(RefBody(dir, n))
            case _ => true
  {
  }

  // Only subvolumes that the tree names are in the index.
  lemma {:induction false} IndexedOnly(rootID: uint64, store: seq<Item>, d: Decoder, t: Tree, id: uint64)
    requires Represents(t, Fold(DecodeAll(d, Wanted(IndexParams(rootID), store))))
    ensures Lookup(t, id).Some? <==>
            && rootID <= id <= 0xFFFF_FFFF_FFFF_FF00
            && exists x <- store :: x.key.objectid == id && ((x.key.typ == 132 && d.root(x.data).Some?)
                                                            || (x.key.typ == 144 && d.ref(x.data).Some?))
  {
    hide Fold, Lookup, Wanted, DecodeItem;
    var w := Wanted(IndexParams(rootID), store);
    var all := DecodeAll(d, w);
    FoldIsLastSet(all, id, FFlags);
    if id in Fold(all) {
      var k :| 0 <= k < |all| && all[k].Carries() && all[k].objectid == id;
      RootDecodes(d, w[k]);
      assert w[k] in w;
      WantedAreThere(rootID, store, w[k]);
    }
    if rootID <= id <= 0xFFFF_FFFF_FFFF_FF00 {
      forall x | x in store && x.key.objectid == id && ((x.key.typ == 132 && d.root(x.data).Some?)
                                                       || (x.key.typ == 144 && d.ref(x.data).Some?))
        ensures id in Fold(all)
      {
        var k := PlaceOf(rootID, store, d, x);
        RootDecodes(d, x);
        assert all[k] in all;
      }
    }
  }

  // The build fails exactly on a root item or backref in bounds that does not decode.
  lemma {:induction false} FailsExactly(rootID: uint64, store: seq<Item>, d: Decoder)
    ensures !AllDecode(d, Wanted(IndexParams(rootID), store)) <==>
            exists x <- store ::
              && rootID <= x.key.objectid <= 0xFFFF_FFFF_FFFF_FF00
              && ((x.key.typ == 132 && d.root(x.data) == None) || (x.key.typ == 144 && d.ref(x.data) == None))
  {
    hide DecodeItem;
    forall x: Item {
      RootDecodes(d, x);
    }
  }
}
