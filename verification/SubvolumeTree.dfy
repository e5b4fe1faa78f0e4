/**
  The index of subvolumes: records merged field by field, the binary tree that holds them, and the tree on values
  that the pointer structure is proved against.
  */
module RootInfos {
  import opened TreeWalk
  import opened Wrappers

  type ObjectID = uint64

  // Numbers, UUIDs and times are zero when unset (a time counts from the zero time).
  datatype RootInfo = RootInfo(
    rootID: ObjectID, rootOffset: uint64, flags: uint64, refTree: ObjectID, dirID: uint64, topID: uint64,
    generation: uint64, originalGeneration: uint64, creationTime: int, sendTime: int, receiveTime: int,
    uuid: nat, parentUUID: nat, receivedUUID: nat, path: string, name: string, fullPath: string, deleted: bool,
    item: Option<Key>, ref: Option<Key>)

  // An update overwrites a field when its own is set.
  function Merge(a: RootInfo, b: RootInfo): RootInfo {
    RootInfo(a.rootID,
             if b.rootOffset != 0 then b.rootOffset else a.rootOffset,
             if b.flags != 0 then b.flags else a.flags,
             if b.refTree != 0 then b.refTree else a.refTree,
             if b.dirID != 0 then b.dirID else a.dirID,
             if b.topID != 0 then b.topID else a.topID,
             if b.generation != 0 then b.generation else a.generation,
             if b.originalGeneration != 0 then b.originalGeneration else a.originalGeneration,
             if b.creationTime != 0 then b.creationTime else a.creationTime,
             if b.sendTime != 0 then b.sendTime else a.sendTime,
             if b.receiveTime != 0 then b.receiveTime else a.receiveTime,
             if b.uuid != 0 then b.uuid else a.uuid,
             if b.parentUUID != 0 then b.parentUUID else a.parentUUID,
             if b.receivedUUID != 0 then b.receivedUUID else a.receivedUUID,
             if b.path != "" then b.path else a.path,
             if b.name != "" then b.name else a.name,
             if b.fullPath != "" then b.fullPath else a.fullPath,
             a.deleted || b.deleted,
             if b.item != None then b.item else a.item,
             if b.ref != None then b.ref else a.ref)
  }

  datatype Field =
    | FRootOffset | FFlags | FRefTree | FDirID | FTopID | FGeneration | FOriginalGeneration
    | FCreationTime | FSendTime | FReceiveTime | FUuid | FParentUUID | FReceivedUUID
    | FPath | FName | FFullPath | FDeleted | FItem | FRef

  datatype Value = Number(n: int) | Text(s: string) | Flag(b: bool) | Pointer(k: Option<Key>)

  function Get(i: RootInfo, f: Field): Value {
    match f
    case FRootOffset => Number(i.rootOffset)
    case FFlags => Number(i.flags)
    case FRefTree => Number(i.refTree)
    case FDirID => Number(i.dirID)
    case FTopID => Number(i.topID)
    case FGeneration => Number(i.generation)
    case FOriginalGeneration => Number(i.originalGeneration)
    case FCreationTime => Number(i.creationTime)
    case FSendTime => Number(i.sendTime)
    case FReceiveTime => Number(i.receiveTime)
    case FUuid => Number(i.uuid)
    case FParentUUID => Number(i.parentUUID)
    case FReceivedUUID => Number(i.receivedUUID)
    case FPath => Text(i.path)
    case FName => Text(i.name)
    case FFullPath => Text(i.fullPath)
    case FDeleted => Flag(i.deleted)
    case FItem => Pointer(i.item)
    case FRef => Pointer(i.ref)
  }

  predicate IsSet(v: Value) {
    v != Number(0) && v != Text("") && v != Flag(false) && v != Pointer(None)
  }

  lemma MergeByField(a: RootInfo, b: RootInfo, f: Field)
    ensures Merge(a, b).rootID == a.rootID
    ensures Get(Merge(a, b), f) == if IsSet(Get(b, f)) then Get(b, f) else Get(a, f)
  {
  }

  // ---- the items of the root tree

  datatype RootItem =
    | Root(objectid: ObjectID, offset: uint64, flags: uint64, generation: uint64, otransid: uint64,
           otime: int, stime: int, rtime: int, uuid: nat, parentUUID: nat, receivedUUID: nat)
    | Backref(objectid: ObjectID, parent: ObjectID, dirid: uint64, name: string)
    | OtherItem(objectid: ObjectID)
    | Undecodable(objectid: ObjectID)
  {
    predicate Carries() { Root? || Backref? }

    function Info(): RootInfo
      requires Carries()
    {
      match this
      case Root(o, off, fl, gen, otr, ot, st, rt, u, pu, ru) =>
        RootInfo(o, off, fl, 0, 0, 0, gen, otr, ot, st, rt, u, pu, ru, "", "", "", false, Some(Key(o, 132, off)), None)
      case Backref(o, p, d, n) =>
        RootInfo(o, 0, 0, p, d, 0, 0, 0, 0, 0, 0, 0, 0, 0, "", n, "", false, None, Some(Key(o, 144, p)))
    }
  }

  // The items of the tree come in ascending object order.
  ghost predicate AscendingItems(items: seq<RootItem>) {
    forall i, j | 0 <= i < j < |items| :: items[i].objectid <= items[j].objectid
  }

  // The index by definition: one record per object with a root item or a backref, later items merged in.
  function Fold(items: seq<RootItem>): map<ObjectID, RootInfo> {
    if items == [] then map[]
    else
      var m, i := Fold(items[..|items| - 1]), items[|items| - 1];
      if !i.Carries() then m
      else m[i.objectid := if i.objectid in m then Merge(m[i.objectid], i.Info()) else i.Info()]
  }

  // The last value of a field that some item of the object sets, or the first item's when none does.
  function LastSet(items: seq<RootItem>, id: ObjectID, f: Field): Option<Value> {
    if items == [] then None
    else
      var earlier, i := LastSet(items[..|items| - 1], id, f), items[|items| - 1];
      if !i.Carries() || i.objectid != id then earlier
      else if earlier == None || IsSet(Get(i.Info(), f)) then Some(Get(i.Info(), f))
      else earlier
  }

  lemma {:induction false} FoldIsLastSet(items: seq<RootItem>, id: ObjectID, f: Field)
    ensures id in Fold(items) <==> exists i <- items :: i.Carries() && i.objectid == id
    ensures LastSet(items, id, f) == if id in Fold(items) then Some(Get(Fold(items)[id], f)) else None
    ensures id in Fold(items) ==> Fold(items)[id].rootID == id
  {
    hide Merge, Get, IsSet;
    if items != [] {
      var n := |items| - 1;
      assert items == items[..n] + [items[n]];
      FoldIsLastSet(items[..n], id, f);
      if items[n].Carries() && id in Fold(items[..n]) {
        MergeByField(Fold(items[..n])[id], items[n].Info(), f);
      }
    }
  }

  // ---- what the record of an object holds, on the fields of the items

  lemma {:induction false} NoRoot(items: seq<RootItem>, id: ObjectID)
    requires forall i <- items :: i.objectid == id ==> !i.Root?
    ensures id in Fold(items) ==>
              var r := Fold(items)[id];
              && r.rootOffset == 0 && r.flags == 0 && r.generation == 0 && r.originalGeneration == 0
              && r.creationTime == 0 && r.sendTime == 0 && r.receiveTime == 0
              && r.uuid == 0 && r.parentUUID == 0 && r.receivedUUID == 0 && r.item == None
  {
    if items != [] {
      var n := |items| - 1;
      assert items[n] in items;
      NoRoot(items[..n], id);
    }
  }

  lemma {:induction false} NoBackref(items: seq<RootItem>, id: ObjectID)
    requires forall i <- items :: i.objectid == id ==> !i.Backref?
    ensures id in Fold(items) ==>
              var r := Fold(items)[id];
              r.refTree == 0 && r.dirID == 0 && r.name == "" && r.ref == None
  {
    if items != [] {
      var n := |items| - 1;
      assert items[n] in items;
      NoBackref(items[..n], id);
    }
  }

  // The build leaves the paths and the deletion mark alone; they are for later.
  lemma {:induction false} NotYetResolved(items: seq<RootItem>, id: ObjectID)
    ensures id in Fold(items) ==>
              var r := Fold(items)[id]; r.topID == 0 && r.path == "" && r.fullPath == "" && !r.deleted
  {
    if items != [] {
      NotYetResolved(items[..|items| - 1], id);
    }
  }

  // The only root item of an object gives its record the fields of the item, each under its own name.
  lemma {:induction false} OnlyRoot(items: seq<RootItem>, k: nat)
    requires k < |items| && items[k].Root?
    requires forall j | 0 <= j < |items| && j != k :: items[j].objectid == items[k].objectid ==> !items[j].Root?
    ensures items[k].objectid in Fold(items)
    ensures var r, i := Fold(items)[items[k].objectid], items[k];
            && r.rootID == i.objectid && r.rootOffset == i.offset && r.flags == i.flags
            && r.generation == i.generation && r.originalGeneration == i.otransid
            && r.creationTime == i.otime && r.sendTime == i.stime && r.receiveTime == i.rtime
            && r.uuid == i.uuid && r.parentUUID == i.parentUUID && r.receivedUUID == i.receivedUUID
            && r.item == Some(Key(i.objectid, 132, i.offset))
  {
    var n, id := |items| - 1, items[k].objectid;
    FoldIsLastSet(items, id, FFlags);
    FoldIsLastSet(items[..n], id, FFlags);
    if k == n {
      NoRoot(items[..n], id);
    } else {
      OnlyRoot(items[..n], k);
    }
  }

  // And so does its only backref.
  lemma {:induction false} OnlyBackref(items: seq<RootItem>, k: nat)
    requires k < |items| && items[k].Backref?
    requires forall j | 0 <= j < |items| && j != k :: items[j].objectid == items[k].objectid ==> !items[j].Backref?
    ensures items[k].objectid in Fold(items)
    ensures var r, i := Fold(items)[items[k].objectid], items[k];
            && r.rootID == i.objectid && r.refTree == i.parent && r.dirID == i.dirid && r.name == i.name
            && r.ref == Some(Key(i.objectid, 144, i.parent))
  {
    var n, id := |items| - 1, items[k].objectid;
    FoldIsLastSet(items, id, FFlags);
    FoldIsLastSet(items[..n], id, FFlags);
    if k == n {
      NoBackref(items[..n], id);
    } else {
      OnlyBackref(items[..n], k);
    }
  }
}

module Trees {
  import opened RootInfos
  import opened Wrappers

  datatype Tree = Leaf | Node(left: Tree, info: RootInfo, right: Tree)

  function InOrder(t: Tree): seq<RootInfo> {
    match t
    case Leaf => []
    case Node(l, i, r) => InOrder(l) + [i] + InOrder(r)
  }

  function PreOrder(t: Tree): seq<RootInfo> {
    match t
    case Leaf => []
    case Node(l, i, r) => [i] + PreOrder(l) + PreOrder(r)
  }

  function PostOrder(t: Tree): seq<RootInfo> {
    match t
    case Leaf => []
    case Node(l, i, r) => PostOrder(l) + PostOrder(r) + [i]
  }

  ghost predicate Within(t: Tree, id: int) {
    exists i <- InOrder(t) :: i.rootID == id
  }

  // A search tree without duplicate ids.
  ghost predicate IsSearchTree(t: Tree) {
    match t
    case Leaf => true
    case Node(l, i, r) =>
      && IsSearchTree(l) && IsSearchTree(r)
      && (forall x <- InOrder(l) :: x.rootID < i.rootID)
      && (forall x <- InOrder(r) :: i.rootID < x.rootID)
  }

  ghost predicate AscendingIds(s: seq<RootInfo>) {
    forall i, j | 0 <= i < j < |s| :: s[i].rootID < s[j].rootID
  }

  lemma {:induction false} SearchTreeAscends(t: Tree)
    ensures IsSearchTree(t) <==> AscendingIds(InOrder(t))
  {
    hide AscendingIds;
    match t
    case Leaf => assert AscendingIds([]) by { NoIds(); }
    case Node(l, i, r) =>
      SearchTreeAscends(l);
      SearchTreeAscends(r);
      AscendingAround(InOrder(l), i, InOrder(r));
  }

  lemma NoIds()
    ensures AscendingIds([])
  {
  }

  lemma AscendingAround(a: seq<RootInfo>, i: RootInfo, b: seq<RootInfo>)
    ensures AscendingIds(a + [i] + b) <==>
            (AscendingIds(a) && AscendingIds(b)
             && (forall x <- a :: x.rootID < i.rootID) && (forall x <- b :: i.rootID < x.rootID))
  {
    var s := a + [i] + b;
    if AscendingIds(s) {
      AscendingParts(a, i, b);
    } else if AscendingIds(a) && AscendingIds(b)
              && (forall x <- a :: x.rootID < i.rootID) && (forall x <- b :: i.rootID < x.rootID) {
      AscendingJoin(a, i, b);
    }
  }

  lemma AscendingJoin(a: seq<RootInfo>, i: RootInfo, b: seq<RootInfo>)
    requires AscendingIds(a) && AscendingIds(b)
    requires (forall x <- a :: x.rootID < i.rootID) && (forall x <- b :: i.rootID < x.rootID)
    ensures AscendingIds(a + [i] + b)
  {
    var s := a + [i] + b;
    forall j, k | 0 <= j < k < |s| ensures s[j].rootID < s[k].rootID {
      if j < |a| && k >= |a| {
        assert s[j] in a;
      }
      if k > |a| {
        assert s[k] == b[k - |a| - 1];
      }
    }
  }

  lemma AscendingParts(a: seq<RootInfo>, i: RootInfo, b: seq<RootInfo>)
    requires AscendingIds(a + [i] + b)
    ensures AscendingIds(a) && AscendingIds(b)
    ensures (forall x <- a :: x.rootID < i.rootID) && (forall x <- b :: i.rootID < x.rootID)
  {
    var s := a + [i] + b;
    assert s[|a|] == i;
    forall x | x in a ensures x.rootID < i.rootID {
      var k :| 0 <= k < |a| && a[k] == x;
      assert s[k].rootID < s[|a|].rootID;
    }
    forall x | x in b ensures i.rootID < x.rootID {
      var k :| 0 <= k < |b| && b[k] == x;
      assert s[|a|].rootID < s[|a| + 1 + k].rootID;
    }
    forall j, k | 0 <= j < k < |a| ensures a[j].rootID < a[k].rootID {
      assert s[j].rootID < s[k].rootID;
    }
    forall j, k | 0 <= j < k < |b| ensures b[j].rootID < b[k].rootID {
      assert s[|a| + 1 + j].rootID < s[|a| + 1 + k].rootID;
    }
  }

  // ---- the three orders, told apart

  // Plain insertion at the bottom, as a reference.
  function Place(t: Tree, x: RootInfo): Tree {
    match t
    case Leaf => Node(Leaf, x, Leaf)
    case Node(l, i, r) => if x.rootID < i.rootID then Node(Place(l, x), i, r) else Node(l, i, Place(r, x))
  }

  function PlaceAll(t: Tree, s: seq<RootInfo>): Tree
    decreases |s|
  {
    if s == [] then t else PlaceAll(Place(t, s[0]), s[1..])
  }

  lemma {:induction false} PlaceLeft(l: Tree, i: RootInfo, r: Tree, s: seq<RootInfo>, more: seq<RootInfo>)
    requires forall x <- s :: x.rootID < i.rootID
    ensures PlaceAll(Node(l, i, r), s + more) == PlaceAll(Node(PlaceAll(l, s), i, r), more)
    decreases |s|
  {
    if s == [] {
      assert s + more == more;
    } else {
      assert (s + more)[1..] == s[1..] + more;
      assert s[0] in s;
      PlaceLeft(Place(l, s[0]), i, r, s[1..], more);
    }
  }

  lemma {:induction false} PlaceRight(l: Tree, i: RootInfo, r: Tree, s: seq<RootInfo>)
    requires forall x <- s :: i.rootID < x.rootID
    ensures PlaceAll(Node(l, i, r), s) == Node(l, i, PlaceAll(r, s))
    decreases |s|
  {
    if s != [] {
      assert s[0] in s;
      PlaceRight(l, i, Place(r, s[0]), s[1..]);
    }
  }

  // The three orders list the same records.
  lemma {:induction false} SameRecords(t: Tree, x: RootInfo)
    ensures (x in PreOrder(t) <==> x in InOrder(t)) && (x in PostOrder(t) <==> x in InOrder(t))
  {
    match t
    case Leaf =>
    case Node(l, i, r) =>
      SameRecords(l, x);
      SameRecords(r, x);
  }

  lemma {:induction false} PreOrderSides(l: Tree, i: RootInfo, r: Tree)
    requires IsSearchTree(Node(l, i, r))
    ensures IsSearchTree(l) && IsSearchTree(r)
    ensures (forall x <- PreOrder(l) :: x.rootID < i.rootID) && (forall x <- PreOrder(r) :: i.rootID < x.rootID)
  {
    forall x | x in PreOrder(l) ensures x.rootID < i.rootID {
      SameRecords(l, x);
    }
    forall x | x in PreOrder(r) ensures i.rootID < x.rootID {
      SameRecords(r, x);
    }
  }

  // Placing a search tree's records in pre-order builds it again.
  lemma {:induction false} PreOrderRebuilds(t: Tree)
    requires IsSearchTree(t)
    ensures PlaceAll(Leaf, PreOrder(t)) == t
  {
    match t
    case Leaf =>
    case Node(l, i, r) =>
      PreOrderSides(l, i, r);
      PreOrderRebuilds(l);
      PreOrderRebuilds(r);
      PlaceNode(i, PreOrder(l), PreOrder(r));
      assert PreOrder(t) == [i] + PreOrder(l) + PreOrder(r);
  }

  lemma {:induction false} PlaceNode(i: RootInfo, a: seq<RootInfo>, b: seq<RootInfo>)
    requires (forall x <- a :: x.rootID < i.rootID) && (forall x <- b :: i.rootID < x.rootID)
    ensures PlaceAll(Leaf, [i] + a + b) == Node(PlaceAll(Leaf, a), i, PlaceAll(Leaf, b))
  {
    assert ([i] + a + b)[1..] == a + b && ([i] + a + b)[0] == i;
    assert Place(Leaf, i) == Node(Leaf, i, Leaf);
    PlaceLeft(Leaf, i, Leaf, a, b);
    PlaceRight(PlaceAll(Leaf, a), i, Leaf, b);
  }

  // And it goes left before it goes right: after a larger record than an earlier one, no smaller one follows.
  ghost predicate LeftFirst(s: seq<RootInfo>) {
    forall i, j, k | 0 <= i < j < k < |s| :: !(s[k].rootID < s[i].rootID < s[j].rootID)
  }

  lemma {:induction false} PreOrderLeftFirst(t: Tree)
    requires IsSearchTree(t)
    ensures LeftFirst(PreOrder(t))
  {
    match t
    case Leaf =>
    case Node(l, i, r) =>
      PreOrderSides(l, i, r);
      PreOrderLeftFirst(l);
      PreOrderLeftFirst(r);
      LeftFirstBelow(i, PreOrder(l));
      LeftFirstThen([i] + PreOrder(l), PreOrder(r));
  }

  lemma {:induction false} LeftFirstAt(s: seq<RootInfo>, i: nat, j: nat, k: nat)
    requires LeftFirst(s) && i < j < k < |s|
    ensures !(s[k].rootID < s[i].rootID < s[j].rootID)
  {
  }

  lemma {:induction false} LeftFirstBelow(x: RootInfo, a: seq<RootInfo>)
    requires LeftFirst(a) && forall y <- a :: y.rootID < x.rootID
    ensures LeftFirst([x] + a)
  {
    forall i, j, k | 0 <= i < j < k <= |a| ensures !(([x] + a)[k].rootID < ([x] + a)[i].rootID < ([x] + a)[j].rootID) {
      BelowAt(x, a, i, j, k);
    }
  }

  lemma {:induction false} BelowAt(x: RootInfo, a: seq<RootInfo>, i: nat, j: nat, k: nat)
    requires LeftFirst(a) && (forall y <- a :: y.rootID < x.rootID) && i < j < k <= |a|
    ensures var s := [x] + a; !(s[k].rootID < s[i].rootID < s[j].rootID)
  {
    hide LeftFirst;
    if i > 0 {
      LeftFirstAt(a, i - 1, j - 1, k - 1);
    } else {
      assert a[j - 1] in a;
    }
  }

  lemma {:induction false} LeftFirstThen(a: seq<RootInfo>, b: seq<RootInfo>)
    requires LeftFirst(a) && LeftFirst(b) && forall x <- a, y <- b :: x.rootID < y.rootID
    ensures LeftFirst(a + b)
  {
    forall i, j, k | 0 <= i < j < k < |a + b| ensures !((a + b)[k].rootID < (a + b)[i].rootID < (a + b)[j].rootID) {
      ThenAt(a, b, i, j, k);
    }
  }

  lemma {:induction false} ThenAt(a: seq<RootInfo>, b: seq<RootInfo>, i: nat, j: nat, k: nat)
    requires LeftFirst(a) && LeftFirst(b) && (forall x <- a, y <- b :: x.rootID < y.rootID) && i < j < k < |a + b|
    ensures var s := a + b; !(s[k].rootID < s[i].rootID < s[j].rootID)
  {
    hide LeftFirst;
    var m := |a|;
    if i >= m {
      LeftFirstAt(b, i - m, j - m, k - m);
    } else if k < m {
      LeftFirstAt(a, i, j, k);
    } else {
      assert a[i] in a && b[k - m] in b;
    }
  }

  function Mirror(t: Tree): Tree {
    match t
    case Leaf => Leaf
    case Node(l, i, r) => Node(Mirror(r), i, Mirror(l))
  }

  function Reverse(s: seq<RootInfo>): (r: seq<RootInfo>)
    ensures |r| == |s|
  {
    if s == [] then [] else Reverse(s[1..]) + [s[0]]
  }

  lemma {:induction false} ReverseConcat(a: seq<RootInfo>, b: seq<RootInfo>)
    ensures Reverse(a + b) == Reverse(b) + Reverse(a)
  {
    if a == [] {
      assert a + b == b;
    } else {
      assert (a + b)[1..] == a[1..] + b;
      ReverseConcat(a[1..], b);
    }
  }

  // Post-order is the pre-order of the mirrored tree, backwards.
  lemma {:induction false} PostOrderMirrored(t: Tree)
    ensures PostOrder(t) == Reverse(PreOrder(Mirror(t)))
  {
    match t
    case Leaf =>
    case Node(l, i, r) =>
      PostOrderMirrored(l);
      PostOrderMirrored(r);
      var a, b := PreOrder(Mirror(r)), PreOrder(Mirror(l));
      assert PreOrder(Mirror(t)) == [i] + (a + b);
      ReverseConcat([i], a + b);
      ReverseConcat(a, b);
      assert Reverse([i]) == [i] by { assert [i][1..] == []; }
  }

  // ---- lookup

  function Lookup(t: Tree, id: ObjectID): Option<RootInfo> {
    match t
    case Leaf => None
    case Node(l, i, r) =>
      if i.rootID == id then Some(i) else if id < i.rootID then Lookup(l, id) else Lookup(r, id)
  }

  lemma {:induction false} LookupFinds(t: Tree, id: ObjectID)
    requires IsSearchTree(t)
    ensures match Lookup(t, id)
            case Some(i) => i in InOrder(t) && i.rootID == id
            case None => forall x <- InOrder(t) :: x.rootID != id
  {
    match t
    case Leaf =>
    case Node(l, i, r) =>
      LookupFinds(l, id);
      LookupFinds(r, id);
  }

  // ---- insertion, exactly as the program does it: after descending to the left it also descends to the right

  function Insert(t: Tree, x: RootInfo): Tree {
    match t
    case Leaf => Node(Leaf, x, Leaf)
    case Node(l, i, r) =>
      if x.rootID < i.rootID && l == Leaf then Node(Insert(l, x), i, r)
      else if x.rootID < i.rootID then Node(Insert(l, x), i, Insert(r, x))
      else Node(l, i, Insert(r, x))
  }

  lemma {:induction false} InsertLeaf(x: RootInfo)
    ensures Insert(Leaf, x) == Node(Leaf, x, Leaf) && InsertsOnce(Leaf, x.rootID)
  {
  }

  lemma {:induction false} InsertCases(l: Tree, i: RootInfo, r: Tree, x: RootInfo)
    ensures Insert(Node(l, i, r), x) ==
            if x.rootID < i.rootID && l == Leaf then Node(Insert(l, x), i, r)
            else if x.rootID < i.rootID then Node(Insert(l, x), i, Insert(r, x))
            else Node(l, i, Insert(r, x))
    ensures InsertsOnce(Node(l, i, r), x.rootID) <==>
            if x.rootID < i.rootID then l == Leaf else InsertsOnce(r, x.rootID)
  {
  }

  // No node on the way down sends the new id into an existing left subtree.
  predicate InsertsOnce(t: Tree, id: ObjectID) {
    match t
    case Leaf => true
    case Node(l, i, r) => if id < i.rootID then l == Leaf else InsertsOnce(r, id)
  }

  lemma {:induction false} InsertKeepsOthers(t: Tree, x: RootInfo)
    ensures x in InOrder(Insert(t, x)) && forall y <- InOrder(t) :: y in InOrder(Insert(t, x))
    ensures forall y <- InOrder(Insert(t, x)) :: y == x || y in InOrder(t)
  {
    match t
    case Leaf =>
    case Node(l, i, r) =>
      InsertKeepsOthers(l, x);
      InsertKeepsOthers(r, x);
  }

  // Inserting a new id into a search tree leaves a search tree exactly when it descends left only into nothing.
  lemma {:induction false} InsertCorrectExactly(t: Tree, x: RootInfo)
    requires IsSearchTree(t) && !Within(t, x.rootID)
    ensures IsSearchTree(Insert(t, x)) <==> InsertsOnce(t, x.rootID)
  {
    match t
    case Leaf =>
    case Node(l, i, r) =>
      PartsOf(l, i, r);
      InsertKeepsOthers(l, x);
      InsertKeepsOthers(r, x);
      if i.rootID < x.rootID {
        InsertCorrectExactly(r, x);
      }
  }

  lemma {:induction false} PartsOf(l: Tree, i: RootInfo, r: Tree)
    ensures var t := Node(l, i, r);
            && i in InOrder(t)
            && (forall y <- InOrder(l) :: y in InOrder(t))
            && (forall y <- InOrder(r) :: y in InOrder(t))
            && (forall id :: Within(l, id) || Within(r, id) || id == i.rootID ==> Within(t, id))
  {
    var t := Node(l, i, r);
    assert i in InOrder(t);
    assert forall y <- InOrder(l) :: y in InOrder(t);
    assert forall y <- InOrder(r) :: y in InOrder(t);
  }

  // An id above all others is such a case; this is what both callers supply.
  lemma {:induction false} LargestInsertsOnce(t: Tree, id: ObjectID)
    requires forall x <- InOrder(t) :: x.rootID < id
    ensures InsertsOnce(t, id)
  {
    match t
    case Leaf =>
    case Node(l, i, r) =>
      assert i in InOrder(t);
      assert forall y <- InOrder(r) :: y in InOrder(t);
      LargestInsertsOnce(r, id);
  }

  lemma {:induction false} InsertLargest(t: Tree, x: RootInfo)
    requires forall y <- InOrder(t) :: y.rootID < x.rootID
    ensures InOrder(Insert(t, x)) == InOrder(t) + [x]
  {
    match t
    case Leaf =>
    case Node(l, i, r) =>
      assert i in InOrder(t);
      assert forall y <- InOrder(r) :: y in InOrder(t);
      InsertLargest(r, x);
  }

  // ---- update

  function Update(t: Tree, x: RootInfo): Tree {
    match t
    case Leaf => Leaf
    case Node(l, i, r) =>
      if i.rootID == x.rootID then Node(l, Merge(i, x), r)
      else if x.rootID < i.rootID then Node(Update(l, x), i, r) else Node(l, i, Update(r, x))
  }

  // The tree is a search tree for this map.
  ghost predicate Represents(t: Tree, m: map<ObjectID, RootInfo>) {
    && IsSearchTree(t)
    && (forall id: ObjectID :: Lookup(t, id) == if id in m then Some(m[id]) else None)
  }

  lemma {:induction false} UpdateCorrect(t: Tree, x: RootInfo)
    requires IsSearchTree(t)
    ensures IsSearchTree(Update(t, x))
    ensures forall y <- InOrder(Update(t, x)) :: exists z <- InOrder(t) :: z.rootID == y.rootID
    ensures forall id: ObjectID ::
              Lookup(Update(t, x), id) ==
              if id == x.rootID && Lookup(t, id) != None then Some(Merge(Lookup(t, id).value, x)) else Lookup(t, id)
  {
    hide Merge;
    match t
    case Leaf =>
    case Node(l, i, r) =>
      UpdateCorrect(l, x);
      UpdateCorrect(r, x);
      MergeByField(i, x, FFlags);
      forall y | y in InOrder(Update(t, x)) ensures exists z <- InOrder(t) :: z.rootID == y.rootID {
        assert i in InOrder(t);
        if y in InOrder(Update(l, x)) && x.rootID < i.rootID {
          var z :| z in InOrder(l) && z.rootID == y.rootID;
          assert z in InOrder(t);
        } else if y in InOrder(Update(r, x)) && i.rootID < x.rootID {
          var z :| z in InOrder(r) && z.rootID == y.rootID;
          assert z in InOrder(t);
        }
      }
  }

  lemma {:induction false} InsertLookup(t: Tree, x: RootInfo)
    requires IsSearchTree(t) && Lookup(t, x.rootID) == None && InsertsOnce(t, x.rootID)
    ensures IsSearchTree(Insert(t, x))
    ensures forall id: ObjectID :: Lookup(Insert(t, x), id) == if id == x.rootID then Some(x) else Lookup(t, id)
  {
    match t
    case Leaf =>
    case Node(l, i, r) =>
      if x.rootID < i.rootID {
      } else {
        InsertLookup(r, x);
        InsertKeepsOthers(r, x);
      }
  }

  // What the build's callback does with one item: update the record if there is one, else insert it.
  function UpdateOrInsert(t: Tree, x: RootInfo): Tree {
    if Lookup(t, x.rootID) != None then Update(t, x) else Insert(t, x)
  }

  // Taken in ascending order, items keep the tree and the map together.
  lemma {:induction false} BuildStep(t: Tree, m: map<ObjectID, RootInfo>, x: RootInfo)
    requires Represents(t, m) && forall i <- InOrder(t) :: i.rootID <= x.rootID
    ensures Lookup(t, x.rootID) == None ==> InsertsOnce(t, x.rootID)
    ensures var m' := m[x.rootID := if x.rootID in m then Merge(m[x.rootID], x) else x];
            Represents(UpdateOrInsert(t, x), m')
    ensures forall i <- InOrder(UpdateOrInsert(t, x)) :: i.rootID <= x.rootID
  {
    hide Merge;
    LookupFinds(t, x.rootID);
    if Lookup(t, x.rootID) != None {
      UpdateCorrect(t, x);
    } else {
      LargestInsertsOnce(t, x.rootID);
      InsertLookup(t, x);
      InsertKeepsOthers(t, x);
    }
  }

  // ---- traversal with a callback

  datatype IterError = StopTreeIteration | OtherError(code: nat)

  type Visitor<!S> = (S, RootInfo, Option<IterError>) -> (S, Option<IterError>)

  // Calls along a list: each call gets the result of the one before it; a stop ends it.
  function Visit<S>(f: Visitor<S>, infos: seq<RootInfo>, s: S, lastErr: Option<IterError>): (S, Option<IterError>)
  {
    if infos == [] then (s, lastErr)
    else
      var (s', e) := f(s, infos[0], lastErr);
      if e == Some(StopTreeIteration) then (s', e) else Visit(f, infos[1..], s', e)
  }

  lemma {:induction false} VisitConcat<S>(f: Visitor<S>, a: seq<RootInfo>, b: seq<RootInfo>, s: S,
      lastErr: Option<IterError>)
    requires lastErr != Some(StopTreeIteration)
    ensures var (s', e) := Visit(f, a, s, lastErr);
            Visit(f, a + b, s, lastErr) == if e == Some(StopTreeIteration) then (s', e) else Visit(f, b, s', e)
    decreases |a|
  {
    if a == [] {
      assert a + b == b;
    } else {
      var (s', e) := f(s, a[0], lastErr);
      assert (a + b)[1..] == a[1..] + b;
      if e != Some(StopTreeIteration) {
        VisitConcat(f, a[1..], b, s', e);
      }
    }
  }

  // Each call gets the state and the result of the one before it, and none follows a stop.
  lemma {:induction false} VisitNext<S>(f: Visitor<S>, a: seq<RootInfo>, x: RootInfo, s: S, lastErr: Option<IterError>)
    requires lastErr != Some(StopTreeIteration)
    ensures var (s', e) := Visit(f, a, s, lastErr);
            Visit(f, a + [x], s, lastErr) == if e == Some(StopTreeIteration) then (s', e) else f(s', x, e)
  {
    VisitConcat(f, a, [x], s, lastErr);
    assert [x][1..] == [];
  }

  // The calls made are those on a prefix: all of the list, or up to the first stop.
  lemma {:induction false} VisitStopsOnce<S>(f: Visitor<S>, infos: seq<RootInfo>, s: S, lastErr: Option<IterError>)
    returns (n: nat)
    requires lastErr != Some(StopTreeIteration)
    ensures n <= |infos|
    ensures Visit(f, infos, s, lastErr) == Visit(f, infos[..n], s, lastErr)
    ensures forall k | 0 <= k < n :: Visit(f, infos[..k], s, lastErr).1 != Some(StopTreeIteration)
    ensures n == |infos| || (n > 0 && Visit(f, infos, s, lastErr).1 == Some(StopTreeIteration))
    decreases |infos|
  {
    if infos == [] {
      n := 0;
    } else {
      var (s', e) := f(s, infos[0], lastErr);
      if e == Some(StopTreeIteration) {
        n := 1;
      } else {
        var m := VisitStopsOnce(f, infos[1..], s', e);
        n := m + 1;
        assert infos[..n][1..] == infos[1..][..m];
        forall k | 0 <= k < n ensures Visit(f, infos[..k], s, lastErr).1 != Some(StopTreeIteration) {
          if k > 0 {
            assert infos[..k][1..] == infos[1..][..k - 1];
          }
        }
      }
    }
  }
}

module RBTree {
  import opened RootInfos
  import opened Trees
  import opened Wrappers

  class RBNode {
    var left: RBNode?
    var right: RBNode?
    var info: RootInfo
    ghost var repr: set<RBNode>

    constructor (info: RootInfo)
      ensures Valid() && fresh(repr) && Model() == Node(Leaf, info, Leaf)
      ensures left == null && right == null && this.info == info && repr == {this}
    {
      left, right := null, null;
      this.info := info;
      repr := {this};
    }

    // The pointers lead down a finite structure, in which a node may be reached twice.
    ghost predicate Acyclic()
      reads this, repr
      decreases repr
    {
      && this in repr
      && (left != null ==> left in repr && left.repr <= repr && this !in left.repr && left.Acyclic())
      && (right != null ==> right in repr && right.repr <= repr && this !in right.repr && right.Acyclic())
    }

    // A tree: no node is reached twice.
    ghost predicate Valid()
      reads this, repr
      ensures Valid() ==> Acyclic()
      decreases repr
    {
      && this in repr
      && (left != null ==> left in repr && left.repr <= repr && this !in left.repr && left.Valid())
      && (right != null ==> right in repr && right.repr <= repr && this !in right.repr && right.Valid())
      && (left != null && right != null ==> left.repr !! right.repr)
    }

    ghost function Model(): Tree
      requires Acyclic()
      reads this, repr
      decreases repr
    {
      Node(if left == null then Leaf else left.Model(), info, if right == null then Leaf else right.Model())
    }

    ghost function LeftModel(): Tree
      requires left != null ==> left.Acyclic()
      reads this, left, if left == null then {} else left.repr
    {
      if left == null then Leaf else left.Model()
    }

    ghost function RightModel(): Tree
      requires right != null ==> right.Acyclic()
      reads this, right, if right == null then {} else right.repr
    {
      if right == null then Leaf else right.Model()
    }

    // Inserts a new node. When the descent meets an existing left subtree on a left turn, the node is linked in it
    // and once more on the right, and what is left is no tree.
    method InsertRoot(n: RBNode)
      requires Valid() && n.Valid() && n.repr == {n} && n.left == null && n.right == null && n !in repr
      modifies repr
      ensures Acyclic() && repr == old(repr) + {n}
      ensures Model() == Insert(old(Model()), old(n.info))
      ensures Valid() <==> InsertsOnce(old(Model()), old(n.info.rootID))
      decreases repr, 1
    {
      hide Insert, InsertsOnce;
      InsertCases(LeftModel(), info, RightModel(), n.info);
      InsertLeaf(n.info);
      if n.info.rootID < info.rootID {
        if left == null {
          left := n;
          repr := repr + {n};
          return;
        }
        left.InsertRoot(n);
      }
      InsertRight(n);
    }

    // The second half of an insert. The node may already be linked on the left.
    method InsertRight(n: RBNode)
      requires this in repr && n.Valid() && n.repr == {n} && n.left == null && n.right == null && n != this
      requires left != null ==> left.Acyclic() && this !in left.repr && left.repr <= repr + {n}
      requires right != null ==> right in repr && right.Valid() && this !in right.repr && right.repr <= repr
      requires right != null ==> n !in right.repr
      requires left != null && right != null ==> left.repr !! right.repr
      modifies this, if right == null then {} else right.repr
      ensures Acyclic() && repr == old(repr) + {n} && left == old(left) && info == old(info)
      ensures Model() == Node(old(LeftModel()), info, Insert(old(RightModel()), old(n.info)))
      ensures Valid() <==> (left != null ==> old(left.Valid() && n !in left.repr))
                           && InsertsOnce(old(RightModel()), old(n.info.rootID))
      decreases repr, 0
    {
      hide Insert, InsertsOnce;
      InsertLeaf(n.info);
      if right == null {
        right := n;
        repr := repr + {n};
        return;
      }
      right.InsertRoot(n);
      repr := repr + {n};
    }

    // The search for the id ends at node r.
    ghost predicate Finds(id: ObjectID, r: RBNode)
      requires Acyclic()
      reads this, repr
      ensures Finds(id, r) ==> r in repr
      decreases repr
    {
      if info.rootID == id then r == this
      else if id < info.rootID then left != null && left.Finds(id, r)
      else right != null && right.Finds(id, r)
    }

    method LookupRoot(id: ObjectID) returns (r: RBNode?)
      requires Acyclic()
      ensures r == null <==> Lookup(Model(), id) == None
      ensures r != null ==> Finds(id, r) && Lookup(Model(), id) == Some(r.info)
      decreases repr
    {
      if info.rootID == id {
        return this;
      }
      if id < info.rootID {
        if left == null {
          return null;
        }
        r := left.LookupRoot(id);
        return;
      }
      if right == null {
        return null;
      }
      r := right.LookupRoot(id);
    }

    // Looks the id up and merges into the record found; the lookup's descent is written out here.
    method UpdateRoot(x: RootInfo) returns (found: bool)
      requires Valid()
      modifies repr
      ensures Valid() && repr == old(repr)
      ensures found == (Lookup(old(Model()), x.rootID) != None)
      ensures Model() == Update(old(Model()), x)
      decreases repr
    {
      if info.rootID == x.rootID {
        info := Merge(info, x);
        return true;
      }
      if x.rootID < info.rootID {
        if left == null {
          return false;
        }
        found := left.UpdateRoot(x);
        return;
      }
      if right == null {
        return false;
      }
      found := right.UpdateRoot(x);
    }

    // ---- the three traversals; each passes every result on to the next call

    method PreOrderIterate<S>(f: Visitor<S>, s0: S, lastErr0: Option<IterError>)
      returns (s: S, lastErr: Option<IterError>)
      requires Acyclic() && lastErr0 != Some(StopTreeIteration)
      ensures (s, lastErr) == Visit(f, PreOrder(Model()), s0, lastErr0)
      decreases repr
    {
      ghost var l, r := if left == null then Leaf else left.Model(), if right == null then Leaf else right.Model();
      VisitConcat(f, [info] + PreOrder(l), PreOrder(r), s0, lastErr0);
      VisitConcat(f, [info], PreOrder(l), s0, lastErr0);
      var called := f(s0, info, lastErr0);
      s, lastErr := called.0, called.1;
      if lastErr == Some(StopTreeIteration) {
        return;
      }
      if left != null {
        s, lastErr := left.PreOrderIterate(f, s, lastErr);
        if lastErr == Some(StopTreeIteration) {
          return;
        }
      }
      if right != null {
        s, lastErr := right.PreOrderIterate(f, s, lastErr);
      }
    }

    method PostOrderIterate<S>(f: Visitor<S>, s0: S, lastErr0: Option<IterError>)
      returns (s: S, lastErr: Option<IterError>)
      requires Acyclic() && lastErr0 != Some(StopTreeIteration)
      ensures (s, lastErr) == Visit(f, PostOrder(Model()), s0, lastErr0)
      decreases repr
    {
      ghost var l, r := if left == null then Leaf else left.Model(), if right == null then Leaf else right.Model();
      VisitConcat(f, PostOrder(l) + PostOrder(r), [info], s0, lastErr0);
      VisitConcat(f, PostOrder(l), PostOrder(r), s0, lastErr0);
      s, lastErr := s0, lastErr0;
      if left != null {
        s, lastErr := left.PostOrderIterate(f, s, lastErr);
        if lastErr == Some(StopTreeIteration) {
          return;
        }
      }
      if right != null {
        s, lastErr := right.PostOrderIterate(f, s, lastErr);
        if lastErr == Some(StopTreeIteration) {
          return;
        }
      }
      var called := f(s, info, lastErr);
      s, lastErr := called.0, called.1;
    }

    method InOrderIterate<S>(f: Visitor<S>, s0: S, lastErr0: Option<IterError>)
      returns (s: S, lastErr: Option<IterError>)
      requires Acyclic() && lastErr0 != Some(StopTreeIteration)
      ensures (s, lastErr) == Visit(f, InOrder(Model()), s0, lastErr0)
      decreases repr
    {
      ghost var l, r := if left == null then Leaf else left.Model(), if right == null then Leaf else right.Model();
      VisitConcat(f, InOrder(l) + [info], InOrder(r), s0, lastErr0);
      VisitConcat(f, InOrder(l), [info], s0, lastErr0);
      s, lastErr := s0, lastErr0;
      if left != null {
        s, lastErr := left.InOrderIterate(f, s, lastErr);
        if lastErr == Some(StopTreeIteration) {
          return;
        }
      }
      var called := f(s, info, lastErr);
      s, lastErr := called.0, called.1;
      if lastErr == Some(StopTreeIteration) {
        return;
      }
      if right != null {
        s, lastErr := right.InOrderIterate(f, s, lastErr);
      }
    }
  }

  class RBRoot {
    var node: RBNode?

    constructor ()
      ensures node == null
    {
      node := null;
    }

    ghost function Repr(): set<RBNode>
      reads this, node
    {
      if node == null then {} else node.repr
    }

    ghost predicate Acyclic()
      reads this, node, Repr()
    {
      node != null ==> node.Acyclic()
    }

    ghost predicate Valid()
      reads this, node, Repr()
      ensures Valid() ==> Acyclic()
    {
      node != null ==> node.Valid()
    }

    ghost function Model(): Tree
      requires Acyclic()
      reads this, node, Repr()
    {
      if node == null then Leaf else node.Model()
    }

    method InsertRoot(info: RootInfo)
      requires Valid()
      modifies this, Repr()
      ensures Acyclic() && fresh(Repr() - old(Repr()))
      ensures Model() == Insert(old(Model()), info)
      ensures Valid() <==> InsertsOnce(old(Model()), info.rootID)
    {
      var n := new RBNode(info);
      if node == null {
        node := n;
        return;
      }
      node.InsertRoot(n);
    }

    method LookupRoot(id: ObjectID) returns (found: Option<RootInfo>)
      requires Acyclic()
      ensures found == Lookup(Model(), id)
    {
      if node == null {
        return None;
      }
      var r := node.LookupRoot(id);
      found := if r == null then None else Some(r.info);
    }

    method UpdateRoot(info: RootInfo) returns (found: bool)
      requires Valid()
      modifies Repr()
      ensures Valid() && node == old(node) && Repr() == old(Repr())
      ensures found == (Lookup(old(Model()), info.rootID) != None)
      ensures Model() == Update(old(Model()), info)
    {
      if node == null {
        return false;
      }
      found := node.UpdateRoot(info);
    }
  }

  // Builds the index from the items of the walk. An item that cannot be decoded makes every later call fail.
  method BuildRBTree(items: seq<RootItem>) returns (tree: RBRoot, failed: bool)
    requires AscendingItems(items)
    ensures fresh(tree) && tree.Valid() && fresh(tree.Repr())
    ensures failed <==> exists i <- items :: i.Undecodable?
    ensures !failed ==> Represents(tree.Model(), Fold(items))
  {
    hide Merge, Insert, Update, Lookup, InsertsOnce, Represents, Fold;
    tree := new RBRoot();
    failed := false;
    NothingRepresented();
    for k := 0 to |items|
      invariant fresh(tree) && tree.Valid() && fresh(tree.Repr())
      invariant failed <==> exists i <- items[..k] :: i.Undecodable?
      invariant !failed ==> Represents(tree.Model(), Fold(items[..k]))
      invariant !failed ==> forall i <- InOrder(tree.Model()) :: k > 0 && i.rootID <= items[k - 1].objectid
    {
      var item := items[k];
      assert items[..k + 1] == items[..k] + [item];
      NextFold(items, k);
      if failed {
        continue;
      }
      if item.Undecodable? {
        failed := true;
      } else if item.Carries() {
        ghost var before := tree.Model();
        BuildStep(before, Fold(items[..k]), item.Info());
        var found := tree.UpdateRoot(item.Info());
        if !found {
          assert Update(before, item.Info()) == before by { UpdateAbsent(before, item.Info()); }
          tree.InsertRoot(item.Info());
        }
        assert tree.Model() == UpdateOrInsert(before, item.Info());
      }
    }
    assert items[..|items|] == items;
  }

  lemma NextFold(items: seq<RootItem>, k: nat)
    requires k < |items|
    ensures var m, i := Fold(items[..k]), items[k];
            Fold(items[..k + 1]) ==
            if !i.Carries() then m
            else m[i.objectid := if i.objectid in m then Merge(m[i.objectid], i.Info()) else i.Info()]
  {
    assert items[..k + 1][..k] == items[..k];
  }

  lemma NothingRepresented()
    ensures Represents(Leaf, map[]) && Fold([]) == map[] && InOrder(Leaf) == []
  {
  }

  lemma {:induction false} UpdateAbsent(t: Tree, x: RootInfo)
    requires Lookup(t, x.rootID) == None
    ensures Update(t, x) == t
  {
    match t
    case Leaf =>
    case Node(l, i, r) =>
      if x.rootID < i.rootID {
        UpdateAbsent(l, x);
      } else {
        UpdateAbsent(r, x);
      }
  }
}
