/** The part of the index below one subvolume. */
module Descendants {
  import opened RBTree
  import opened RootInfos
  import opened Trees
  import opened Wrappers

  ghost predicate HasId(infos: seq<RootInfo>, id: ObjectID) {
    exists x <- infos :: x.rootID == id
  }

  // There is a record with the id, and it names a parent (zero names none).
  ghost predicate HasLinked(infos: seq<RootInfo>, id: ObjectID) {
    exists x <- infos :: x.rootID == id && x.refTree != 0
  }

  // Kept given what was kept before: the root, its children, and whoever's parent is kept and linked, if the root is.
  ghost predicate Keeps(kept: seq<RootInfo>, root: ObjectID, x: RootInfo) {
    x.rootID == root || x.refTree == root || (HasLinked(kept, x.refTree) && HasId(kept, root))
  }

  // What the filter keeps of an ascending list.
  ghost function Kept(infos: seq<RootInfo>, root: ObjectID): seq<RootInfo> {
    if infos == [] then []
    else
      var k, x := Kept(infos[..|infos| - 1], root), infos[|infos| - 1];
      if Keeps(k, root, x) then k + [x] else k
  }

  // x is the root, a child of it, or has a linked parent in the list with a smaller id, and the root is there too.
  ghost predicate Climbs(kept: seq<RootInfo>, root: ObjectID, x: RootInfo) {
    x.rootID == root || x.refTree == root || (HasLinked(kept, x.refTree) && x.refTree < x.rootID && HasId(kept, root))
  }

  ghost predicate ClimbsToRoot(kept: seq<RootInfo>, root: ObjectID) {
    forall x <- kept :: Climbs(kept, root, x)
  }

  lemma {:induction false} KeptClimbs(infos: seq<RootInfo>, root: ObjectID)
    requires AscendingIds(infos)
    ensures forall x <- Kept(infos, root) :: x in infos
    ensures AscendingIds(Kept(infos, root)) && ClimbsToRoot(Kept(infos, root), root)
  {
    if infos != [] {
      hide Keeps, ClimbsToRoot;
      var n := |infos| - 1;
      var x := infos[n];
      PrefixAscends(infos, n);
      KeptClimbs(infos[..n], root);
      var k := Kept(infos[..n], root);
      forall y | y in k ensures y.rootID < x.rootID {
        PrefixBelow(infos, n, y);
      }
      assert forall y <- infos[..n] :: y in infos;
      if Keeps(k, root, x) {
        ClimbsExtended(k, x, root);
        AscendingIdsAppend(k, x);
      }
    }
  }

  lemma AscendingIdsAppend(k: seq<RootInfo>, x: RootInfo)
    requires AscendingIds(k) && forall y <- k :: y.rootID < x.rootID
    ensures AscendingIds(k + [x])
  {
  }

  lemma ClimbsExtended(k: seq<RootInfo>, x: RootInfo, root: ObjectID)
    requires ClimbsToRoot(k, root) && Keeps(k, root, x) && forall y <- k :: y.rootID < x.rootID
    ensures ClimbsToRoot(k + [x], root)
  {
    HasIdMore(k, x, root);
    forall y | y in k + [x] ensures Climbs(k + [x], root, y) {
      HasLinkedMore(k, x, y.refTree);
      if y in k {
        assert Climbs(k, root, y);
      } else if HasLinked(k, x.refTree) {
        var z :| z in k && z.rootID == x.refTree;
      }
    }
  }

  lemma HasIdMore(k: seq<RootInfo>, x: RootInfo, id: ObjectID)
    ensures HasId(k + [x], id) <==> HasId(k, id) || x.rootID == id
  {
    if HasId(k, id) {
      var z :| z in k && z.rootID == id;
      assert z in k + [x];
    }
    if x.rootID == id {
      assert x in k + [x];
    }
  }

  lemma HasLinkedMore(k: seq<RootInfo>, x: RootInfo, id: ObjectID)
    ensures HasLinked(k + [x], id) <==> HasLinked(k, id) || (x.rootID == id && x.refTree != 0)
  {
    if HasLinked(k, id) {
      var z :| z in k && z.rootID == id && z.refTree != 0;
      assert z in k + [x];
    }
    if x.rootID == id && x.refTree != 0 {
      assert x in k + [x];
    }
  }

  method FilterFromRoot(tree: RBRoot, root: ObjectID) returns (filtered: RBRoot)
    requires tree.Valid() && IsSearchTree(tree.Model())
    ensures fresh(filtered) && filtered.Valid() && fresh(filtered.Repr())
    ensures InOrder(filtered.Model()) == Kept(InOrder(tree.Model()), root)
  {
    hide Kept, AscendingIds, IsSearchTree, Visit;
    // the iteration's callback never fails, so it is called for every record in order
    var infos: seq<RootInfo> := [];
    if tree.node != null {
      var collect: Visitor<seq<RootInfo>> := (s, info, e) => (s + [info], None);
      CollectsAll(collect, InOrder(tree.Model()), []);
      var lastErr;
      infos, lastErr := tree.node.InOrderIterate(collect, [], None);
    }
    assert infos == InOrder(tree.Model());
    SearchTreeAscends(tree.Model());
    filtered := new RBRoot();
    NothingKept(root);
    for i := 0 to |infos|
      invariant fresh(filtered) && filtered.Valid() && fresh(filtered.Repr())
      invariant InOrder(filtered.Model()) == Kept(infos[..i], root)
      invariant IsSearchTree(filtered.Model())
    {
      FilterVisit(filtered, infos, i, root);
    }
    assert infos[..|infos|] == infos;
  }

  // The callback's work for one record.
  method FilterVisit(filtered: RBRoot, infos: seq<RootInfo>, i: nat, root: ObjectID)
    requires filtered.Valid() && IsSearchTree(filtered.Model()) && i < |infos|
    requires AscendingIds(infos)
    requires InOrder(filtered.Model()) == Kept(infos[..i], root)
    modifies filtered, filtered.Repr()
    ensures filtered.Valid() && IsSearchTree(filtered.Model()) && fresh(filtered.Repr() - old(filtered.Repr()))
    ensures InOrder(filtered.Model()) == Kept(infos[..i + 1], root)
  {
    hide Insert, InsertsOnce, Kept, ClimbsToRoot, AscendingIds, HasId, HasLinked, IsSearchTree;
    var info := infos[i];
    ghost var t := filtered.Model();
    NextKept(infos, i, root);
    PrefixAscends(infos, i);
    PrefixAscends(infos, i + 1);
    KeptClimbs(infos[..i], root);
    KeptClimbs(infos[..i + 1], root);
    var keep := info.rootID == root || info.refTree == root;
    if !keep {
      keep := ParentReachesRoot(filtered, info, root);
    }
    if keep {
      forall y | y in InOrder(t) ensures y.rootID < info.rootID {
        PrefixBelow(infos, i, y);
      }
      LargestInsertsOnce(t, info.rootID);
      InsertLargest(t, info);
      filtered.InsertRoot(info);
      SearchTreeAscends(filtered.Model());
    }
  }

  // The loop over a record's ancestors in the tree kept so far. A parent of zero ends it.
  method ParentReachesRoot(tree: RBRoot, info: RootInfo, root: ObjectID) returns (found: bool)
    requires tree.Valid() && IsSearchTree(tree.Model())
    requires ClimbsToRoot(InOrder(tree.Model()), root)
    requires info.rootID != root && info.refTree != root
    ensures found <==> HasLinked(InOrder(tree.Model()), info.refTree) && HasId(InOrder(tree.Model()), root)
  {
    hide Lookup, IsSearchTree, HasId, HasLinked, ClimbsToRoot;
    ghost var kept := InOrder(tree.Model());
    LookupHas(tree.Model(), info.refTree);
    LookupHas(tree.Model(), root);
    var parent := tree.LookupRoot(info.refTree);
    ghost var reaches := HasLinked(kept, info.refTree) && HasId(kept, root);
    while parent != None && parent.value.refTree != 0
      invariant parent != None ==> parent.value in kept && parent.value.rootID != root
      invariant reaches <==> parent != None && parent.value.refTree != 0 && HasId(kept, root)
      decreases if parent == None then 0 else parent.value.rootID
    {
      var p := parent.value;
      ClimbsThrough(kept, root, p);
      LookupHas(tree.Model(), p.refTree);
      var next := tree.LookupRoot(p.refTree);
      if next == None {
        return false;
      }
      if next.value.rootID == root || next.value.refTree == root {
        return true;
      }
      parent := next;
    }
    found := false;
  }

  lemma ClimbsThrough(kept: seq<RootInfo>, root: ObjectID, p: RootInfo)
    requires ClimbsToRoot(kept, root) && p in kept
    ensures Climbs(kept, root, p)
  {
  }

  lemma {:induction false} LookupHas(t: Tree, id: ObjectID)
    requires IsSearchTree(t)
    ensures Lookup(t, id) == None <==> !HasId(InOrder(t), id)
    ensures Lookup(t, id) != None ==> Lookup(t, id).value in InOrder(t) && Lookup(t, id).value.rootID == id
    ensures HasLinked(InOrder(t), id) <==> Lookup(t, id) != None && Lookup(t, id).value.refTree != 0
  {
    hide IsSearchTree, Lookup, InOrder;
    LookupFinds(t, id);
    SearchTreeAscends(t);
    if x :| x in InOrder(t) && x.rootID == id {
      SameId(InOrder(t), x, Lookup(t, id).value);
    }
  }

  lemma {:induction false} CollectsAll(f: Visitor<seq<RootInfo>>, infos: seq<RootInfo>, s: seq<RootInfo>)
    requires forall s, i, e :: f(s, i, e) == (s + [i], None)
    ensures Visit(f, infos, s, None) == (s + infos, None)
    decreases |infos|
  {
    if infos == [] {
      assert s + infos == s;
    } else {
      CollectsAll(f, infos[1..], s + [infos[0]]);
      assert s + [infos[0]] + infos[1..] == s + infos;
    }
  }

  lemma {:induction false} NothingKept(root: ObjectID)
    ensures Kept([], root) == [] && InOrder(Leaf) == [] && IsSearchTree(Leaf)
  {
  }

  lemma {:induction false} NextKept(infos: seq<RootInfo>, i: nat, root: ObjectID)
    requires i < |infos|
    ensures var k, x := Kept(infos[..i], root), infos[i];
            Kept(infos[..i + 1], root) ==
            if Keeps(k, root, x) then k + [x] else k
  {
    assert infos[..i + 1][..i] == infos[..i];
  }

  lemma PrefixAscends(infos: seq<RootInfo>, n: nat)
    requires AscendingIds(infos) && n <= |infos|
    ensures AscendingIds(infos[..n])
  {
  }

  lemma PrefixBelow(infos: seq<RootInfo>, n: nat, y: RootInfo)
    requires AscendingIds(infos) && n < |infos| && y in infos[..n]
    ensures y.rootID < infos[n].rootID
  {
  }

  // ---- what is kept

  // The chain of parents from id reaches the root in at most n steps above it.
  ghost predicate Reaches(infos: seq<RootInfo>, root: ObjectID, id: ObjectID, n: nat)
    decreases n
  {
    exists x <- infos :: x.rootID == id &&
                         (id == root || x.refTree == root || (n > 0 && Reaches(infos, root, x.refTree, n - 1)))
  }

  ghost predicate Descends(infos: seq<RootInfo>, root: ObjectID, id: ObjectID) {
    exists n: nat :: Reaches(infos, root, id, n)
  }

  // Exactly, for every ascending list: kept are the root, its children, and records whose linked parent and the root
  // both come before them and are kept.
  lemma {:induction false} KeptExactly(infos: seq<RootInfo>, root: ObjectID, x: RootInfo)
    requires AscendingIds(infos) && x in infos
    ensures x in Kept(infos, root) <==>
            Climbs(Kept(infos, root), root, x) && (x.rootID == root || x.refTree == root || root < x.rootID)
  {
    hide Kept, HasId, HasLinked, ClimbsToRoot;
    var n := |infos| - 1;
    var last := infos[n];
    var k, all := Kept(infos[..n], root), Kept(infos, root);
    assert infos[..n + 1] == infos;
    NextKept(infos, n, root);
    PrefixAscends(infos, n);
    KeptClimbs(infos[..n], root);
    SmallIdsStay(k, last, all, x.refTree);
    SmallIdsStay(k, last, all, root);
    if x == last {
      NotBefore(infos, k);
      KeptBelow(infos, k, x.refTree);
      KeptBelow(infos, k, root);
    } else {
      InPrefix(infos, x);
      PrefixBelow(infos, n, x);
      KeptExactly(infos[..n], root, x);
      assert x in all <==> x in k;
    }
  }

  lemma NotBefore(infos: seq<RootInfo>, k: seq<RootInfo>)
    requires AscendingIds(infos) && infos != [] && forall y <- k :: y in infos[..|infos| - 1]
    ensures infos[|infos| - 1] !in k
  {
  }

  lemma KeptBelow(infos: seq<RootInfo>, k: seq<RootInfo>, id: ObjectID)
    requires AscendingIds(infos) && infos != [] && forall y <- k :: y in infos[..|infos| - 1]
    ensures HasId(k, id) ==> id < infos[|infos| - 1].rootID
    ensures HasLinked(k, id) ==> HasId(k, id)
  {
  }

  lemma InPrefix(infos: seq<RootInfo>, x: RootInfo)
    requires x in infos && x != infos[|infos| - 1]
    ensures x in infos[..|infos| - 1]
  {
  }

  // Appending a record does not change which smaller ids there are.
  lemma SmallIdsStay(k: seq<RootInfo>, last: RootInfo, all: seq<RootInfo>, id: ObjectID)
    requires all == k || all == k + [last]
    ensures id < last.rootID ==> (HasId(all, id) <==> HasId(k, id)) && (HasLinked(all, id) <==> HasLinked(k, id))
  {
    HasIdMore(k, last, id);
    HasLinkedMore(k, last, id);
  }

  lemma SameId(infos: seq<RootInfo>, x: RootInfo, y: RootInfo)
    requires AscendingIds(infos) && x in infos && y in infos && x.rootID == y.rootID
    ensures x == y
  {
    var i :| 0 <= i < |infos| && infos[i] == x;
    var j :| 0 <= j < |infos| && infos[j] == y;
  }

  lemma {:induction false} KeptReaches(infos: seq<RootInfo>, root: ObjectID, x: RootInfo)
    requires AscendingIds(infos) && x in Kept(infos, root)
    ensures Descends(infos, root, x.rootID)
    decreases x.rootID
  {
    hide Kept;
    KeptClimbs(infos, root);
    if x.rootID == root || x.refTree == root {
      assert Reaches(infos, root, x.rootID, 0);
    } else {
      ClimbsThrough(Kept(infos, root), root, x);
      var p :| p in Kept(infos, root) && p.rootID == x.refTree;
      KeptReaches(infos, root, p);
      var n: nat :| Reaches(infos, root, p.rootID, n);
      assert Reaches(infos, root, x.rootID, n + 1);
    }
  }

  // Every descendant that is neither the root nor its child has the root in the list, and the root and its own linked
  // parent before it.
  ghost predicate LinksGoUp(infos: seq<RootInfo>, root: ObjectID) {
    forall x <- infos :: Descends(infos, root, x.rootID) && x.rootID != root && x.refTree != root ==>
                           HasId(infos, root) && root < x.rootID && x.refTree < x.rootID && HasLinked(infos, x.refTree)
  }

  // The parent through which a chain goes on.
  lemma ReachesParent(infos: seq<RootInfo>, root: ObjectID, x: RootInfo, n: nat) returns (p: RootInfo)
    requires AscendingIds(infos) && x in infos && Reaches(infos, root, x.rootID, n)
    requires x.rootID != root && x.refTree != root
    ensures n > 0 && p in infos && p.rootID == x.refTree && Reaches(infos, root, p.rootID, n - 1)
  {
    var x' :| x' in infos && x'.rootID == x.rootID &&
              (x'.rootID == root || x'.refTree == root || (n > 0 && Reaches(infos, root, x'.refTree, n - 1)));
    SameId(infos, x, x');
    p :| p in infos && p.rootID == x.refTree;
  }

  lemma {:induction false} DescendantKept(infos: seq<RootInfo>, root: ObjectID, x: RootInfo, n: nat)
    requires AscendingIds(infos) && LinksGoUp(infos, root) && x in infos && Reaches(infos, root, x.rootID, n)
    ensures x in Kept(infos, root)
    decreases n
  {
    hide Kept, Reaches;
    KeptExactly(infos, root, x);
    if x.rootID != root && x.refTree != root {
      assert Descends(infos, root, x.rootID);
      var p := ReachesParent(infos, root, x, n);
      DescendantKept(infos, root, p, n - 1);
      var q :| q in infos && q.rootID == x.refTree && q.refTree != 0;
      SameId(infos, p, q);
      var r :| r in infos && r.rootID == root;
      KeptExactly(infos, root, r);
    }
  }

  // The filter keeps the descendants and no others if and only if their links go up.
  lemma {:induction false} FilterCorrectExactly(infos: seq<RootInfo>, root: ObjectID)
    requires AscendingIds(infos)
    ensures (forall x <- infos :: x in Kept(infos, root) <==> Descends(infos, root, x.rootID)) <==>
              LinksGoUp(infos, root)
  {
    hide Kept, Reaches;
    KeptClimbs(infos, root);
    if forall x <- infos :: x in Kept(infos, root) <==> Descends(infos, root, x.rootID) {
      forall x | x in infos && Descends(infos, root, x.rootID) && x.rootID != root && x.refTree != root
        ensures HasId(infos, root) && root < x.rootID && x.refTree < x.rootID && HasLinked(infos, x.refTree)
      {
        KeptExactly(infos, root, x);
      }
    }
    if LinksGoUp(infos, root) {
      forall x | x in infos ensures x in Kept(infos, root) <==> Descends(infos, root, x.rootID) {
        if x in Kept(infos, root) {
          KeptReaches(infos, root, x);
        }
        if Descends(infos, root, x.rootID) {
          var n: nat :| Reaches(infos, root, x.rootID, n);
          DescendantKept(infos, root, x, n);
        }
      }
    }
  }

  // Parents come before their children, and no id is zero, as on disk.
  ghost predicate ParentsFirst(infos: seq<RootInfo>) {
    forall y <- infos :: y.rootID != 0 && (y.refTree != 0 ==> y.refTree < y.rootID)
  }

  lemma {:induction false} ReachesAbove(infos: seq<RootInfo>, root: ObjectID, id: ObjectID, n: nat)
    requires ParentsFirst(infos) && root != 0 && Reaches(infos, root, id, n)
    ensures root <= id
    decreases n
  {
    var x :| x in infos && x.rootID == id &&
             (id == root || x.refTree == root || (n > 0 && Reaches(infos, root, x.refTree, n - 1)));
    if id != root && x.refTree != root {
      ReachesAbove(infos, root, x.refTree, n - 1);
    }
  }

  // With the root present and every parent's id below its child's, links go up.
  lemma ParentsFirstLinksGoUp(infos: seq<RootInfo>, root: ObjectID)
    requires AscendingIds(infos) && HasId(infos, root) && root != 0 && ParentsFirst(infos)
    ensures LinksGoUp(infos, root)
  {
    hide Reaches;
    forall x | x in infos && Descends(infos, root, x.rootID) && x.rootID != root && x.refTree != root
      ensures root < x.rootID && x.refTree < x.rootID && HasLinked(infos, x.refTree)
    {
      var n: nat :| Reaches(infos, root, x.rootID, n);
      var p := ReachesParent(infos, root, x, n);
      ReachesAbove(infos, root, p.rootID, n - 1);
      if p.refTree != root {
        var q := ReachesParent(infos, root, p, n - 1);
        assert p.refTree != 0;
      }
    }
  }

  // So on disk the filter keeps the descendants and no others.
  lemma {:induction false} KeptAreDescendants(infos: seq<RootInfo>, root: ObjectID, x: RootInfo)
    requires AscendingIds(infos) && HasId(infos, root) && root != 0 && ParentsFirst(infos) && x in infos
    ensures x in Kept(infos, root) <==> Descends(infos, root, x.rootID)
  {
    hide Kept, Descends;
    ParentsFirstLinksGoUp(infos, root);
    FilterCorrectExactly(infos, root);
  }

  function Record(id: ObjectID, parent: ObjectID): RootInfo {
    Backref(id, parent, 0, "").Info()
  }

  // The parent p of x is a child of the root.
  lemma TwoSteps(infos: seq<RootInfo>, root: ObjectID, p: RootInfo, x: RootInfo)
    requires p in infos && x in infos && p.refTree == root && x.refTree == p.rootID
    ensures Descends(infos, root, x.rootID)
  {
    assert Reaches(infos, root, p.rootID, 0);
    assert Reaches(infos, root, x.rootID, 1);
  }

  lemma RecordFields(id: ObjectID, parent: ObjectID)
    ensures Record(id, parent).rootID == id && Record(id, parent).refTree == parent
  {
  }

  // Both conditions are needed: without the root, grandchildren are lost ...
  lemma GrandchildLostWithoutRoot()
    ensures var infos := [Record(6, 5), Record(7, 6)];
            Descends(infos, 5, 7) && Record(7, 6) !in Kept(infos, 5)
  {
    RecordFields(6, 5);
    RecordFields(7, 6);
    hide Record, Kept;
    var infos := [Record(6, 5), Record(7, 6)];
    TwoSteps(infos, 5, infos[0], infos[1]);
    KeptClimbs(infos, 5);
    KeptExactly(infos, 5, infos[1]);
  }

  // ... and so are records whose parent has a larger id.
  lemma ForwardReferenceLost()
    ensures var infos := [Record(5, 0), Record(6, 7), Record(7, 5)];
            Descends(infos, 5, 6) && Record(6, 7) !in Kept(infos, 5)
  {
    RecordFields(5, 0);
    RecordFields(6, 7);
    RecordFields(7, 5);
    hide Record, Kept, HasId, HasLinked;
    var infos := [Record(5, 0), Record(6, 7), Record(7, 5)];
    TwoSteps(infos, 5, infos[2], infos[1]);
    KeptExactly(infos, 5, infos[1]);
  }
}
