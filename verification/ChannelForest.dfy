/** What creating, moving and removing channels does to the rooted ordered forest their links stand for. */
module ChannelForest {
  import opened Basics
  import opened ChannelLinks

  // ---------------------------------------------------------------- depths

  lemma {:induction false} DepthUnique(m: Channels, k: nat, d: nat, e: nat)
    requires 0 !in m && DepthIs(m, k, d) && DepthIs(m, k, e)
    ensures d == e
    decreases d
  {
    if d > 0 && e > 0 {
      DepthUnique(m, m[k].parentId, d - 1, e - 1);
    }
  }

  /** All channels but one have the same parent in both stores. */
  ghost predicate SameParents(m: Channels, changed: Channels, id: nat) {
    forall k :: k in m && k != id ==> k in changed && changed[k].parentId == m[k].parentId
  }

  /** A parent chain that does not meet the changed channel stays as it is. */
  lemma {:induction false} DepthAvoids(m: Channels, changed: Channels, id: nat, k: nat, d: nat)
    requires SameParents(m, changed, id) && DepthIs(m, k, d) && !Meets(m, k, id, d)
    ensures DepthIs(changed, k, d)
    decreases d
  {
    if d > 0 {
      DepthAvoids(m, changed, id, m[k].parentId, d - 1);
    }
  }

  /** Every parent chain leads to the root, or to the changed channel and from there to the root. */
  lemma {:induction false} DepthThrough(m: Channels, changed: Channels, id: nat, k: nat, d: nat, e: nat)
    requires SameParents(m, changed, id) && DepthIs(m, k, d) && DepthIs(changed, id, e)
    ensures HasDepth(changed, k)
    decreases d
  {
    if k == id {
      assert DepthIs(changed, k, e);
    } else if d == 0 {
      assert DepthIs(changed, k, 0);
    } else {
      DepthThrough(m, changed, id, m[k].parentId, d - 1, e);
      var up: nat :| DepthIs(changed, m[k].parentId, up);
      assert DepthIs(changed, k, up + 1);
    }
  }

  /** Going up to a channel on the way to the root never leads further from it. */
  lemma {:induction false} ClimbToMet(m: Channels, changed: Channels, id: nat, x: nat, n: nat, e: nat) returns (above: nat)
    requires 0 !in changed && SameParents(m, changed, id) && Meets(m, x, id, n) && DepthIs(changed, x, e)
    ensures above <= e && DepthIs(changed, id, above)
    decreases n
  {
    if x == id {
      above := e;
    } else {
      above := ClimbToMet(m, changed, id, m[x].parentId, n - 1, e - 1);
    }
  }

  lemma {:induction false} FreshIsNotMet(m: Channels, k: nat, id: nat, d: nat)
    requires DepthIs(m, k, d) && id !in m && id != 0
    ensures !Meets(m, k, id, d)
    decreases d
  {
    if d > 0 {
      FreshIsNotMet(m, m[k].parentId, id, d - 1);
    }
  }

  lemma {:induction false} LeafIsNotMet(m: Channels, k: nat, id: nat, d: nat)
    requires DepthIs(m, k, d) && k != id && id != 0 && forall x :: !Child(m, id, x)
    ensures !Meets(m, k, id, d)
    decreases d
  {
    if d > 0 {
      assert Child(m, m[k].parentId, k);
      LeafIsNotMet(m, m[k].parentId, id, d - 1);
    }
  }

  lemma KnownHasDepth(m: Channels, p: nat) returns (d: nat)
    requires Rooted(m) && (p == 0 || p in m)
    ensures DepthIs(m, p, d)
  {
    if p == 0 {
      d := 0;
    } else {
      assert HasDepth(m, p);
      d :| DepthIs(m, p, d);
    }
  }

  /** A channel is not its own parent. */
  lemma NotItsOwnParent(m: Channels, id: nat)
    requires 0 !in m && Rooted(m) && id in m
    ensures m[id].parentId != id
  {
    var d := KnownHasDepth(m, id);
    if m[id].parentId == id {
      DepthUnique(m, id, d, d - 1);
    }
  }

  lemma ChainPosition(m: Channels, p: nat, s: seq<nat>, after: nat) returns (i: nat)
    requires IsChain(m, p, s) && (after == 0 || Child(m, p, after))
    ensures i <= |s| && Before(s, i) == after
  {
    if after == 0 {
      i := 0;
    } else {
      var j :| 0 <= j < |s| && s[j] == after;
      i := j + 1;
    }
  }

  // ---------------------------------------------------------------- creating

  predicate PlaceExists(m: Channels, p: nat, after: nat) {
    (p == 0 || p in m) && (after == 0 || Child(m, p, after))
  }

  lemma CreateRoots(m: Channels, c: Channel)
    requires Keyed(m) && Rooted(m) && c.id !in m && c.id != 0 && (c.parentId == 0 || c.parentId in m)
    ensures Rooted(CreateStep(m, c))
  {
    var created := CreateStep(m, c);
    forall k | k in created
      ensures HasDepth(created, k)
    {
      var below := if k == c.id then c.parentId else k;
      var d := KnownHasDepth(m, below);
      FreshIsNotMet(m, below, c.id, d);
      DepthAvoids(m, created, c.id, below, d);
      assert k == c.id ==> DepthIs(created, k, d + 1);
    }
  }

  lemma CreateOrders(m: Channels, c: Channel, q: nat)
    requires Keyed(m) && HasChain(m, q) && c.id !in m && c.id != 0 && PlaceExists(m, c.parentId, c.orderAfterId)
    ensures HasChain(CreateStep(m, c), q)
  {
    var s :| IsChain(m, q, s);
    if q == c.parentId {
      var i := ChainPosition(m, q, s, c.orderAfterId);
      CreateInserts(m, c, s, i);
    } else {
      CreateKeepsOthers(m, c, q, s);
    }
  }

  lemma CreatedPlaceExists(m: Channels, c: Channel)
    requires WellFormed(m) && c.id !in m && c.id != 0 && WellFormed(CreateStep(m, c))
    ensures PlaceExists(m, c.parentId, c.orderAfterId)
  {
    var created := CreateStep(m, c);
    var d := KnownHasDepth(created, c.id);
    NotItsOwnParent(created, c.id);
    assert DepthIs(created, c.parentId, d - 1);
    assert HasChain(created, c.parentId);
    var s :| IsChain(created, c.parentId, s);
    assert Child(created, c.parentId, c.id);
    var j :| 0 <= j < |s| && s[j] == c.id;
    assert LinkAt(created, c.parentId, s, j);
    if j > 0 {
      assert LinkAt(created, c.parentId, s, j - 1);
      assert s[j - 1] != s[j];
    }
  }

  /** A new channel leaves a well-formed forest exactly if its place exists. */
  lemma CreateFreshKeepsForest(m: Channels, c: Channel)
    requires WellFormed(m) && c.id !in m && c.id != 0
    ensures WellFormed(CreateStep(m, c)) <==> PlaceExists(m, c.parentId, c.orderAfterId)
  {
    if PlaceExists(m, c.parentId, c.orderAfterId) {
      CreateRoots(m, c);
      forall q: nat
        ensures HasChain(CreateStep(m, c), q)
      {
        assert HasChain(m, q);
        CreateOrders(m, c, q);
      }
    }
    if WellFormed(CreateStep(m, c)) {
      CreatedPlaceExists(m, c);
    }
  }

  // ---------------------------------------------------------------- removing

  lemma DetachParents(m: Channels, id: nat)
    requires Keyed(m) && id in m
    ensures var detached := Detach(m, id);
            Keyed(detached) && SameParents(m, detached, id) && detached.Keys == m.Keys - {id}
  {
  }

  lemma DetachOrders(m: Channels, id: nat, q: nat)
    requires Keyed(m) && HasChain(m, q) && id in m
    ensures HasChain(Detach(m, id), q)
  {
    var s :| IsChain(m, q, s);
    if q == m[id].parentId {
      assert Child(m, q, id);
      var i :| 0 <= i < |s| && s[i] == id;
      DetachDeletes(m, id, s, i);
    } else {
      DetachKeepsOthers(m, id, q, s);
    }
  }

  lemma DetachRoots(m: Channels, id: nat)
    requires Keyed(m) && Rooted(m) && id in m && forall k :: !Child(m, id, k)
    ensures Rooted(Detach(m, id))
  {
    var detached := Detach(m, id);
    DetachParents(m, id);
    forall k | k in detached
      ensures HasDepth(detached, k)
    {
      var d := KnownHasDepth(m, k);
      LeafIsNotMet(m, k, id, d);
      DepthAvoids(m, detached, id, k, d);
    }
  }

  lemma OrphanHasNoDepth(m: Channels, id: nat, k: nat)
    requires Keyed(m) && Rooted(m) && id in m && Child(m, id, k)
    ensures !Rooted(Detach(m, id))
  {
    var detached := Detach(m, id);
    DetachParents(m, id);
    NotItsOwnParent(m, id);
    if Rooted(detached) {
      var d := KnownHasDepth(detached, k);
      assert false;
    }
  }

  /** Removing a channel leaves a well-formed forest exactly if it has no children. */
  lemma RemoveKeepsForest(m: Channels, id: nat)
    requires WellFormed(m) && id in m
    ensures WellFormed(RemoveStep(m, id)) <==> forall k :: !Child(m, id, k)
  {
    assert HasChain(m, m[id].parentId);
    var s :| IsChain(m, m[id].parentId, s);
    RemoveIsDetach(m, id, s);
    if k :| Child(m, id, k) {
      OrphanHasNoDepth(m, id, k);
    } else {
      DetachRoots(m, id);
      DetachParents(m, id);
      forall q: nat
        ensures HasChain(Detach(m, id), q)
      {
        assert HasChain(m, q);
        DetachOrders(m, id, q);
      }
    }
  }

  /** Removing deletes the channel from the list of its siblings. */
  lemma RemoveDeletes(m: Channels, id: nat, s: seq<nat>, i: nat)
    requires Keyed(m) && id in m && IsChain(m, m[id].parentId, s) && i < |s| && s[i] == id
    ensures IsChain(RemoveStep(m, id), m[id].parentId, Removed(s, i))
  {
    RemoveIsDetach(m, id, s);
    DetachDeletes(m, id, s, i);
  }

  lemma RemoveKeepsOthers(m: Channels, id: nat, q: nat, s: seq<nat>)
    requires WellFormed(m) && id in m && IsChain(m, q, s) && q != m[id].parentId
    ensures IsChain(RemoveStep(m, id), q, s)
  {
    assert HasChain(m, m[id].parentId);
    var siblings :| IsChain(m, m[id].parentId, siblings);
    RemoveIsDetach(m, id, siblings);
    DetachKeepsOthers(m, id, q, s);
  }

  // ---------------------------------------------------------------- moving

  /** Moving takes the channel from the list of its siblings and inserts it after its new predecessor. */
  lemma MoveRelocates(m: Channels, id: nat, p: nat, after: nat, s: seq<nat>, i: nat, t: seq<nat>, j: nat)
    requires Keyed(m) && id in m && IsChain(m, m[id].parentId, s) && i < |s| && s[i] == id
    requires if p == m[id].parentId then t == Removed(s, i) else IsChain(m, p, t)
    requires j <= |t| && Before(t, j) == after
    ensures IsChain(MoveStep(m, id, p, after), p, Inserted(t, j, id))
    ensures p != m[id].parentId ==> IsChain(MoveStep(m, id, p, after), m[id].parentId, Removed(s, i))
  {
    var detached, moved := Detach(m, id), m[id].(parentId := p, orderAfterId := after);
    MoveIsDetachCreate(m, id, p, after);
    DetachParents(m, id);
    DetachDeletes(m, id, s, i);
    if p != m[id].parentId {
      DetachKeepsOthers(m, id, p, t);
      CreateKeepsOthers(detached, moved, m[id].parentId, Removed(s, i));
    }
    CreateInserts(detached, moved, t, j);
  }

  lemma MoveKeepsOthers(m: Channels, id: nat, p: nat, after: nat, q: nat, s: seq<nat>)
    requires Keyed(m) && id in m && IsChain(m, q, s) && q != p && q != m[id].parentId
    ensures IsChain(MoveStep(m, id, p, after), q, s)
  {
    MoveIsDetachCreate(m, id, p, after);
    DetachParents(m, id);
    DetachKeepsOthers(m, id, q, s);
    CreateKeepsOthers(Detach(m, id), m[id].(parentId := p, orderAfterId := after), q, s);
  }

  lemma MoveParents(m: Channels, id: nat, p: nat, after: nat)
    requires Keyed(m) && id in m
    ensures var moved := MoveStep(m, id, p, after);
            && Keyed(moved) && SameParents(m, moved, id) && moved.Keys == m.Keys && moved[id].parentId == p
  {
    var detached := Detach(m, id);
    MoveIsDetachCreate(m, id, p, after);
    DetachParents(m, id);
  }

  /** Taking a channel out and putting one with its identifier at an existing place keeps every list a chain. */
  lemma ReplaceOrders(m: Channels, c: Channel)
    requires Keyed(m) && Ordered(m) && c.id in m && MoveAccepted(m, c.id, c.parentId, c.orderAfterId)
    ensures Ordered(CreateStep(Detach(m, c.id), c))
  {
    var detached := Detach(m, c.id);
    DetachParents(m, c.id);
    forall q: nat
      ensures HasChain(CreateStep(detached, c), q)
    {
      assert HasChain(m, q);
      DetachOrders(m, c.id, q);
      var s :| IsChain(detached, q, s);
      if q == c.parentId {
        var i := ChainPosition(detached, q, s, c.orderAfterId);
        CreateInserts(detached, c, s, i);
      } else {
        CreateKeepsOthers(detached, c, q, s);
      }
    }
  }

  /** A channel given a parent that is not below it stays rooted, and so does everything else. */
  lemma ReparentRoots(m: Channels, changed: Channels, id: nat)
    requires Rooted(m) && id in m && SameParents(m, changed, id) && changed.Keys == m.Keys
    requires (changed[id].parentId == 0 || changed[id].parentId in m) && !Below(m, changed[id].parentId, id)
    ensures Rooted(changed)
  {
    var p := changed[id].parentId;
    var d := KnownHasDepth(m, p);
    assert !Meets(m, p, id, d);
    DepthAvoids(m, changed, id, p, d);
    forall k | k in changed
      ensures HasDepth(changed, k)
    {
      var e := KnownHasDepth(m, k);
      assert DepthIs(changed, id, d + 1);
      DepthThrough(m, changed, id, k, e, d + 1);
    }
  }

  lemma ReparentBelowItself(m: Channels, changed: Channels, id: nat)
    requires 0 !in changed && id in changed && SameParents(m, changed, id) && Below(m, changed[id].parentId, id)
    ensures !Rooted(changed)
  {
    var p := changed[id].parentId;
    if Rooted(changed) {
      var n: nat :| Meets(m, p, id, n);
      var e := KnownHasDepth(changed, id);
      var above := ClimbToMet(m, changed, id, p, n, e - 1);
      DepthUnique(changed, id, above, e);
    }
  }

  /**
   A move that is accepted keeps every list of siblings a chain, but it leaves a
   forest exactly if the new parent is not the channel itself or below it.
   */
  lemma MoveKeepsForest(m: Channels, id: nat, p: nat, after: nat)
    requires WellFormed(m) && id in m && MoveAccepted(m, id, p, after)
    ensures WellFormed(MoveStep(m, id, p, after)) <==> !Below(m, p, id)
  {
    MoveParents(m, id, p, after);
    MoveIsDetachCreate(m, id, p, after);
    ReplaceOrders(m, m[id].(parentId := p, orderAfterId := after));
    if Below(m, p, id) {
      ReparentBelowItself(m, MoveStep(m, id, p, after), id);
    } else {
      ReparentRoots(m, MoveStep(m, id, p, after), id);
    }
  }

  /** A channel and its child. */
  function ParentAndChild(a: Attributes): Channels {
    map[1 := Channel(1, 0, 0, a, false), 2 := Channel(2, 1, 0, a, false)]
  }

  lemma ParentAndChildAreForest(a: Attributes)
    ensures WellFormed(ParentAndChild(a))
  {
    var m := ParentAndChild(a);
    assert DepthIs(m, 0, 0);
    assert DepthIs(m, 1, 1);
    assert DepthIs(m, 2, 2);
    forall p: nat
      ensures HasChain(m, p)
    {
      var s := if p == 0 then [1] else if p == 1 then [2] else [];
      assert forall i :: 0 <= i < |s| ==> LinkAt(m, p, s, i);
      assert IsChain(m, p, s);
    }
  }

  /** A move the store accepts although it turns a channel and its child into a cycle. */
  lemma MoveCanMakeACycle(a: Attributes)
    ensures var m := ParentAndChild(a);
            WellFormed(m) && MoveAccepted(m, 1, 2, 0) && !WellFormed(MoveStep(m, 1, 2, 0))
  {
    var m := ParentAndChild(a);
    ParentAndChildAreForest(a);
    assert Meets(m, 1, 1, 0);
    assert Meets(m, 2, 1, 1);
    MoveKeepsForest(m, 1, 2, 0);
  }

  /** Removing a channel that has a child leaves the child without a parent. */
  lemma RemoveCanOrphan(a: Attributes)
    ensures var m := ParentAndChild(a); WellFormed(m) && !WellFormed(RemoveStep(m, 1))
  {
    ParentAndChildAreForest(a);
    assert Child(ParentAndChild(a), 1, 2);
    RemoveKeepsForest(ParentAndChild(a), 1);
  }

  // ---------------------------------------------------------------- creating a channel that is known

  /** A channel comes after `after` under `p`. */
  ghost predicate HasFollower(m: Channels, p: nat, after: nat) {
    exists k :: Child(m, p, k) && m[k].orderAfterId == after
  }

  /**
   A known channel is overwritten without relinking, which is right if its place
   does not change, or if it moves from the end of one list to the end of another.
   */
  ghost predicate OverwriteFits(m: Channels, c: Channel)
    requires c.id in m
  {
    || SameLinks(c, m[c.id])
    || (&& c.parentId != m[c.id].parentId && PlaceExists(m, c.parentId, c.orderAfterId) && !Below(m, c.parentId, c.id)
        && !HasFollower(m, m[c.id].parentId, c.id) && !HasFollower(m, c.parentId, c.orderAfterId))
  }

  lemma OverwriteInPlace(m: Channels, c: Channel)
    requires WellFormed(m) && c.id in m && SameLinks(c, m[c.id])
    ensures WellFormed(m[c.id := c])
  {
    var n := m[c.id := c];
    forall q: nat
      ensures HasChain(n, q)
    {
      assert HasChain(m, q);
      var s :| IsChain(m, q, s);
      ChainKept(m, n, q, s);
    }
    forall k | k in n
      ensures HasDepth(n, k)
    {
      var d := KnownHasDepth(m, k);
      SameDepth(m, n, k, d);
    }
  }

  lemma {:induction false} SameDepth(m: Channels, n: Channels, k: nat, d: nat)
    requires DepthIs(m, k, d) && forall x :: x in m ==> x in n && n[x].parentId == m[x].parentId
    ensures DepthIs(n, k, d)
    decreases d
  {
    if d > 0 {
      SameDepth(m, n, m[k].parentId, d - 1);
    }
  }

  /** Where nothing follows either place, overwriting is moving. */
  lemma OverwriteIsMove(m: Channels, c: Channel)
    requires Keyed(m) && c.id in m && c.parentId != m[c.id].parentId
    requires !HasFollower(m, m[c.id].parentId, c.id) && !HasFollower(m, c.parentId, c.orderAfterId)
    ensures m[c.id := c] == CreateStep(Detach(m, c.id), c)
  {
    var p := m[c.id].parentId;
    assert forall k :: k in m && Follows(m, p, c.id, c.id, k) ==> Child(m, p, k);
    assert Followers(m, p, c.id, c.id) == {};
    var detached := m - {c.id};
    assert Detach(m, c.id) == detached;
    assert forall k :: k in detached && Follows(detached, c.parentId, c.orderAfterId, c.id, k) ==> Child(m, c.parentId, k);
    assert Followers(detached, c.parentId, c.orderAfterId, c.id) == {};
  }

  lemma OverwriteAtEnds(m: Channels, c: Channel)
    requires WellFormed(m) && c.id in m && OverwriteFits(m, c) && !SameLinks(c, m[c.id])
    ensures WellFormed(m[c.id := c])
  {
    OverwriteIsMove(m, c);
    ReplaceOrders(m, c);
    ReparentRoots(m, m[c.id := c], c.id);
  }

  /** Within one list, a chain of all its channels leaves each of them where it was. */
  lemma {:induction false} SameListAgrees(m: Channels, n: Channels, id: nat, p: nat, s: seq<nat>, t: seq<nat>, x: nat)
    requires Keyed(m) && Keyed(n) && IsChain(m, p, s) && IsChain(n, p, t)
    requires forall k :: k != id ==> (k in m <==> k in n) && (k in m ==> SameLinks(n[k], m[k]))
    requires x < |s| && x < |t| && id !in s[..x] && id !in t[..x]
    ensures s[..x] == t[..x] && (s[x] == id <==> t[x] == id)
  {
    if x > 0 {
      SameListAgrees(m, n, id, p, s, t, x - 1);
      assert s[x - 1] in s[..x] && t[x - 1] in t[..x];
      SameListNext(m, n, id, p, s, t, x - 1);
      assert s[..x] == s[..x - 1] + [s[x - 1]] && t[..x] == t[..x - 1] + [t[x - 1]];
    }
    if s[x] != id || t[x] != id {
      SameListNext(m, n, id, p, s, t, x);
    }
  }

  /** After the same beginning comes the same channel, unless both are the changed one. */
  lemma SameListNext(m: Channels, n: Channels, id: nat, p: nat, s: seq<nat>, t: seq<nat>, x: nat)
    requires Keyed(m) && Keyed(n) && IsChain(m, p, s) && IsChain(n, p, t)
    requires forall k :: k != id ==> (k in m <==> k in n) && (k in m ==> SameLinks(n[k], m[k]))
    requires x < |s| && x < |t| && s[..x] == t[..x] && (s[x] != id || t[x] != id)
    ensures s[x] == t[x]
  {
    assert x > 0 ==> s[..x][x - 1] == t[..x][x - 1];
    assert LinkAt(m, p, s, x) && LinkAt(n, p, t, x);
    if t[x] != id {
      assert Child(m, p, t[x]);
      var y :| 0 <= y < |s| && s[y] == t[x];
      assert LinkAt(m, p, s, y);
      BeforeIsInjective(m, p, s, y, x);
    } else {
      assert Child(n, p, s[x]);
      var y :| 0 <= y < |t| && t[y] == s[x];
      assert LinkAt(n, p, t, y);
      BeforeIsInjective(n, p, t, y, x);
    }
  }

  lemma OverwriteWithinList(m: Channels, c: Channel)
    requires WellFormed(m) && c.id in m && c.parentId == m[c.id].parentId && WellFormed(m[c.id := c])
    ensures SameLinks(c, m[c.id])
  {
    var n, p := m[c.id := c], c.parentId;
    assert HasChain(m, p) && HasChain(n, p);
    var s :| IsChain(m, p, s);
    var t :| IsChain(n, p, t);
    assert Child(m, p, c.id) && Child(n, p, c.id);
    var i :| 0 <= i < |s| && s[i] == c.id;
    var j :| 0 <= j < |t| && t[j] == c.id;
    var x := if i <= j then i else j;
    SameListAgrees(m, n, c.id, p, s, t, x);
    assert LinkAt(m, p, s, i) && LinkAt(n, p, t, j);
    assert i == j;
    assert x > 0 ==> s[..x][x - 1] == t[..x][x - 1];
  }

  lemma OverwriteAcrossLists(m: Channels, c: Channel)
    requires WellFormed(m) && c.id in m && c.parentId != m[c.id].parentId && WellFormed(m[c.id := c])
    ensures OverwriteFits(m, c)
  {
    var n, p := m[c.id := c], m[c.id].parentId;
    if Below(m, c.parentId, c.id) {
      ReparentBelowItself(m, n, c.id);
    }
    var d := KnownHasDepth(n, c.id);
    assert DepthIs(n, c.parentId, d - 1);
    OverwrittenPlace(m, c);
    if HasFollower(m, p, c.id) {
      NotAfterItself(m, c.id);
      LeftBehind(m, c);
    }
  }

  /** In the new list, the place exists and nothing else claims it. */
  lemma OverwrittenPlace(m: Channels, c: Channel)
    requires Keyed(m) && c.id in m && c.parentId != m[c.id].parentId && HasChain(m[c.id := c], c.parentId)
    ensures c.orderAfterId == 0 || Child(m, c.parentId, c.orderAfterId)
    ensures !HasFollower(m, c.parentId, c.orderAfterId)
  {
    var n := m[c.id := c];
    var t :| IsChain(n, c.parentId, t);
    assert Child(n, c.parentId, c.id);
    var j :| 0 <= j < |t| && t[j] == c.id;
    assert LinkAt(n, c.parentId, t, j);
    if j > 0 {
      assert LinkAt(n, c.parentId, t, j - 1);
      assert t[j - 1] != t[j];
    }
    if k :| Child(m, c.parentId, k) && m[k].orderAfterId == c.orderAfterId {
      assert Child(n, c.parentId, k);
      var y :| 0 <= y < |t| && t[y] == k;
      assert LinkAt(n, c.parentId, t, y);
      BeforeIsInjective(n, c.parentId, t, y, j);
    }
  }

  /** In a chain, what a channel comes after is its sibling. */
  lemma PredecessorIsSibling(m: Channels, p: nat, k: nat)
    requires HasChain(m, p) && Child(m, p, k) && m[k].orderAfterId != 0
    ensures Child(m, p, m[k].orderAfterId)
  {
    var s :| IsChain(m, p, s);
    var i :| 0 <= i < |s| && s[i] == k;
    assert LinkAt(m, p, s, i);
    assert LinkAt(m, p, s, i - 1);
  }

  /** A channel that followed the overwritten one is left without a predecessor in its list. */
  lemma LeftBehind(m: Channels, c: Channel)
    requires Keyed(m) && c.id in m && c.parentId != m[c.id].parentId && HasFollower(m, m[c.id].parentId, c.id)
    requires m[c.id].orderAfterId != c.id
    ensures !HasChain(m[c.id := c], m[c.id].parentId)
  {
    var n, p := m[c.id := c], m[c.id].parentId;
    var k :| Child(m, p, k) && m[k].orderAfterId == c.id;
    if HasChain(n, p) {
      PredecessorIsSibling(n, p, k);
    }
  }

  /** No channel of a forest comes after itself. */
  lemma NotAfterItself(m: Channels, id: nat)
    requires Keyed(m) && Ordered(m) && id in m
    ensures m[id].orderAfterId != id
  {
    var p := m[id].parentId;
    assert HasChain(m, p);
    var s :| IsChain(m, p, s);
    assert Child(m, p, id);
    var i :| 0 <= i < |s| && s[i] == id;
    assert LinkAt(m, p, s, i);
  }

  /** When a creation keeps the forest. */
  ghost predicate CreationFits(m: Channels, c: Channel) {
    if c.id in m then OverwriteFits(m, c) else PlaceExists(m, c.parentId, c.orderAfterId)
  }

  /**
   Creating a channel, new or known, leaves a rooted ordered forest exactly if a
   new one's place exists, and a known one stays in place or goes from the end
   of one list to the end of another.
   */
  lemma CreateKeepsForest(m: Channels, c: Channel)
    requires WellFormed(m) && c.id != 0
    ensures WellFormed(CreateStep(m, c)) <==> CreationFits(m, c)
  {
    if c.id !in m {
      CreateFreshKeepsForest(m, c);
    } else {
      if SameLinks(c, m[c.id]) {
        OverwriteInPlace(m, c);
      } else if OverwriteFits(m, c) {
        OverwriteAtEnds(m, c);
      }
      if WellFormed(m[c.id := c]) {
        if c.parentId == m[c.id].parentId {
          OverwriteWithinList(m, c);
        } else {
          OverwriteAcrossLists(m, c);
        }
      }
    }
  }

  /** A known channel created again at an existing place of its own list breaks the forest. */
  lemma CreateCanBreakALink(a: Attributes)
    ensures var m := map[1 := Channel(1, 0, 0, a, false), 2 := Channel(2, 0, 1, a, false)];
            var c := Channel(1, 0, 2, a, false);
            WellFormed(m) && PlaceExists(m, c.parentId, c.orderAfterId) && !WellFormed(CreateStep(m, c))
  {
    var m := map[1 := Channel(1, 0, 0, a, false), 2 := Channel(2, 0, 1, a, false)];
    assert DepthIs(m, 0, 0);
    assert DepthIs(m, 1, 1);
    assert DepthIs(m, 2, 1);
    forall p: nat
      ensures HasChain(m, p)
    {
      var s := if p == 0 then [1, 2] else [];
      assert forall i :: 0 <= i < |s| ==> LinkAt(m, p, s, i);
      assert IsChain(m, p, s);
    }
    CreateKeepsForest(m, Channel(1, 0, 2, a, false));
  }

  // ---------------------------------------------------------------- runs

  datatype Change = Create(channel: Channel) | Remove(id: nat) | Move(id: nat, parentId: nat, orderAfterId: nat)

  /** Unknown channels are neither removed nor moved, and a move that throws changes nothing. */
  function ChangeStep(m: Channels, change: Change): Channels {
    match change
    case Create(c) => CreateStep(m, c)
    case Remove(id) => if id in m then RemoveStep(m, id) else m
    case Move(id, p, after) => if id in m && MoveAccepted(m, id, p, after) then MoveStep(m, id, p, after) else m
  }

  /** What a server may ask for: channels at places that fit, only leaves removed, no cycles. */
  ghost predicate Proper(m: Channels, change: Change) {
    match change
    case Create(c) => c.id != 0 && CreationFits(m, c)
    case Remove(id) => forall k :: !Child(m, id, k)
    case Move(id, p, after) => !Below(m, p, id)
  }

  function RunChanges(m: Channels, changes: seq<Change>): Channels
    decreases |changes|
  {
    if changes == [] then m else ChangeStep(RunChanges(m, changes[..|changes| - 1]), changes[|changes| - 1])
  }

  ghost predicate ProperRun(m: Channels, changes: seq<Change>) {
    forall i :: 0 <= i < |changes| ==> Proper(RunChanges(m, changes[..i]), changes[i])
  }

  /** Every run of proper changes leads from a rooted ordered forest to another. */
  lemma {:induction false} EveryRunKeepsForest(m: Channels, changes: seq<Change>)
    requires WellFormed(m) && ProperRun(m, changes)
    ensures WellFormed(RunChanges(m, changes))
    decreases |changes|
  {
    if changes != [] {
      var earlier, last := changes[..|changes| - 1], changes[|changes| - 1];
      assert forall i :: 0 <= i < |earlier| ==> earlier[i] == changes[i] && earlier[..i] == changes[..i];
      EveryRunKeepsForest(m, earlier);
      ChangeKeepsForest(RunChanges(m, earlier), last);
    }
  }

  lemma ChangeKeepsForest(m: Channels, change: Change)
    requires WellFormed(m) && Proper(m, change)
    ensures WellFormed(ChangeStep(m, change))
  {
    match change
    case Create(c) =>
      CreateKeepsForest(m, c);
    case Remove(id) =>
      if id in m {
        RemoveKeepsForest(m, id);
      }
    case Move(id, p, after) =>
      if id in m && MoveAccepted(m, id, p, after) {
        MoveKeepsForest(m, id, p, after);
      }
  }
}
