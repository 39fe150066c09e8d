/** The client's channels: changing them in place, and listing them as a tree. */
module ChannelStores {
  import opened Basics
  import opened ChannelLinks
  import opened ChannelForest

  datatype Error =
    | OrderedAfterItself | UnknownNewParent | InvalidPredecessor
    | UnknownParent | SamePosition | BrokenChain | HierarchyCycle

  // ---------------------------------------------------------------- trees

  datatype Node = Node(id: nat, children: seq<Node>)

  /** A line of the channel list. */
  datatype Entry = Entry(id: nat, depth: nat)

  ghost function Ids(nodes: seq<Node>): (ids: seq<nat>)
    ensures |ids| == |nodes|
  {
    if nodes == [] then [] else Ids(nodes[..|nodes| - 1]) + [nodes[|nodes| - 1].id]
  }

  /** The nodes are the tree below a parent: its chain of children, each with the tree below it. */
  ghost predicate Stands(m: Channels, p: nat, nodes: seq<Node>)
    decreases nodes
  {
    IsChain(m, p, Ids(nodes)) && StandBelow(m, nodes)
  }

  ghost predicate StandBelow(m: Channels, nodes: seq<Node>)
    decreases nodes, 0
  {
    forall i :: 0 <= i < |nodes| ==> Stands(m, nodes[i].id, nodes[i].children)
  }

  /** Depth first: parents before their children, siblings in order. */
  ghost function Flatten(nodes: seq<Node>, depth: nat): seq<Entry> {
    if nodes == [] then []
    else
      var last := nodes[|nodes| - 1];
      Flatten(nodes[..|nodes| - 1], depth) + [Entry(last.id, depth)] + Flatten(last.children, depth + 1)
  }

  lemma {:induction false} IdsAt(nodes: seq<Node>, i: nat)
    requires i < |nodes|
    ensures Ids(nodes)[i] == nodes[i].id
  {
    if i < |nodes| - 1 {
      IdsAt(nodes[..|nodes| - 1], i);
    }
  }

  /** Links stand for one tree only. */
  lemma {:induction false} StandsUnique(m: Channels, p: nat, a: seq<Node>, b: seq<Node>)
    requires Keyed(m) && Stands(m, p, a) && Stands(m, p, b)
    ensures a == b
    decreases a
  {
    ChainUnique(m, p, Ids(a), Ids(b));
    forall i | 0 <= i < |a|
      ensures a[i] == b[i]
    {
      IdsAt(a, i);
      IdsAt(b, i);
      StandsUnique(m, a[i].id, a[i].children, b[i].children);
    }
  }

  // ---------------------------------------------------------------- listing

  datatype Listing = Listing(visited: set<nat>, entries: seq<Entry>)

  ghost predicate Closed(m: Channels, visited: set<nat>) {
    forall v :: v in visited ==> v in m && (m[v].parentId == 0 || m[v].parentId in visited)
  }

  ghost predicate NoChildVisited(m: Channels, p: nat, visited: set<nat>) {
    forall k :: Child(m, p, k) ==> k !in visited
  }

  predicate OrderError(e: Error) {
    e == SamePosition || e == BrokenChain
  }

  ghost function Listed(entries: seq<Entry>): set<nat> {
    if entries == [] then {} else Listed(entries[..|entries| - 1]) + {entries[|entries| - 1].id}
  }

  /** Every visited channel is listed once, at the depth it has. */
  ghost predicate Consistent(m: Channels, l: Listing) {
    && Listed(l.entries) == l.visited && |l.entries| == |l.visited|
    && forall i :: 0 <= i < |l.entries| ==> DepthIs(m, l.entries[i].id, l.entries[i].depth + 1)
  }

  /** Everything below a channel has been visited, in order. */
  ghost predicate Explored(m: Channels, visited: set<nat>, v: nat) {
    HasChain(m, v) && forall k :: Child(m, v, k) ==> k in visited
  }

  ghost predicate Added(m: Channels, roots: seq<nat>, before: set<nat>, after: set<nat>, v: nat) {
    && v in m && Explored(m, after, v)
    && (v in roots || (m[v].parentId in after && m[v].parentId !in before))
  }

  /** What has been added are the roots and what lies below them, completely. */
  ghost predicate Grown(m: Channels, roots: seq<nat>, before: set<nat>, after: set<nat>) {
    before <= after && forall v :: v in after && v !in before ==> Added(m, roots, before, after, v)
  }

  /** A channel and what lies below it. */
  lemma GrownByChild(m: Channels, id: nat, below: seq<Node>, before: set<nat>, after: set<nat>)
    requires id in m && id !in before && Stands(m, id, below)
    requires Grown(m, Ids(below), before + {id}, after) && Explored(m, after, id)
    ensures Grown(m, [id], before, after) && id in after
  {
    forall v | v in after && v !in before
      ensures Added(m, [id], before, after, v)
    {
      if v != id {
        assert Added(m, Ids(below), before + {id}, after, v);
        if v in Ids(below) {
          var i :| 0 <= i < |Ids(below)| && Ids(below)[i] == v;
          assert LinkAt(m, id, Ids(below), i);
        }
      }
    }
  }

  /** What listing the children of a parent starts from. */
  ghost predicate Ready(m: Channels, p: nat, depth: nat, l: Listing) {
    Closed(m, l.visited) && Consistent(m, l) && DepthIs(m, p, depth) && (p == 0 || p in l.visited)
  }

  /** The tree below a parent has been listed. */
  ghost predicate ListedBelow(m: Channels, p: nat, depth: nat, before: Listing, after: Listing, nodes: seq<Node>) {
    && Closed(m, after.visited) && Consistent(m, after)
    && Grown(m, Ids(nodes), before.visited, after.visited) && Explored(m, after.visited, p)
    && Stands(m, p, nodes) && after.entries == before.entries + Flatten(nodes, depth)
  }

  /** A channel and the tree below it have been listed. */
  ghost predicate ListedChild(m: Channels, id: nat, depth: nat, before: Listing, after: Listing, below: seq<Node>) {
    && Closed(m, after.visited) && Consistent(m, after)
    && Grown(m, [id], before.visited, after.visited) && id in after.visited
    && Stands(m, id, below) && after.entries == before.entries + ([Entry(id, depth)] + Flatten(below, depth + 1))
  }

  /** The first `i` children of a parent, with the trees below them, have been listed. */
  ghost predicate Progress(m: Channels, p: nat, depth: nat, before: Listing, current: Listing, ordered: seq<nat>, i: nat, nodes: seq<Node>) {
    && IsChain(m, p, ordered) && i <= |ordered|
    && Ready(m, p, depth, current)
    && Grown(m, ordered[..i], before.visited, current.visited)
    && (forall j :: 0 <= j < i ==> ordered[j] in current.visited)
    && (forall j :: i <= j < |ordered| ==> ordered[j] !in current.visited)
    && Ids(nodes) == ordered[..i] && StandBelow(m, nodes)
    && current.entries == before.entries + Flatten(nodes, depth)
  }

  lemma NothingListed(m: Channels, p: nat, depth: nat, l: Listing, ordered: seq<nat>)
    requires Ready(m, p, depth, l) && IsChain(m, p, ordered) && NoChildVisited(m, p, l.visited)
    ensures Progress(m, p, depth, l, l, ordered, 0, [])
  {
    assert l.entries + [] == l.entries;
    forall j | 0 <= j < |ordered|
      ensures ordered[j] !in l.visited
    {
      assert LinkAt(m, p, ordered, j);
    }
  }

  lemma ChildIsReady(m: Channels, p: nat, depth: nat, before: Listing, current: Listing, ordered: seq<nat>, i: nat, nodes: seq<Node>)
    returns (unvisited: set<nat>)
    requires Progress(m, p, depth, before, current, ordered, i, nodes) && i < |ordered|
    ensures Child(m, p, ordered[i]) && ordered[i] !in current.visited
    ensures unvisited == m.Keys - current.visited && |unvisited| <= |m.Keys - before.visited|
  {
    unvisited := m.Keys - current.visited;
    assert LinkAt(m, p, ordered, i);
    SubsetSize(unvisited, m.Keys - before.visited);
  }

  lemma ChildEntered(m: Channels, p: nat, id: nat, depth: nat, l: Listing)
    requires Keyed(m) && Ready(m, p, depth, l) && Child(m, p, id) && id !in l.visited
    ensures Ready(m, id, depth + 1, Listing(l.visited + {id}, l.entries + [Entry(id, depth)]))
    ensures NoChildVisited(m, id, l.visited + {id})
    ensures |m.Keys - (l.visited + {id})| < |m.Keys - l.visited|
  {
  }

  lemma ChildComplete(m: Channels, id: nat, depth: nat, before: Listing, after: Listing, below: seq<Node>)
    requires id in m && id !in before.visited
    requires ListedBelow(m, id, depth + 1, Listing(before.visited + {id}, before.entries + [Entry(id, depth)]), after, below)
    ensures ListedChild(m, id, depth, before, after, below)
  {
    GrownByChild(m, id, below, before.visited, after.visited);
    var rest := Flatten(below, depth + 1);
    assert before.entries + [Entry(id, depth)] + rest == before.entries + ([Entry(id, depth)] + rest);
  }

  lemma {:induction false} ChildListed(m: Channels, p: nat, depth: nat, before: Listing, current: Listing, next: Listing,
                    ordered: seq<nat>, i: nat, nodes: seq<Node>, below: seq<Node>)
    requires Keyed(m) && Progress(m, p, depth, before, current, ordered, i, nodes) && i < |ordered|
    requires ListedChild(m, ordered[i], depth, current, next, below)
    ensures Progress(m, p, depth, before, next, ordered, i + 1, nodes + [Node(ordered[i], below)])
  {
    var node := Node(ordered[i], below);
    assert ordered[..i + 1] == ordered[..i] + [ordered[i]];
    forall j | i < j < |ordered|
      ensures ordered[j] !in next.visited
    {
      assert LinkAt(m, p, ordered, j);
    }
    EntriesJoin(before.entries, Flatten(nodes, depth), [Entry(node.id, depth)], Flatten(below, depth + 1));
  }

  lemma EntriesJoin(a: seq<Entry>, b: seq<Entry>, c: seq<Entry>, d: seq<Entry>)
    ensures a + b + (c + d) == a + (b + c + d)
  {
  }

  lemma AllListed(m: Channels, p: nat, depth: nat, before: Listing, current: Listing, ordered: seq<nat>, nodes: seq<Node>)
    requires Progress(m, p, depth, before, current, ordered, |ordered|, nodes)
    ensures ListedBelow(m, p, depth, before, current, nodes)
  {
    assert ordered[..|ordered|] == ordered;
  }

  function Given<T>(value: Option<T>, otherwise: T): T {
    if value.Some? then value.value else otherwise
  }

  /** What an edit gives of a channel's attributes; what it leaves open stays as it is. */
  datatype Edits = Edits(name: Option<string>, permanent: Option<bool>, semiPermanent: Option<bool>, defaultChannel: Option<bool>,
                         passwordProtected: Option<bool>, codec: Option<u8>, codecIsUnencrypted: Option<bool>)
  {
    function Applied(a: Attributes): Attributes {
      Attributes(Given(name, a.name), Given(permanent, a.permanent), Given(semiPermanent, a.semiPermanent),
                 Given(defaultChannel, a.defaultChannel), Given(passwordProtected, a.passwordProtected),
                 Given(codec, a.codec), Given(codecIsUnencrypted, a.codecIsUnencrypted))
    }
  }

  /** An edit sets exactly the attributes it gives. */
  lemma EditSetsWhatItGives(edits: Edits, a: Attributes)
    ensures var b := edits.Applied(a);
            && b.name == (match edits.name case Some(name) => name case None => a.name)
            && b.permanent == (match edits.permanent case Some(flag) => flag case None => a.permanent)
            && b.semiPermanent == (match edits.semiPermanent case Some(flag) => flag case None => a.semiPermanent)
            && b.defaultChannel == (match edits.defaultChannel case Some(flag) => flag case None => a.defaultChannel)
            && b.passwordProtected == (match edits.passwordProtected case Some(flag) => flag case None => a.passwordProtected)
            && b.codec == (match edits.codec case Some(codec) => codec case None => a.codec)
            && b.codecIsUnencrypted == (match edits.codecIsUnencrypted case Some(flag) => flag case None => a.codecIsUnencrypted)
  {
  }

  lemma MoveKeepsAttributes(m: Channels, id: nat, p: nat, after: nat)
    requires id in m
    ensures id in MoveStep(m, id, p, after) && MoveStep(m, id, p, after)[id].attributes == m[id].attributes
  {
  }

  function Unlinked(channel: Channel, p: nat, id: nat, predecessor: nat): Channel {
    if channel.parentId == p && channel.orderAfterId == id then channel.(orderAfterId := predecessor) else channel
  }

  class ChannelStore {
    var channels: Channels
    var subscribed: set<nat>

    /** Flags agree with the set of subscriptions. */
    ghost predicate Valid()
      reads this
    {
      Keyed(channels) && forall k :: k in channels ==> (channels[k].subscribed <==> k in subscribed)
    }

    constructor ()
      ensures Valid() && channels == map[] && subscribed == {}
    {
      channels, subscribed := map[], {};
    }

    method Upsert(channel: Channel)
      requires Valid() && channel.id != 0
      modifies this`channels
      ensures Valid() && channels == old(channels)[channel.id := channel.(subscribed := channel.id in subscribed)]
    {
      channels := channels[channel.id := channel.(subscribed := channel.id in subscribed)];
    }

    /** Relink the first channel in the order of identifiers that comes after `after`. */
    method RelinkFollower(p: nat, after: nat, except: nat, target: nat)
      modifies this`channels
      ensures channels == RelinkFirst(old(channels), p, after, except, target)
    {
      ghost var followers := Followers(channels, p, after, except);
      var remaining := channels.Keys;
      while remaining != {}
        invariant followers <= remaining <= channels.Keys && channels == old(channels)
      {
        var id := Least(remaining);
        if Follows(channels, p, after, except, id) {
          assert id in followers;
          channels := Relinked(channels, id, target);
          return;
        }
        remaining := remaining - {id};
      }
    }

    /** A new channel is inserted among its siblings; a known one is only overwritten. */
    method ApplyCreated(channel: Channel)
      requires Valid() && channel.id != 0
      modifies this`channels
      ensures Valid() && channels == CreateStep(old(channels), channel.(subscribed := channel.id in subscribed))
    {
      if channel.id !in channels {
        RelinkFollower(channel.parentId, channel.orderAfterId, channel.id, channel.id);
      }
      Upsert(channel);
    }

    method Move(channelId: nat, parentId: nat, orderAfterId: nat) returns (error: Option<Error>)
      requires Valid()
      modifies this`channels
      ensures Valid()
      ensures error.Some? <==> channelId in old(channels) && !MoveAccepted(old(channels), channelId, parentId, orderAfterId)
      ensures channels == ChangeStep(old(channels), ChannelForest.Move(channelId, parentId, orderAfterId))
      ensures error.Some? ==> error.value == (if orderAfterId == channelId then OrderedAfterItself
                                              else if parentId != 0 && parentId !in channels then UnknownNewParent
                                              else InvalidPredecessor)
    {
      if channelId !in channels {
        return None;
      }
      if orderAfterId == channelId {
        return Some(OrderedAfterItself);
      }
      if parentId != 0 && parentId !in channels {
        return Some(UnknownNewParent);
      }
      if orderAfterId != 0 && (orderAfterId !in channels || channels[orderAfterId].parentId != parentId) {
        return Some(InvalidPredecessor);
      }
      Relocate(channelId, parentId, orderAfterId);
      return None;
    }

    /** An edit moves the channel if it names a place; what it leaves open stays as it is. A refused move ends it. */
    method ApplyEdited(id: nat, parentId: Option<nat>, orderAfterId: Option<nat>, edits: Edits) returns (error: Option<Error>)
      requires Valid()
      modifies this`channels
      ensures Valid()
      ensures id !in old(channels) ==> error.None? && channels == old(channels)
      ensures id in old(channels) ==>
                var before := old(channels)[id];
                var moves := parentId.Some? || orderAfterId.Some?;
                var p, after := Given(parentId, before.parentId), Given(orderAfterId, before.orderAfterId);
                var moved := if moves then ChangeStep(old(channels), ChannelForest.Move(id, p, after)) else old(channels);
                && (error.Some? <==> moves && !MoveAccepted(old(channels), id, p, after))
                && id in moved
                && channels == if error.Some? then old(channels) else moved[id := moved[id].(attributes := edits.Applied(before.attributes))]
    {
      if id !in channels {
        return None;
      }
      if parentId.Some? || orderAfterId.Some? {
        error := Move(id, Given(parentId, channels[id].parentId), Given(orderAfterId, channels[id].orderAfterId));
        if error.Some? {
          return;
        }
        MoveKeepsAttributes(old(channels), id, Given(parentId, old(channels)[id].parentId), Given(orderAfterId, old(channels)[id].orderAfterId));
      }
      channels := channels[id := channels[id].(attributes := edits.Applied(channels[id].attributes))];
      return None;
    }

    /** Close the gap the channel leaves, open one where it goes, and put it there. */
    method Relocate(channelId: nat, parentId: nat, orderAfterId: nat)
      requires Valid() && channelId in channels
      modifies this`channels
      ensures Valid() && channels == MoveStep(old(channels), channelId, parentId, orderAfterId)
    {
      var oldParentId, oldPredecessorId := channels[channelId].parentId, channels[channelId].orderAfterId;
      RelinkFollower(oldParentId, channelId, channelId, oldPredecessorId);
      RelinkFollower(parentId, orderAfterId, channelId, channelId);
      channels := channels[channelId := channels[channelId].(parentId := parentId, orderAfterId := orderAfterId)];
    }

    method Remove(channelId: nat)
      requires Valid()
      modifies this
      ensures Valid() && subscribed == old(subscribed) - {channelId}
      ensures channels == ChangeStep(old(channels), ChannelForest.Remove(channelId))
    {
      if channelId in channels {
        UnlinkAll(channelId);
        channels := channels - {channelId};
      }
      subscribed := subscribed - {channelId};
    }

    /** Link every channel that came after the removed one to its predecessor. */
    method UnlinkAll(channelId: nat)
      requires channelId in channels
      modifies this`channels
      ensures channels.Keys == old(channels).Keys && channels - {channelId} == RemoveStep(old(channels), channelId)
    {
      var parentId, predecessorId := channels[channelId].parentId, channels[channelId].orderAfterId;
      var remaining := channels.Keys;
      while remaining != {}
        invariant channels.Keys == old(channels).Keys
        invariant forall k :: k in remaining ==> k in channels && channels[k] == old(channels)[k]
        invariant forall k :: k in channels && k !in remaining ==>
                                channels[k] == Unlinked(old(channels)[k], parentId, channelId, predecessorId)
      {
        var id := Least(remaining);
        channels := channels[id := Unlinked(channels[id], parentId, channelId, predecessorId)];
        remaining := remaining - {id};
      }
    }

    method SetSubscribed(channelId: nat, on: bool)
      requires Valid()
      modifies this
      ensures Valid()
      ensures subscribed == if channelId == 0 then old(subscribed)
                            else if on then old(subscribed) + {channelId} else old(subscribed) - {channelId}
      ensures channels.Keys == old(channels).Keys
      ensures forall k :: k in channels ==> channels[k].(subscribed := old(channels)[k].subscribed) == old(channels)[k]
    {
      if channelId == 0 {
        return;
      }
      subscribed := if on then subscribed + {channelId} else subscribed - {channelId};
      if channelId in channels {
        channels := channels[channelId := channels[channelId].(subscribed := on)];
      }
    }

    /** A parent's children in order; refused exactly if they do not form one chain. */
    method OrderedChildren(parentId: nat) returns (r: Result<seq<nat>, Error>)
      requires Valid()
      ensures r.Ok? ==> IsChain(channels, parentId, r.value)
      ensures r.Err? ==> !HasChain(channels, parentId)
      ensures r.Err? ==> (r.error == SamePosition && Crowded(channels, parentId))
                         || (r.error == BrokenChain && DeadEnd(channels, parentId))
    {
      var children := Children(parentId);
      var ordered: seq<nat>, emitted: set<nat>, previous := [], {}, 0;
      while |ordered| < |children|
        invariant |ordered| <= |children|
        invariant Distinct(ordered) && Linked(channels, parentId, ordered)
        invariant forall k :: k in emitted <==> k in ordered
        invariant previous == Before(ordered, |ordered|)
      {
        var next := FindNext(children, emitted, previous);
        if next.Err? {
          NoNextNoChain(channels, parentId, children, ordered, emitted, next.error);
          WhyNoNext(channels, parentId, children, ordered, emitted, next.error);
          return Err(next.error);
        }
        LinkedGrows(channels, parentId, ordered, next.value);
        ordered := ordered + [next.value];
        emitted := emitted + {next.value};
        previous := next.value;
      }
      AllLinked(channels, parentId, children, ordered);
      return Ok(ordered);
    }

    /** The children of a parent in the order of their identifiers. */
    method Children(parentId: nat) returns (children: seq<nat>)
      ensures Distinct(children) && forall k :: k in children <==> Child(channels, parentId, k)
    {
      children := [];
      var remaining := channels.Keys;
      while remaining != {}
        invariant remaining <= channels.Keys && Distinct(children)
        invariant forall k :: k in children <==> k !in remaining && Child(channels, parentId, k)
      {
        var id := Least(remaining);
        if channels[id].parentId == parentId {
          children := children + [id];
        }
        remaining := remaining - {id};
      }
    }

    /** The one child that comes after `previous`. */
    method FindNext(children: seq<nat>, emitted: set<nat>, previous: nat) returns (r: Result<nat, Error>)
      requires Distinct(children) && forall k :: k in children ==> k in channels
      ensures NextIs(channels, children, emitted, previous, r)
    {
      var next: Option<nat> := None;
      for i := 0 to |children|
        invariant next.Some? ==> Candidate(channels, children[..i], emitted, previous, next.value)
        invariant forall k: nat :: Candidate(channels, children[..i], emitted, previous, k) ==> next == Some(k)
      {
        var candidate := children[i];
        assert children[..i + 1] == children[..i] + [candidate];
        if candidate !in emitted && channels[candidate].orderAfterId == previous {
          if next.Some? {
            assert Candidate(channels, children, emitted, previous, next.value);
            assert Candidate(channels, children, emitted, previous, candidate);
            return Err(SamePosition);
          }
          next := Some(candidate);
        }
      }
      assert children[..|children|] == children;
      return if next.Some? then Ok(next.value) else Err(BrokenChain);
    }

    /**
     List what lies below a parent, depth first. A child is never met twice, so
     only an unordered list of siblings stops it.
     */
    method AppendTree(parentId: nat, depth: nat, listing: Listing) returns (r: Result<Listing, Error>, ghost nodes: seq<Node>)
      requires Valid() && Ready(channels, parentId, depth, listing)
      requires NoChildVisited(channels, parentId, listing.visited)
      ensures r.Err? ==> OrderError(r.error) && !Ordered(channels)
      ensures r.Ok? ==> ListedBelow(channels, parentId, depth, listing, r.value, nodes)
      decreases |channels.Keys - listing.visited|, 1
    {
      nodes := [];
      var children := OrderedChildren(parentId);
      if children.Err? {
        return Err(children.error), nodes;
      }
      var ordered, current := children.value, listing;
      NothingListed(channels, parentId, depth, listing, ordered);
      for i := 0 to |ordered|
        invariant Progress(channels, parentId, depth, listing, current, ordered, i, nodes)
      {
        ghost var unvisited := ChildIsReady(channels, parentId, depth, listing, current, ordered, i, nodes);
        var next, below := AppendChild(parentId, ordered[i], depth, current);
        if next.Err? {
          return Err(next.error), nodes;
        }
        ChildListed(channels, parentId, depth, listing, current, next.value, ordered, i, nodes, below);
        nodes := nodes + [Node(ordered[i], below)];
        current := next.value;
      }
      AllListed(channels, parentId, depth, listing, current, ordered, nodes);
      return Ok(current), nodes;
    }

    /** List a channel and what lies below it, unless it has been visited. */
    method AppendChild(ghost parentId: nat, id: nat, depth: nat, listing: Listing)
      returns (r: Result<Listing, Error>, ghost below: seq<Node>)
      requires Valid() && Ready(channels, parentId, depth, listing) && Child(channels, parentId, id)
      ensures r.Err? ==> (r.error == HierarchyCycle && id in listing.visited)
                         || (OrderError(r.error) && !Ordered(channels))
      ensures r.Ok? ==> id !in listing.visited && ListedChild(channels, id, depth, listing, r.value, below)
      decreases |channels.Keys - listing.visited|, 0
    {
      below := [];
      if id in listing.visited {
        return Err(HierarchyCycle), below;
      }
      var entered := Listing(listing.visited + {id}, listing.entries + [Entry(id, depth)]);
      ChildEntered(channels, parentId, id, depth, listing);
      r, below := AppendTree(id, depth + 1, entered);
      if r.Ok? {
        ChildComplete(channels, id, depth, listing, r.value, below);
      }
    }

    /** Every parent other than the root is a known channel. */
    method FindOrphan() returns (found: bool)
      ensures found <==> !ParentsKnown(channels)
    {
      var remaining := channels.Keys;
      while remaining != {}
        invariant remaining <= channels.Keys
        invariant forall k :: k in channels && k !in remaining ==> ParentKnown(channels, k)
      {
        var id := Least(remaining);
        if channels[id].parentId != 0 && channels[id].parentId !in channels {
          assert !ParentKnown(channels, id);
          return true;
        }
        remaining := remaining - {id};
      }
      return false;
    }

    /**
     The channels as a tree: every channel once, depth first in the order of its
     siblings, at its own depth. It succeeds exactly for a rooted ordered forest.
     */
    method Tree() returns (r: Result<seq<Entry>, Error>)
      requires Valid()
      ensures r.Ok? <==> WellFormed(channels)
      ensures r.Ok? ==> Consistent(channels, Listing(channels.Keys, r.value))
      ensures r.Ok? ==> exists nodes :: Stands(channels, 0, nodes) && r.value == Flatten(nodes, 0)
      ensures r == Err(UnknownParent) <==> !ParentsKnown(channels)
      ensures r.Err? && OrderError(r.error) ==> !Ordered(channels)
      ensures r == Err(HierarchyCycle) ==> !Rooted(channels)
      ensures r.Err? ==> r.error == UnknownParent || r.error == HierarchyCycle || OrderError(r.error)
    {
      var orphan := FindOrphan();
      if orphan {
        OrphanIsNotRooted(channels);
        return Err(UnknownParent);
      }
      ghost var nodes;
      r, nodes := ListFromRoot();
    }

    method ListFromRoot() returns (r: Result<seq<Entry>, Error>, ghost nodes: seq<Node>)
      requires Valid() && ParentsKnown(channels)
      ensures r.Ok? ==> WellFormed(channels) && Consistent(channels, Listing(channels.Keys, r.value))
                        && Stands(channels, 0, nodes) && r.value == Flatten(nodes, 0)
      ensures r.Err? ==> (OrderError(r.error) && !Ordered(channels)) || (r.error == HierarchyCycle && !Rooted(channels))
    {
      var listed;
      listed, nodes := AppendTree(0, 0, Listing({}, []));
      if listed.Err? {
        return Err(listed.error), nodes;
      }
      RootListed(channels, listed.value, nodes);
      if |listed.value.entries| != |channels| {
        return Err(HierarchyCycle), nodes;
      }
      return Ok(listed.value.entries), nodes;
    }
  }

  ghost predicate ParentKnown(m: Channels, k: nat)
    requires k in m
  {
    m[k].parentId == 0 || m[k].parentId in m
  }

  ghost predicate ParentsKnown(m: Channels) {
    forall k :: k in m ==> ParentKnown(m, k)
  }

  lemma OrphanIsNotRooted(m: Channels)
    requires Keyed(m) && !ParentsKnown(m)
    ensures !Rooted(m)
  {
    var k :| k in m && !ParentKnown(m, k);
    forall d: nat
      ensures !DepthIs(m, k, d)
    {
      assert d > 0 ==> !DepthIs(m, m[k].parentId, d - 1);
    }
    assert !HasDepth(m, k);
  }

  /** From the root, every channel with a depth has been visited. */
  lemma {:induction false} DepthIsVisited(m: Channels, visited: set<nat>, k: nat, d: nat)
    requires Explored(m, visited, 0) && forall v :: v in visited ==> Explored(m, visited, v)
    requires 0 !in m && k in m && DepthIs(m, k, d)
    ensures k in visited
    decreases d
  {
    assert Child(m, m[k].parentId, k);
    if d > 1 {
      DepthIsVisited(m, visited, m[k].parentId, d - 1);
    }
  }

  lemma {:induction false} ListedHas(entries: seq<Entry>, k: nat) returns (i: nat)
    requires k in Listed(entries)
    ensures i < |entries| && entries[i].id == k
  {
    i := |entries| - 1;
    if entries[i].id != k {
      i := ListedHas(entries[..i], k);
    }
  }

  /** What listing from the root shows about the whole store. */
  lemma {:induction false} RootListed(m: Channels, l: Listing, nodes: seq<Node>)
    requires Keyed(m) && ParentsKnown(m) && ListedBelow(m, 0, 0, Listing({}, []), l, nodes)
    ensures l.visited <= m.Keys && l.entries == Flatten(nodes, 0)
    ensures |l.entries| == |m| ==> l.visited == m.Keys && WellFormed(m)
    ensures |l.entries| != |m| ==> !Rooted(m)
  {
    assert [] + Flatten(nodes, 0) == Flatten(nodes, 0);
    forall v | v in l.visited
      ensures Explored(m, l.visited, v)
    {
      assert Added(m, Ids(nodes), {}, l.visited, v);
    }
    SubsetSize(l.visited, m.Keys);
    if l.visited == m.Keys {
      AllVisited(m, l);
    } else {
      var k :| k in m && k !in l.visited;
      if d: nat :| DepthIs(m, k, d) {
        DepthIsVisited(m, l.visited, k, d);
      }
    }
  }

  lemma AllVisited(m: Channels, l: Listing)
    requires Keyed(m) && ParentsKnown(m) && Consistent(m, l) && l.visited == m.Keys
    requires Explored(m, l.visited, 0) && forall v :: v in l.visited ==> Explored(m, l.visited, v)
    ensures WellFormed(m)
  {
    forall k | k in m
      ensures HasDepth(m, k)
    {
      var i := ListedHas(l.entries, k);
      assert DepthIs(m, k, l.entries[i].depth + 1);
    }
    forall q: nat
      ensures HasChain(m, q)
    {
      if q != 0 && q !in m {
        assert forall k :: Child(m, q, k) ==> ParentKnown(m, k);
        assert IsChain(m, q, []);
      }
    }
  }

  ghost predicate Candidate(m: Channels, children: seq<nat>, emitted: set<nat>, previous: nat, k: nat) {
    k in children && k in m && k !in emitted && m[k].orderAfterId == previous
  }

  ghost predicate NextIs(m: Channels, children: seq<nat>, emitted: set<nat>, previous: nat, r: Result<nat, Error>) {
    match r
    case Ok(k) => Candidate(m, children, emitted, previous, k)
    case Err(SamePosition) =>
      exists j, k :: j != k && Candidate(m, children, emitted, previous, j) && Candidate(m, children, emitted, previous, k)
    case Err(BrokenChain) => forall k :: !Candidate(m, children, emitted, previous, k)
    case _ => false
  }

  lemma LinkedGrows(m: Channels, p: nat, s: seq<nat>, k: nat)
    requires Distinct(s) && Linked(m, p, s) && k !in s && Child(m, p, k) && m[k].orderAfterId == Before(s, |s|)
    ensures Distinct(s + [k]) && Linked(m, p, s + [k])
  {
    var t := s + [k];
    forall i | 0 <= i < |t|
      ensures LinkAt(m, p, t, i)
    {
      if i < |s| {
        assert LinkAt(m, p, s, i);
      }
    }
  }

  ghost predicate ChildrenAre(m: Channels, p: nat, children: seq<nat>) {
    Distinct(children) && forall k :: k in children <==> Child(m, p, k)
  }

  lemma {:induction false} DistinctSize(s: seq<nat>)
    requires Distinct(s)
    ensures |Elements(s)| == |s|
  {
    if s != [] {
      var rest := s[..|s| - 1];
      assert s == rest + [s[|s| - 1]];
      assert Elements(s) == Elements(rest) + {s[|s| - 1]};
      assert s[|s| - 1] !in Elements(rest);
      DistinctSize(rest);
    }
  }

  function Elements(s: seq<nat>): set<nat> {
    set k | k in s
  }

  /** As many as there are children, each once, are all of them. */
  lemma AllLinked(m: Channels, p: nat, children: seq<nat>, ordered: seq<nat>)
    requires ChildrenAre(m, p, children) && Distinct(ordered) && Linked(m, p, ordered) && |ordered| == |children|
    ensures IsChain(m, p, ordered)
  {
    forall k | k in ordered
      ensures k in children
    {
      var i :| 0 <= i < |ordered| && ordered[i] == k;
      assert LinkAt(m, p, ordered, i);
    }
    DistinctSize(children);
    DistinctSize(ordered);
    SubsetSize(Elements(ordered), Elements(children));
    assert forall k :: Child(m, p, k) ==> k in Elements(children);
  }

  /** Two children claim the same place. */
  ghost predicate Crowded(m: Channels, p: nat) {
    exists j, k :: j != k && Child(m, p, j) && Child(m, p, k) && m[j].orderAfterId == m[k].orderAfterId
  }

  /** Some children are linked in a row, and of the others none comes next. */
  ghost predicate DeadEnd(m: Channels, p: nat) {
    exists s :: StopsAfter(m, p, s)
  }

  ghost predicate StopsAfter(m: Channels, p: nat, s: seq<nat>) {
    && Distinct(s) && Linked(m, p, s) && (exists k :: Child(m, p, k) && k !in s)
    && forall k :: Child(m, p, k) && k !in s ==> m[k].orderAfterId != Before(s, |s|)
  }

  lemma WhyNoNext(m: Channels, p: nat, children: seq<nat>, ordered: seq<nat>, emitted: set<nat>, error: Error)
    requires ChildrenAre(m, p, children) && Distinct(ordered) && Linked(m, p, ordered)
    requires |ordered| < |children| && forall k :: k in emitted <==> k in ordered
    requires NextIs(m, children, emitted, Before(ordered, |ordered|), Err(error))
    ensures (error == SamePosition && Crowded(m, p)) || (error == BrokenChain && DeadEnd(m, p))
  {
    if error == BrokenChain {
      if forall k :: Child(m, p, k) ==> k in ordered {
        DistinctSize(children);
        DistinctSize(ordered);
        assert forall k :: k in Elements(children) ==> Child(m, p, k);
        SubsetSize(Elements(children), Elements(ordered));
        assert false;
      }
      forall k | Child(m, p, k) && k !in ordered
        ensures m[k].orderAfterId != Before(ordered, |ordered|)
      {
        assert !Candidate(m, children, emitted, Before(ordered, |ordered|), k);
      }
      assert StopsAfter(m, p, ordered);
    }
  }

  /** Where the next child is missing or not unique, the children form no chain. */
  lemma NoNextNoChain(m: Channels, p: nat, children: seq<nat>, ordered: seq<nat>, emitted: set<nat>, error: Error)
    requires Keyed(m) && ChildrenAre(m, p, children) && Distinct(ordered) && Linked(m, p, ordered)
    requires |ordered| < |children| && forall k :: k in emitted <==> k in ordered
    requires NextIs(m, children, emitted, Before(ordered, |ordered|), Err(error))
    ensures !HasChain(m, p)
  {
    if t :| IsChain(m, p, t) {
      ChainContinues(m, p, children, ordered, t);
      var n, previous := |ordered|, Before(ordered, |ordered|);
      if error == SamePosition {
        var j, k :| j != k && Candidate(m, children, emitted, previous, j) && Candidate(m, children, emitted, previous, k);
        PlaceIsUnique(m, p, t, n, j);
        PlaceIsUnique(m, p, t, n, k);
      } else {
        assert Candidate(m, children, emitted, previous, t[n]);
      }
    }
  }

  lemma PlaceIsUnique(m: Channels, p: nat, t: seq<nat>, n: nat, k: nat)
    requires Keyed(m) && IsChain(m, p, t) && n < |t| && Child(m, p, k) && m[k].orderAfterId == Before(t, n)
    ensures k == t[n]
  {
    var i :| 0 <= i < |t| && t[i] == k;
    assert LinkAt(m, p, t, i);
    BeforeIsInjective(m, p, t, i, n);
  }

  /** A linked prefix that is not the whole chain is followed by an element that is not in it. */
  lemma ChainContinues(m: Channels, p: nat, children: seq<nat>, ordered: seq<nat>, t: seq<nat>)
    requires Keyed(m) && ChildrenAre(m, p, children) && Distinct(ordered) && Linked(m, p, ordered) && IsChain(m, p, t)
    requires |ordered| < |children|
    ensures var n := |ordered|;
            n < |t| && Before(t, n) == Before(ordered, n) && t[n] !in ordered && t[n] in children
            && t[n] in m && m[t[n]].orderAfterId == Before(t, n)
  {
    var n := |ordered|;
    DistinctSize(children);
    DistinctSize(t);
    assert forall k :: k in Elements(children) ==> Child(m, p, k);
    SubsetSize(Elements(children), Elements(t));
    assert LinkAt(m, p, t, n);
    if n > 0 {
      ChainsAgree(m, p, ordered, t, n - 1);
    }
    forall i | 0 <= i < n
      ensures ordered[i] != t[n]
    {
      ChainsAgree(m, p, ordered, t, i);
    }
  }
}
