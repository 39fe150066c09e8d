/** Sibling order stored as links to the previous sibling, and what it stands for: a rooted ordered forest. */
module ChannelLinks {
  import opened Basics

  datatype Attributes = Attributes(name: string, permanent: bool, semiPermanent: bool, defaultChannel: bool,
                                   passwordProtected: bool, codec: u8, codecIsUnencrypted: bool)

  datatype Channel = Channel(id: nat, parentId: nat, orderAfterId: nat, attributes: Attributes, subscribed: bool)

  type Channels = map<nat, Channel>

  /** Identifiers are never zero, which stands for the root and for "no previous sibling". */
  ghost predicate Keyed(m: Channels) {
    0 !in m && forall k :: k in m ==> m[k].id == k
  }

  predicate Child(m: Channels, p: nat, k: nat) {
    k in m && m[k].parentId == p
  }

  function Before(s: seq<nat>, i: nat): nat
    requires i <= |s|
  {
    if i == 0 then 0 else s[i - 1]
  }

  ghost predicate Distinct(s: seq<nat>) {
    forall i, j :: 0 <= i < j < |s| ==> s[i] != s[j]
  }

  ghost predicate LinkAt(m: Channels, p: nat, s: seq<nat>, i: nat)
    requires i < |s|
  {
    Child(m, p, s[i]) && m[s[i]].orderAfterId == Before(s, i)
  }

  ghost predicate Linked(m: Channels, p: nat, s: seq<nat>) {
    forall i :: 0 <= i < |s| ==> LinkAt(m, p, s, i)
  }

  /** The children of a parent, all of them and each once, form one chain of previous siblings from zero. */
  ghost predicate IsChain(m: Channels, p: nat, s: seq<nat>) {
    Distinct(s) && Linked(m, p, s) && forall k :: Child(m, p, k) ==> k in s
  }

  ghost predicate HasChain(m: Channels, p: nat) {
    exists s :: IsChain(m, p, s)
  }

  ghost predicate Ordered(m: Channels) {
    forall p: nat :: HasChain(m, p)
  }

  /** The root is `d` parents above `k`. */
  ghost predicate DepthIs(m: Channels, k: nat, d: nat)
    decreases d
  {
    if d == 0 then k == 0 else k in m && DepthIs(m, m[k].parentId, d - 1)
  }

  ghost predicate HasDepth(m: Channels, k: nat) {
    exists d: nat :: DepthIs(m, k, d)
  }

  ghost predicate Rooted(m: Channels) {
    forall k :: k in m ==> HasDepth(m, k)
  }

  /** A rooted ordered forest: every parent chain reaches the root, every group of siblings is one chain. */
  ghost predicate WellFormed(m: Channels) {
    Keyed(m) && Ordered(m) && Rooted(m)
  }

  /** Going up at most `n` parents from `x` meets `id`. */
  ghost predicate Meets(m: Channels, x: nat, id: nat, n: nat)
    decreases n
  {
    x == id || (n > 0 && x in m && Meets(m, m[x].parentId, id, n - 1))
  }

  /** `x` is `id` or one of its descendants. */
  ghost predicate Below(m: Channels, x: nat, id: nat) {
    exists n: nat :: Meets(m, x, id, n)
  }

  // ---------------------------------------------------------------- steps

  predicate Follows(m: Channels, p: nat, after: nat, except: nat, k: nat) {
    k in m && k != except && m[k].parentId == p && m[k].orderAfterId == after
  }

  function Followers(m: Channels, p: nat, after: nat, except: nat): set<nat> {
    set k | k in m && Follows(m, p, after, except, k)
  }

  function Relinked(m: Channels, k: nat, target: nat): Channels
    requires k in m
  {
    m[k := m[k].(orderAfterId := target)]
  }

  /** Relink the first channel, in the order of identifiers, that follows `after`. */
  function RelinkFirst(m: Channels, p: nat, after: nat, except: nat, target: nat): Channels {
    var followers := Followers(m, p, after, except);
    if followers == {} then m else Relinked(m, Least(followers), target)
  }

  function CreateStep(m: Channels, c: Channel): Channels {
    (if c.id in m then m else RelinkFirst(m, c.parentId, c.orderAfterId, c.id, c.id))[c.id := c]
  }

  function RemoveStep(m: Channels, id: nat): Channels
    requires id in m
  {
    map k | k in m && k != id ::
      if m[k].parentId == m[id].parentId && m[k].orderAfterId == id then m[k].(orderAfterId := m[id].orderAfterId) else m[k]
  }

  /** The moves that do not throw. */
  predicate MoveAccepted(m: Channels, id: nat, p: nat, after: nat) {
    after != id && (p == 0 || p in m) && (after == 0 || Child(m, p, after))
  }

  function MoveStep(m: Channels, id: nat, p: nat, after: nat): Channels
    requires id in m
  {
    var closed := RelinkFirst(m, m[id].parentId, id, id, m[id].orderAfterId);
    var opening := RelinkFirst(closed, p, after, id, id);
    opening[id := opening[id].(parentId := p, orderAfterId := after)]
  }

  /** Take a channel out of its chain. */
  function Detach(m: Channels, id: nat): Channels
    requires id in m
  {
    RelinkFirst(m, m[id].parentId, id, id, m[id].orderAfterId) - {id}
  }

  // ---------------------------------------------------------------- chains

  function Inserted(s: seq<nat>, i: nat, x: nat): seq<nat>
    requires i <= |s|
  {
    s[..i] + [x] + s[i..]
  }

  function Removed(s: seq<nat>, i: nat): seq<nat>
    requires i < |s|
  {
    s[..i] + s[i + 1..]
  }

  lemma BeforeIsInjective(m: Channels, p: nat, s: seq<nat>, i: nat, j: nat)
    requires Keyed(m) && IsChain(m, p, s) && i < |s| && j <= |s| && Before(s, i) == Before(s, j)
    ensures i == j
  {
    if i > 0 {
      assert LinkAt(m, p, s, i - 1);
    }
    if j > 0 {
      assert LinkAt(m, p, s, j - 1);
    }
  }

  /** Exactly the next channel of a chain follows a given one. */
  lemma FollowersInChain(m: Channels, p: nat, s: seq<nat>, i: nat, except: nat)
    requires Keyed(m) && IsChain(m, p, s) && i <= |s|
    ensures Followers(m, p, Before(s, i), except) == if i < |s| && s[i] != except then {s[i]} else {}
  {
    forall k | k in Followers(m, p, Before(s, i), except)
      ensures i < |s| && k == s[i]
    {
      assert Child(m, p, k);
      var j :| 0 <= j < |s| && s[j] == k;
      assert LinkAt(m, p, s, j);
      BeforeIsInjective(m, p, s, j, i);
    }
    if i < |s| && s[i] != except {
      assert LinkAt(m, p, s, i);
      assert s[i] in Followers(m, p, Before(s, i), except);
    }
  }

  /** What is linked from zero on is a prefix of the chain. */
  lemma {:induction false} ChainsAgree(m: Channels, p: nat, s: seq<nat>, t: seq<nat>, n: nat)
    requires Keyed(m) && Linked(m, p, s) && IsChain(m, p, t) && n < |s|
    ensures n < |t| && s[n] == t[n]
  {
    assert LinkAt(m, p, s, n);
    var j :| 0 <= j < |t| && t[j] == s[n];
    assert LinkAt(m, p, t, j);
    if n == 0 {
      BeforeIsInjective(m, p, t, j, 0);
    } else {
      ChainsAgree(m, p, s, t, n - 1);
      BeforeIsInjective(m, p, t, j, n);
    }
  }

  /** Links determine the order: a parent has at most one chain. */
  lemma ChainUnique(m: Channels, p: nat, s: seq<nat>, t: seq<nat>)
    requires Keyed(m) && IsChain(m, p, s) && IsChain(m, p, t)
    ensures s == t
  {
    forall n | 0 <= n < |s|
      ensures n < |t| && s[n] == t[n]
    {
      ChainsAgree(m, p, s, t, n);
    }
    if |t| > |s| {
      ChainsAgree(m, p, t, s, |s|);
    } else if |s| > |t| {
      ChainsAgree(m, p, s, t, |t|);
    }
  }

  /** What relinking the follower of a position in a chain does. */
  lemma RelinkInChain(m: Channels, p: nat, s: seq<nat>, i: nat, except: nat, target: nat)
    requires Keyed(m) && IsChain(m, p, s) && i <= |s| && (i < |s| ==> s[i] != except)
    ensures RelinkFirst(m, p, Before(s, i), except, target) ==
            if i < |s| then assert LinkAt(m, p, s, i); Relinked(m, s[i], target) else m
  {
    FollowersInChain(m, p, s, i, except);
    if i < |s| {
      assert LinkAt(m, p, s, i);
      var followers := Followers(m, p, Before(s, i), except);
      assert Least(followers) in followers;
    }
  }

  /** A fresh channel goes into its parent's chain right after its predecessor. */
  lemma CreateInserts(m: Channels, c: Channel, s: seq<nat>, i: nat)
    requires Keyed(m) && c.id !in m && c.id != 0
    requires IsChain(m, c.parentId, s) && i <= |s| && c.orderAfterId == Before(s, i)
    ensures IsChain(CreateStep(m, c), c.parentId, Inserted(s, i, c.id))
  {
    var created, t := CreateStep(m, c), Inserted(s, i, c.id);
    assert c.id !in s by {
      forall j | 0 <= j < |s| ensures s[j] != c.id { assert LinkAt(m, c.parentId, s, j); }
    }
    RelinkInChain(m, c.parentId, s, i, c.id, c.id);
    forall j | 0 <= j < |t|
      ensures LinkAt(created, c.parentId, t, j)
    {
      if j != i {
        assert LinkAt(m, c.parentId, s, if j < i then j else j - 1);
      }
    }
    forall k | Child(created, c.parentId, k)
      ensures k in t
    {
      assert k == c.id || Child(m, c.parentId, k);
    }
  }

  predicate SameLinks(a: Channel, b: Channel) {
    a.parentId == b.parentId && a.orderAfterId == b.orderAfterId
  }

  /** Channels with the links they had keep their place in a chain. */
  lemma ChainKept(m: Channels, changed: Channels, p: nat, s: seq<nat>)
    requires IsChain(m, p, s)
    requires forall k :: Child(m, p, k) ==> k in changed && SameLinks(changed[k], m[k])
    requires forall k :: Child(changed, p, k) ==> Child(m, p, k)
    ensures IsChain(changed, p, s)
  {
    forall i | 0 <= i < |s|
      ensures LinkAt(changed, p, s, i)
    {
      assert LinkAt(m, p, s, i);
    }
  }

  /** Creating a channel leaves the children of every other parent as they were. */
  lemma CreateKeepsOthers(m: Channels, c: Channel, q: nat, s: seq<nat>)
    requires c.id !in m && IsChain(m, q, s) && q != c.parentId
    ensures IsChain(CreateStep(m, c), q, s)
  {
    ChainKept(m, CreateStep(m, c), q, s);
  }

  /** Taking a channel out of its chain is deleting it from the list. */
  lemma DetachDeletes(m: Channels, id: nat, s: seq<nat>, i: nat)
    requires Keyed(m) && id in m && IsChain(m, m[id].parentId, s) && i < |s| && s[i] == id
    ensures IsChain(Detach(m, id), m[id].parentId, Removed(s, i))
  {
    var p, detached, t := m[id].parentId, Detach(m, id), Removed(s, i);
    RelinkInChain(m, p, s, i + 1, id, m[id].orderAfterId);
    assert LinkAt(m, p, s, i);
    forall j | 0 <= j < |t|
      ensures LinkAt(detached, p, t, j)
    {
      assert LinkAt(m, p, s, if j < i then j else j + 1);
    }
    forall k | Child(detached, p, k)
      ensures k in t
    {
      assert Child(m, p, k);
    }
  }

  lemma DetachKeepsOthers(m: Channels, id: nat, q: nat, s: seq<nat>)
    requires id in m && IsChain(m, q, s) && q != m[id].parentId
    ensures IsChain(Detach(m, id), q, s)
  {
    ChainKept(m, Detach(m, id), q, s);
  }

  /** Moving is taking out and putting in again. */
  lemma MoveIsDetachCreate(m: Channels, id: nat, p: nat, after: nat)
    requires id in m && m[id].id == id
    ensures MoveStep(m, id, p, after) == CreateStep(Detach(m, id), m[id].(parentId := p, orderAfterId := after))
  {
    var closed := RelinkFirst(m, m[id].parentId, id, id, m[id].orderAfterId);
    var detached := Detach(m, id);
    assert Followers(closed, p, after, id) == Followers(detached, p, after, id);
    RelinkWithout(closed, p, after, id);
  }

  lemma RelinkWithout(m: Channels, p: nat, after: nat, id: nat)
    requires id in m
    ensures RelinkFirst(m, p, after, id, id) - {id} == RelinkFirst(m - {id}, p, after, id, id)
  {
    assert Followers(m, p, after, id) == Followers(m - {id}, p, after, id);
  }

  /** Removing relinks every follower, of which a chain has at most one. */
  lemma RemoveIsDetach(m: Channels, id: nat, s: seq<nat>)
    requires Keyed(m) && id in m && IsChain(m, m[id].parentId, s)
    ensures RemoveStep(m, id) == Detach(m, id)
  {
    var p := m[id].parentId;
    assert Child(m, p, id);
    var i :| 0 <= i < |s| && s[i] == id;
    FollowersInChain(m, p, s, i + 1, id);
    RelinkInChain(m, p, s, i + 1, id, m[id].orderAfterId);
    assert forall k :: k in m && k != id && m[k].parentId == p && m[k].orderAfterId == id <==> k in Followers(m, p, id, id);
  }
}
