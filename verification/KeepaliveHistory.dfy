/**
 When a session pings, told from what has happened to it alone: who was heard
 of when, which pings went out and what has retired them.
 */
module KeepaliveHistories {
  import opened Basics
  import opened PacketSequences
  import opened SessionTransports

  type History = seq<(Event, Time)>

  /** One of the first `n` events connected the session. */
  predicate IsConnected(events: History, n: nat)
    requires n <= |events|
  {
    exists i :: 0 <= i < n && events[i].0.Connected?
  }

  /** When the session was last heard of or connected in the first `n` events. */
  function LastReceipt(events: History, n: nat): Time
    requires n <= |events|
  {
    if n == 0 then 0
    else if IsReceipt(events, n - 1) then events[n - 1].1
    else LastReceipt(events, n - 1)
  }

  predicate IsReceipt(events: History, i: nat)
    requires i < |events|
  {
    events[i].0.Connected? || (!events[i].0.Timers? && IsConnected(events, i))
  }

  /** How many of the first `n` events have sent a ping. */
  ghost function SentCount(events: History, n: nat): nat
    requires n <= |events|
    decreases n, 0
  {
    if n == 0 then 0 else SentCount(events, n - 1) + if PingDue(events, n - 1) then 1 else 0
  }

  /** The id of the ping sent by the j-th event: pings are numbered from one. */
  ghost function IdOf(events: History, j: nat): u16
    requires j < |events|
    decreases j, 2
  {
    PacketIdOf(1 + SentCount(events, j))
  }

  /** A timer runs while the session is connected and no command awaits its acknowledgement. */
  predicate IsQuietTick(events: History, i: nat)
    requires i < |events|
  {
    events[i].0 == Timers(false) && IsConnected(events, i)
  }

  /** What ends the wait for the answer to the j-th event's ping: its pong, a new connection, a newer ping, or a quiet tick that has heard since. */
  ghost predicate Retires(events: History, j: nat, k: nat)
    requires j < k < |events|
    decreases k, 3
  {
    match events[k].0
    case Connected => true
    case Pong(pingId) => pingId == IdOf(events, j)
    case OtherPacket => false
    case Timers(_) => IsQuietTick(events, k) && (LastReceipt(events, k) > events[j].1 || PingDue(events, k))
  }

  /** Before the n-th event the j-th event's ping still awaits its answer. */
  ghost predicate Outstanding(events: History, j: nat, n: nat)
    requires n <= |events|
    decreases n, 0
  {
    j < n && PingDue(events, j) && forall k :: j < k < n ==> !Retires(events, j, k)
  }

  /**
   The n-th event sends a ping: a quiet tick, one interval after a ping that is
   outstanding with nothing heard since it, or with none outstanding one
   interval after the last receipt.
   */
  ghost predicate PingDue(events: History, n: nat)
    requires n < |events|
    decreases n, 1
  {
    var now := events[n].1;
    && IsQuietTick(events, n)
    && if exists j: nat :: Outstanding(events, j, n)
       then exists j: nat :: Outstanding(events, j, n) && LastReceipt(events, n) <= events[j].1 && now - events[j].1 >= PING_INTERVAL
       else now - LastReceipt(events, n) >= PING_INTERVAL
  }

  // ---------------------------------------------------------------- the keepalive does just that

  /** A newer ping takes the place of an older one. */
  lemma NewerRetires(events: History, i: nat, j: nat, n: nat)
    requires i < j && n <= |events| && Outstanding(events, j, n)
    ensures !Outstanding(events, i, n)
  {
    assert Retires(events, i, j);
  }

  /** At most one ping is outstanding. */
  lemma OneOutstanding(events: History, j: nat, n: nat)
    requires n <= |events| && Outstanding(events, j, n)
    ensures forall i: nat :: Outstanding(events, i, n) ==> i == j
  {
    forall i: nat | Outstanding(events, i, n) ensures i == j {
      if i < j {
        NewerRetires(events, i, j, n);
      } else if j < i {
        NewerRetires(events, j, i, n);
      }
    }
  }

  ghost predicate PendingTold(events: History, n: nat, pending: Option<Ping>)
    requires n <= |events|
  {
    match pending
    case None => forall j: nat :: !Outstanding(events, j, n)
    case Some(ping) => exists j: nat :: Outstanding(events, j, n) && ping == Ping(IdOf(events, j), events[j].1)
  }

  /** The state of the keepalive is what the first `n` events say. */
  ghost predicate Told(events: History, n: nat, k: Keepalive)
    requires n <= |events|
  {
    && (k.connected <==> IsConnected(events, n))
    && k.lastReceiveAt == LastReceipt(events, n)
    && k.next == 1 + SentCount(events, n) <= MAX_KEY
    && PendingTold(events, n, k.pending)
  }

  lemma OutstandingNext(events: History, j: nat, n: nat)
    requires n < |events| && j <= n
    ensures Outstanding(events, j, n + 1) <==>
            if j == n then PingDue(events, n) else Outstanding(events, j, n) && !Retires(events, j, n)
  {
  }

  /** The step pings exactly if a ping is due. */
  lemma DueIsPinged(events: History, n: nat, k: Keepalive)
    requires n < |events| && Told(events, n, k)
    ensures KeepaliveStep(k, events[n].0, events[n].1).0.pings ==
            k.pings + if PingDue(events, n) then [events[n].1] else []
  {
    if k.pending.Some? {
      var j: nat :| Outstanding(events, j, n) && k.pending.value == Ping(IdOf(events, j), events[j].1);
      OneOutstanding(events, j, n);
    }
  }

  /** What a step leaves pending is what the events leave outstanding. */
  lemma PendingNext(events: History, n: nat, k: Keepalive, next: nat)
    requires n < |events| && next == n + 1
    requires Told(events, n, k) && KeepaliveStep(k, events[n].0, events[n].1).1.None?
    ensures PendingTold(events, next, KeepaliveStep(k, events[n].0, events[n].1).0.pending)
  {
    DueIsPinged(events, n, k);
    forall j: nat
      ensures Outstanding(events, j, next) <==>
              j <= n && if j == n then PingDue(events, n) else Outstanding(events, j, n) && !Retires(events, j, n)
    {
      if j <= n {
        OutstandingNext(events, j, n);
      }
    }
    if PingDue(events, n) {
      assert Outstanding(events, n, next);
    } else if k.pending.Some? {
      var j: nat :| Outstanding(events, j, n) && k.pending.value == Ping(IdOf(events, j), events[j].1);
      OneOutstanding(events, j, n);
      assert Outstanding(events, j, next) <==> !Retires(events, j, n);
    }
  }

  lemma ToldNext(events: History, n: nat, k: Keepalive)
    requires n < |events| && Told(events, n, k) && KeepaliveStep(k, events[n].0, events[n].1).1.None?
    ensures Told(events, n + 1, KeepaliveStep(k, events[n].0, events[n].1).0)
  {
    DueIsPinged(events, n, k);
    PendingNext(events, n, k, n + 1);
  }

  lemma {:induction false} EveryRunIsTold(events: History, n: nat)
    requires n <= |events| && RunKeepalive(events[..n]).1.None?
    ensures Told(events, n, RunKeepalive(events[..n]).0)
  {
    if n > 0 {
      assert events[..n][..n - 1] == events[..n - 1];
      EveryRunIsTold(events, n - 1);
      ToldNext(events, n - 1, RunKeepalive(events[..n - 1]).0);
    }
  }

  /**
   In every run an event sends a ping if and only if one is due, the run fails
   only when the last ping there is an id for has gone out, and the ping awaiting
   its answer is the outstanding one.
   */
  lemma PingsExactlyWhenDue(events: History, n: nat)
    requires n < |events| && RunKeepalive(events[..n]).1.None?
    ensures RunKeepalive(events[..n + 1]).0.pings ==
            RunKeepalive(events[..n]).0.pings + if PingDue(events, n) then [events[n].1] else []
    ensures RunKeepalive(events[..n + 1]).1 ==
            if PingDue(events, n) && SentCount(events, n) + 1 == MAX_KEY then Some(Overflow) else None
    ensures PendingTold(events, n, RunKeepalive(events[..n]).0.pending)
  {
    assert events[..n + 1][..n] == events[..n];
    EveryRunIsTold(events, n);
    DueIsPinged(events, n, RunKeepalive(events[..n]).0);
  }
}
