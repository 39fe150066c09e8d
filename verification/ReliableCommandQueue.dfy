/** The retransmission queue of the outgoing command stream. Times are in milliseconds. */
module ReliableCommandQueues {
  import opened Basics
  import opened PacketSequences

  const MAX_PENDING_COMMANDS := 1024
  const INITIAL_RETRY_DELAY := 500
  const MAX_RETRY_DELAY := 4000
  const COMMAND_TIMEOUT := 30000

  type Time = int

  /** An encrypted packet, ready to be sent again, abstracted to what it was sealed from. */
  datatype Datagram = Datagram(packetId: u16, generationId: u32, flags: u8, data: seq<u8>)

  datatype Error = QueueFull | IdStillPending | AlreadyPending | AmbiguousAcknowledgement | TimedOut

  datatype Pending = Pending(packetId: u16, generationId: u32, packet: Datagram,
                             firstSent: Time, nextRetry: Time, retryDelay: nat, retransmitted: bool)
  {
    function Timeout(): Time {
      firstSent + COMMAND_TIMEOUT
    }

    function Deadline(): Time {
      if nextRetry <= Timeout() then nextRetry else Timeout()
    }

    function Retried(now: Time): Pending {
      var delay := if retryDelay * 2 <= MAX_RETRY_DELAY then retryDelay * 2 else MAX_RETRY_DELAY;
      this.(retransmitted := true, retryDelay := delay, nextRetry := now + delay)
    }

    /** The entry after a look at the clock that did not find it timed out. */
    function After(now: Time): Pending {
      if now < nextRetry then this else Retried(now)
    }
  }

  datatype Acknowledgement = Acknowledgement(firstSent: Time, retransmitted: bool)

  type Table = map<nat, Pending>

  // ---------------------------------------------------------------- what the operations do

  predicate IdPending(table: Table, packetId: u16) {
    exists k :: k in table && table[k].packetId == packetId
  }

  function Fresh(packetId: u16, generationId: u32, packet: Datagram, sentAt: Time): Pending {
    Pending(packetId, generationId, packet, sentAt, sentAt + INITIAL_RETRY_DELAY, INITIAL_RETRY_DELAY, false)
  }

  function AddStep(table: Table, packetId: u16, generationId: u32, packet: Datagram, sentAt: Time): (Table, Option<Error>) {
    var key := SequenceKey(packetId, generationId);
    if |table| >= MAX_PENDING_COMMANDS then (table, Some(QueueFull))
    else if IdPending(table, packetId) then (table, Some(IdStillPending))
    else if key in table then (table, Some(AlreadyPending))
    else (table[key := Fresh(packetId, generationId, packet, sentAt)], None)
  }

  /** The keys that an acknowledgement could mean. */
  function Matches(table: Table, packetId: u16): set<nat> {
    set k | k in table && table[k].packetId == packetId
  }

  function AcknowledgeStep(table: Table, packetId: u16): (Table, Result<Option<Acknowledgement>, Error>) {
    var matches := Matches(table, packetId);
    if matches == {} then (table, Ok(None)) else
    var key := Least(matches);
    if matches != {key} then (table, Err(AmbiguousAcknowledgement))
    else (table - {key}, Ok(Some(Acknowledgement(table[key].firstSent, table[key].retransmitted))))
  }

  /** Visit the given keys in ascending order, as far as the first that has timed out. */
  function CollectFrom(table: Table, keys: set<nat>, now: Time, sent: seq<Datagram>)
    : (r: (Table, Result<seq<Datagram>, Error>))
    requires keys <= table.Keys
    ensures r.0.Keys == table.Keys
    decreases |keys|
  {
    if keys == {} then (table, Ok(sent)) else
    var key := Least(keys);
    var entry := table[key];
    if now >= entry.Timeout() then (table, Err(TimedOut)) else
    CollectFrom(table[key := entry.After(now)], keys - {key}, now,
                if now < entry.nextRetry then sent else sent + [entry.packet])
  }

  function CollectStep(table: Table, now: Time): (Table, Result<seq<Datagram>, Error>) {
    CollectFrom(table, table.Keys, now, [])
  }

  /** The earliest moment at which looking at the queue makes a difference. */
  ghost predicate IsNextDeadline(table: Table, deadline: Option<Time>) {
    match deadline
    case None => table == map[]
    case Some(d) => (exists k :: k in table && table[k].Deadline() == d)
                    && forall k :: k in table ==> d <= table[k].Deadline()
  }

  class ReliableCommandQueue {
    var pending: Table

    constructor ()
      ensures pending == map[]
    {
      pending := map[];
    }

    method Contains(packetId: u16) returns (found: bool)
      ensures found <==> IdPending(pending, packetId)
    {
      var keys := pending.Keys;
      while keys != {}
        invariant keys <= pending.Keys
        invariant forall k :: k in pending && k !in keys ==> pending[k].packetId != packetId
        decreases |keys|
      {
        var key := Least(keys);
        if pending[key].packetId == packetId {
          return true;
        }
        keys := keys - {key};
      }
      return false;
    }

    method Add(packetId: u16, generationId: u32, packet: Datagram, sentAt: Time) returns (error: Option<Error>)
      modifies this
      ensures (pending, error) == AddStep(old(pending), packetId, generationId, packet, sentAt)
    {
      if |pending| >= MAX_PENDING_COMMANDS {
        return Some(QueueFull);
      }
      var found := Contains(packetId);
      if found {
        return Some(IdStillPending);
      }
      var key := SequenceKey(packetId, generationId);
      if key in pending {
        return Some(AlreadyPending);
      }
      pending := pending[key := Fresh(packetId, generationId, packet, sentAt)];
      return None;
    }

    method Acknowledge(packetId: u16) returns (r: Result<Option<Acknowledgement>, Error>)
      modifies this
      ensures (pending, r) == AcknowledgeStep(old(pending), packetId)
    {
      var found: Option<nat> := None;
      ghost var matches := Matches(pending, packetId);
      var keys := pending.Keys;
      while keys != {}
        invariant keys <= pending.Keys && pending == old(pending)
        invariant matches - keys == if found.Some? then {found.value} else {}
        decreases |keys|
      {
        var key := Least(keys);
        if pending[key].packetId == packetId {
          if found.Some? {
            assert key in matches && found.value in matches - keys;
            return Err(AmbiguousAcknowledgement);
          }
          found := Some(key);
        }
        keys := keys - {key};
      }
      assert matches - keys == matches;
      if found.None? {
        return Ok(None);
      }
      assert Least(matches) == found.value;
      var entry := pending[found.value];
      pending := pending - {found.value};
      return Ok(Some(Acknowledgement(entry.firstSent, entry.retransmitted)));
    }

    method CollectDue(now: Time) returns (r: Result<seq<Datagram>, Error>)
      modifies this
      ensures (pending, r) == CollectStep(old(pending), now)
    {
      var result: seq<Datagram> := [];
      var keys := pending.Keys;
      ghost var goal := CollectStep(pending, now);
      while keys != {}
        invariant keys <= pending.Keys
        invariant CollectFrom(pending, keys, now, result) == goal
        decreases |keys|
      {
        var key := Least(keys);
        var entry := pending[key];
        if now >= entry.Timeout() {
          return Err(TimedOut);
        }
        if now >= entry.nextRetry {
          result := result + [entry.packet];
          pending := pending[key := entry.Retried(now)];
        } else {
          assert pending == pending[key := entry.After(now)];
        }
        keys := keys - {key};
      }
      return Ok(result);
    }

    method NextDeadline() returns (deadline: Option<Time>)
      ensures IsNextDeadline(pending, deadline)
    {
      deadline := None;
      var keys := pending.Keys;
      while keys != {}
        invariant keys <= pending.Keys
        invariant deadline.None? ==> keys == pending.Keys
        invariant deadline.Some? ==>
            && (exists k :: k in pending && pending[k].Deadline() == deadline.value)
            && forall k :: k in pending && k !in keys ==> deadline.value <= pending[k].Deadline()
        decreases |keys|
      {
        var key := Least(keys);
        var candidate := pending[key].Deadline();
        if deadline.None? || candidate < deadline.value {
          deadline := Some(candidate);
        }
        keys := keys - {key};
      }
    }
  }

  // ---------------------------------------------------------------- what the operations keep

  predicate SameId(table: Table, j: nat, k: nat) {
    j in table && k in table && table[j].packetId == table[k].packetId
  }

  /** Entries sit at their own key, and no two entries share a 16-bit id. */
  ghost predicate WellFormed(table: Table) {
    && |table| <= MAX_PENDING_COMMANDS
    && (forall k :: k in table ==> k == SequenceKey(table[k].packetId, table[k].generationId))
    && (forall j, k :: SameId(table, j, k) ==> j == k)
  }

  lemma InsertKeepsIdsUnique(table: Table, key: nat, entry: Pending)
    requires WellFormed(table) && |table| < MAX_PENDING_COMMANDS && key !in table && !IdPending(table, entry.packetId)
    requires key == SequenceKey(entry.packetId, entry.generationId)
    ensures WellFormed(table[key := entry])
  {
    var grown := table[key := entry];
    assert grown.Keys == table.Keys + {key};
    assert |grown| == |table| + 1;
    forall j, k | SameId(grown, j, k)
      ensures j == k
    {
      assert j != key && k != key ==> SameId(table, j, k);
    }
  }

  /** A queue only ever refuses a command because it is full or because its id is still pending. */
  lemma AddKeepsIdsUnique(table: Table, packetId: u16, generationId: u32, packet: Datagram, sentAt: Time)
    requires WellFormed(table)
    ensures var (table', error) := AddStep(table, packetId, generationId, packet, sentAt);
            && WellFormed(table')
            && (error == None <==> |table| < MAX_PENDING_COMMANDS && !IdPending(table, packetId))
            && error != Some(AlreadyPending)
  {
    var key := SequenceKey(packetId, generationId);
    if key in table {
    } else if |table| < MAX_PENDING_COMMANDS && !IdPending(table, packetId) {
      InsertKeepsIdsUnique(table, key, Fresh(packetId, generationId, packet, sentAt));
    }
  }

  lemma RemoveKeepsIdsUnique(table: Table, key: nat)
    requires WellFormed(table)
    ensures WellFormed(table - {key})
  {
    SubsetSize((table - {key}).Keys, table.Keys);
    assert |table - {key}| == |(table - {key}).Keys| && |table| == |table.Keys|;
    forall j, k | SameId(table - {key}, j, k)
      ensures j == k
    {
      assert SameId(table, j, k);
    }
  }

  /** An acknowledgement is never ambiguous: it removes the one command with that id, or nothing. */
  lemma AcknowledgementIsUnambiguous(table: Table, packetId: u16)
    requires WellFormed(table)
    ensures var (table', r) := AcknowledgeStep(table, packetId);
            && WellFormed(table') && r.Ok? && (r.value.Some? <==> IdPending(table, packetId))
            && table' == map k | k in table && table[k].packetId != packetId :: table[k]
  {
    var matches := Matches(table, packetId);
    assert forall k :: k in table && table[k].packetId == packetId ==> k in matches;
    if matches != {} {
      var key := Least(matches);
      forall k | k in matches
        ensures k == key
      {
        assert SameId(table, k, key);
      }
      assert matches == {key};
      RemoveKeepsIdsUnique(table, key);
    }
  }

  function Due(table: Table, keys: set<nat>, now: Time): set<nat>
    requires keys <= table.Keys
  {
    set k | k in keys && now >= table[k].nextRetry
  }

  /** The packets at the given keys, in ascending order of their keys. */
  function PacketsAt(table: Table, keys: set<nat>): seq<Datagram>
    requires keys <= table.Keys
    decreases |keys|
  {
    if keys == {} then [] else [table[Least(keys)].packet] + PacketsAt(table, keys - {Least(keys)})
  }

  lemma {:induction false} PacketsAtStable(table: Table, table': Table, keys: set<nat>)
    requires keys <= table.Keys && keys <= table'.Keys
    requires forall k :: k in keys ==> table[k].packet == table'[k].packet
    ensures PacketsAt(table, keys) == PacketsAt(table', keys)
    decreases |keys|
  {
    if keys != {} {
      PacketsAtStable(table, table', keys - {Least(keys)});
    }
  }

  /** Only the given keys are looked at; each is left alone or put back to a later retry. */
  ghost predicate Visited(table: Table, keys: set<nat>, now: Time, table': Table) {
    && table'.Keys == table.Keys
    && forall k :: k in table ==> table'[k] == if k in keys then table[k].After(now) else table[k]
  }

  /** The due packets are that of the least key, if it is due, and then the others. */
  lemma DueHead(table: Table, keys: set<nat>, now: Time)
    requires keys <= table.Keys && keys != {}
    ensures var key := Least(keys);
            var next, rest := table[key := table[key].After(now)], keys - {key};
            PacketsAt(table, Due(table, keys, now)) ==
            (if now < table[key].nextRetry then [] else [table[key].packet]) + PacketsAt(next, Due(next, rest, now))
  {
    var key := Least(keys);
    var next, rest := table[key := table[key].After(now)], keys - {key};
    var due := Due(table, keys, now);
    assert Due(next, rest, now) == due - {key};
    PacketsAtStable(table, next, due - {key});
    if now >= table[key].nextRetry {
      assert IsLeast(due, key) && Least(due) == key;
    } else {
      assert due - {key} == due;
    }
  }

  lemma {:induction false} CollectVisits(table: Table, keys: set<nat>, now: Time, sent: seq<Datagram>)
    requires keys <= table.Keys
    ensures var (table', r) := CollectFrom(table, keys, now, sent);
            && (r.Err? <==> exists k :: k in keys && now >= table[k].Timeout())
            && (r.Ok? ==> Visited(table, keys, now, table'))
    decreases |keys|
  {
    if keys != {} {
      var key := Least(keys);
      if now < table[key].Timeout() {
        var next := table[key := table[key].After(now)];
        CollectVisits(next, keys - {key}, now, if now < table[key].nextRetry then sent else sent + [table[key].packet]);
      }
    }
  }

  lemma {:induction false} CollectSends(table: Table, keys: set<nat>, now: Time, sent: seq<Datagram>)
    requires keys <= table.Keys && CollectFrom(table, keys, now, sent).1.Ok?
    ensures CollectFrom(table, keys, now, sent).1.value == sent + PacketsAt(table, Due(table, keys, now))
    decreases |keys|
  {
    if keys == {} {
      assert Due(table, keys, now) == {};
    } else {
      var key := Least(keys);
      var next, entry := table[key := table[key].After(now)], table[key];
      var head := if now < entry.nextRetry then [] else [entry.packet];
      DueHead(table, keys, now);
      CollectSends(next, keys - {key}, now, if now < entry.nextRetry then sent else sent + [entry.packet]);
      var others := PacketsAt(next, Due(next, keys - {key}, now));
      assert sent + (head + others) == sent + head + others && sent + [] == sent;
    }
  }

  /**
   A look at the clock fails exactly when some command has timed out. Otherwise
   it resends exactly the due commands, oldest position first, and postpones
   exactly those.
   */
  lemma CollectResendsTheDue(table: Table, now: Time)
    ensures var (table', r) := CollectStep(table, now);
            && (r.Err? <==> exists k :: k in table && now >= table[k].Timeout())
            && (r.Ok? ==> Visited(table, table.Keys, now, table') && r.value == PacketsAt(table, Due(table, table.Keys, now)))
  {
    CollectVisits(table, table.Keys, now, []);
    var (table', r) := CollectStep(table, now);
    if r.Ok? {
      CollectSends(table, table.Keys, now, []);
    }
  }

  lemma VisitKeepsIdsUnique(table: Table, now: Time, table': Table)
    requires WellFormed(table) && Visited(table, table.Keys, now, table')
    ensures WellFormed(table')
  {
    assert |table'| == |table'.Keys| && |table| == |table.Keys|;
    forall j, k | SameId(table', j, k)
      ensures j == k
    {
      assert SameId(table, j, k);
    }
  }

  /** Looking before the next deadline changes nothing and sends nothing; looking at or after it never does nothing. */
  lemma IdleExactlyBeforeDeadline(table: Table, deadline: Option<Time>, now: Time)
    requires IsNextDeadline(table, deadline)
    ensures CollectStep(table, now) == (table, Ok([])) <==> deadline.None? || now < deadline.value
    ensures deadline.Some? && now >= deadline.value ==> CollectStep(table, now).1 != Ok([])
  {
    CollectResendsTheDue(table, now);
    var (table', r) := CollectStep(table, now);
    var due := Due(table, table.Keys, now);
    if deadline.None? || now < deadline.value {
      assert due == {};
      assert table' == table;
    } else {
      var k :| k in table && table[k].Deadline() == deadline.value;
      if r.Ok? {
        assert k in due;
      }
    }
  }

  // ---------------------------------------------------------------- runs

  datatype Event =
    | Add(packetId: u16, generationId: u32, packet: Datagram)
    | Acknowledge(packetId: u16)
    | Collect

  /** A queue together with the times at which each pending command has been sent. */
  datatype History = History(table: Table, sends: map<nat, seq<Time>>)

  /** One call at time `now`; a timeout ends the session. */
  function Step(h: History, event: Event, now: Time): Option<History> {
    match event
    case Add(id, generation, packet) =>
      var (table, error) := AddStep(h.table, id, generation, packet, now);
      Some(History(table, if error.None? then h.sends[SequenceKey(id, generation) := [now]] else h.sends))
    case Acknowledge(id) =>
      Some(h.(table := AcknowledgeStep(h.table, id).0))
    case Collect =>
      var (table, r) := CollectStep(h.table, now);
      if r.Err? then None
      else Some(History(table, map k | k in h.sends ::
                                 if k in h.table && now >= h.table[k].nextRetry then h.sends[k] + [now] else h.sends[k]))
  }

  function RunQueue(calls: seq<(Event, Time)>): Option<History> {
    if calls == [] then Some(History(map[], map[])) else
    var earlier := RunQueue(calls[..|calls| - 1]);
    if earlier.None? then None else Step(earlier.value, calls[|calls| - 1].0, calls[|calls| - 1].1)
  }

  /** The pause after the n-th retransmission. */
  function Delay(n: nat): nat {
    if INITIAL_RETRY_DELAY * PowerOfTwo(n) <= MAX_RETRY_DELAY then INITIAL_RETRY_DELAY * PowerOfTwo(n) else MAX_RETRY_DELAY
  }

  ghost predicate Spaced(times: seq<Time>) {
    forall i :: 0 <= i < |times| - 1 ==> times[i + 1] - times[i] >= Delay(i)
  }

  ghost predicate BacksOff(entry: Pending, times: seq<Time>) {
    && |times| > 0 && Spaced(times)
    && entry.firstSent == times[0] && (entry.retransmitted <==> |times| > 1)
    && entry.retryDelay == Delay(|times| - 1)
    && entry.nextRetry == times[|times| - 1] + entry.retryDelay
    && (|times| > 1 ==> times[|times| - 1] < times[0] + COMMAND_TIMEOUT)
  }

  ghost predicate Recorded(h: History) {
    && WellFormed(h.table)
    && forall k :: k in h.table ==> k in h.sends && BacksOff(h.table[k], h.sends[k])
  }

  lemma RetryBacksOff(entry: Pending, times: seq<Time>, now: Time)
    requires BacksOff(entry, times) && entry.nextRetry <= now < entry.Timeout()
    ensures BacksOff(entry.Retried(now), times + [now])
  {
  }

  lemma {:induction false} AddKeepsRecord(h: History, packetId: u16, generationId: u32, packet: Datagram, now: Time)
    requires Recorded(h)
    ensures Recorded(Step(h, Add(packetId, generationId, packet), now).value)
  {
    AddKeepsIdsUnique(h.table, packetId, generationId, packet, now);
    assert BacksOff(Fresh(packetId, generationId, packet, now), [now]) by {
      assert PowerOfTwo(0) == 1;
    }
  }

  lemma {:induction false} CollectKeepsRecord(h: History, now: Time)
    requires Recorded(h) && Step(h, Collect, now).Some?
    ensures Recorded(Step(h, Collect, now).value)
  {
    CollectResendsTheDue(h.table, now);
    var h' := Step(h, Collect, now).value;
    VisitKeepsIdsUnique(h.table, now, h'.table);
    forall k | k in h'.table
      ensures k in h'.sends && BacksOff(h'.table[k], h'.sends[k])
    {
      if now >= h.table[k].nextRetry {
        RetryBacksOff(h.table[k], h.sends[k], now);
      }
    }
  }

  lemma {:induction false} StepKeepsRecord(h: History, event: Event, now: Time)
    requires Recorded(h)
    ensures Step(h, event, now).Some? ==> Recorded(Step(h, event, now).value)
  {
    match event
    case Add(packetId, generationId, packet) => AddKeepsRecord(h, packetId, generationId, packet, now);
    case Acknowledge(packetId) => AcknowledgementIsUnambiguous(h.table, packetId);
    case Collect =>
      if Step(h, event, now).Some? {
        CollectKeepsRecord(h, now);
      }
  }

  /** In every run, pending ids are unique and every pending command has been sent at exponentially growing intervals. */
  lemma {:induction false} EveryRunBacksOff(calls: seq<(Event, Time)>)
    ensures RunQueue(calls).Some? ==> Recorded(RunQueue(calls).value)
  {
    if calls != [] {
      EveryRunBacksOff(calls[..|calls| - 1]);
      var earlier := RunQueue(calls[..|calls| - 1]);
      if earlier.Some? {
        StepKeepsRecord(earlier.value, calls[|calls| - 1].0, calls[|calls| - 1].1);
      }
    }
  }

  /**
   In every run an acknowledgement of a pending command tells when it was first
   sent, and whether it has been sent again since.
   */
  lemma AcknowledgementTells(calls: seq<(Event, Time)>, k: nat)
    requires RunQueue(calls).Some? && k in RunQueue(calls).value.table
    ensures var h := RunQueue(calls).value;
            && k in h.sends && h.sends[k] != []
            && AcknowledgeStep(h.table, h.table[k].packetId).1 == Ok(Some(Acknowledgement(h.sends[k][0], |h.sends[k]| > 1)))
  {
    EveryRunBacksOff(calls);
    var h := RunQueue(calls).value;
    var matches := Matches(h.table, h.table[k].packetId);
    assert k in matches;
    forall j | j in matches ensures j == k {
      assert SameId(h.table, j, k);
    }
    assert matches == {k};
  }

  /**
   In every run, told from the times of sending alone: collecting fails if and
   only if some pending command was first sent 30 seconds ago; otherwise it
   sends again exactly those whose pause since they were last sent is over.
   */
  lemma CollectsByTheClock(calls: seq<(Event, Time)>, now: Time, k: nat)
    requires RunQueue(calls).Some?
    ensures var h := RunQueue(calls).value;
            && (Step(h, Collect, now).None? <==> exists j :: j in h.table && j in h.sends && FirstSentBy(h.sends[j], now - COMMAND_TIMEOUT))
            && (Step(h, Collect, now).Some? && k in h.table ==>
                  && k in h.sends && h.sends[k] != []
                  && Step(h, Collect, now).value.sends[k] ==
                     if now >= h.sends[k][|h.sends[k]| - 1] + Delay(|h.sends[k]| - 1) then h.sends[k] + [now] else h.sends[k])
  {
    EveryRunBacksOff(calls);
    var h := RunQueue(calls).value;
    CollectResendsTheDue(h.table, now);
    forall j | j in h.table
      ensures j in h.sends && (FirstSentBy(h.sends[j], now - COMMAND_TIMEOUT) <==> now >= h.table[j].Timeout())
    {
      assert BacksOff(h.table[j], h.sends[j]);
    }
  }

  predicate FirstSentBy(times: seq<Time>, limit: Time) {
    times != [] && times[0] <= limit
  }

  lemma DelayValues(n: nat)
    ensures Delay(0) == 500 && Delay(1) == 1000 && Delay(2) == 2000
    ensures n >= 3 ==> Delay(n) == 4000
  {
    assert PowerOfTwo(0) == 1 && PowerOfTwo(1) == 2 && PowerOfTwo(2) == 4 && PowerOfTwo(3) == 8;
    if n >= 3 {
      PowerAtLeast(n);
    }
  }

  lemma {:induction false} PowerAtLeast(n: nat)
    requires n >= 3
    ensures PowerOfTwo(n) >= 8
  {
    if n > 3 {
      PowerAtLeast(n - 1);
    } else {
      assert PowerOfTwo(0) == 1 && PowerOfTwo(1) == 2 && PowerOfTwo(2) == 4;
    }
  }

  lemma {:induction false} SpacedSpan(times: seq<Time>)
    requires Spaced(times) && |times| >= 4
    ensures times[|times| - 1] - times[0] >= 3500 + 4000 * (|times| - 4)
  {
    var n := |times|;
    DelayValues(n - 2);
    if n > 4 {
      SpacedSpan(times[..n - 1]);
      assert times[n - 1] - times[n - 2] >= Delay(n - 2);
    } else {
      assert times[1] - times[0] >= Delay(0) && times[2] - times[1] >= Delay(1) && times[3] - times[2] >= Delay(2);
    }
  }

  /** No command is ever sent more than ten times before the session gives up. */
  lemma AtMostTenSends(calls: seq<(Event, Time)>, k: nat)
    requires RunQueue(calls).Some? && k in RunQueue(calls).value.table
    ensures k in RunQueue(calls).value.sends && |RunQueue(calls).value.sends[k]| <= 10
  {
    EveryRunBacksOff(calls);
    var times := RunQueue(calls).value.sends[k];
    if |times| >= 4 {
      SpacedSpan(times);
    }
  }
}
