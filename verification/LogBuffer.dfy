/**
 The log buffer of the bridge (packages/singbox/bridge/main.go): a bounded buffer shifted in place,
 routes that arrive apart from the log lines they belong to, and readers that poll with a cursor.

 The first half is the specification: a value and functions on it, with whole-list scans. The
 class at the end does what the source does, with scans that stop early.
 */
module LogBuffer {
  import opened Wrappers
  import opened Text

  const LIMIT: nat := 500
  /** Nanoseconds. */
  const WINDOW: int := 10_000_000_000
  const GRACE: int := 100_000_000

  datatype Key = Key(outbound: string, target: string)

  datatype Entry = Entry(sequence: nat, level: string, message: string, chain: seq<string>, sourceIP: string, recordedAt: int)

  /** A route that waits for its log line. `serial` is not in the source; it tells records apart. */
  datatype Route = Route(serial: nat, target: string, outbound: string, chain: seq<string>, sourceIP: string, recordedAt: int)

  // ---------------------------------------------------------------------
  // Keys
  // ---------------------------------------------------------------------

  /** `parseBridgeRouteKey`: outbound tag and target of a connection line. */
  function ParseRouteKey(message: string): (key: Option<Key>)
    ensures key.Some? ==> key.value.outbound != "" && key.value.target != ""
  {
    match FirstIndex(message, "outbound/", 0)
    case None => None
    case Some(start) =>
      var component := message[start + |"outbound/"|..];
      match FirstIndex(component, "[", 0)
      case None => None
      case Some(open) =>
        match FirstIndex(component, "]", open + 1)
        case None => None
        case Some(close) =>
          var outbound := Trim(component[open + 1..close], IsSpace);
          var detail := component[close + 1..];
          match FirstIndex(detail, "connection to ", 0)
          case None => None
          case Some(at) =>
            var target := Trim(detail[at + |"connection to "|..], IsSpace);
            if outbound == "" || target == "" then None else Some(Key(outbound, target))
  }

  function KeyOf(r: Route): Key {
    Key(r.outbound, r.target)
  }

  predicate Waiting(e: Entry, key: Key) {
    e.chain == [] && ParseRouteKey(e.message) == Some(key)
  }

  predicate Near(t: int, now: int) {
    now - t <= WINDOW
  }

  // ---------------------------------------------------------------------
  // Scans of whole lists
  // ---------------------------------------------------------------------

  /** The latest element that satisfies a condition. */
  function LastIndex<T>(items: seq<T>, hit: T -> bool): (r: Option<nat>)
    ensures r.Some? ==> r.value < |items| && hit(items[r.value])
    ensures r.Some? ==> forall k :: r.value < k < |items| ==> !hit(items[k])
    ensures r.None? ==> forall k :: 0 <= k < |items| ==> !hit(items[k])
  {
    if items == [] then None
    else if hit(items[|items| - 1]) then Some(|items| - 1)
    else LastIndex(items[..|items| - 1], hit)
  }

  function Keep<T>(items: seq<T>, keep: T -> bool): seq<T> {
    if items == [] then []
    else (if keep(items[0]) then [items[0]] else []) + Keep(items[1..], keep)
  }

  function Reverse<T>(items: seq<T>): (r: seq<T>)
    ensures |r| == |items|
  {
    if items == [] then [] else Reverse(items[1..]) + [items[0]]
  }

  // ---------------------------------------------------------------------
  // The specification
  // ---------------------------------------------------------------------

  /** `attached` records which route enriched which line; `clock` the latest time seen. */
  datatype Log = Log(
    nextSequence: nat, entries: seq<Entry>, pending: seq<Route>,
    clock: int, serials: nat, attached: map<Route, nat>)

  /** Only recent routes keep waiting. */
  function Prune(pending: seq<Route>, now: int): seq<Route> {
    Keep(pending, (r: Route) => Near(r.recordedAt, now))
  }

  /** The latest recent route with this key. */
  function PendingFor(pending: seq<Route>, key: Key, now: int): (r: Option<nat>)
    ensures r.Some? ==> r.value < |pending|
  {
    LastIndex(pending, (r: Route) => KeyOf(r) == key && Near(r.recordedAt, now))
  }

  /** The latest recent line that waits for a route with this key. */
  function WaitingFor(entries: seq<Entry>, key: Key, now: int): (r: Option<nat>)
    ensures r.Some? ==> r.value < |entries|
  {
    LastIndex(entries, (e: Entry) => Waiting(e, key) && Near(e.recordedAt, now))
  }

  function Without<T>(items: seq<T>, i: nat): seq<T>
    requires i < |items|
  {
    items[..i] + items[i + 1..]
  }

  function Push(entries: seq<Entry>, e: Entry): (r: seq<Entry>)
    ensures r != [] && r[|r| - 1] == e
  {
    (if |entries| >= LIMIT then entries[1..] else entries) + [e]
  }

  function Enrich(e: Entry, r: Route): Entry {
    e.(chain := r.chain, sourceIP := r.sourceIP)
  }

  /** A line is logged: it takes the latest fitting route, if one waits. */
  function Append(log: Log, level: string, message: string, now: int): Log {
    var e := Entry(log.nextSequence + 1, level, message, [], "", now);
    var key := ParseRouteKey(message);
    var found := if key.Some? then PendingFor(log.pending, key.value, now) else None;
    if found.Some? then
      var r := log.pending[found.value];
      log.(nextSequence := log.nextSequence + 1, entries := Push(log.entries, Enrich(e, r)),
           pending := Without(log.pending, found.value), clock := now,
           attached := log.attached[r := e.sequence])
    else
      log.(nextSequence := log.nextSequence + 1, entries := Push(log.entries, e),
           pending := if key.Some? then Prune(log.pending, now) else log.pending, clock := now)
  }

  /** A route is reported: the latest fitting line takes it, or it waits. */
  function Record(log: Log, target: string, outbound: string, chain: seq<string>, sourceIP: string, now: int): Log {
    if target == "" || outbound == "" || chain == [] then log else
      var r := Route(log.serials, target, outbound, Reverse(chain), sourceIP, now);
      var found := WaitingFor(log.entries, KeyOf(r), now);
      if found.Some? then
        var e := log.entries[found.value];
        log.(entries := log.entries[found.value := Enrich(e, r)], clock := now, serials := log.serials + 1,
             attached := log.attached[r := e.sequence])
      else
        log.(pending := Prune(log.pending + [r], now), clock := now, serials := log.serials + 1)
  }

  const EMPTY := Log(0, [], [], 0, 0, map[])

  // ---------------------------------------------------------------------
  // The invariant
  // ---------------------------------------------------------------------

  /** Buffered sequence numbers are contiguous and end at the last one given out. */
  predicate Contiguous(log: Log) {
    && |log.entries| == (if log.nextSequence <= LIMIT then log.nextSequence else LIMIT)
    && forall k :: 0 <= k < |log.entries| ==> log.entries[k].sequence == log.nextSequence - |log.entries| + 1 + k
  }

  /** Times do not decrease, and none lies ahead of the clock. */
  predicate Timed(log: Log) {
    && (forall j, k :: 0 <= j < k < |log.entries| ==> log.entries[j].recordedAt <= log.entries[k].recordedAt)
    && (forall j, k :: 0 <= j < k < |log.pending| ==> log.pending[j].recordedAt <= log.pending[k].recordedAt)
    && (forall k :: 0 <= k < |log.entries| ==> log.entries[k].recordedAt <= log.clock)
    && (forall k :: 0 <= k < |log.pending| ==> log.pending[k].recordedAt <= log.clock)
  }

  predicate Apart(e: Entry, r: Route) {
    e.recordedAt - r.recordedAt > WINDOW || r.recordedAt - e.recordedAt > WINDOW
  }

  /** No match is missed: no waiting line and no waiting route with its key are within the window. */
  predicate NothingMissed(log: Log) {
    forall j, k :: 0 <= j < |log.entries| && 0 <= k < |log.pending| && Waiting(log.entries[j], KeyOf(log.pending[k])) ==>
      Apart(log.entries[j], log.pending[k])
  }

  /** Waiting routes have a chain, and no record waits or is attached twice. */
  predicate RoutesDistinct(log: Log) {
    && (forall k :: 0 <= k < |log.pending| ==> log.pending[k].chain != [] && log.pending[k].serial < log.serials)
    && (forall j, k :: 0 <= j < k < |log.pending| ==> log.pending[j].serial != log.pending[k].serial)
    && (forall k, r :: 0 <= k < |log.pending| && r in log.attached ==> log.pending[k].serial != r.serial)
    && (forall r :: r in log.attached ==> r.serial < log.serials)
    && (forall r, q :: r in log.attached && q in log.attached && r.serial == q.serial ==> r == q)
  }

  /** Every route is attached to at most one line (`attached` is a map) and no two to the same line;
      an attached line that is still buffered is no longer waiting. */
  predicate OneToOne(log: Log) {
    && (forall r, q :: r in log.attached && q in log.attached && r != q ==> log.attached[r] != log.attached[q])
    && (forall r :: r in log.attached ==> log.attached[r] <= log.nextSequence)
    && (forall k, r :: 0 <= k < |log.entries| && r in log.attached && log.attached[r] == log.entries[k].sequence ==>
          log.entries[k].chain != [])
  }

  /** The line shows this route, which has its key and was reported within the window. */
  predicate Shows(e: Entry, r: Route) {
    && e.chain == r.chain && e.sourceIP == r.sourceIP
    && ParseRouteKey(e.message) == Some(KeyOf(r)) && !Apart(e, r)
  }

  /** A buffered line is enriched exactly if a route is attached to it, and then shows that route. */
  predicate Faithful(log: Log) {
    && (forall k, r :: 0 <= k < |log.entries| && r in log.attached && log.attached[r] == log.entries[k].sequence ==>
          Shows(log.entries[k], r))
    && (forall k :: 0 <= k < |log.entries| && log.entries[k].chain != [] ==>
          exists r :: r in log.attached && log.attached[r] == log.entries[k].sequence)
  }

  predicate Valid(log: Log) {
    Contiguous(log) && Timed(log) && NothingMissed(log) && RoutesDistinct(log) && OneToOne(log)
  }

  predicate PendingInOrder(pending: seq<Route>) {
    forall j, k :: 0 <= j < k < |pending| ==> pending[j].recordedAt <= pending[k].recordedAt
  }

  /** On an ordered list the routes to keep are a suffix, so dropping a prefix agrees with looking
      at every route. */
  lemma {:induction false} PruneIsSuffix(pending: seq<Route>, now: int, n: nat)
    requires PendingInOrder(pending) && n <= |pending|
    requires forall k :: 0 <= k < n ==> !Near(pending[k].recordedAt, now)
    requires n < |pending| ==> Near(pending[n].recordedAt, now)
    ensures Prune(pending, now) == pending[n..]
    decreases |pending|
  {
    if pending != [] {
      if n > 0 {
        PruneIsSuffix(pending[1..], now, n - 1);
        assert pending[1..][n - 1..] == pending[n..];
      } else {
        if |pending| > 1 {
          assert Near(pending[1].recordedAt, now);
        }
        PruneIsSuffix(pending[1..], now, 0);
        assert pending == [pending[0]] + pending[1..];
      }
    }
  }

  /** How many routes are too old. */
  function FirstNear(pending: seq<Route>, now: int): (n: nat)
    ensures n <= |pending|
    ensures forall k :: 0 <= k < n ==> !Near(pending[k].recordedAt, now)
    ensures n < |pending| ==> Near(pending[n].recordedAt, now)
  {
    if pending == [] || Near(pending[0].recordedAt, now) then 0 else FirstNear(pending[1..], now) + 1
  }

  /** A shorter waiting list misses nothing more. */
  lemma SuffixKeepsValid(log: Log, n: nat)
    requires Valid(log) && n <= |log.pending|
    ensures Valid(log.(pending := log.pending[n..]))
  {
    var pending := log.pending[n..];
    assert forall k :: 0 <= k < |pending| ==> pending[k] == log.pending[n + k];
  }

  lemma WithoutAt<T>(items: seq<T>, i: nat)
    requires i < |items|
    ensures |Without(items, i)| == |items| - 1
    ensures forall k :: 0 <= k < |items| - 1 ==> Without(items, i)[k] == items[if k < i then k else k + 1]
  {
  }

  lemma WithoutKeepsTimes(log: Log, i: nat)
    requires Timed(log) && i < |log.pending|
    ensures Timed(log.(pending := Without(log.pending, i)))
  {
    WithoutAt(log.pending, i);
    hide Without;
  }

  lemma WithoutKeepsRoutes(log: Log, i: nat)
    requires RoutesDistinct(log) && i < |log.pending|
    ensures RoutesDistinct(log.(pending := Without(log.pending, i)))
    ensures forall k :: 0 <= k < |Without(log.pending, i)| ==>
      Without(log.pending, i)[k].serial != log.pending[i].serial
  {
    WithoutAt(log.pending, i);
    hide Without;
  }

  lemma WithoutMissesNothing(log: Log, i: nat)
    requires NothingMissed(log) && i < |log.pending|
    ensures NothingMissed(log.(pending := Without(log.pending, i)))
  {
    WithoutAt(log.pending, i);
    hide Without, ParseRouteKey;
  }

  lemma WithoutKeepsValid(log: Log, i: nat)
    requires Valid(log) && i < |log.pending|
    ensures Valid(log.(pending := Without(log.pending, i)))
    ensures forall k :: 0 <= k < |Without(log.pending, i)| ==>
      Without(log.pending, i)[k].serial != log.pending[i].serial
  {
    hide Without, Timed, RoutesDistinct, NothingMissed;
    WithoutKeepsTimes(log, i);
    WithoutKeepsRoutes(log, i);
    WithoutMissesNothing(log, i);
  }

  lemma PruneKeepsValid(log: Log, now: int)
    requires Valid(log)
    ensures Valid(log.(pending := Prune(log.pending, now)))
  {
    var n := FirstNear(log.pending, now);
    PruneIsSuffix(log.pending, now, n);
    SuffixKeepsValid(log, n);
  }

  /** A new line that no waiting route fits, or that is enriched already. */
  lemma PushKeepsValid(log: Log, e: Entry)
    requires Valid(log)
    requires e.sequence == log.nextSequence + 1 && e.recordedAt >= log.clock
    requires forall k :: 0 <= k < |log.pending| && Waiting(e, KeyOf(log.pending[k])) ==> Apart(e, log.pending[k])
    ensures Valid(log.(nextSequence := e.sequence, entries := Push(log.entries, e), clock := e.recordedAt))
  {
    var log' := log.(nextSequence := e.sequence, entries := Push(log.entries, e), clock := e.recordedAt);
    var d := if |log.entries| >= LIMIT then 1 else 0;
    assert forall k :: 0 <= k < |log'.entries| ==>
      log'.entries[k] == if k == |log'.entries| - 1 then e else log.entries[k + d];
    assert Contiguous(log');
    assert Timed(log');
    assert NothingMissed(log');
    assert OneToOne(log');
  }

  lemma AppendKeepsValid(log: Log, level: string, message: string, now: int)
    requires Valid(log) && now >= log.clock
    ensures Valid(Append(log, level, message, now))
  {
    var key := ParseRouteKey(message);
    if key.Some? && PendingFor(log.pending, key.value, now).Some? {
      AppendMatched(log, level, message, now);
    } else {
      AppendUnmatched(log, level, message, now);
    }
  }

  lemma PendingHasChain(log: Log, i: nat)
    requires Valid(log) && i < |log.pending|
    ensures log.pending[i].chain != []
  {
  }

  lemma AppendMatched(log: Log, level: string, message: string, now: int)
    requires Valid(log) && now >= log.clock
    requires ParseRouteKey(message).Some? && PendingFor(log.pending, ParseRouteKey(message).value, now).Some?
    ensures Valid(Append(log, level, message, now))
  {
    hide Valid, ParseRouteKey, PendingFor, Without, Push;
    var i := PendingFor(log.pending, ParseRouteKey(message).value, now).value;
    var r := log.pending[i];
    var e := Enrich(Entry(log.nextSequence + 1, level, message, [], "", now), r);
    PendingHasChain(log, i);
    WithoutKeepsValid(log, i);
    var taken := log.(pending := Without(log.pending, i));
    PushKeepsValid(taken, e);
    var pushed := taken.(nextSequence := e.sequence, entries := Push(taken.entries, e), clock := now);
    AttachNewKeepsValid(pushed, r, log);
  }

  lemma AppendUnmatched(log: Log, level: string, message: string, now: int)
    requires Valid(log) && now >= log.clock
    requires ParseRouteKey(message).Some? ==> PendingFor(log.pending, ParseRouteKey(message).value, now).None?
    ensures Valid(Append(log, level, message, now))
  {
    hide Valid, ParseRouteKey, PendingFor, Prune, Push, PendingInOrder;
    var key := ParseRouteKey(message);
    var e := Entry(log.nextSequence + 1, level, message, [], "", now);
    var pending := if key.Some? then Prune(log.pending, now) else log.pending;
    if key.Some? {
      ValidInOrder(log);
      PruneKeepsValid(log, now);
      NoPendingFits(log.pending, key.value, now);
    }
    PushKeepsValid(log.(pending := pending), e);
  }

  lemma ValidInOrder(log: Log)
    requires Valid(log)
    ensures PendingInOrder(log.pending)
  {
  }

  /** After a fruitless scan every pruned route with the key is too old. */
  lemma NoPendingFits(pending: seq<Route>, key: Key, now: int)
    requires PendingInOrder(pending) && PendingFor(pending, key, now).None?
    ensures forall k :: 0 <= k < |Prune(pending, now)| && KeyOf(Prune(pending, now)[k]) == key ==>
      now - Prune(pending, now)[k].recordedAt > WINDOW
  {
    var n := FirstNear(pending, now);
    PruneIsSuffix(pending, now, n);
    forall k | n <= k < |pending| && KeyOf(pending[k]) == key ensures now - pending[k].recordedAt > WINDOW {
    }
  }

  lemma AttachNewKeepsValid(log: Log, r: Route, before: Log)
    requires Valid(log) && Valid(before) && r in before.pending
    requires log.serials == before.serials && log.attached == before.attached
    requires log.nextSequence == before.nextSequence + 1
    requires log.entries != [] && log.entries[|log.entries| - 1].chain != []
    requires forall k :: 0 <= k < |log.pending| ==> log.pending[k].serial != r.serial
    ensures Valid(log.(attached := log.attached[r := log.nextSequence]))
  {
  }

  lemma RecordKeepsValid(log: Log, target: string, outbound: string, chain: seq<string>, sourceIP: string, now: int)
    requires Valid(log) && now >= log.clock
    ensures Valid(Record(log, target, outbound, chain, sourceIP, now))
  {
    if target != "" && outbound != "" && chain != [] {
      var r := Route(log.serials, target, outbound, Reverse(chain), sourceIP, now);
      if WaitingFor(log.entries, KeyOf(r), now).Some? {
        EnrichKeepsValid(log, r, WaitingFor(log.entries, KeyOf(r), now).value);
      } else {
        WaitKeepsValid(log, r);
      }
    }
  }

  /** A waiting line is enriched. */
  function Enriched(log: Log, r: Route, i: nat): Log
    requires i < |log.entries|
  {
    log.(entries := log.entries[i := Enrich(log.entries[i], r)], clock := r.recordedAt,
         serials := log.serials + 1, attached := log.attached[r := log.entries[i].sequence])
  }

  lemma EnrichedAt(log: Log, r: Route, i: nat)
    requires i < |log.entries|
    ensures forall k :: 0 <= k < |log.entries| ==>
      Enriched(log, r, i).entries[k] == if k == i then Enrich(log.entries[i], r) else log.entries[k]
  {
  }

  lemma EnrichKeepsLines(log: Log, r: Route, i: nat)
    requires Contiguous(log) && Timed(log) && NothingMissed(log)
    requires i < |log.entries| && r.recordedAt >= log.clock && r.chain != []
    ensures Contiguous(Enriched(log, r, i)) && Timed(Enriched(log, r, i)) && NothingMissed(Enriched(log, r, i))
  {
    EnrichedAt(log, r, i);
    hide ParseRouteKey;
  }

  lemma EnrichKeepsRoutes(log: Log, r: Route, i: nat)
    requires Contiguous(log) && RoutesDistinct(log) && OneToOne(log)
    requires i < |log.entries| && log.entries[i].chain == [] && r.serial == log.serials && r.chain != []
    ensures RoutesDistinct(Enriched(log, r, i)) && OneToOne(Enriched(log, r, i))
  {
    EnrichedAt(log, r, i);
  }

  lemma EnrichKeepsValid(log: Log, r: Route, i: nat)
    requires Valid(log) && i < |log.entries| && log.entries[i].chain == []
    requires r.serial == log.serials && r.recordedAt >= log.clock && r.chain != []
    ensures Valid(Enriched(log, r, i))
  {
    hide Contiguous, Timed, NothingMissed, RoutesDistinct, OneToOne, Enriched;
    EnrichKeepsLines(log, r, i);
    EnrichKeepsRoutes(log, r, i);
  }

  /** A route that fits no recent line starts to wait. */
  lemma WaitKeepsValid(log: Log, r: Route)
    requires Valid(log) && r.serial == log.serials && r.recordedAt >= log.clock && r.chain != []
    requires WaitingFor(log.entries, KeyOf(r), r.recordedAt).None?
    ensures Valid(log.(pending := Prune(log.pending + [r], r.recordedAt), clock := r.recordedAt, serials := log.serials + 1))
  {
    var log' := log.(pending := log.pending + [r], clock := r.recordedAt, serials := log.serials + 1);
    hide Prune, Contiguous, Timed, NothingMissed, RoutesDistinct, OneToOne, WaitingFor;
    WaitMissesNothing(log, r);
    WaitKeepsRoutes(log, r);
    PruneKeepsValid(log', r.recordedAt);
  }

  lemma WaitKeepsRoutes(log: Log, r: Route)
    requires Contiguous(log) && Timed(log) && RoutesDistinct(log) && OneToOne(log)
    requires r.serial == log.serials && r.recordedAt >= log.clock && r.chain != []
    ensures
      var log' := log.(pending := log.pending + [r], clock := r.recordedAt, serials := log.serials + 1);
      Contiguous(log') && Timed(log') && RoutesDistinct(log') && OneToOne(log')
  {
    var log' := log.(pending := log.pending + [r], clock := r.recordedAt, serials := log.serials + 1);
    assert forall k :: 0 <= k < |log'.pending| ==>
      log'.pending[k] == if k == |log.pending| then r else log.pending[k];
  }

  lemma WaitMissesNothing(log: Log, r: Route)
    requires NothingMissed(log) && WaitingFor(log.entries, KeyOf(r), r.recordedAt).None?
    ensures NothingMissed(log.(pending := log.pending + [r], clock := r.recordedAt, serials := log.serials + 1))
  {
    hide ParseRouteKey;
    var pending := log.pending + [r];
    assert forall k :: 0 <= k < |pending| ==> pending[k] == if k == |log.pending| then r else log.pending[k];
    assert forall j :: 0 <= j < |log.entries| && Waiting(log.entries[j], KeyOf(r)) ==> Apart(log.entries[j], r);
  }

  // ---------------------------------------------------------------------
  // What enriched lines show
  // ---------------------------------------------------------------------

  /** A line goes last, as it is or showing a route that was attached to no line yet. */
  lemma PushKeepsFaithful(log: Log, e: Entry, r: Option<Route>, log': Log)
    requires Contiguous(log) && OneToOne(log) && Faithful(log) && e.sequence == log.nextSequence + 1
    requires r.None? ==> e.chain == []
    requires r.Some? ==> Shows(e, r.value) && r.value !in log.attached
    requires log'.entries == Push(log.entries, e)
    requires log'.attached == if r.Some? then log.attached[r.value := e.sequence] else log.attached
    ensures Faithful(log')
  {
    hide Shows;
    var d := if |log.entries| >= LIMIT then 1 else 0;
    assert forall k :: 0 <= k < |log'.entries| ==>
      log'.entries[k] == if k == |log'.entries| - 1 then e else log.entries[k + d];
    assert r.Some? ==> log'.attached[r.value] == e.sequence;
    forall k | 0 <= k < |log'.entries| && log'.entries[k].chain != []
      ensures exists q :: q in log'.attached && log'.attached[q] == log'.entries[k].sequence
    {
      if k < |log'.entries| - 1 {
        var q :| q in log.attached && log.attached[q] == log.entries[k + d].sequence;
        assert q in log'.attached && log'.attached[q] == log.entries[k + d].sequence;
      }
    }
  }

  lemma AppendKeepsFaithful(log: Log, level: string, message: string, now: int)
    requires Valid(log) && Faithful(log) && now >= log.clock
    ensures Faithful(Append(log, level, message, now))
  {
    hide ParseRouteKey, Faithful, Push, Prune, NothingMissed;
    var key := ParseRouteKey(message);
    var found := if key.Some? then PendingFor(log.pending, key.value, now) else None;
    var e := Entry(log.nextSequence + 1, level, message, [], "", now);
    var log' := Append(log, level, message, now);
    if found.Some? {
      var r := log.pending[found.value];
      assert Shows(Enrich(e, r), r) && r !in log.attached;
      PushKeepsFaithful(log, Enrich(e, r), Some(r), log');
    } else {
      PushKeepsFaithful(log, e, None, log');
    }
  }

  lemma RecordKeepsFaithful(log: Log, target: string, outbound: string, chain: seq<string>, sourceIP: string, now: int)
    requires Valid(log) && Faithful(log) && now >= log.clock
    ensures Faithful(Record(log, target, outbound, chain, sourceIP, now))
  {
    hide ParseRouteKey, Prune, NothingMissed;
    if target != "" && outbound != "" && chain != [] {
      var r := Route(log.serials, target, outbound, Reverse(chain), sourceIP, now);
      var found := WaitingFor(log.entries, KeyOf(r), now);
      if found.Some? {
        assert Shows(Enrich(log.entries[found.value], r), r);
        EnrichKeepsFaithful(log, r, found.value, Record(log, target, outbound, chain, sourceIP, now));
      }
    }
  }

  /** A buffered line is enriched with a route that was attached to no line yet. */
  lemma EnrichKeepsFaithful(log: Log, r: Route, i: nat, log': Log)
    requires Contiguous(log) && OneToOne(log) && Faithful(log) && i < |log.entries| && log.entries[i].chain == []
    requires r !in log.attached && Shows(Enrich(log.entries[i], r), r)
    requires log'.entries == log.entries[i := Enrich(log.entries[i], r)]
    requires log'.attached == log.attached[r := log.entries[i].sequence]
    ensures Faithful(log')
  {
    hide Shows;
    assert forall k :: 0 <= k < |log'.entries| ==>
      log'.entries[k] == if k == i then Enrich(log.entries[i], r) else log.entries[k];
    assert log'.attached[r] == log.entries[i].sequence;
    forall k | 0 <= k < |log'.entries| && log'.entries[k].chain != []
      ensures exists q :: q in log'.attached && log'.attached[q] == log'.entries[k].sequence
    {
      if k != i {
        var q :| q in log.attached && log.attached[q] == log.entries[k].sequence;
        assert q in log'.attached && log'.attached[q] == log.entries[k].sequence;
      }
    }
  }

  // ---------------------------------------------------------------------
  // Polling
  // ---------------------------------------------------------------------

  /** A connection line whose route may still arrive is held back for a moment. */
  predicate Held(e: Entry, now: int) {
    ParseRouteKey(e.message).Some? && e.chain == [] && now - e.recordedAt < GRACE
  }

  /** The lines past a cursor, up to the first one held back. */
  function Collect(entries: seq<Entry>, cursor: nat, now: int): seq<Entry> {
    if entries == [] then []
    else if entries[0].sequence <= cursor then Collect(entries[1..], cursor, now)
    else if Held(entries[0], now) then []
    else [entries[0]] + Collect(entries[1..], cursor, now)
  }

  datatype Batch = Batch(nextCursor: nat, entries: seq<Entry>)

  function Snapshot(log: Log, cursor: nat, now: int): Batch {
    var from := if cursor > log.nextSequence then 0 else cursor;
    var entries := Collect(log.entries, from, now);
    Batch(if entries == [] then from else entries[|entries| - 1].sequence, entries)
  }

  /** How many lines are no longer buffered: the last sequence number that is gone. */
  function Evicted(log: Log): int {
    log.nextSequence - |log.entries|
  }

  function Max(a: int, b: int): int {
    if a >= b then a else b
  }

  /** Consecutively numbered lines. */
  predicate Numbered(entries: seq<Entry>, first: int) {
    forall k :: 0 <= k < |entries| ==> entries[k].sequence == first + k
  }

  lemma {:induction false} SeenLinesAreSkipped(entries: seq<Entry>, first: int, cursor: nat, now: int, skip: nat)
    requires Numbered(entries, first) && skip <= |entries| && (skip > 0 ==> first + skip <= cursor + 1)
    ensures Collect(entries, cursor, now) == Collect(entries[skip..], cursor, now)
  {
    hide Held;
    if skip > 0 {
      SeenLinesAreSkipped(entries[1..], first + 1, cursor, now, skip - 1);
      assert entries[1..][skip - 1..] == entries[skip..];
    } else {
      assert entries[0..] == entries;
    }
  }

  lemma {:induction false} UnseenLinesUntilHeld(entries: seq<Entry>, first: int, cursor: nat, now: int) returns (n: nat)
    requires Numbered(entries, first) && first > cursor
    ensures n <= |entries| && Collect(entries, cursor, now) == entries[..n]
    ensures n < |entries| ==> Held(entries[n], now)
  {
    hide Held;
    if entries == [] || Held(entries[0], now) {
      n := 0;
    } else {
      var m := UnseenLinesUntilHeld(entries[1..], first + 1, cursor, now);
      n := m + 1;
      assert [entries[0]] + entries[1..][..m] == entries[..n];
    }
  }

  /** A poll delivers, in order and without gaps, buffered lines that follow the cursor; it jumps
      over evicted lines only, and leaves out only lines behind one that is held back. */
  lemma PollDelivers(log: Log, cursor: nat, now: int)
    requires Valid(log) && cursor <= log.nextSequence
    ensures
      var batch := Snapshot(log, cursor, now);
      var low := Max(cursor, Evicted(log));
      && (forall k :: 0 <= k < |batch.entries| ==> batch.entries[k].sequence == low + 1 + k)
      && (forall k :: 0 <= k < |batch.entries| ==> batch.entries[k] in log.entries)
      && batch.nextCursor == (if batch.entries == [] then cursor else low + |batch.entries|)
      && cursor <= batch.nextCursor <= log.nextSequence
      && (low + |batch.entries| < log.nextSequence ==>
            Held(log.entries[low + |batch.entries| - Evicted(log)], now))
  {
    hide Held, Valid, Snapshot, ParseRouteKey;
    EntriesAreNumbered(log);
    var n := PolledSlice(log, cursor, now);
    var batch, skip := Snapshot(log, cursor, now), Max(cursor, Evicted(log)) - Evicted(log);
    assert |batch.entries| == n;
    forall k | 0 <= k < n
      ensures batch.entries[k].sequence == Max(cursor, Evicted(log)) + 1 + k && batch.entries[k] in log.entries
    {
      assert batch.entries[k] == log.entries[skip + k];
    }
  }

  lemma PolledSlice(log: Log, cursor: nat, now: int) returns (n: nat)
    requires Valid(log) && cursor <= log.nextSequence
    ensures 0 <= Evicted(log)
    ensures
      var batch := Snapshot(log, cursor, now);
      var skip := Max(cursor, Evicted(log)) - Evicted(log);
      && skip + n <= |log.entries| && batch.entries == log.entries[skip..skip + n]
      && (skip + n < |log.entries| ==> Held(log.entries[skip + n], now))
      && batch.nextCursor == (if n == 0 then cursor else batch.entries[n - 1].sequence)
  {
    EntriesAreNumbered(log);
    hide Held, Valid, Collect, Numbered;
    var low := Max(cursor, Evicted(log));
    n := CollectIsSlice(log.entries, Evicted(log) + 1, cursor, now, low - Evicted(log));
  }

  lemma CollectIsSlice(entries: seq<Entry>, first: int, cursor: nat, now: int, skip: nat) returns (n: nat)
    requires Numbered(entries, first) && skip <= |entries| && first + skip > cursor && (skip > 0 ==> first + skip <= cursor + 1)
    ensures skip + n <= |entries| && Collect(entries, cursor, now) == entries[skip..skip + n]
    ensures skip + n < |entries| ==> Held(entries[skip + n], now)
  {
    hide Held, Collect;
    SeenLinesAreSkipped(entries, first, cursor, now, skip);
    n := UnseenLinesUntilHeld(entries[skip..], first + skip, cursor, now);
    assert entries[skip..][..n] == entries[skip..skip + n];
  }

  lemma EntriesAreNumbered(log: Log)
    requires Valid(log)
    ensures Numbered(log.entries, Evicted(log) + 1) && 0 <= Evicted(log)
  {
  }

  /** A poll that comes late enough after the last line returns everything past the cursor. */
  lemma LatePollsReturnEverything(log: Log, cursor: nat, now: int)
    requires Valid(log) && cursor <= log.nextSequence
    requires log.entries != [] ==> now - log.entries[|log.entries| - 1].recordedAt >= GRACE
    ensures
      var batch := Snapshot(log, cursor, now);
      var low := Max(cursor, Evicted(log));
      && |batch.entries| == log.nextSequence - low
      && (batch.entries != [] ==> batch.nextCursor == log.nextSequence)
      && (cursor < log.nextSequence ==> batch.entries != [])
  {
    hide ParseRouteKey;
    PollDelivers(log, cursor, now);
  }

  // ---------------------------------------------------------------------
  // Whole runs of lines, routes and polls
  // ---------------------------------------------------------------------

  /** A reader that chains its polls. `missed` records lines evicted before a poll could see them. */
  datatype Reader = Reader(cursor: nat, delivered: seq<nat>, missed: set<nat>)

  datatype Happening =
    | Line(level: string, message: string, at: int)
    | Connection(target: string, outbound: string, chain: seq<string>, sourceIP: string, at: int)
    | Poll(at: int)

  datatype System = System(log: Log, reader: Reader)

  function Sequences(entries: seq<Entry>): (r: seq<nat>)
    ensures |r| == |entries| && forall k :: 0 <= k < |r| ==> r[k] == entries[k].sequence
  {
    seq(|entries|, k requires 0 <= k < |entries| => entries[k].sequence)
  }

  function Min(a: int, b: int): int {
    if a <= b then a else b
  }

  /** The numbers after one and up to another. */
  function Numbers(after: nat, last: int): (r: set<nat>)
    ensures forall n: nat :: n in r <==> after < n <= last
    decreases last - after
  {
    if last <= after then {} else Numbers(after, last - 1) + {last}
  }

  function Happen(s: System, h: Happening): System {
    match h
    case Line(level, message, at) => s.(log := Append(s.log, level, message, at))
    case Connection(target, outbound, chain, sourceIP, at) =>
      s.(log := Record(s.log, target, outbound, chain, sourceIP, at))
    case Poll(at) =>
      var batch := Snapshot(s.log, s.reader.cursor, at);
      var gone := Numbers(s.reader.cursor, Min(batch.nextCursor, Evicted(s.log)));
      s.(reader := Reader(batch.nextCursor, s.reader.delivered + Sequences(batch.entries), s.reader.missed + gone))
  }

  function After(happenings: seq<Happening>): System {
    if happenings == [] then System(EMPTY, Reader(0, [], {}))
    else Happen(After(happenings[..|happenings| - 1]), happenings[|happenings| - 1])
  }

  /** The clock the source reads is monotonic. */
  predicate InOrder(happenings: seq<Happening>) {
    && (forall j, k :: 0 <= j < k < |happenings| ==> happenings[j].at <= happenings[k].at)
    && (forall k :: 0 <= k < |happenings| ==> happenings[k].at >= 0)
  }

  /** Everything up to the cursor was delivered once, in increasing order, or was gone. */
  predicate ReaderOk(log: Log, r: Reader) {
    && r.cursor <= log.nextSequence
    && (forall j, k :: 0 <= j < k < |r.delivered| ==> r.delivered[j] < r.delivered[k])
    && (forall k :: 0 <= k < |r.delivered| ==> 1 <= r.delivered[k] <= r.cursor)
    && (forall n: nat :: 1 <= n <= r.cursor ==> n in r.delivered || n in r.missed)
    && (forall n :: n in r.missed ==> n !in r.delivered && 1 <= n <= r.cursor && n <= Evicted(log))
  }

  lemma PollKeepsReader(log: Log, r: Reader, at: int)
    requires Valid(log) && ReaderOk(log, r)
    ensures ReaderOk(log, Happen(System(log, r), Poll(at)).reader)
  {
    hide ParseRouteKey, Held, Valid;
    PollDelivers(log, r.cursor, at);
    var batch := Snapshot(log, r.cursor, at);
    var low := Max(r.cursor, Evicted(log));
    hide Snapshot;
    var r' := Happen(System(log, r), Poll(at)).reader;
    var news := Sequences(batch.entries);
    assert r'.delivered == r.delivered + news;
    forall n: nat | 1 <= n <= r'.cursor ensures n in r'.delivered || n in r'.missed {
      if n <= r.cursor {
        assert n in r.delivered || n in r.missed;
      } else if n > low {
        assert news[n - low - 1] == n;
      }
    }
  }

  /** Invariant of every run: the buffer is valid, so no match is missed and routes and lines are
      one to one; a line is enriched exactly with the route attached to it; and the chained polls
      have delivered everything they could. */
  lemma {:induction false} RunIsValid(happenings: seq<Happening>)
    requires InOrder(happenings)
    ensures Valid(After(happenings).log) && Faithful(After(happenings).log)
    ensures ReaderOk(After(happenings).log, After(happenings).reader)
    ensures happenings != [] ==> After(happenings).log.clock <= happenings[|happenings| - 1].at
    decreases |happenings|
  {
    if happenings == [] {
      EmptyIsValid();
    } else {
      hide Valid, Faithful, ReaderOk, Happen;
      var front, last := happenings[..|happenings| - 1], happenings[|happenings| - 1];
      FrontIsInOrder(happenings);
      hide InOrder;
      RunIsValid(front);
      HappeningKeepsValid(After(front), last);
    }
  }

  lemma FrontIsInOrder(happenings: seq<Happening>)
    requires InOrder(happenings) && happenings != []
    ensures
      var front := happenings[..|happenings| - 1];
      && InOrder(front)
      && 0 <= happenings[|front|].at
      && (front != [] ==> front[|front| - 1].at <= happenings[|front|].at)
  {
  }

  lemma EmptyIsValid()
    ensures Valid(EMPTY) && Faithful(EMPTY) && ReaderOk(EMPTY, Reader(0, [], {}))
  {
  }

  lemma HappeningKeepsValid(s: System, h: Happening)
    requires Valid(s.log) && Faithful(s.log) && ReaderOk(s.log, s.reader) && h.at >= s.log.clock
    ensures Valid(Happen(s, h).log) && Faithful(Happen(s, h).log) && ReaderOk(Happen(s, h).log, Happen(s, h).reader)
    ensures Happen(s, h).log.clock <= h.at
  {
    hide Valid, Faithful, ReaderOk, Append, Record, Snapshot;
    match h
    case Line(level, message, at) =>
      AppendKeepsFaithful(s.log, level, message, at);
      AppendKeepsValid(s.log, level, message, at);
      AppendKeepsReader(s.log, level, message, at, s.reader);
    case Connection(target, outbound, chain, sourceIP, at) =>
      RecordKeepsFaithful(s.log, target, outbound, chain, sourceIP, at);
      RecordKeepsValid(s.log, target, outbound, chain, sourceIP, at);
      RecordKeepsReader(s.log, target, outbound, chain, sourceIP, at, s.reader);
    case Poll(at) =>
      PollKeepsReader(s.log, s.reader, at);
  }

  lemma AppendKeepsReader(log: Log, level: string, message: string, now: int, r: Reader)
    requires Valid(log) && ReaderOk(log, r)
    ensures ReaderOk(Append(log, level, message, now), r)
    ensures Append(log, level, message, now).clock == now
  {
    hide ParseRouteKey;
  }

  lemma RecordKeepsReader(
    log: Log, target: string, outbound: string, chain: seq<string>, sourceIP: string, now: int, r: Reader)
    requires ReaderOk(log, r)
    ensures ReaderOk(Record(log, target, outbound, chain, sourceIP, now), r)
    ensures Record(log, target, outbound, chain, sourceIP, now).clock in {log.clock, now}
  {
    hide ParseRouteKey;
  }

  // ---------------------------------------------------------------------
  // The buffer
  // ---------------------------------------------------------------------

  lemma {:induction false} ReverseAt<T>(items: seq<T>, k: nat)
    requires k < |items|
    ensures Reverse(items)[|items| - 1 - k] == items[k]
  {
    if k > 0 {
      ReverseAt(items[1..], k - 1);
    }
  }

  /** The fruitless part of a scan from the end, cut short by the first element that is too old:
      in an ordered list everything before it is too old as well. */
  lemma {:induction false} ScanFound<T>(items: seq<T>, hit: T -> bool, i: nat)
    requires i < |items| && hit(items[i]) && forall k :: i < k < |items| ==> !hit(items[k])
    ensures LastIndex(items, hit) == Some(i)
  {
  }

  lemma {:induction false} ScanFailed<T>(items: seq<T>, hit: T -> bool)
    requires forall k :: 0 <= k < |items| ==> !hit(items[k])
    ensures LastIndex(items, hit) == None
  {
  }

  /** What is collected from a position on, by what is found there. */
  lemma CollectSplits(entries: seq<Entry>, cursor: nat, now: int, i: nat, taken: seq<Entry>)
    requires i < |entries|
    requires Collect(entries, cursor, now) == taken + Collect(entries[i..], cursor, now)
    ensures Collect(entries, cursor, now) ==
            if entries[i].sequence <= cursor then taken + Collect(entries[i + 1..], cursor, now)
            else if Held(entries[i], now) then taken
            else taken + [entries[i]] + Collect(entries[i + 1..], cursor, now)
  {
    hide Held;
    assert entries[i..][1..] == entries[i + 1..];
    assert taken + ([entries[i]] + Collect(entries[i + 1..], cursor, now)) ==
           taken + [entries[i]] + Collect(entries[i + 1..], cursor, now);
  }

  class BridgeLogBuffer {
    var enabled: bool
    var nextSequence: nat
    /** The lines: the first `count` slots, oldest first. */
    const slots: array<Entry>
    var count: nat
    var pendingRoutes: seq<Route>
    var serials: nat
    ghost var clock: int
    ghost var attached: map<Route, nat>

    /** What the buffer holds, as a value. */
    ghost function Contents(): Log
      reads this, slots
      requires count <= slots.Length
    {
      Log(nextSequence, slots[..count], pendingRoutes, clock, serials, attached)
    }

    ghost predicate Ok()
      reads this, slots
    {
      slots.Length == LIMIT && count <= LIMIT && Valid(Contents())
    }

    constructor ()
      ensures Ok() && enabled && Contents() == EMPTY
    {
      enabled, nextSequence, count, pendingRoutes, serials := true, 0, 0, [], 0;
      clock, attached := 0, map[];
      slots := new Entry[LIMIT];
    }

    /** `prunePendingRoutes`: a prefix is dropped, which is right because the list is in order. */
    method PrunePendingRoutes(now: int)
      requires PendingInOrder(pendingRoutes)
      modifies this`pendingRoutes
      ensures pendingRoutes == Prune(old(pendingRoutes), now)
    {
      var firstRecent := 0;
      while firstRecent < |pendingRoutes| && now - pendingRoutes[firstRecent].recordedAt > WINDOW
        invariant firstRecent <= |pendingRoutes|
        invariant forall k :: 0 <= k < firstRecent ==> !Near(pendingRoutes[k].recordedAt, now)
      {
        firstRecent := firstRecent + 1;
      }
      PruneIsSuffix(pendingRoutes, now, firstRecent);
      if firstRecent > 0 {
        pendingRoutes := pendingRoutes[firstRecent..];
      }
    }

    /** `attachPendingRoute`: the scan runs from the latest route and stops at the first old one;
        it finds what a scan of all routes finds. */
    method AttachPendingRoute(entry: Entry) returns (enriched: Entry)
      requires entry.chain == [] && PendingInOrder(pendingRoutes)
      modifies this`pendingRoutes, this`attached
      ensures
        var key := ParseRouteKey(entry.message);
        var found := if key.Some? then PendingFor(old(pendingRoutes), key.value, entry.recordedAt) else None;
        if found.Some? then
          var r := old(pendingRoutes)[found.value];
          enriched == Enrich(entry, r) && pendingRoutes == Without(old(pendingRoutes), found.value)
          && attached == old(attached)[r := entry.sequence]
        else
          enriched == entry && attached == old(attached)
          && pendingRoutes == if key.Some? then Prune(old(pendingRoutes), entry.recordedAt) else old(pendingRoutes)
    {
      hide ParseRouteKey, Prune;
      enriched := entry;
      var key := ParseRouteKey(entry.message);
      if key.None? {
        return;
      }
      ghost var hit := (r: Route) => KeyOf(r) == key.value && Near(r.recordedAt, entry.recordedAt);
      var index := |pendingRoutes|;
      while index > 0
        invariant 0 <= index <= |pendingRoutes| && pendingRoutes == old(pendingRoutes) && attached == old(attached)
        invariant enriched == entry
        invariant forall k :: index <= k < |pendingRoutes| ==> !hit(pendingRoutes[k])
      {
        index := index - 1;
        var route := pendingRoutes[index];
        if entry.recordedAt - route.recordedAt > WINDOW {
          assert forall k :: 0 <= k < index ==> pendingRoutes[k].recordedAt <= route.recordedAt;
          break;
        }
        if route.outbound == key.value.outbound && route.target == key.value.target {
          ScanFound(pendingRoutes, hit, index);
          enriched := entry.(chain := route.chain, sourceIP := route.sourceIP);
          pendingRoutes := pendingRoutes[..index] + pendingRoutes[index + 1..];
          attached := attached[route := entry.sequence];
          return;
        }
      }
      assert forall k :: 0 <= k < |pendingRoutes| ==> !hit(pendingRoutes[k]);
      ScanFailed(pendingRoutes, hit);
      PrunePendingRoutes(entry.recordedAt);
    }

    /** `append`. */
    method AppendLine(level: string, message: string, now: int)
      requires Ok() && now >= clock
      modifies this, slots
      ensures Ok() && enabled == old(enabled)
      ensures Contents() == if enabled then Append(old(Contents()), level, message, now) else old(Contents())
    {
      hide Valid, ParseRouteKey, PendingFor, Prune, PendingInOrder, Without;
      if !enabled {
        return;
      }
      AppendKeepsValid(Contents(), level, message, now);
      ValidInOrder(Contents());
      nextSequence := nextSequence + 1;
      var entry := Entry(nextSequence, level, message, [], "", now);
      entry := AttachPendingRoute(entry);
      clock := now;
      Store(entry);
    }

    /** The newest line goes last; a full buffer loses its oldest one. */
    method Store(entry: Entry)
      requires slots.Length == LIMIT && count <= LIMIT
      modifies this`count, slots
      ensures count <= LIMIT && slots[..count] == Push(old(slots[..count]), entry)
    {
      ghost var lines := slots[..count];
      if count == LIMIT {
        ShiftLeft();
        assert slots[..count - 1] == lines[1..];
        slots[count - 1] := entry;
        assert slots[..count] == slots[..count - 1] + [entry] == lines[1..] + [entry];
      } else {
        slots[count] := entry;
        count := count + 1;
        assert slots[..count] == lines + [entry];
      }
    }

    /** `copy(b.entries, b.entries[1:])`. */
    method ShiftLeft()
      requires slots.Length == LIMIT && count == LIMIT
      modifies slots
      ensures slots[..count - 1] == old(slots[1..count])
    {
      for i := 0 to count - 1
        invariant forall k :: 0 <= k < i ==> slots[k] == old(slots[k + 1])
        invariant forall k :: i <= k < count ==> slots[k] == old(slots[k])
      {
        slots[i] := slots[i + 1];
      }
    }

    /** `recordConnectionRoute`: the scan over the lines also stops at the first old one. */
    method RecordConnectionRoute(target: string, outbound: string, chain: seq<string>, sourceIP: string, now: int)
      requires Ok() && now >= clock
      modifies this, slots
      ensures Ok() && enabled == old(enabled)
      ensures Contents() == if enabled then Record(old(Contents()), target, outbound, chain, sourceIP, now) else old(Contents())
    {
      hide Valid, ParseRouteKey, Prune, Reverse, PendingInOrder, WaitingFor;
      if !enabled || target == "" || outbound == "" || chain == [] {
        return;
      }
      RecordKeepsValid(Contents(), target, outbound, chain, sourceIP, now);
      LinesInOrder(Contents());
      var normalized := Reversed(chain);
      var route := Route(serials, target, outbound, normalized, sourceIP, now);
      ghost var lines := slots[..count];
      var found := FindWaiting(Key(outbound, target), now);
      clock := now;
      serials := serials + 1;
      if found.Some? {
        var entry := slots[found.value];
        slots[found.value] := entry.(chain := normalized, sourceIP := sourceIP);
        attached := attached[route := entry.sequence];
        assert slots[..count] == lines[found.value := Enrich(entry, route)];
      } else {
        AppendedInOrder(old(Contents()), route);
        pendingRoutes := pendingRoutes + [route];
        PrunePendingRoutes(now);
      }
    }

    /** The loop of `recordConnectionRoute`. */
    method FindWaiting(key: Key, now: int) returns (found: Option<nat>)
      requires count <= slots.Length
      requires forall j, k :: 0 <= j < k < count ==> slots[j].recordedAt <= slots[k].recordedAt
      ensures found == WaitingFor(slots[..count], key, now)
    {
      hide ParseRouteKey;
      ghost var hit := (e: Entry) => Waiting(e, key) && Near(e.recordedAt, now);
      ghost var lines := slots[..count];
      var index := count;
      while index > 0
        invariant 0 <= index <= count == |lines|
        invariant forall k :: index <= k < |lines| ==> !hit(lines[k])
      {
        index := index - 1;
        var entry := slots[index];
        if now - entry.recordedAt > WINDOW {
          assert forall k :: 0 <= k < index ==> lines[k].recordedAt <= entry.recordedAt;
          break;
        }
        if entry.chain == [] && ParseRouteKey(entry.message) == Some(key) {
          ScanFound(lines, hit, index);
          return Some(index);
        }
      }
      assert forall k :: 0 <= k < |lines| ==> !hit(lines[k]);
      ScanFailed(lines, hit);
      found := None;
    }

    /** The chain comes innermost first and is kept outermost first. */
    static method Reversed(chain: seq<string>) returns (r: seq<string>)
      ensures r == Reverse(chain)
    {
      var normalized := new string[|chain|];
      for index := 0 to |chain|
        invariant forall k :: 0 <= k < index ==> normalized[|chain| - 1 - k] == chain[k]
      {
        normalized[|chain| - 1 - index] := chain[index];
      }
      r := normalized[..];
      forall j | 0 <= j < |chain| ensures r[j] == Reverse(chain)[j] {
        ReverseAt(chain, |chain| - 1 - j);
      }
    }

    /** `snapshot`. */
    method TakeSnapshot(cursor: nat, now: int) returns (batch: Batch)
      requires Ok()
      ensures batch == Snapshot(Contents(), cursor, now)
    {
      hide Valid, Held, Collect, Snapshot, ParseRouteKey;
      assert Contents().entries == slots[..count];
      var from := if cursor > nextSequence then 0 else cursor;
      ghost var lines := slots[..count];
      var entries: seq<Entry> := [];
      var nextCursor := from;
      var i := 0;
      assert lines[0..] == lines;
      while i < count
        invariant i <= count == |lines|
        invariant Collect(lines, from, now) == entries + Collect(lines[i..], from, now)
        invariant nextCursor == if entries == [] then from else entries[|entries| - 1].sequence
      {
        var entry := slots[i];
        CollectSplits(lines, from, now, i, entries);
        if entry.sequence > from {
          if Held(entry, now) {
            SnapshotIs(Contents(), cursor, now, entries);
            return Batch(nextCursor, entries);
          }
          entries := entries + [entry];
          nextCursor := entry.sequence;
        }
        i := i + 1;
      }
      assert lines[count..] == [];
      CollectEmpty(from, now);
      assert entries + [] == entries;
      SnapshotIs(Contents(), cursor, now, entries);
      batch := Batch(nextCursor, entries);
    }
  }

  lemma SnapshotIs(log: Log, cursor: nat, now: int, entries: seq<Entry>)
    requires Collect(log.entries, if cursor > log.nextSequence then 0 else cursor, now) == entries
    ensures
      var from := if cursor > log.nextSequence then 0 else cursor;
      Snapshot(log, cursor, now) == Batch(if entries == [] then from else entries[|entries| - 1].sequence, entries)
  {
  }

  lemma CollectEmpty(cursor: nat, now: int)
    ensures Collect([], cursor, now) == []
  {
  }

  lemma LinesInOrder(log: Log)
    requires Valid(log)
    ensures forall j, k :: 0 <= j < k < |log.entries| ==> log.entries[j].recordedAt <= log.entries[k].recordedAt
  {
  }

  lemma AppendedInOrder(log: Log, route: Route)
    requires Valid(log) && route.recordedAt >= log.clock
    ensures PendingInOrder(log.pending + [route])
  {
  }
}
