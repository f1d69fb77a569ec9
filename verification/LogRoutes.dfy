/**
 What the log buffer is for (packages/singbox/bridge/main.go): a connection line and the route that
 is reported for it meet, whichever comes first, and the reader sees the route on the line.
 */
module LogRoutes {
  import opened Wrappers
  import opened Text
  import opened LogBuffer

  // ---------------------------------------------------------------------
  // Reading a connection line
  // ---------------------------------------------------------------------

  const OUTBOUND := "outbound/"
  const CONNECTION := "connection to "

  /** No earlier occurrence than this one. */
  predicate FirstAt(s: string, t: string, i: nat) {
    OccursAt(s, t, i) && forall k: nat :: k < i ==> !OccursAt(s, t, k)
  }

  /** The parts of a connection line; the marks between them are the first ones there are. */
  datatype Parts = Parts(before: string, kind: string, tag: string, middle: string, target: string) {
    function Line(): string {
      before + OUTBOUND + Component()
    }

    function Component(): string {
      kind + "[" + (tag + "]" + Detail())
    }

    function Detail(): string {
      middle + CONNECTION + target
    }

    ghost predicate FirstMarks() {
      FirstAt(Line(), OUTBOUND, |before|) && '[' !in kind && ']' !in tag && FirstAt(Detail(), CONNECTION, |middle|)
    }
  }

  /** The line has these parts, and tag and target, without white space around them, are the key's. */
  ghost predicate Spells(p: Parts, message: string, key: Key) {
    && p.Line() == message && p.FirstMarks()
    && IsTrimmed(p.tag, key.outbound, IsSpace) && key.outbound != ""
    && IsTrimmed(p.target, key.target, IsSpace) && key.target != ""
  }

  lemma FirstIsFound(s: string, t: string, i: nat)
    requires FirstAt(s, t, i)
    ensures FirstIndex(s, t, 0) == Some(i)
  {
  }

  lemma FirstCharacter(s: string, c: char, from: nat, i: nat)
    requires from <= |s| && FirstIndex(s, [c], from) == Some(i)
    ensures i < |s| && s[i] == c && c !in s[from..i]
  {
    assert s[i..i + 1][0] == c;
    forall k | from <= k < i ensures s[k] != c {
      assert !OccursAt(s, [c], k);
      assert s[k..k + 1] == [s[k]];
    }
  }

  lemma SplitAt(s: string, t: string, i: nat)
    requires OccursAt(s, t, i)
    ensures s == s[..i] + t + s[i + |t|..]
  {
  }

  lemma JoinedAt(a: string, t: string, b: string)
    ensures OccursAt(a + t + b, t, |a|) && (a + t + b)[..|a|] == a && (a + t + b)[|a| + |t|..] == b
  {
    assert (a + t + b)[|a|..|a| + |t|] == t;
  }

  lemma InSecond(a: string, b: string, k: nat)
    requires k < |b|
    ensures (a + b)[|a|..|a| + k] == b[..k] && (a + b)[|a| + k] == b[k] && (a + b)[|a| + k + 1..] == b[k + 1..]
  {
  }

  /** The brackets around the tag. */
  lemma BracketsAreFound(kind: string, tag: string, detail: string)
    requires '[' !in kind && ']' !in tag
    ensures
      var component := kind + "[" + (tag + "]" + detail);
      var close := |kind| + 1 + |tag|;
      && close < |component|
      && FirstIndex(component, "[", 0) == Some(|kind|) && FirstIndex(component, "]", |kind| + 1) == Some(close)
      && component[|kind| + 1..close] == tag && component[close + 1..] == detail
  {
    hide FirstIndex;
    var rest := tag + "]" + detail;
    var component := kind + "[" + rest;
    JoinedAt(tag, "]", detail);
    JoinedAt(kind, "[", rest);
    assert rest[|tag|] == rest[|tag|..|tag| + 1][0] == ']';
    InSecond(kind + "[", rest, |tag|);
    assert component[|kind|] == component[|kind|..|kind| + 1][0] == '[';
    var close := |kind| + 1 + |tag|;
    assert component[0..|kind|] == kind;
    FoundFrom(component, '[', 0, |kind|);
    FoundFrom(component, ']', |kind| + 1, close);
  }

  lemma FoundFrom(s: string, c: char, from: nat, i: nat)
    requires from <= i < |s| && s[i] == c && c !in s[from..i]
    ensures FirstIndex(s, [c], from) == Some(i)
  {
    assert s[i..i + 1] == [c];
    assert OccursAt(s, [c], i);
    forall k: nat | from <= k < i ensures !OccursAt(s, [c], k) {
      assert s[k..k + 1] == [s[k]] && s[k] in s[from..i];
    }
  }

  /** The parser reads tag and target off the parts. */
  lemma PartsAreRead(p: Parts)
    requires p.FirstMarks()
    ensures
      var outbound, target := Trim(p.tag, IsSpace), Trim(p.target, IsSpace);
      ParseRouteKey(p.Line()) == if outbound == "" || target == "" then None else Some(Key(outbound, target))
  {
    hide FirstIndex, Trim, OccursAt;
    FirstIsFound(p.Line(), OUTBOUND, |p.before|);
    JoinedAt(p.before, OUTBOUND, p.Component());
    BracketsAreFound(p.kind, p.tag, p.Detail());
    FirstIsFound(p.Detail(), CONNECTION, |p.middle|);
    JoinedAt(p.middle, CONNECTION, p.target);
    var component := p.Component();
    var open, close := |p.kind|, |p.kind| + 1 + |p.tag|;
    assert component[open + 1..close] == p.tag && component[close + 1..] == p.Detail();
  }

  lemma BracketsSplit(component: string, open: nat, close: nat)
    requires open < close < |component| && component[open] == '[' && component[close] == ']'
    ensures component ==
            component[..open] + "[" + (component[open + 1..close] + "]" + component[close + 1..])
  {
    var rest := component[open + 1..];
    assert component == component[..open] + "[" + rest;
    assert rest == rest[..close - open - 1] + "]" + rest[close - open..];
    assert rest[..close - open - 1] == component[open + 1..close] && rest[close - open..] == component[close + 1..];
  }

  /** The marks the parser finds in a line that has a key. */
  lemma ParsedMarks(message: string) returns (start: nat, open: nat, close: nat, at: nat)
    requires ParseRouteKey(message).Some?
    ensures FirstAt(message, OUTBOUND, start)
    ensures
      var component := message[start + |OUTBOUND|..];
      && open < close < |component|
      && component[open] == '[' && '[' !in component[..open] && component[close] == ']' && ']' !in component[open + 1..close]
      && FirstAt(component[close + 1..], CONNECTION, at)
  {
    hide FirstIndex, Trim, IsSpace;
    start := FirstIndex(message, OUTBOUND, 0).value;
    var component := message[start + |OUTBOUND|..];
    open := FirstIndex(component, "[", 0).value;
    close := FirstIndex(component, "]", open + 1).value;
    at := FirstIndex(component[close + 1..], CONNECTION, 0).value;
    FirstCharacter(component, '[', 0, open);
    FirstCharacter(component, ']', open + 1, close);
    assert component[0..open] == component[..open];
  }

  /** What is parsed takes a line with all four marks. */
  lemma PartsOfParsed(message: string) returns (p: Parts)
    requires ParseRouteKey(message).Some?
    ensures p.Line() == message && p.FirstMarks()
  {
    var start, open, close, at := ParsedMarks(message);
    var component := message[start + |OUTBOUND|..];
    var detail := component[close + 1..];
    SplitAt(message, OUTBOUND, start);
    SplitAt(detail, CONNECTION, at);
    BracketsSplit(component, open, close);
    hide OccursAt, FirstAt, ParseRouteKey;
    p := Parts(message[..start], component[..open], component[open + 1..close], detail[..at], detail[at + |CONNECTION|..]);
    assert p.Detail() == detail;
  }

  /** A line has a key if and only if it spells it out. */
  lemma RouteKeyIff(message: string, key: Key)
    ensures ParseRouteKey(message) == Some(key) <==> exists p :: Spells(p, message, key)
  {
    if ParseRouteKey(message) == Some(key) {
      var p := PartsOfParsed(message);
      PartsAreRead(p);
      TrimIsExact(p.tag, key.outbound, IsSpace);
      TrimIsExact(p.target, key.target, IsSpace);
      assert Spells(p, message, key);
    }
    if p :| Spells(p, message, key) {
      PartsAreRead(p);
      TrimIsExact(p.tag, key.outbound, IsSpace);
      TrimIsExact(p.target, key.target, IsSpace);
    }
  }

  // ---------------------------------------------------------------------
  // Lines and routes meet
  // ---------------------------------------------------------------------

  /** The line as a reader gets it: with the chain of the report turned around. */
  ghost predicate Shown(e: Entry, level: string, message: string, chain: seq<string>, sourceIP: string) {
    && e.level == level && e.message == message && e.sourceIP == sourceIP
    && |e.chain| == |chain| && forall k :: 0 <= k < |chain| ==> e.chain[k] == chain[|chain| - 1 - k]
  }

  lemma ReverseTurnsAround(chain: seq<string>)
    ensures forall k :: 0 <= k < |chain| ==> Reverse(chain)[k] == chain[|chain| - 1 - k]
  {
    forall k | 0 <= k < |chain| ensures Reverse(chain)[k] == chain[|chain| - 1 - k] {
      ReverseAt(chain, |chain| - 1 - k);
    }
  }

  /** The line comes first: unless a route was waiting for it already, the route reported for its key
      within ten seconds ends up on it, and no other buffered line changes. */
  lemma LineThenRoute(
    log: Log, level: string, message: string, t: int, key: Key, chain: seq<string>, sourceIP: string, now: int)
    requires Valid(log) && log.clock <= t <= now && Near(t, now)
    requires ParseRouteKey(message) == Some(key) && PendingFor(log.pending, key, t).None? && chain != []
    ensures
      var logged := Append(log, level, message, t);
      var after := Record(logged, key.target, key.outbound, chain, sourceIP, now);
      var n := |after.entries| - 1;
      && |logged.entries| == n + 1 && after.entries[..n] == logged.entries[..n]
      && after.entries[n].sequence == log.nextSequence + 1 && after.entries[n].recordedAt == t
      && Shown(after.entries[n], level, message, chain, sourceIP)
      && after.pending == logged.pending
  {
    hide ParseRouteKey, Valid, Prune;
    RouteKeyIsWhole(message);
    var logged := Append(log, level, message, t);
    var n := |logged.entries| - 1;
    var hit := (e: Entry) => Waiting(e, key) && Near(e.recordedAt, now);
    assert hit(logged.entries[n]);
    ScanFound(logged.entries, hit, n);
    assert KeyOf(Route(logged.serials, key.target, key.outbound, Reverse(chain), sourceIP, now)) == key;
    ReverseTurnsAround(chain);
  }

  lemma RouteKeyIsWhole(message: string)
    ensures ParseRouteKey(message).Some? ==>
      ParseRouteKey(message).value.outbound != "" && ParseRouteKey(message).value.target != ""
  {
  }

  /** The route comes first: unless a line was waiting for it already, the line with its key that is
      logged within ten seconds carries it, and the route no longer waits. */
  lemma RouteThenLine(
    log: Log, level: string, message: string, now: int, key: Key, chain: seq<string>, sourceIP: string, t: int)
    requires Valid(log) && log.clock <= t <= now && Near(t, now)
    requires ParseRouteKey(message) == Some(key) && WaitingFor(log.entries, key, t).None? && chain != []
    ensures
      var reported := Record(log, key.target, key.outbound, chain, sourceIP, t);
      var after := Append(reported, level, message, now);
      var n := |after.entries| - 1;
      && after.entries == Push(log.entries, after.entries[n])
      && after.entries[n].sequence == log.nextSequence + 1 && after.entries[n].recordedAt == now
      && Shown(after.entries[n], level, message, chain, sourceIP)
      && after.pending == Prune(log.pending, t)
  {
    hide ParseRouteKey;
    RouteKeyIsWhole(message);
    var reported := Record(log, key.target, key.outbound, chain, sourceIP, t);
    var r := Route(log.serials, key.target, key.outbound, Reverse(chain), sourceIP, t);
    LastStays(log.pending, r, t);
    hide Valid, Prune;
    var n := |reported.pending| - 1;
    assert reported.pending == Prune(log.pending, t) + [r];
    ScanFound(reported.pending, (q: Route) => KeyOf(q) == key && Near(q.recordedAt, now), n);
    assert Without(reported.pending, n) == Prune(log.pending, t);
    ReverseTurnsAround(chain);
  }

  lemma {:induction false} LastStays(pending: seq<Route>, r: Route, t: int)
    requires r.recordedAt == t
    ensures Prune(pending + [r], t) == Prune(pending, t) + [r]
  {
    if pending == [] {
      assert [] + [r] == [r] && [r][1..] == [];
      assert Prune([], t) == [];
      assert Prune([r], t) == [r] + Prune([], t) == [] + [r];
    } else {
      LastStays(pending[1..], r, t);
      assert (pending + [r])[1..] == pending[1..] + [r];
    }
  }

  /** A reader never gets a connection line without its route before the grace period is over. */
  lemma {:induction false} NoBareConnectionLineIsDelivered(entries: seq<Entry>, cursor: nat, now: int, k: nat)
    requires k < |Collect(entries, cursor, now)|
    ensures
      var e := Collect(entries, cursor, now)[k];
      && e in entries && e.sequence > cursor
      && (e.chain != [] || ParseRouteKey(e.message) == None || now - e.recordedAt >= GRACE)
  {
    hide ParseRouteKey;
    var rest := entries[1..];
    if entries[0].sequence <= cursor {
      NoBareConnectionLineIsDelivered(rest, cursor, now, k);
    } else if k > 0 {
      NoBareConnectionLineIsDelivered(rest, cursor, now, k - 1);
    }
  }

  /** A cursor from another life of the buffer starts over: nothing that is buffered is skipped. */
  lemma StaleCursorsStartOver(log: Log, cursor: nat, now: int)
    requires Valid(log) && cursor > log.nextSequence && log.entries != [] && !Held(log.entries[0], now)
    ensures Snapshot(log, cursor, now).entries != [] && Snapshot(log, cursor, now).entries[0] == log.entries[0]
  {
    hide ParseRouteKey, Held;
    assert Snapshot(log, cursor, now) == Snapshot(log, 0, now);
    PollDelivers(log, 0, now);
    assert log.entries[0].sequence == Evicted(log) + 1;
    hide Snapshot;
    var batch := Snapshot(log, 0, now);
    if batch.entries != [] {
      var k :| 0 <= k < |log.entries| && log.entries[k] == batch.entries[0];
      assert log.entries[k].sequence == Evicted(log) + 1 + k;
    }
  }

  /** And a reader gets it with the very next poll, even within the grace period: a line that shows its
      route is not held back, nor is any line behind it that has no key. */
  lemma ShownLinesAreDelivered(log: Log, cursor: nat, now: int)
    requires Valid(log) && cursor < log.nextSequence && log.entries != []
    requires forall k :: 0 <= k < |log.entries| && log.entries[k].sequence > cursor && log.entries[k].chain == [] ==>
      ParseRouteKey(log.entries[k].message).None?
    ensures
      var batch := Snapshot(log, cursor, now);
      batch.entries != [] && batch.entries[|batch.entries| - 1] == log.entries[|log.entries| - 1]
      && batch.nextCursor == log.nextSequence
  {
    hide ParseRouteKey;
    PollDelivers(log, cursor, now);
    hide Snapshot;
  }
}
