/**
 Requests to the privileged helper (packages/singbox/src/macos.rs): the client writes a JSON object
 and closes its side; if the connection breaks while it writes, it sends the request once more. The
 helper reads to the end of a connection and dispatches what it understands.

 Connections are handled one after another and at any later time; any of them may be lost.
 */
module HelperRpc {
  import opened Wrappers
  import opened JsonText

  const MAX_MESSAGE_BYTES: nat := 16 * 1024 * 1024

  /** An action with its parameters; on the wire an object whose first member is the action's name. */
  datatype Action = Action(name: string, parameters: seq<(string, Json)>)

  function RequestOf(action: Action): Json {
    Object([("action", Str(action.name))] + action.parameters)
  }

  function Payload(action: Action): string {
    Write(RequestOf(action))
  }

  predicate Encodable(action: Action) {
    NumbersOk(RequestOf(action))
  }

  type Decoder = string -> Option<Action>

  /** All that is assumed about the decoder: it accepts nothing but JSON texts, and reads the request
      for this action back. */
  ghost predicate Decodes(decode: Decoder, action: Action) {
    (forall t :: decode(t).Some? ==> IsText(t)) && decode(Payload(action)) == Some(action)
  }

  /** What the helper dispatches for one connection. */
  function Understood(decode: Decoder, received: string): seq<Action> {
    if |received| <= MAX_MESSAGE_BYTES && decode(received).Some? then [decode(received).value] else []
  }

  function Due(decode: Decoder, connections: seq<string>): seq<Action> {
    if connections == [] then []
    else Due(decode, connections[..|connections| - 1]) + Understood(decode, connections[|connections| - 1])
  }

  /** There is such a decoder for every action. */
  lemma SomeDecoderDecodes(action: Action) returns (decode: Decoder)
    requires Encodable(action)
    ensures Decodes(decode, action)
  {
    hide IsText, NumbersOk;
    WrittenValuesAreTexts(RequestOf(action));
    decode := t => if t == Payload(action) then Some(action) else None;
  }

  /** A complete request is understood, and no beginning of it is. */
  lemma OnlyWholeRequestsAreUnderstood(decode: Decoder, action: Action, n: nat)
    requires Decodes(decode, action) && Encodable(action) && n <= |Payload(action)| <= MAX_MESSAGE_BYTES
    ensures Understood(decode, Payload(action)[..n]) == if n == |Payload(action)| then [action] else []
  {
    hide IsText, NumbersOk;
    var payload := Payload(action);
    if n == |payload| {
      assert payload[..n] == payload;
    } else {
      BeginningsAreNoTexts(RequestOf(action), n);
    }
  }

  // ---------------------------------------------------------------------
  // Both ends
  // ---------------------------------------------------------------------

  /** `connections` holds what arrived on connections that are not handled yet, and `refused` counts
      the connections that were given up. */
  class Helper {
    const decode: Decoder
    var connections: seq<string>
    ghost var dispatched: seq<Action>
    ghost var refused: nat

    constructor (decode: Decoder)
      ensures this.decode == decode && connections == [] && dispatched == [] && refused == 0
    {
      this.decode := decode;
      connections := [];
      dispatched := [];
      refused := 0;
    }

    /** The peer may not be trusted, and the connection may break while it is read. */
    method Accept() returns (ok: bool)
      modifies this`refused
      ensures refused == old(refused) + if ok then 0 else 1
    {
      ok := *;
      refused := refused + if ok then 0 else 1;
    }

    /** `handle_helper_connection`: what is understood is dispatched, unless the connection is refused. */
    method HandleConnection()
      requires connections != []
      modifies this
      ensures connections == old(connections)[1..]
      ensures refused >= old(refused)
      ensures dispatched == old(dispatched) +
        if refused == old(refused) then Understood(decode, old(connections)[0]) else []
    {
      var payload := connections[0];
      connections := connections[1..];
      var accepted := Accept();
      if !accepted {
        return;
      }
      if |payload| <= MAX_MESSAGE_BYTES {
        var request := decode(payload);
        if request.Some? {
          dispatched := dispatched + [request.value];
        }
      }
    }
  }

  datatype SendError = Disconnected | OtherError

  /** What can go wrong with one connection, from the client's side. */
  datatype Fault = Unreachable | Broken(error: SendError) | Unanswered

  /** The client's side of the socket; it records everything that went wrong. */
  class Link {
    ghost var faults: seq<Fault>

    constructor ()
      ensures faults == []
    {
      faults := [];
    }

    /** Connecting, and checking that the helper is at the other end. */
    method Connect() returns (ok: bool)
      modifies this
      ensures faults == old(faults) + if ok then [] else [Unreachable]
    {
      ok := *;
      faults := faults + if ok then [] else [Unreachable];
    }

    /** Writing stops early only with bytes left to write. */
    method WriteAll(payload: string) returns (r: Result<(), SendError>, delivered: nat)
      requires payload != ""
      modifies this
      ensures r.Ok? ==> delivered == |payload|
      ensures r.Err? ==> delivered < |payload|
      ensures faults == old(faults) + if r.Ok? then [] else [Broken(r.error)]
    {
      var n: nat := *;
      delivered := |payload|;
      r := Ok(());
      if n < |payload| {
        delivered := n;
        r := Err(OtherError);
        if * {
          r := Err(Disconnected);
        }
        faults := faults + [Broken(r.error)];
      }
    }

    method ReadAnswer() returns (ok: bool)
      modifies this
      ensures faults == old(faults) + if ok then [] else [Unanswered]
    {
      ok := *;
      faults := faults + if ok then [] else [Unanswered];
    }
  }

  lemma PayloadIsNotEmpty(action: Action)
    ensures Payload(action) != ""
  {
  }

  lemma DueAppends(decode: Decoder, connections: seq<string>, received: string)
    ensures Due(decode, connections + [received]) == Due(decode, connections) + Understood(decode, received)
  {
    hide Understood;
    assert (connections + [received])[..|connections|] == connections;
  }

  lemma FaultsDiffer(faults: seq<Fault>, retried: bool, f: Fault)
    requires retried || f != Broken(Disconnected)
    ensures
      var all := faults + (if retried then [Broken(Disconnected)] else []) + [f];
      all != faults && all != faults + [Broken(Disconnected)]
  {
    var all := faults + (if retried then [Broken(Disconnected)] else []) + [f];
    assert all[|all| - 1] == f;
  }

  /** `request_with_timeout`: whatever happens on the way, and although an interrupted request is sent
      again, at most one of its connections can make the helper dispatch, and then exactly this
      action. An answer is only accepted if the request was sent completely; and there is one unless
      something fails, where a single broken connection is not a failure. */
  method Request(link: Link, helper: Helper, trusted: bool, action: Action) returns (r: Result<(), string>, ghost sent: bool)
    requires Decodes(helper.decode, action) && Encodable(action)
    modifies link, helper`connections
    ensures Due(helper.decode, helper.connections) ==
            Due(helper.decode, old(helper.connections)) + if sent then [action] else []
    ensures r.Ok? ==> sent
    ensures old(helper.connections) <= helper.connections && |helper.connections| <= |old(helper.connections)| + 2
    ensures !trusted || |Payload(action)| > MAX_MESSAGE_BYTES ==>
      r.Err? && helper.connections == old(helper.connections) && link.faults == old(link.faults)
    ensures old(link.faults) <= link.faults
    ensures trusted && |Payload(action)| <= MAX_MESSAGE_BYTES ==>
      (r.Ok? <==> link.faults in {old(link.faults), old(link.faults) + [Broken(Disconnected)]})
  {
    hide Decodes, Encodable, Payload, Due, Understood;
    sent := false;
    var message: string := *;
    assert Due(helper.decode, helper.connections) == Due(helper.decode, old(helper.connections)) + [];
    if !trusted {
      return Err(message), false;
    }
    var payload := Payload(action);
    if |payload| > MAX_MESSAGE_BYTES {
      return Err(message), false;
    }
    PayloadIsNotEmpty(action);
    ghost var faults := link.faults;
    var retriedSend := false;
    assert faults + [] == faults;
    while true
      invariant !sent && Due(helper.decode, helper.connections) == Due(helper.decode, old(helper.connections))
      invariant old(helper.connections) <= helper.connections
      invariant |helper.connections| <= |old(helper.connections)| + if retriedSend then 1 else 0
      invariant link.faults == faults + if retriedSend then [Broken(Disconnected)] else []
      decreases !retriedSend
    {
      var connected := link.Connect();
      if !connected {
        FaultsDiffer(faults, retriedSend, Unreachable);
        return Err(message), false;
      }
      var written, delivered := link.WriteAll(payload);
      OnlyWholeRequestsAreUnderstood(helper.decode, action, delivered);
      DueAppends(helper.decode, helper.connections, payload[..delivered]);
      helper.connections := helper.connections + [payload[..delivered]];
      if written.Ok? {
        sent := true;
        break;
      }
      if retriedSend || written.error != Disconnected {
        FaultsDiffer(faults, retriedSend, Broken(written.error));
        return Err(message), false;
      }
      retriedSend := true;
    }
    var answered := link.ReadAnswer();
    if answered {
      assert faults + (if retriedSend then [Broken(Disconnected)] else []) + []
             == faults + if retriedSend then [Broken(Disconnected)] else [];
      r := Ok(());
    } else {
      FaultsDiffer(faults, retriedSend, Unanswered);
      r := Err(message);
    }
  }

  // ---------------------------------------------------------------------
  // Whole runs
  // ---------------------------------------------------------------------

  /** One list is left over from the other when elements are dropped. */
  predicate Subsequence<T(==)>(a: seq<T>, b: seq<T>) {
    || a == []
    || (b != [] &&
        var front := b[..|b| - 1];
        || (a[|a| - 1] == b[|b| - 1] && Subsequence(a[..|a| - 1], front))
        || Subsequence(a, front))
  }

  lemma SubsequenceGrows<T>(a: seq<T>, b: seq<T>, x: T)
    requires Subsequence(a, b)
    ensures Subsequence(a + [x], b + [x]) && Subsequence(a, b + [x])
  {
    assert (a + [x])[..|a|] == a && (b + [x])[..|b|] == b;
  }

  lemma {:induction false} SubsequenceDrops<T>(a: seq<T>, x: T, c: seq<T>, b: seq<T>)
    requires Subsequence(a + [x] + c, b)
    ensures Subsequence(a + c, b)
    decreases |b|
  {
    var whole, front := a + [x] + c, b[..|b| - 1];
    if Subsequence(whole, front) {
      SubsequenceDrops(a, x, c, front);
    } else if c == [] {
      assert whole[..|whole| - 1] == a == a + c;
    } else {
      var c' := c[..|c| - 1];
      assert whole[..|whole| - 1] == a + [x] + c';
      SubsequenceDrops(a, x, c', front);
      assert (a + c)[..|a + c| - 1] == a + c';
    }
  }

  lemma DueOfOne(decode: Decoder, received: string)
    ensures Due(decode, [received]) == Understood(decode, received) && Due(decode, []) == []
    ensures Understood(decode, received) + [] == Understood(decode, received)
  {
    hide Understood;
    assert [received][..0] == [];
  }

  lemma {:induction false} DueSplits(decode: Decoder, connections: seq<string>)
    requires connections != []
    ensures Due(decode, connections) == Understood(decode, connections[0]) + Due(decode, connections[1..])
    decreases |connections|
  {
    hide Understood, Due;
    var n := |connections| - 1;
    if n == 0 {
      DueOfOne(decode, connections[0]);
      assert connections == [connections[0]] && connections[1..] == [];
    } else {
      var middle, last := connections[1..n], connections[n];
      DueSplits(decode, connections[..n]);
      assert connections[..n][1..] == middle && connections[1..] == middle + [last];
      assert connections == connections[..n] + [last];
      DueAppends(decode, middle, last);
      DueAppends(decode, connections[..n], last);
    }
  }

  /** One connection is handled: what was and may be dispatched only loses elements, and nothing at all
      unless the connection is refused. */
  method ServeOne(helper: Helper, ghost requested: seq<Action>)
    requires helper.connections != []
    requires Subsequence(helper.dispatched + Due(helper.decode, helper.connections), requested)
    modifies helper
    ensures |helper.connections| == |old(helper.connections)| - 1
    ensures Subsequence(helper.dispatched + Due(helper.decode, helper.connections), requested)
    ensures helper.refused >= old(helper.refused)
    ensures helper.refused == old(helper.refused) ==>
      helper.dispatched + Due(helper.decode, helper.connections) == old(helper.dispatched + Due(helper.decode, helper.connections))
  {
    hide Subsequence, Due, Understood;
    ghost var first := helper.connections[0];
    DueSplits(helper.decode, helper.connections);
    ghost var rest := Due(helper.decode, helper.connections[1..]);
    UnderstoodIsShort(helper.decode, first);
    ghost var before, one := helper.dispatched, Understood(helper.decode, first);
    assert before + (one + rest) == before + one + rest;
    helper.HandleConnection();
    assert before + [] == before;
    if one == [] {
    } else {
      assert one == [one[0]];
      SubsequenceDrops(before, one[0], rest, requested);
    }
  }

  lemma UnderstoodIsShort(decode: Decoder, received: string)
    ensures Understood(decode, received) == [] || exists a :: Understood(decode, received) == [a]
  {
  }

  predicate AllAnswered(results: seq<Result<(), string>>) {
    forall i :: 0 <= i < |results| ==> results[i].Ok?
  }

  /** Over any run of requests and handled connections, with partial writes, disconnects and the one
      permitted resend: what was dispatched is what was requested, in order, with some requests
      left out and none dispatched twice. If every request was answered and no connection refused,
      none is left out. */
  method Session(decode: Decoder, trusted: bool, requests: seq<Action>)
    returns (helper: Helper, results: seq<Result<(), string>>)
    requires forall i :: 0 <= i < |requests| ==> Decodes(decode, requests[i]) && Encodable(requests[i])
    ensures |results| == |requests| && Subsequence(helper.dispatched, requests)
    ensures AllAnswered(results) && helper.refused == 0 ==> helper.dispatched == requests
  {
    hide Decodes, Encodable, Subsequence, Due, AllAnswered;
    helper := new Helper(decode);
    var link := new Link();
    results := [];
    NothingIsDue(decode, requests);
    assert helper.dispatched + Due(decode, []) == [] == requests[..0];
    for i := 0 to |requests|
      invariant fresh(helper) && fresh(link) && helper.decode == decode && |results| == i
      invariant Subsequence(helper.dispatched + Due(decode, helper.connections), requests[..i])
      invariant AllAnswered(results) && helper.refused == 0 ==> helper.dispatched + Due(decode, helper.connections) == requests[..i]
    {
      ghost var total := helper.dispatched + Due(decode, helper.connections);
      var r, sent := Request(link, helper, trusted, requests[i]);
      OneMoreAnswer(results, r);
      results := results + [r];
      assert requests[..i + 1] == requests[..i] + [requests[i]];
      SubsequenceGrows(total, requests[..i], requests[i]);
      assert helper.dispatched + Due(decode, helper.connections) == if sent then total + [requests[i]] else total;
      var handled: nat := *;
      while handled > 0 && helper.connections != []
        invariant fresh(helper) && helper.decode == decode
        invariant Subsequence(helper.dispatched + Due(decode, helper.connections), requests[..i + 1])
        invariant AllAnswered(results) && helper.refused == 0 ==>
          helper.dispatched + Due(decode, helper.connections) == requests[..i + 1]
      {
        ServeOne(helper, requests[..i + 1]);
        handled := handled - 1;
      }
    }
    assert requests[..|requests|] == requests;
    while helper.connections != []
      invariant fresh(helper) && helper.decode == decode
      invariant Subsequence(helper.dispatched + Due(decode, helper.connections), requests)
      invariant AllAnswered(results) && helper.refused == 0 ==> helper.dispatched + Due(decode, helper.connections) == requests
      decreases |helper.connections|
    {
      ServeOne(helper, requests);
    }
    NothingIsDue(decode, requests);
    assert helper.dispatched + [] == helper.dispatched;
  }

  lemma OneMoreAnswer(results: seq<Result<(), string>>, r: Result<(), string>)
    ensures AllAnswered(results + [r]) <==> AllAnswered(results) && r.Ok?
  {
    assert forall i :: 0 <= i < |results| ==> (results + [r])[i] == results[i];
    assert (results + [r])[|results|] == r;
  }

  lemma NothingIsDue(decode: Decoder, requests: seq<Action>)
    ensures Due(decode, []) == [] && Subsequence([], requests[..0])
  {
  }
}
