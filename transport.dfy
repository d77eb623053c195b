/**
 * The validator connection: the endpoint and TLS decision, the socket that
 * carries one signed message per send, and how `send_to_ws` reads each reply.
 */
module Transport {
  import opened Wrappers
  import opened JsonValue

  /** The outcome of the wait that follows the handing of one message to the validator socket. */
  datatype Outcome =
    | Reply(text: string)  // the validator said something within the 10-unit wait
    | Timeout              // `wait_for` gave up after 10 units
    | ConnectionClosed     // `ConnectionClosedError`
    | OtherFailure         // any other exception, e.g. a clean close (`ConnectionClosedOK`)

  /** How `send_to_ws` ends for one message. */
  datatype SendStatus =
    | Acknowledged  // reply without the error marker, logged as info
    | Rejected      // reply containing "ERROR", logged as an error
    | TimedOut      // no reply within the bound, logged as an error
    | MissingField  // the log fields are absent: indexing raises before sending
    | Closed        // `ConnectionClosedError` propagates to the loop
    | Raised        // any other exception propagates out of the run

  /** The submission loop goes on to the next message after this status. */
  predicate Continues(st: SendStatus)
  {
    st.Acknowledged? || st.Rejected? || st.TimedOut?
  }

  /** `sub` occurs in `s` (Python's `sub in s`). */
  predicate Contains(s: string, sub: string)
    decreases |s|
  {
    (|sub| <= |s| && s[..|sub|] == sub) || (s != [] && Contains(s[1..], sub))
  }

  ghost predicate OccursAt(s: string, sub: string, i: int)
  {
    0 <= i && i + |sub| <= |s| && s[i..i + |sub|] == sub
  }

  /** A match found by `Contains` is the slice of `s` at some position. */
  lemma {:induction false} ContainsGivesOccurrence(s: string, sub: string)
    requires Contains(s, sub)
    ensures exists i :: OccursAt(s, sub, i)
    decreases |s|
  {
    if |sub| <= |s| && s[..|sub|] == sub {
      assert OccursAt(s, sub, 0);
    } else {
      ContainsGivesOccurrence(s[1..], sub);
      var i :| OccursAt(s[1..], sub, i);
      assert s[1..][i..i + |sub|] == s[i + 1..i + 1 + |sub|];
      assert OccursAt(s, sub, i + 1);
    }
  }

  /** `Contains` finds `sub` wherever it occurs in `s`. */
  lemma {:induction false} OccurrenceGivesContains(s: string, sub: string, i: int)
    requires OccursAt(s, sub, i)
    ensures Contains(s, sub)
    decreases i
  {
    if i == 0 {
      assert s[..|sub|] == s[i..i + |sub|];
    } else {
      assert s[1..][i - 1..i - 1 + |sub|] == s[i..i + |sub|];
      OccurrenceGivesContains(s[1..], sub, i - 1);
    }
  }

  /** `Contains` is substring search: `sub` is the slice of `s` at some position. */
  lemma ContainsIffOccurs(s: string, sub: string)
    ensures Contains(s, sub) <==> exists i :: OccursAt(s, sub, i)
  {
    if Contains(s, sub) {
      ContainsGivesOccurrence(s, sub);
    }
    if exists i :: OccursAt(s, sub, i) {
      var i :| OccursAt(s, sub, i);
      OccurrenceGivesContains(s, sub, i);
    }
  }

  /** The reply handling of `send_to_ws`; none of the first three outcomes raises. */
  function Classify(o: Outcome): (st: SendStatus)
    ensures Continues(st) <==> o.Reply? || o.Timeout?
    ensures st == Closed <==> o.ConnectionClosed?
  {
    match o
    case Reply(text) => if Contains(text, "ERROR") then Rejected else Acknowledged
    case Timeout => TimedOut
    case ConnectionClosed => Closed
    case OtherFailure => Raised
  }

  /** A reply is treated as a rejection exactly when "ERROR" occurs somewhere in its text. */
  lemma RejectedIffErrorMarker(o: Outcome)
    ensures Classify(o) == Rejected <==> o.Reply? && exists i :: OccursAt(o.text, "ERROR", i)
  {
    if o.Reply? {
      ContainsIffOccurs(o.text, "ERROR");
    }
  }

  /** `message` is a dict holding `identity.node_id`, `timestamp` and `feed`. */
  predicate MessageHasLogFields(message: Value)
  {
    && Field(message, "timestamp").Some?
    && Field(message, "feed").Some?
    && match Field(message, "identity")
       case None => false
       case Some(identity) => Field(identity, "node_id").Some?
  }

  /**
   * The data must be a dict whose `message` entry carries the log fields;
   * `send_to_ws` indexes all three before sending.
   */
  predicate HasLogFields(data: Value)
  {
    match Field(data, "message")
    case None => false
    case Some(msg) => MessageHasLogFields(msg)
  }

  predicate StartsWith(s: string, prefix: string)
  {
    |prefix| <= |s| && s[..|prefix|] == prefix
  }

  /** The validator URL: the configured base, then the node id as a path segment with a trailing slash. */
  function Endpoint(validatorUri: string, nodeId: string): (r: string)
    ensures StartsWith(r, validatorUri)
    ensures |r| == |validatorUri| + |nodeId| + 2
    ensures r[|validatorUri|] == '/' && r[|r| - 1] == '/'
    ensures r[|validatorUri| + 1..|r| - 1] == nodeId
  {
    validatorUri + "/" + nodeId + "/"
  }

  /** For a fixed base, different node ids give different endpoints. */
  lemma EndpointIdentifiesNode(validatorUri: string, a: string, b: string)
    requires Endpoint(validatorUri, a) == Endpoint(validatorUri, b)
    ensures a == b
  {
    var e := Endpoint(validatorUri, a);
    assert a == e[|validatorUri| + 1..|e| - 1];
  }

  /** A TLS context is built exactly when the endpoint starts with `wss://`. */
  predicate UsesTls(endpoint: string)
  {
    StartsWith(endpoint, "wss://")
  }

  /**
   * The TLS decision in terms of the configured base: it starts with `wss://`,
   * or it is one of the two short bases that the appended slashes complete.
   */
  lemma TlsDecision(validatorUri: string, nodeId: string)
    ensures UsesTls(Endpoint(validatorUri, nodeId)) <==>
      StartsWith(validatorUri, "wss://") ||
      validatorUri == "wss:/" ||
      (validatorUri == "wss:" && (nodeId == "" || nodeId[0] == '/'))
  {
    var e := Endpoint(validatorUri, nodeId);
    var u := validatorUri;
    if |u| >= 6 {
      assert e[..6] == u[..6];
    } else if u == "wss:/" {
      assert e[..6] == "wss://";
    } else if u == "wss:" {
      if nodeId == "" {
        assert e == "wss://";
      } else {
        assert e[..6] == "wss:/" + [nodeId[0]];
      }
    }
  }

  /**
   * The validator websocket of one run. `reply(k)` is the outcome of the wait
   * that follows the `k`-th send (a late answer to an earlier message arrives
   * in a later wait); `sent` is every payload handed over so far.
   */
  class ValidatorSocket {
    const reply: nat -> Outcome
    var sent: seq<string>
    var open: bool

    constructor (reply: nat -> Outcome)
      ensures this.reply == reply && sent == [] && open
    {
      this.reply := reply;
      sent := [];
      open := true;
    }

    /** Write one payload and wait for the next thing the validator says. */
    method Send(payload: string) returns (o: Outcome)
      requires open
      modifies this
      ensures sent == old(sent) + [payload]
      ensures o == reply(|old(sent)|)
      ensures open <==> !o.ConnectionClosed?
    {
      o := reply(|sent|);
      sent := sent + [payload];
      open := !o.ConnectionClosed?;
    }

    /** Leaving the `async with` block closes the connection. */
    method Close()
      modifies this
      ensures !open && sent == old(sent)
    {
      open := false;
    }
  }

  /**
   * `send_to_ws`: read the log fields, sign the message, send it and classify the
   * outcome of the wait that follows. A message without the log fields is never sent.
   */
  method SendToWs(socket: ValidatorSocket, data: Value, sign: Value -> string) returns (st: SendStatus)
    requires socket.open
    modifies socket
    ensures HasLogFields(data) ==>
      socket.sent == old(socket.sent) + [sign(data)] && st == Classify(socket.reply(|old(socket.sent)|))
    ensures !HasLogFields(data) ==> socket.sent == old(socket.sent) && st == MissingField
    ensures socket.open <==> st != Closed
  {
    if !HasLogFields(data) {
      return MissingField;
    }
    var payload := sign(data);
    var o := socket.Send(payload);
    st := Classify(o);
  }
}
