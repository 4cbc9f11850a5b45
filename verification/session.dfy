/**
 One connection of the echo endpoint (`websocket_endpoint` in
 audio_socket_api/main.py) seen on its own: the handshake registers the
 handle, every text frame gets exactly one reply `"Echo: " + data`, and the
 handlers for the three caught exception kinds unregister the handle.
 */
module Session {
  import opened Wrappers
  import opened Registry

  /** The text put in front of every echoed frame. */
  const EchoPrefix: string := "Echo: "

  /** How the receive loop ended. Only the first three are caught by the endpoint. */
  datatype Exit =
    | ClientDisconnect   // WebSocketDisconnect
    | ValueFault         // ValueError
    | RuntimeFault       // RuntimeError
    | UncaughtFault      // any other exception: it leaves the endpoint

  /** The endpoint has an `except` clause, and so a `disconnect` call, for this exit. */
  predicate Handled(e: Exit)
  {
    e.ClientDisconnect? || e.ValueFault? || e.RuntimeFault?
  }

  /** The reply to one received text frame. */
  function Echo(data: string): (reply: string)
    ensures |reply| == |EchoPrefix| + |data|
    ensures reply[..|EchoPrefix|] == EchoPrefix
    ensures reply[|EchoPrefix|..] == data
  {
    EchoPrefix + data
  }

  /** The inverse of `Echo`, used to state that `Echo` loses nothing; `None` for text that is not an echo. */
  function Unecho(reply: string): (data: Option<string>)
    ensures data.Some? <==> |reply| >= |EchoPrefix| && reply[..|EchoPrefix|] == EchoPrefix
  {
    if |reply| >= |EchoPrefix| && reply[..|EchoPrefix|] == EchoPrefix then Some(reply[|EchoPrefix|..])
    else None
  }

  /** Every reply carries back exactly the frame it answers. */
  lemma UnechoEcho(data: string)
    ensures Unecho(Echo(data)) == Some(data)
  {
  }

  /** A reply that reads back as `data` is the echo of `data`. */
  lemma EchoUnecho(reply: string, data: string)
    requires Unecho(reply) == Some(data)
    ensures Echo(data) == reply
  {
    assert reply == reply[..|EchoPrefix|] + reply[|EchoPrefix|..];
  }

  /** Distinct frames get distinct replies. */
  lemma EchoInjective(a: string, b: string)
    requires Echo(a) == Echo(b)
    ensures a == b
  {
    UnechoEcho(a);
    UnechoEcho(b);
  }

  /** The reply trace of a connection that received `inbox`, in order, one reply per frame. */
  function Replies(inbox: seq<string>): (outbox: seq<string>)
    ensures |outbox| == |inbox|
    ensures forall i :: 0 <= i < |inbox| ==> outbox[i] == Echo(inbox[i])
  {
    if inbox == [] then [] else Replies(inbox[..|inbox| - 1]) + [Echo(inbox[|inbox| - 1])]
  }

  /** Replies to later frames come after, and do not change, replies to earlier ones. */
  lemma RepliesAppend(a: seq<string>, b: seq<string>)
    ensures Replies(a + b) == Replies(a) + Replies(b)
  {
  }

  /**
   The single-connection view of the endpoint (the interleaved view of all
   connections is `Server.Step`), from `manager.connect` to the handler
   that ends it: `inbox` holds the text frames received and answered before
   the loop exits with `exit`. Returns the registry afterwards (a failure if the
   handler's `disconnect` raised) and the frames sent.
   */
  method Endpoint(m: Manager, h: Handle, inbox: seq<string>, exit: Exit)
    returns (after: Result<Manager, RegistryError>, outbox: seq<string>)
    ensures |outbox| == |inbox|
    ensures forall i :: 0 <= i < |inbox| ==> outbox[i] == Echo(inbox[i])
    ensures after.Success?
    ensures Handled(exit) && h !in m.active ==> after.value == m
    ensures Handled(exit) ==> |after.value.active| == |m.active|
    ensures !Handled(exit) ==> after.value.active == m.active + [h]
  {
    var live := Connect(m, h);
    outbox := [];
    var k := 0;
    while k < |inbox|
      invariant 0 <= k <= |inbox|
      invariant |outbox| == k
      invariant forall i :: 0 <= i < k ==> outbox[i] == Echo(inbox[i])
    {
      var data := inbox[k];
      outbox := outbox + [Echo(data)];
      k := k + 1;
    }
    if Handled(exit) {
      assert h in live.active by {
        assert live.active[|m.active|] == h;
      }
      after := Disconnect(live, h);
      if h !in m.active {
        ConnectThenDisconnect(m, h);
      }
    } else {
      after := Success(live);
    }
  }
}
