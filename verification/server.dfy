/**
 All connections of the echo server together. The server runs on one
 asyncio event loop, so every registry operation is atomic and an execution
 is a sequence of events, each about one connection: its handshake, one
 received text frame, or the exception that ends its receive loop.
 */
module Server {
  import opened Wrappers
  import opened Registry
  import opened Session

  /** Where a connection's endpoint is: in its receive loop, or finished with an exit. */
  datatype Phase = Live | Ended(exit: Exit)

  /** One connection: its phase and the text frames it received and sent, in order. */
  datatype Conn = Conn(phase: Phase, inbox: seq<string>, outbox: seq<string>)

  /** The shared `manager` and every connection the server has accepted. */
  datatype World = World(manager: Manager, conns: map<Handle, Conn>)

  datatype Event =
    | Accept(h: Handle)                    // `manager.connect` after the handshake
    | Frame(h: Handle, data: string)       // `receive_text` returned `data` and its echo was sent
    | Terminate(h: Handle, exit: Exit)     // the receive or the send raised

  datatype StepError =
    | Impossible(e: Event)     // the framework never delivers this event in this state
    | RemoveRaised(h: Handle)  // the handler's `disconnect` raised `ValueError`

  /** The connection an event is about. */
  function Subject(e: Event): Handle
  {
    match e
    case Accept(h) => h
    case Frame(h, _) => h
    case Terminate(h, _) => h
  }

  /** The server before any connection: an empty registry. */
  function Start(): (w: World)
    ensures w.manager.active == [] && w.conns == map[]
  {
    World(Init(), map[])
  }

  /**
   One event. A handshake appends a fresh handle; a frame is answered with
   its echo; a caught exit unregisters the handle, an uncaught one does not.
   */
  function Step(w: World, e: Event): (r: Result<World, StepError>)
    ensures r.Success? ==> forall g :: g != Subject(e) ==> (g in r.value.conns <==> g in w.conns)
    ensures r.Success? ==> forall g :: g != Subject(e) && g in w.conns ==> r.value.conns[g] == w.conns[g]
    ensures r.Success? ==> Subject(e) in r.value.conns
    ensures r.Failure? && r.error.Impossible? ==> r.error.e == e
  {
    match e
    case Accept(h) =>
      if h in w.conns then Failure(Impossible(e))
      else Success(World(Connect(w.manager, h), w.conns[h := Conn(Live, [], [])]))
    case Frame(h, data) =>
      if h !in w.conns || !w.conns[h].phase.Live? then Failure(Impossible(e))
      else
        var c := w.conns[h];
        Success(w.(conns := w.conns[h := c.(inbox := c.inbox + [data], outbox := c.outbox + [Echo(data)])]))
    case Terminate(h, exit) =>
      if h !in w.conns || !w.conns[h].phase.Live? then Failure(Impossible(e))
      else
        var c := w.conns[h].(phase := Ended(exit));
        if Handled(exit) then
          match Disconnect(w.manager, h)
          case Failure(_) => Failure(RemoveRaised(h))
          case Success(m) => Success(World(m, w.conns[h := c]))
        else Success(w.(conns := w.conns[h := c]))
  }

  /**
   The event loop: events in order, stopping at the first that fails. An
   accepted connection is never forgotten, whether live or ended.
   */
  function Run(w: World, es: seq<Event>): (r: Result<World, StepError>)
    ensures es == [] ==> r == Success(w)
    ensures r.Success? ==> w.conns.Keys <= r.value.conns.Keys
    decreases |es|
  {
    if es == [] then Success(w)
    else
      match Step(w, es[0])
      case Failure(err) => Failure(err)
      case Success(w') => Run(w', es[1..])
  }

  /** Running two stretches of events one after the other is running them together. */
  lemma {:induction false} RunAppend(w: World, a: seq<Event>, b: seq<Event>)
    ensures Run(w, a + b) == (if Run(w, a).Success? then Run(Run(w, a).value, b) else Run(w, a))
    decreases |a|
  {
    if a == [] {
      assert a + b == b;
    } else {
      assert (a + b)[0] == a[0];
      assert (a + b)[1..] == a[1..] + b;
      if Step(w, a[0]).Success? {
        RunAppend(Step(w, a[0]).value, a[1..], b);
      }
    }
  }

  /** The connection still holds a slot in the registry: it is live, or it ended by an uncaught exception. */
  predicate Registered(c: Conn)
  {
    c.phase.Live? || !Handled(c.phase.exit)
  }

  /** The accepted connections that hold a registry slot. */
  function RegisteredSet(w: World): set<Handle>
  {
    set h | h in w.conns && Registered(w.conns[h])
  }

  /** The connections whose receive loop is still running. */
  function LiveSet(w: World): set<Handle>
  {
    set h | h in w.conns && w.conns[h].phase.Live?
  }

  /**
   What every reachable world satisfies: the registry lists each registered
   connection once and nothing else, and each connection has sent exactly
   the echoes of what it received.
   */
  predicate Inv(w: World)
  {
    && NoDup(w.manager.active)
    && Elements(w.manager.active) == RegisteredSet(w)
    && EchoesKept(w.conns)
  }

  /** Each connection has sent exactly the echoes of what it received, in order. */
  predicate EchoesKept(conns: map<Handle, Conn>)
  {
    forall h :: h in conns ==> conns[h].outbox == Replies(conns[h].inbox)
  }

  lemma StartInv()
    ensures Inv(Start())
  {
    assert Elements([]) == {};
  }

  /**
   Every event keeps the invariant, and the only failures are events the
   framework does not deliver: the handler's `disconnect` never raises.
   */
  lemma StepKeepsInv(w: World, e: Event)
    requires Inv(w)
    ensures Step(w, e).Success? ==> Inv(Step(w, e).value)
    ensures Step(w, e).Failure? ==> Step(w, e).error.Impossible?
  {
    match e
    case Accept(h) =>
      if h !in w.conns {
        AcceptKeepsInv(w, h);
      }
    case Frame(h, data) =>
      if h in w.conns && w.conns[h].phase.Live? {
        FrameKeepsInv(w, h, data);
      }
    case Terminate(h, exit) =>
      if h in w.conns && w.conns[h].phase.Live? {
        if Handled(exit) {
          HandledExitKeepsInv(w, h, exit);
        } else {
          UncaughtExitKeepsInv(w, h, exit);
        }
      }
  }

  lemma AcceptKeepsInv(w: World, h: Handle)
    requires Inv(w) && h !in w.conns
    ensures Inv(Step(w, Accept(h)).value)
  {
    var w' := Step(w, Accept(h)).value;
    assert h !in RegisteredSet(w);
    assert h !in w.manager.active by {
      assert h !in Elements(w.manager.active);
    }
    ConnectKeepsNoDup(w.manager, h);
    ElementsOfSnoc(w.manager.active, h);
    assert RegisteredSet(w') == RegisteredSet(w) + {h};
  }

  lemma FrameKeepsInv(w: World, h: Handle, data: string)
    requires Inv(w) && h in w.conns && w.conns[h].phase.Live?
    ensures Inv(Step(w, Frame(h, data)).value)
  {
    var w' := Step(w, Frame(h, data)).value;
    assert RegisteredSet(w') == RegisteredSet(w);
    RepliesAppend(w.conns[h].inbox, [data]);
  }

  lemma HandledExitKeepsInv(w: World, h: Handle, exit: Exit)
    requires Inv(w) && h in w.conns && w.conns[h].phase.Live? && Handled(exit)
    ensures Step(w, Terminate(h, exit)).Success?
    ensures Inv(Step(w, Terminate(h, exit)).value)
  {
    assert h in w.manager.active by {
      assert h in RegisteredSet(w);
      assert h in Elements(w.manager.active);
    }
    var conns := w.conns[h := w.conns[h].(phase := Ended(exit))];
    var w' := World(Manager(RemoveFirst(w.manager.active, h)), conns);
    HandledExitStep(w, h, exit);
    RemoveFirstNoDup(w.manager.active, h);
    RegisteredAfterRemoval(w, w', h);
    EndingKeepsReplies(w.conns, h, Ended(exit));
  }

  /** A caught exit of a live connection in the registry applies `list.remove` and marks the connection ended. */
  lemma HandledExitStep(w: World, h: Handle, exit: Exit)
    requires h in w.conns && w.conns[h].phase.Live? && Handled(exit) && h in w.manager.active
    ensures Step(w, Terminate(h, exit))
      == Success(World(Manager(RemoveFirst(w.manager.active, h)), w.conns[h := w.conns[h].(phase := Ended(exit))]))
  {
  }

  /** Ending a connection does not touch any frame it received or sent. */
  lemma EndingKeepsReplies(conns: map<Handle, Conn>, h: Handle, p: Phase)
    requires h in conns
    requires EchoesKept(conns)
    ensures EchoesKept(conns[h := conns[h].(phase := p)])
  {
  }

  /** Ending `h`'s session by a caught exit frees its slot and no other. */
  lemma RegisteredAfterRemoval(w: World, w': World, h: Handle)
    requires h in w.conns && w'.conns.Keys == w.conns.Keys
    requires forall g :: g in w.conns && g != h ==> w'.conns[g] == w.conns[g]
    requires !Registered(w'.conns[h])
    ensures RegisteredSet(w') == RegisteredSet(w) - {h}
  {
  }

  lemma UncaughtExitKeepsInv(w: World, h: Handle, exit: Exit)
    requires Inv(w) && h in w.conns && w.conns[h].phase.Live? && !Handled(exit)
    ensures Step(w, Terminate(h, exit)).Success?
    ensures Inv(Step(w, Terminate(h, exit)).value)
  {
    var w' := Step(w, Terminate(h, exit)).value;
    assert Registered(w'.conns[h]);
    forall g ensures g in RegisteredSet(w') <==> g in RegisteredSet(w) {
      if g != h && g in w.conns {
        assert w'.conns[g] == w.conns[g];
      }
    }
    assert RegisteredSet(w') == RegisteredSet(w);
  }

  lemma {:induction false} ElementsOfSnoc(s: seq<Handle>, h: Handle)
    ensures Elements(s + [h]) == Elements(s) + {h}
  {
    forall x ensures x in Elements(s + [h]) <==> x in Elements(s) || x == h {
      if x in Elements(s + [h]) && x != h {
        var k :| 0 <= k < |s + [h]| && (s + [h])[k] == x;
        assert s[k] == x;
      }
      if x in Elements(s) {
        var k :| 0 <= k < |s| && s[k] == x;
        assert (s + [h])[k] == x;
      }
    }
  }

  /** Every execution from the start keeps the invariant, and none fails inside the server. */
  lemma {:induction false} RunKeepsInv(w: World, es: seq<Event>)
    requires Inv(w)
    ensures Run(w, es).Success? ==> Inv(Run(w, es).value)
    ensures Run(w, es).Failure? ==> Run(w, es).error.Impossible?
    decreases |es|
  {
    if es != [] {
      StepKeepsInv(w, es[0]);
      if Step(w, es[0]).Success? {
        RunKeepsInv(Step(w, es[0]).value, es[1..]);
      }
    }
  }

  /** The health count is the number of connections holding a registry slot. */
  lemma HealthCountsRegistered(w: World)
    requires Inv(w)
    ensures Health(w.manager).connections == |RegisteredSet(w)|
  {
    NoDupCardinality(w.manager.active);
  }

  /** While no endpoint has left by an uncaught exception, the health count is the number of live connections. */
  lemma HealthCountsLive(w: World)
    requires Inv(w)
    requires forall h :: h in w.conns ==> Registered(w.conns[h]) == w.conns[h].phase.Live?
    ensures Health(w.manager).connections == |LiveSet(w)|
  {
    HealthCountsRegistered(w);
    assert RegisteredSet(w) == LiveSet(w);
  }

  /** The text frames the events deliver to connection `h`, in order. */
  function FramesFor(es: seq<Event>, h: Handle): seq<string>
  {
    if es == [] then []
    else (if es[0].Frame? && es[0].h == h then [es[0].data] else []) + FramesFor(es[1..], h)
  }

  /** What `h` has received so far in `w`; nothing if it was never accepted. */
  function Received(w: World, h: Handle): seq<string>
  {
    if h in w.conns then w.conns[h].inbox else []
  }

  /** One event adds to a connection's inbox exactly the frame it delivers to that connection. */
  lemma StepRecordsFrame(w: World, e: Event)
    requires Step(w, e).Success?
    ensures forall h :: Received(Step(w, e).value, h) == Received(w, h) + FramesFor([e], h)
  {
    var w' := Step(w, e).value;
    forall h ensures Received(w', h) == Received(w, h) + FramesFor([e], h) {
      assert FramesFor([e], h) == (if e.Frame? && e.h == h then [e.data] else []) + FramesFor([], h);
      if h != Subject(e) {
        assert Received(w', h) == Received(w, h);
      }
    }
  }

  /** Over any execution, each connection's inbox grows by exactly the frames delivered to it, in order. */
  lemma {:induction false} RunRecordsFrames(w: World, es: seq<Event>)
    requires Run(w, es).Success?
    ensures forall h :: Received(Run(w, es).value, h) == Received(w, h) + FramesFor(es, h)
    decreases |es|
  {
    if es != [] {
      var w' := Step(w, es[0]).value;
      StepRecordsFrame(w, es[0]);
      RunRecordsFrames(w', es[1..]);
      forall h ensures Received(Run(w, es).value, h) == Received(w, h) + FramesFor(es, h) {
        FramesForCons(es, h);
      }
    }
  }

  lemma FramesForCons(es: seq<Event>, h: Handle)
    requires es != []
    ensures FramesFor(es, h) == FramesFor([es[0]], h) + FramesFor(es[1..], h)
  {
    assert [es[0]][1..] == [];
  }


  /**
   However the connections interleave, each one's replies are the echoes
   of exactly the frames it received, one per frame, in the same order.
   */
  lemma ReplyTrace(es: seq<Event>)
    requires Run(Start(), es).Success?
    ensures forall h :: h in Run(Start(), es).value.conns ==>
      Run(Start(), es).value.conns[h].outbox == Replies(FramesFor(es, h))
  {
    StartInv();
    RunKeepsInv(Start(), es);
    RunRecordsFrames(Start(), es);
    var w := Run(Start(), es).value;
    forall h | h in w.conns ensures w.conns[h].outbox == Replies(FramesFor(es, h)) {
      assert Received(Start(), h) == [];
      assert Received(w, h) == FramesFor(es, h);
    }
  }

  /** A session ending by one of the caught exceptions gives up its registry slot: the health count drops by one. */
  lemma HandledExitUnregisters(w: World, h: Handle, exit: Exit)
    requires Inv(w) && h in w.conns && w.conns[h].phase.Live? && Handled(exit)
    ensures Step(w, Terminate(h, exit)).Success?
    ensures h !in Step(w, Terminate(h, exit)).value.manager.active
    ensures Health(Step(w, Terminate(h, exit)).value.manager).connections == Health(w.manager).connections - 1
  {
    HandledExitKeepsInv(w, h, exit);
    var w' := Step(w, Terminate(h, exit)).value;
    assert h !in RegisteredSet(w');
    assert h !in Elements(w'.manager.active);
  }

  /** A session ending by any other exception keeps its slot: the handle goes stale and the health count does not drop. */
  lemma UncaughtExitLeavesStaleHandle(w: World, h: Handle, exit: Exit)
    requires Inv(w) && h in w.conns && w.conns[h].phase.Live? && !Handled(exit)
    ensures Step(w, Terminate(h, exit)).Success?
    ensures h in Step(w, Terminate(h, exit)).value.manager.active
    ensures h !in LiveSet(Step(w, Terminate(h, exit)).value)
    ensures Health(Step(w, Terminate(h, exit)).value.manager) == Health(w.manager)
  {
    assert h in RegisteredSet(w);
    assert h in Elements(w.manager.active);
  }

  /** One client connects, exchanges one message and disconnects: the registry goes from 0 to 1 and back to 0. */
  lemma ConnectEchoDisconnectScenario()
    ensures Run(Start(), [Accept(7)]).Success?
    ensures Health(Run(Start(), [Accept(7)]).value.manager).connections == 1
    ensures Run(Start(), [Accept(7), Frame(7, "Test message"), Terminate(7, ClientDisconnect)]).Success?
    ensures Health(Run(Start(), [Accept(7), Frame(7, "Test message"), Terminate(7, ClientDisconnect)]).value.manager).connections == 0
    ensures Run(Start(), [Accept(7), Frame(7, "Test message"), Terminate(7, ClientDisconnect)]).value.conns[7].outbox
      == ["Echo: Test message"]
  {
    var w0 := Start();
    var w1 := Step(w0, Accept(7)).value;
    assert Run(w1, []) == Success(w1);
    assert Run(w0, [Accept(7)]) == Success(w1);
    var w2 := Step(w1, Frame(7, "Test message")).value;
    var w3 := Step(w2, Terminate(7, ClientDisconnect)).value;
    assert w3.manager.active == [];
    assert w3.conns[7].outbox == [Echo("Test message")];
    assert Echo("Test message") == "Echo: Test message";
    assert Run(w2, [Terminate(7, ClientDisconnect)]) == Success(w3);
    assert [Accept(7), Frame(7, "Test message"), Terminate(7, ClientDisconnect)][1..]
      == [Frame(7, "Test message"), Terminate(7, ClientDisconnect)];
    assert [Frame(7, "Test message"), Terminate(7, ClientDisconnect)][1..] == [Terminate(7, ClientDisconnect)];
  }
}
