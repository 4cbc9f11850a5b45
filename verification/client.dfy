/**
 The browser client (`WebSocketClient` in audio_socket_api/static/websocket.js)
 with the page stripped away: its connection flags, its bounded reconnect
 counter and the text in the input box. Each handler is a function from the
 state to the next state and the effects it has on the socket, the timer and
 the message list, in the order the handler performs them.
 */
module Client {
  import opened Text

  /** `maxReconnectAttempts`. */
  const MaxReconnectAttempts: int := 5

  /** `reconnectDelay`, in milliseconds. */
  const ReconnectDelay: int := 3000

  /** The state the handlers read and write. */
  datatype State = State(isConnected: bool, reconnectAttempts: int, input: string)

  /** Which side a chat line came from: `addMessage`'s `type` argument. */
  datatype Direction = Sent | Received

  /** The system lines `addSystemMessage` shows, by kind. */
  datatype Notice =
    | ConnectedNotice                            // 'Connected to server'
    | DisconnectedNotice                         // 'Disconnected from server'
    | SocketErrorNotice                          // 'WebSocket error occurred'
    | ReconnectingNotice(attempt: int, max: int) // 'Attempting to reconnect... (attempt/max)'
    | SendFailedNotice                           // 'Failed to send message: ...'

  datatype Effect =
    | OpenSocket                  // `connect()`: a new WebSocket to /ws
    | CloseSocket                 // `ws.close()`
    | Transmit(frame: string)     // `ws.send(frame)`
    | ShowLine(line: string)      // `addMessage`
    | ShowNotice(notice: Notice)  // `addSystemMessage`
    | StartTimer(delay: int)      // `setTimeout(..., reconnectDelay)`

  datatype Outcome = Outcome(next: State, effects: seq<Effect>)

  /** What the browser delivers to the client. */
  datatype Event =
    | Opened                             // `onopen`
    | MessageArrived(data: string)       // `onmessage`
    | Closed(wasClean: bool)             // `onclose`
    | SocketError                        // `onerror`
    | TimerFired                         // the reconnect timer's callback
    | Typed(text: string)                // the user edits the input box
    | KeyPressed(key: string, sendThrows: bool)  // keypress in the input box
    | SendClicked(sendThrows: bool)      // the global `sendMessage` behind the button
    | Unload                             // `beforeunload`

  /** The counter invariant: the reconnect counter stays within its bound. */
  predicate Valid(s: State)
  {
    0 <= s.reconnectAttempts <= MaxReconnectAttempts
  }

  /** The label `addMessage` puts on a chat line. */
  function Label(dir: Direction, text: string): (line: string)
    ensures dir == Sent ==> line == "You: " + text
    ensures dir == Received ==> line == "Server: " + text
    ensures line[|line| - |text|..] == text
  {
    match dir
    case Sent => "You: " + text
    case Received => "Server: " + text
  }

  /** A chat line tells its direction and its text apart: no sent line reads as a received one, and the text is recoverable. */
  lemma LabelsAreUnambiguous(d1: Direction, a: string, d2: Direction, b: string)
    requires Label(d1, a) == Label(d2, b)
    ensures d1 == d2 && a == b
  {
    assert Label(d1, a)[0] == (if d1 == Sent then 'Y' else 'S');
    assert Label(d2, b)[0] == (if d2 == Sent then 'Y' else 'S');
    var l := Label(d1, a);
    assert a == l[|l| - |a|..] == b;
  }

  /** The constructor: disconnected, no attempts yet, an empty box, and `connect()` already called. */
  function Create(): (o: Outcome)
    ensures Valid(o.next) && !o.next.isConnected
    ensures o.next.reconnectAttempts == 0 && o.next.input == []
    ensures o.effects == [OpenSocket]
  {
    Outcome(State(false, 0, ""), [OpenSocket])
  }

  /** `onopen`: connected, and the reconnect counter starts over. */
  function OnOpen(s: State): (o: Outcome)
    ensures o.next.isConnected && o.next.reconnectAttempts == 0
    ensures o.next.input == s.input
    ensures o.effects == [ShowNotice(ConnectedNotice)]
  {
    Outcome(s.(isConnected := true, reconnectAttempts := 0), [ShowNotice(ConnectedNotice)])
  }

  /** `onmessage`: the frame is shown as a server line; nothing else changes. */
  function OnMessage(s: State, data: string): (o: Outcome)
    ensures o.next == s
    ensures o.effects == [ShowLine("Server: " + data)]
  {
    Outcome(s, [ShowLine(Label(Received, data))])
  }

  /** `attemptReconnect`: one more attempt counted, and the timer started. */
  function AttemptReconnect(s: State): (o: Outcome)
    ensures o.next.reconnectAttempts == s.reconnectAttempts + 1
    ensures o.next.isConnected == s.isConnected && o.next.input == s.input
    ensures StartTimer(ReconnectDelay) in o.effects
  {
    var n := s.reconnectAttempts + 1;
    Outcome(s.(reconnectAttempts := n),
            [ShowNotice(ReconnectingNotice(n, MaxReconnectAttempts)), StartTimer(ReconnectDelay)])
  }

  /** A reconnect is scheduled on close only if the close was not clean and attempts remain. */
  predicate ReconnectsOnClose(s: State, wasClean: bool)
  {
    !wasClean && s.reconnectAttempts < MaxReconnectAttempts
  }

  /** `onclose`: always disconnected; a timer is started exactly when a reconnect is due. */
  function OnClose(s: State, wasClean: bool): (o: Outcome)
    ensures !o.next.isConnected
    ensures o.next.input == s.input
    ensures StartTimer(ReconnectDelay) in o.effects <==> ReconnectsOnClose(s, wasClean)
    ensures o.next.reconnectAttempts
      == if ReconnectsOnClose(s, wasClean) then s.reconnectAttempts + 1 else s.reconnectAttempts
    ensures OpenSocket !in o.effects
  {
    var closed := s.(isConnected := false);
    var notices := [ShowNotice(DisconnectedNotice)];
    if ReconnectsOnClose(s, wasClean) then
      var r := AttemptReconnect(closed);
      Outcome(r.next, notices + r.effects)
    else Outcome(closed, notices)
  }

  /** `onerror`: only a notice; the close event that follows does the rest. */
  function OnError(s: State): (o: Outcome)
    ensures o.next == s
    ensures o.effects == [ShowNotice(SocketErrorNotice)]
  {
    Outcome(s, [ShowNotice(SocketErrorNotice)])
  }

  /** The reconnect timer's callback: `connect()` only if still disconnected. */
  function TimerFires(s: State): (o: Outcome)
    ensures o.next == s
    ensures OpenSocket in o.effects <==> !s.isConnected
    ensures |o.effects| <= 1
  {
    Outcome(s, if !s.isConnected then [OpenSocket] else [])
  }

  /**
   `sendMessage`: the trimmed box content is sent, shown as a "You: " line
   and the box cleared, unless it is empty or the client is disconnected, in
   which case nothing at all happens. `sendThrows` says whether `ws.send`
   throws; then only a notice is shown.
   */
  function SendMessage(s: State, sendThrows: bool): (o: Outcome)
    ensures Trim(s.input) == [] || !s.isConnected ==> o == Outcome(s, [])
    ensures Trim(s.input) != [] && s.isConnected && sendThrows ==> o == Outcome(s, [ShowNotice(SendFailedNotice)])
    ensures (exists f :: Transmit(f) in o.effects) <==> Trim(s.input) != [] && s.isConnected && !sendThrows
    ensures forall f :: Transmit(f) in o.effects ==> f == Trim(s.input)
    ensures Trim(s.input) != [] && s.isConnected && !sendThrows ==>
      o.next == s.(input := []) && o.effects == [Transmit(Trim(s.input)), ShowLine("You: " + Trim(s.input))]
  {
    var message := Trim(s.input);
    if message == [] || !s.isConnected then Outcome(s, [])
    else if sendThrows then Outcome(s, [ShowNotice(SendFailedNotice)])
    else Outcome(s.(input := []), [Transmit(message), ShowLine(Label(Sent, message))])
  }

  /** The keypress listener: Enter sends, but only while connected. */
  function KeyPress(s: State, key: string, sendThrows: bool): (o: Outcome)
    ensures key != "Enter" || !s.isConnected ==> o == Outcome(s, [])
    ensures key == "Enter" && s.isConnected ==> o == SendMessage(s, sendThrows)
  {
    if key == "Enter" && s.isConnected then SendMessage(s, sendThrows) else Outcome(s, [])
  }

  /**
   One event, dispatched to its handler. Page unload only closes the socket;
   editing the box only changes its text. After construction, only the reconnect timer opens
   a socket, and only `onopen` and `onclose` change the connection flag.
   */
  function Apply(s: State, e: Event): (o: Outcome)
    ensures e.Unload? ==> o == Outcome(s, [CloseSocket])
    ensures CloseSocket in o.effects <==> e.Unload?
    ensures e.Typed? ==> o.next == s.(input := e.text) && o.effects == []
    ensures OpenSocket in o.effects <==> e.TimerFired? && !s.isConnected
    ensures o.next.isConnected != s.isConnected ==> e.Opened? || e.Closed?
  {
    match e
    case Opened => OnOpen(s)
    case MessageArrived(data) => OnMessage(s, data)
    case Closed(wasClean) => OnClose(s, wasClean)
    case SocketError => OnError(s)
    case TimerFired => TimerFires(s)
    case Typed(text) => Outcome(s.(input := text), [])
    case KeyPressed(key, sendThrows) => KeyPress(s, key, sendThrows)
    case SendClicked(sendThrows) => SendMessage(s, sendThrows)
    case Unload => Outcome(s, [CloseSocket])
  }

  /** Some event of `es` is a page unload. */
  predicate HasUnload(es: seq<Event>)
  {
    exists i :: 0 <= i < |es| && es[i].Unload?
  }

  /**
   The page's single-threaded event loop: events handled one at a time, in
   order, giving the final state and all effects in order. A socket is closed
   only on page unload.
   */
  function Run(s: State, es: seq<Event>): (o: Outcome)
    ensures es == [] ==> o == Outcome(s, [])
    ensures CloseSocket in o.effects ==> HasUnload(es)
    decreases |es|
  {
    if es == [] then Outcome(s, [])
    else
      var first := Apply(s, es[0]);
      var rest := Run(first.next, es[1..]);
      assert HasUnload(es[1..]) ==> HasUnload(es) by {
        if HasUnload(es[1..]) {
          var i :| 0 <= i < |es[1..]| && es[1..][i].Unload?;
          assert es[i + 1].Unload?;
        }
      }
      Outcome(rest.next, first.effects + rest.effects)
  }

  /** Every handler keeps the reconnect counter within `0..maxReconnectAttempts`. */
  lemma ApplyKeepsValid(s: State, e: Event)
    requires Valid(s)
    ensures Valid(Apply(s, e).next)
  {
  }

  /** The counter stays within `0..maxReconnectAttempts` across every sequence of events. */
  lemma {:induction false} RunKeepsValid(s: State, es: seq<Event>)
    requires Valid(s)
    ensures Valid(Run(s, es).next)
    decreases |es|
  {
    if es != [] {
      ApplyKeepsValid(s, es[0]);
      RunKeepsValid(Apply(s, es[0]).next, es[1..]);
    }
  }

  /** The number of reconnect timers among the effects. */
  function Timers(effects: seq<Effect>): nat
  {
    if effects == [] then 0
    else (if effects[0].StartTimer? then 1 else 0) + Timers(effects[1..])
  }

  lemma {:induction false} TimersAppend(a: seq<Effect>, b: seq<Effect>)
    ensures Timers(a + b) == Timers(a) + Timers(b)
  {
    if a == [] {
      assert a + b == b;
    } else {
      assert (a + b)[1..] == a[1..] + b;
      TimersAppend(a[1..], b);
    }
  }

  /** Each handler other than `onopen` starts as many timers as it adds to the counter. */
  lemma ApplyCountsTimers(s: State, e: Event)
    requires !e.Opened?
    ensures Apply(s, e).next.reconnectAttempts == s.reconnectAttempts + Timers(Apply(s, e).effects)
  {
    var o := Apply(s, e);
    match e
    case Closed(wasClean) =>
      if ReconnectsOnClose(s, wasClean) {
        var n := s.reconnectAttempts + 1;
        assert o.effects == [ShowNotice(DisconnectedNotice), ShowNotice(ReconnectingNotice(n, MaxReconnectAttempts)), StartTimer(ReconnectDelay)];
        assert o.effects[2..][1..] == [];
        assert Timers(o.effects[2..]) == 1;
        assert o.effects[1..][1..] == o.effects[2..];
        assert Timers(o.effects[1..]) == 1;
      } else {
        assert o.effects == [ShowNotice(DisconnectedNotice)];
        assert o.effects[1..] == [];
      }
    case TimerFired =>
      if !s.isConnected {
        assert o.effects[1..] == [];
      }
    case KeyPressed(key, sendThrows) =>
      KeyPressStartsNoTimer(s, key, sendThrows);
    case SendClicked(sendThrows) =>
      SendStartsNoTimer(s, sendThrows);
    case MessageArrived(data) =>
      assert o.effects[1..] == [];
    case SocketError =>
      assert o.effects[1..] == [];
    case Unload =>
      assert o.effects[1..] == [];
    case Typed(_) =>
  }

  lemma SendStartsNoTimer(s: State, sendThrows: bool)
    ensures Timers(SendMessage(s, sendThrows).effects) == 0
    ensures SendMessage(s, sendThrows).next.reconnectAttempts == s.reconnectAttempts
  {
    var o := SendMessage(s, sendThrows);
    if |o.effects| == 1 {
      assert o.effects[1..] == [];
    } else if |o.effects| == 2 {
      assert o.effects[1..][1..] == [];
      assert Timers(o.effects[1..]) == 0;
    }
  }

  lemma KeyPressStartsNoTimer(s: State, key: string, sendThrows: bool)
    ensures Timers(KeyPress(s, key, sendThrows).effects) == 0
    ensures KeyPress(s, key, sendThrows).next.reconnectAttempts == s.reconnectAttempts
  {
    SendStartsNoTimer(s, sendThrows);
  }

  /**
   Until a connection opens, the client starts at most `maxReconnectAttempts`
   reconnect timers in all: each one is counted, and the counter is bounded.
   */
  lemma {:induction false} BoundedReconnects(s: State, es: seq<Event>)
    requires Valid(s)
    requires forall i :: 0 <= i < |es| ==> !es[i].Opened?
    ensures Run(s, es).next.reconnectAttempts == s.reconnectAttempts + Timers(Run(s, es).effects)
    ensures Timers(Run(s, es).effects) <= MaxReconnectAttempts - s.reconnectAttempts
    decreases |es|
  {
    RunKeepsValid(s, es);
    if es != [] {
      var first := Apply(s, es[0]);
      ApplyCountsTimers(s, es[0]);
      ApplyKeepsValid(s, es[0]);
      BoundedReconnects(first.next, es[1..]);
      TimersAppend(first.effects, Run(first.next, es[1..]).effects);
    }
  }

  /** Whatever the client sends is non-empty and already trimmed, and it is sent only while connected. */
  lemma ApplySendsTrimmed(s: State, e: Event)
    ensures forall f :: Transmit(f) in Apply(s, e).effects ==> f != [] && IsTrimmed(f) && s.isConnected
  {
    match e
    case SendClicked(sendThrows) =>
      TrimIdempotent(s.input);
    case KeyPressed(key, sendThrows) =>
    case Closed(wasClean) =>
    case _ =>
  }

  /** Over any sequence of events, every frame the client sends is non-empty and trimmed. */
  lemma {:induction false} RunSendsTrimmed(s: State, es: seq<Event>)
    ensures forall f :: Transmit(f) in Run(s, es).effects ==> f != [] && IsTrimmed(f)
    decreases |es|
  {
    if es != [] {
      var first := Apply(s, es[0]);
      ApplySendsTrimmed(s, es[0]);
      RunSendsTrimmed(first.next, es[1..]);
    }
  }
}
