/**
 One browser connection of the IRC proxy (bridge-client/proxy/irc-proxy.js):
 the handlers that share `ircSocket`, `ircTimeout` and `buffer`, as a state
 machine over the events Node can deliver to them.

 A socket is named by its number; its connect timer carries the same number.
 `listening` and `armed` are the runtime's side: an event reaches a handler only
 while its socket still has listeners, a timer fires only while it is armed.
 Once the browser's connection starts closing nothing more can be sent on it,
 while the IRC socket may go on delivering until the close is seen.
 Messages to the browser are logged with the session on whose behalf they were
 sent.
 */
module IrcSession {
  import opened Wrappers
  import opened IrcFraming

  datatype Reason =
    | InvalidJson | AlreadyConnected | MissingServer | NotConnected | MissingData | UnknownType
    | TimedOut
    | SocketFailed(text: string)

  datatype Msg = Connected | Data(line: string) | Disconnected | Failure(reason: Reason)

  datatype Event =
    | ClientConnect(validServer: bool)
    | ClientSend(data: Option<string>, destroyed: bool)
    | ClientDisconnect
    | ClientBadJson
    | ClientUnknown
    | ClientClosing
    | ClientGone
    | SocketConnected(sid: nat)
    | SocketData(sid: nat, chunk: string)
    | SocketClosed(sid: nat)
    | SocketError(sid: nat, text: string)
    | TimerFired(sid: nat)

  type Log = seq<(Option<nat>, Msg)>

  /**
   `received[sid]` is all the text session `sid` has been handed and `written[sid]` all
   that has been written to its socket; session numbers run from 0.
   */
  datatype State = State(socket: Option<nat>, timer: Option<nat>, buffer: string, wsOpen: bool,
                         listening: set<nat>, armed: set<nat>, log: Log, received: seq<string>, written: seq<string>)

  const START: State := State(None, None, "", true, {}, {}, [], [], [])

  function Tag(who: Option<nat>, msgs: seq<Msg>): Log {
    seq(|msgs|, i requires 0 <= i < |msgs| => (who, msgs[i]))
  }

  function SendAll(s: State, who: Option<nat>, msgs: seq<Msg>): State {
    if s.wsOpen then s.(log := s.log + Tag(who, msgs)) else s
  }

  function Cleanup(s: State): State {
    s.(timer := None, armed := if s.timer.Some? then s.armed - {s.timer.value} else s.armed,
       socket := None, listening := if s.socket.Some? then s.listening - {s.socket.value} else s.listening,
       buffer := "")
  }

  function DataMsgs(lines: seq<string>): seq<Msg> {
    seq(|lines|, i requires 0 <= i < |lines| => Data(lines[i]))
  }

  /** What the proxy does with one event. */
  function Step(s: State, e: Event): State {
    match e
    case ClientConnect(validServer) =>
      if !s.wsOpen then s
      else if s.socket.Some? then SendAll(s, None, [Failure(AlreadyConnected)])
      else if !validServer then SendAll(s, None, [Failure(MissingServer)])
      else
        var sid := |s.received|;
        s.(socket := Some(sid), timer := Some(sid), listening := s.listening + {sid}, armed := s.armed + {sid},
           received := s.received + [""], written := s.written + [""])
    case ClientSend(data, destroyed) =>
      if !s.wsOpen then s
      else if s.socket.None? || destroyed then SendAll(s, None, [Failure(NotConnected)])
      else if data.None? || s.socket.value >= |s.written| then SendAll(s, None, [Failure(MissingData)])
      else s.(written := s.written[s.socket.value := s.written[s.socket.value] + data.value])
    case ClientDisconnect => if !s.wsOpen then s else SendAll(Cleanup(s), s.socket, [Disconnected])
    case ClientBadJson => if !s.wsOpen then s else SendAll(s, None, [Failure(InvalidJson)])
    case ClientUnknown => if !s.wsOpen then s else SendAll(s, None, [Failure(UnknownType)])
    case ClientClosing => s.(wsOpen := false)
    case ClientGone => Cleanup(s.(wsOpen := false))
    case SocketConnected(sid) =>
      if sid !in s.listening then s
      else SendAll(s.(timer := None, armed := if s.timer.Some? then s.armed - {s.timer.value} else s.armed),
                   Some(sid), [Connected])
    case SocketData(sid, chunk) =>
      if sid !in s.listening || sid >= |s.received| then s
      else
        var text := s.buffer + chunk;
        SendAll(s.(buffer := Tail(text), received := s.received[sid := s.received[sid] + chunk]),
                Some(sid), DataMsgs(NonBlank(Lines(text))))
    case SocketClosed(sid) =>
      if sid !in s.listening then s else Cleanup(SendAll(s, Some(sid), [Disconnected]))
    case SocketError(sid, text) =>
      if sid !in s.listening then s else Cleanup(SendAll(s, Some(sid), [Failure(SocketFailed(text))]))
    case TimerFired(sid) =>
      if sid !in s.armed then s else Cleanup(SendAll(s.(armed := s.armed - {sid}), Some(sid), [Failure(TimedOut)]))
  }

  ghost function Run(s: State, events: seq<Event>): State
    decreases |events|
  {
    if events == [] then s else Run(Step(s, events[0]), events[1..])
  }

  // ------------------------------------------------------------------ what one session said

  /** The messages sent on behalf of session `sid`, in order. */
  ghost function Said(log: Log, sid: nat): seq<Msg> {
    if log == [] then []
    else
      var n := |log| - 1;
      Said(log[..n], sid) + (if log[n].0 == Some(sid) then [log[n].1] else [])
  }

  ghost function Texts(msgs: seq<Msg>): seq<string> {
    if msgs == [] then []
    else
      var n := |msgs| - 1;
      Texts(msgs[..n]) + (if msgs[n].Data? then [msgs[n].line] else [])
  }

  ghost predicate Terminal(m: Msg) {
    m.Disconnected? || (m.Failure? && (m.reason.TimedOut? || m.reason.SocketFailed?))
  }

  ghost predicate Open(msgs: seq<Msg>) {
    forall i | 0 <= i < |msgs| :: !Terminal(msgs[i])
  }

  /** Exactly one terminal message, and nothing after it. */
  ghost predicate EndsOnce(msgs: seq<Msg>) {
    msgs != [] && Terminal(msgs[|msgs| - 1]) && Open(msgs[..|msgs| - 1])
  }

  lemma {:induction false} SaidAppend(log: Log, who: Option<nat>, msgs: seq<Msg>, sid: nat)
    ensures Said(log + Tag(who, msgs), sid) == Said(log, sid) + (if who == Some(sid) then msgs else [])
    decreases |msgs|
  {
    if msgs == [] {
      assert log + Tag(who, msgs) == log;
    } else {
      var n := |msgs| - 1;
      SaidAppend(log, who, msgs[..n], sid);
      assert (log + Tag(who, msgs))[..|log| + n] == log + Tag(who, msgs[..n]);
      assert msgs == msgs[..n] + [msgs[n]];
    }
  }

  lemma {:induction false} TextsAppend(a: seq<Msg>, b: seq<Msg>)
    ensures Texts(a + b) == Texts(a) + Texts(b)
    decreases |b|
  {
    if b == [] {
      assert a + b == a;
    } else {
      assert (a + b)[..|a + b| - 1] == a + b[..|b| - 1];
      TextsAppend(a, b[..|b| - 1]);
    }
  }

  lemma {:induction false} TextsOfData(lines: seq<string>)
    ensures Texts(DataMsgs(lines)) == lines
  {
    if lines == [] {
      assert DataMsgs(lines) == [];
    } else {
      var n := |lines| - 1;
      TextsOfData(lines[..n]);
      assert DataMsgs(lines)[..n] == DataMsgs(lines[..n]);
    }
  }

  // ------------------------------------------------------------------ the invariant

  /** Socket, timer and the runtime's registrations belong to one session; with no socket nothing is left over. */
  ghost predicate OneSession(s: State) {
    && |s.written| == |s.received|
    && match s.socket
    case None => s.timer.None? && s.buffer == "" && s.listening == {} && s.armed == {}
    case Some(sid) =>
      && sid == |s.received| - 1 && s.listening == {sid}
      && (if s.timer.Some? then s.timer == Some(sid) && s.armed == {sid} else s.armed == {})
  }

  /** Session `sid` has been told exactly the lines of its own text, and one terminal message once it has ended. */
  ghost predicate SessionTold(s: State, sid: nat)
    requires sid < |s.received|
  {
    && Texts(Said(s.log, sid)) == NonBlank(Lines(s.received[sid]))
    && (if s.socket == Some(sid) then Open(Said(s.log, sid)) && s.buffer == Tail(s.received[sid]) else EndsOnce(Said(s.log, sid)))
  }

  /** While the browser can be reached, every session has been told everything. */
  ghost predicate AllTold(s: State) {
    && (forall sid: nat :: sid >= |s.received| ==> Said(s.log, sid) == [])
    && (forall sid: nat | sid < |s.received| :: SessionTold(s, sid))
  }

  ghost predicate Inv(s: State) {
    OneSession(s) && (s.wsOpen ==> AllTold(s))
  }

  /** Sending on behalf of nobody changes no session. */
  lemma NoticeKeepsInv(s: State, m: Msg)
    requires Inv(s) && s.wsOpen
    ensures Inv(SendAll(s, None, [m]))
  {
    forall sid: nat
      ensures Said(s.log + Tag(None, [m]), sid) == Said(s.log, sid)
    {
      SaidAppend(s.log, None, [m], sid);
    }
    var t := SendAll(s, None, [m]);
    forall x: nat | x < |t.received|
      ensures SessionTold(t, x)
    {
      assert SessionTold(s, x);
    }
  }

  /** What `sid` says next does not show in what another session said. */
  lemma SaidElsewhere(s: State, sid: nat, msgs: seq<Msg>)
    ensures forall x: nat | x != sid :: Said(s.log + Tag(Some(sid), msgs), x) == Said(s.log, x)
    ensures Said(s.log + Tag(Some(sid), msgs), sid) == Said(s.log, sid) + msgs
  {
    forall x: nat
      ensures Said(s.log + Tag(Some(sid), msgs), x) == Said(s.log, x) + (if x == sid then msgs else [])
    {
      SaidAppend(s.log, Some(sid), msgs, x);
    }
  }

  /** Ending the current session with one terminal message. */
  lemma EndingKeepsInv(s: State, t: State, m: Msg)
    requires Inv(s) && s.wsOpen && s.socket.Some? && Terminal(m)
    requires t.socket.None? && t.timer.None? && t.buffer == "" && t.listening == {} && t.armed == {}
    requires t.wsOpen && t.received == s.received && |t.written| == |s.written| && t.log == s.log + Tag(s.socket, [m])
    ensures Inv(t)
  {
    var sid := s.socket.value;
    SaidElsewhere(s, sid, [m]);
    TextsAppend(Said(s.log, sid), [m]);
    assert Texts([m]) == [];
    assert (Said(s.log, sid) + [m])[..|Said(s.log, sid)|] == Said(s.log, sid);
    forall x: nat | x < |t.received|
      ensures SessionTold(t, x)
    {
      assert SessionTold(s, x);
    }
  }

  lemma NoTextYet()
    ensures Lines("") == [] && Tail("") == "" && NonBlank([]) == [] && Texts([]) == []
  {
  }

  lemma ConnectKeepsInv(s: State)
    requires Inv(s) && s.wsOpen && s.socket.None?
    ensures Inv(Step(s, ClientConnect(true)))
  {
    var t := Step(s, ClientConnect(true));
    var sid := |s.received|;
    NoTextYet();
    assert SessionTold(t, sid);
    forall x: nat | x < |t.received|
      ensures SessionTold(t, x)
    {
      if x < sid {
        assert SessionTold(s, x);
      }
    }
  }

  /** More text, or the connected notice, for the current session. */
  lemma TalkKeepsInv(s: State, t: State, sid: nat, chunk: string, msgs: seq<Msg>)
    requires Inv(s) && s.wsOpen && s.socket == Some(sid) && Open(msgs)
    requires t.socket == s.socket && OneSession(t) && t.wsOpen
    requires t.received == s.received[sid := s.received[sid] + chunk]
    requires t.buffer == Tail(s.buffer + chunk) && Texts(msgs) == NonBlank(Lines(s.buffer + chunk))
    requires t.log == s.log + Tag(Some(sid), msgs)
    ensures Inv(t)
  {
    SaidElsewhere(s, sid, msgs);
    TalkIsTold(s, t, sid, chunk, msgs);
    forall x: nat | x < |t.received|
      ensures SessionTold(t, x)
    {
      assert SessionTold(s, x);
    }
  }

  lemma TalkIsTold(s: State, t: State, sid: nat, chunk: string, msgs: seq<Msg>)
    requires sid < |s.received| && SessionTold(s, sid) && s.socket == t.socket == Some(sid) && Open(msgs)
    requires t.received == s.received[sid := s.received[sid] + chunk] && t.buffer == Tail(s.buffer + chunk)
    requires Said(t.log, sid) == Said(s.log, sid) + msgs && Texts(msgs) == NonBlank(Lines(s.buffer + chunk))
    ensures SessionTold(t, sid)
  {
    TextsAppend(Said(s.log, sid), msgs);
    OneChunk(s.received[sid], chunk);
  }

  lemma {:induction false} TailIsFramed(stream: string)
    ensures Lines(Tail(stream) + "") == [] && Tail(Tail(stream) + "") == Tail(stream)
  {
    var t := Tail(stream);
    assert t + "" == t;
    assert IsFraming(t, [], t);
    FramingUnique(t, Lines(t), Tail(t), [], t);
  }

  /** What is written to the socket is not part of what the browser is told. */
  lemma WriteKeepsInv(s: State, t: State)
    requires Inv(s) && t == s.(written := t.written) && |t.written| == |s.written|
    ensures Inv(t)
  {
    if s.wsOpen {
      forall x: nat | x < |t.received|
        ensures SessionTold(t, x)
      {
        assert SessionTold(s, x);
      }
    }
  }

  lemma ClientKeepsInv(s: State, e: Event)
    requires Inv(s) && s.wsOpen
    requires e.ClientConnect? || e.ClientSend? || e.ClientDisconnect? || e.ClientBadJson? || e.ClientUnknown?
    ensures Inv(Step(s, e))
  {
    match e {
      case ClientConnect(validServer) =>
        if s.socket.None? && validServer {
          ConnectKeepsInv(s);
        } else {
          NoticeKeepsInv(s, Failure(if s.socket.Some? then AlreadyConnected else MissingServer));
        }
      case ClientSend(data, destroyed) =>
        if s.socket.None? || destroyed || data.None? {
          NoticeKeepsInv(s, Failure(if s.socket.None? || destroyed then NotConnected else MissingData));
        } else {
          WriteKeepsInv(s, Step(s, e));
        }
      case ClientDisconnect =>
        if s.socket.Some? {
          EndingKeepsInv(s, Step(s, e), Disconnected);
        } else {
          NoticeKeepsInv(s, Disconnected);
        }
      case ClientBadJson => NoticeKeepsInv(s, Failure(InvalidJson));
      case ClientUnknown => NoticeKeepsInv(s, Failure(UnknownType));
    }
  }

  lemma SocketKeepsInv(s: State, e: Event)
    requires Inv(s) && s.wsOpen && (e.SocketConnected? || e.SocketData?) && e.sid in s.listening
    ensures Inv(Step(s, e))
  {
    var t, sid := Step(s, e), e.sid;
    if e.SocketConnected? {
      assert SessionTold(s, sid);
      TailIsFramed(s.received[sid]);
      assert Texts([Connected]) == [] && NonBlank([]) == [];
      assert s.received[sid] + "" == s.received[sid];
      assert s.received[sid := s.received[sid]] == s.received;
      TalkKeepsInv(s, t, sid, "", [Connected]);
    } else {
      var lines := NonBlank(Lines(s.buffer + e.chunk));
      TextsOfData(lines);
      TalkKeepsInv(s, t, sid, e.chunk, DataMsgs(lines));
    }
  }

  lemma StepKeepsInv(s: State, e: Event)
    requires Inv(s)
    ensures Inv(Step(s, e))
  {
    var t := Step(s, e);
    if s.wsOpen {
      match e {
        case ClientClosing =>
        case ClientGone =>
        case SocketConnected(sid) =>
          if sid in s.listening {
            SocketKeepsInv(s, e);
          }
        case SocketData(sid, chunk) =>
          if sid in s.listening {
            SocketKeepsInv(s, e);
          }
        case SocketClosed(sid) =>
          if sid in s.listening {
            EndingKeepsInv(s, t, Disconnected);
          }
        case SocketError(sid, text) =>
          if sid in s.listening {
            EndingKeepsInv(s, t, Failure(SocketFailed(text)));
          }
        case TimerFired(sid) =>
          if sid in s.armed {
            EndingKeepsInv(s, t, Failure(TimedOut));
          }
        case _ => ClientKeepsInv(s, e);
      }
    }
  }

  lemma {:induction false} RunKeepsInv(s: State, events: seq<Event>)
    requires Inv(s)
    ensures Inv(Run(s, events))
    decreases |events|
  {
    if events != [] {
      StepKeepsInv(s, events[0]);
      RunKeepsInv(Step(s, events[0]), events[1..]);
    }
  }

  // ------------------------------------------------------------------ after the browser has left

  /** How many events come before the browser's connection starts to close. */
  ghost function Left(events: seq<Event>): nat
    ensures Left(events) <= |events|
  {
    if events == [] || events[0].ClientClosing? || events[0].ClientGone? then 0 else 1 + Left(events[1..])
  }

  lemma {:induction false} RunAppend(s: State, a: seq<Event>, b: seq<Event>)
    ensures Run(s, a + b) == Run(Run(s, a), b)
    decreases |a|
  {
    if a == [] {
      assert a + b == b;
    } else {
      assert (a + b)[0] == a[0] && (a + b)[1..] == a[1..] + b;
      RunAppend(Step(s, a[0]), a[1..], b);
    }
  }

  lemma {:induction false} OpenUntilLeft(s: State, events: seq<Event>)
    requires s.wsOpen
    ensures Run(s, events[..Left(events)]).wsOpen
    ensures Left(events) < |events| ==> events[Left(events)].ClientClosing? || events[Left(events)].ClientGone?
    decreases |events|
  {
    if Left(events) > 0 {
      assert events[..Left(events)][1..] == events[1..][..Left(events) - 1];
      assert events[Left(events)..] == events[1..][Left(events) - 1..];
      OpenUntilLeft(Step(s, events[0]), events[1..]);
    }
  }

  /** `t` has sent what `s` had, and only the session `s` had open has received more. */
  ghost predicate Frozen(s: State, t: State) {
    && !t.wsOpen && t.log == s.log && |t.received| == |s.received|
    && (forall sid: nat | sid < |s.received| ::
          s.received[sid] <= t.received[sid] && (s.socket != Some(sid) ==> t.received[sid] == s.received[sid]))
    && (t.socket == s.socket || t.socket.None?)
  }

  lemma StepStaysFrozen(s: State, t: State, e: Event)
    requires Frozen(s, t) && OneSession(t)
    ensures Frozen(s, Step(t, e))
  {
  }

  lemma {:induction false} RunStaysFrozen(s: State, t: State, events: seq<Event>)
    requires Frozen(s, t) && Inv(t)
    ensures Frozen(s, Run(t, events))
    decreases |events|
  {
    if events != [] {
      StepStaysFrozen(s, t, events[0]);
      StepKeepsInv(t, events[0]);
      RunStaysFrozen(s, Step(t, events[0]), events[1..]);
    }
  }

  /** A run ends as it stood when the browser left, but for text the open session went on receiving. */
  lemma RunSinceLeft(events: seq<Event>)
    ensures var s, t := Run(START, events[..Left(events)]), Run(START, events);
            Inv(s) && s.wsOpen && (t == s || Frozen(s, t))
  {
    var n := Left(events);
    var s := Run(START, events[..n]);
    RunKeepsInv(START, events[..n]);
    OpenUntilLeft(START, events);
    assert events == events[..n] + events[n..];
    RunAppend(START, events[..n], events[n..]);
    if n < |events| {
      var u := Step(s, events[n]);
      StepKeepsInv(s, events[n]);
      RunStaysFrozen(s, u, events[n + 1..]);
      assert events[n..][1..] == events[n + 1..];
    }
  }

  /**
   Over every run from a fresh connection, with `s` the state when the browser
   left and `t` the last: each session has been sent exactly the non-blank lines
   it had received when the browser left, in order, so all it ever received if
   and only if no non-blank line was completed after that. A session that was
   over by then had received no more, and ended with exactly one terminal message
   and nothing after it; one still open sent no terminal message. With no socket
   there is no timer, no listener and no text left over for the next session.
   */
  lemma EveryRun(events: seq<Event>)
    ensures var s, t := Run(START, events[..Left(events)]), Run(START, events);
            && s.wsOpen && |t.received| == |s.received|
            && (forall sid: nat | sid < |t.received| ::
                  && Texts(Said(t.log, sid)) == NonBlank(Lines(s.received[sid])) <= NonBlank(Lines(t.received[sid]))
                  && (s.socket != Some(sid) ==> t.received[sid] == s.received[sid] && EndsOnce(Said(t.log, sid)))
                  && (s.socket == Some(sid) ==> Open(Said(t.log, sid))))
            && (t.socket.None? ==> t.timer.None? && t.buffer == "" && t.listening == {} && t.armed == {})
  {
    RunSinceLeft(events);
    RunKeepsInv(START, events);
    var s, t := Run(START, events[..Left(events)]), Run(START, events);
    forall sid: nat | sid < |t.received|
      ensures Texts(Said(t.log, sid)) == NonBlank(Lines(s.received[sid])) <= NonBlank(Lines(t.received[sid]))
      ensures s.socket != Some(sid) ==> t.received[sid] == s.received[sid] && EndsOnce(Said(t.log, sid))
      ensures s.socket == Some(sid) ==> Open(Said(t.log, sid))
    {
      assert SessionTold(s, sid);
      MoreTextMoreLines(s.received[sid], t.received[sid]);
    }
  }

  lemma MoreTextMoreLines(a: string, b: string)
    requires a <= b
    ensures NonBlank(Lines(a)) <= NonBlank(Lines(b))
  {
    var chunk := b[|a|..];
    assert a + chunk == b;
    OneChunk(a, chunk);
  }

  /** Nothing of a session is lost if and only if no non-blank line of it was completed after the browser left. */
  lemma NothingLostIff(events: seq<Event>, sid: nat)
    requires sid < |Run(START, events).received|
    ensures var s, t := Run(START, events[..Left(events)]), Run(START, events);
            && sid < |s.received|
            && (Texts(Said(t.log, sid)) == NonBlank(Lines(t.received[sid])) <==>
                NonBlank(Lines(t.received[sid])) == NonBlank(Lines(s.received[sid])))
  {
    EveryRun(events);
  }

  lemma OneLine(line: string)
    requires NoCrlf(line) && !IsBlank(line)
    ensures NonBlank(Lines(line + CRLF)) == [line]
  {
    assert [line][1..] == [] && Join([], "") == "" && line + CRLF + "" == line + CRLF;
    assert IsFraming(line + CRLF, [line], "");
    FramingUnique(line + CRLF, Lines(line + CRLF), Tail(line + CRLF), [line], "");
    assert [line][..0] == [];
  }

  /** A line that arrives while the browser's connection is closing is received and never sent. */
  lemma ClosingLosesALine()
    ensures var t := Run(START, [ClientConnect(true), ClientClosing, SocketData(0, "hi\r\n")]);
            t.received == ["hi\r\n"] && NonBlank(Lines(t.received[0])) == ["hi"] && Texts(Said(t.log, 0)) == []
  {
    ThreeEvents(ClientConnect(true), ClientClosing, SocketData(0, "hi\r\n"));
    ClosingSteps("hi\r\n");
    assert "" + "hi\r\n" == "hi\r\n";
    assert "hi"[0] == 'h' && "hi" + CRLF == "hi\r\n";
    OneLine("hi");
    NoTextYet();
  }

  lemma ThreeEvents(e1: Event, e2: Event, e3: Event)
    ensures Run(START, [e1, e2, e3]) == Step(Step(Step(START, e1), e2), e3)
  {
    var s1 := Step(START, e1);
    var s2 := Step(s1, e2);
    var s3 := Step(s2, e3);
    assert [e1, e2, e3][1..] == [e2, e3] && [e2, e3][1..] == [e3] && [e3][1..] == [];
    assert Run(s3, []) == s3 && Run(s2, [e3]) == s3 && Run(s1, [e2, e3]) == s3;
  }

  lemma ClosingSteps(text: string)
    ensures var t := Step(Step(Step(START, ClientConnect(true)), ClientClosing), SocketData(0, text));
            t.received == ["" + text] && t.log == [] && Said(t.log, 0) == []
  {
  }

  // ------------------------------------------------------------------ the connect timer

  /** Sessions whose socket has connected, `met` of them before the run. */
  ghost function Met(s: State, met: set<nat>, events: seq<Event>): set<nat>
    decreases |events|
  {
    if events == [] then met else Met(Step(s, events[0]), MetAfter(s, met, events[0]), events[1..])
  }

  ghost function MetAfter(s: State, met: set<nat>, e: Event): set<nat> {
    if e.SocketConnected? && e.sid in s.listening then met + {e.sid} else met
  }

  /**
   The current session's timer is armed exactly until its socket connects, sessions
   told that they connected did, and sessions told that they timed out never did.
   */
  ghost predicate Timing(s: State, met: set<nat>) {
    && (s.socket.Some? ==> s.armed == if s.socket.value in met then {} else {s.socket.value})
    && (forall x <- met :: x < |s.received|)
    && (forall x: nat | Connected in Said(s.log, x) :: x in met)
    && (forall x: nat | Failure(TimedOut) in Said(s.log, x) :: x !in met && s.socket != Some(x) && x < |s.received|)
  }

  lemma SaidMore(s: State, who: Option<nat>, msgs: seq<Msg>, x: nat, m: Msg)
    requires m in Said(SendAll(s, who, msgs).log, x)
    ensures m in Said(s.log, x) || (who == Some(x) && m in msgs)
  {
    SaidAppend(s.log, who, msgs, x);
  }

  /** A message that neither connects nor times out a session. */
  lemma TalkKeepsTiming(s: State, t: State, met: set<nat>, who: Option<nat>, msgs: seq<Msg>)
    requires Timing(s, met) && Connected !in msgs && Failure(TimedOut) !in msgs
    requires t.log == SendAll(s, who, msgs).log && |t.received| >= |s.received|
    requires t.socket.Some? ==> t.armed == if t.socket.value in met then {} else {t.socket.value}
    requires t.socket == s.socket || t.socket.None? || t.socket == Some(|s.received|)
    ensures Timing(t, met)
  {
    forall x: nat | Connected in Said(t.log, x)
      ensures x in met
    {
      SaidMore(s, who, msgs, x, Connected);
    }
    forall x: nat | Failure(TimedOut) in Said(t.log, x)
      ensures x !in met && t.socket != Some(x) && x < |t.received|
    {
      SaidMore(s, who, msgs, x, Failure(TimedOut));
    }
  }

  lemma ConnectingKeepsTiming(s: State, met: set<nat>, sid: nat)
    requires OneSession(s) && Timing(s, met) && sid in s.listening
    ensures Timing(Step(s, SocketConnected(sid)), met + {sid})
  {
    var t := Step(s, SocketConnected(sid));
    forall x: nat | Connected in Said(t.log, x)
      ensures x in met + {sid}
    {
      SaidMore(s, Some(sid), [Connected], x, Connected);
    }
    forall x: nat | Failure(TimedOut) in Said(t.log, x)
      ensures x !in met + {sid} && t.socket != Some(x) && x < |t.received|
    {
      SaidMore(s, Some(sid), [Connected], x, Failure(TimedOut));
    }
  }

  lemma TimeoutKeepsTiming(s: State, met: set<nat>, sid: nat)
    requires OneSession(s) && Timing(s, met) && sid in s.armed
    ensures Timing(Step(s, TimerFired(sid)), met)
  {
    var t := Step(s, TimerFired(sid));
    assert s.socket == Some(sid) && sid !in met;
    forall x: nat | Connected in Said(t.log, x)
      ensures x in met
    {
      SaidMore(s, Some(sid), [Failure(TimedOut)], x, Connected);
    }
    forall x: nat | Failure(TimedOut) in Said(t.log, x)
      ensures x !in met && t.socket != Some(x) && x < |t.received|
    {
      SaidMore(s, Some(sid), [Failure(TimedOut)], x, Failure(TimedOut));
    }
  }

  lemma ClientKeepsTiming(s: State, met: set<nat>, e: Event)
    requires OneSession(s) && Timing(s, met)
    requires e.ClientConnect? || e.ClientSend? || e.ClientBadJson? || e.ClientUnknown?
    ensures Timing(Step(s, e), met)
  {
    var t := Step(s, e);
    if s.wsOpen {
      match e {
        case ClientConnect(validServer) =>
          if s.socket.None? && validServer {
            assert s.log + Tag(None, []) == s.log;
            TalkKeepsTiming(s, t, met, None, []);
          } else {
            TalkKeepsTiming(s, t, met, None, [Failure(if s.socket.Some? then AlreadyConnected else MissingServer)]);
          }
        case ClientSend(data, destroyed) =>
          if s.socket.None? || destroyed || data.None? {
            TalkKeepsTiming(s, t, met, None, [Failure(if s.socket.None? || destroyed then NotConnected else MissingData)]);
          }
        case ClientBadJson => TalkKeepsTiming(s, t, met, None, [Failure(InvalidJson)]);
        case ClientUnknown => TalkKeepsTiming(s, t, met, None, [Failure(UnknownType)]);
      }
    }
  }

  lemma StepKeepsTiming(s: State, met: set<nat>, e: Event)
    requires OneSession(s) && Timing(s, met)
    ensures Timing(Step(s, e), MetAfter(s, met, e))
  {
    var t := Step(s, e);
    match e {
      case ClientDisconnect =>
        if s.wsOpen {
          TalkKeepsTiming(s, t, met, s.socket, [Disconnected]);
        }
      case ClientClosing =>
      case ClientGone =>
      case SocketConnected(sid) =>
        if sid in s.listening {
          ConnectingKeepsTiming(s, met, sid);
        }
      case SocketData(sid, chunk) =>
        if sid in s.listening {
          TalkKeepsTiming(s, t, met, Some(sid), DataMsgs(NonBlank(Lines(s.buffer + chunk))));
        }
      case SocketClosed(sid) =>
        if sid in s.listening {
          TalkKeepsTiming(s, t, met, Some(sid), [Disconnected]);
        }
      case SocketError(sid, text) =>
        if sid in s.listening {
          TalkKeepsTiming(s, t, met, Some(sid), [Failure(SocketFailed(text))]);
        }
      case TimerFired(sid) =>
        if sid in s.armed {
          TimeoutKeepsTiming(s, met, sid);
        }
      case _ => ClientKeepsTiming(s, met, e);
    }
  }

  lemma {:induction false} RunKeepsTiming(s: State, met: set<nat>, events: seq<Event>)
    requires Inv(s) && Timing(s, met)
    ensures Timing(Run(s, events), Met(s, met, events))
    decreases |events|
  {
    if events != [] {
      StepKeepsInv(s, events[0]);
      StepKeepsTiming(s, met, events[0]);
      RunKeepsTiming(Step(s, events[0]), MetAfter(s, met, events[0]), events[1..]);
    }
  }

  /**
   Over every run the timer of the session in progress is armed exactly until its
   socket connects, no other timer is, and no session is told both that it connected
   and that it timed out.
   */
  lemma TimerRunsUntilConnected(events: seq<Event>)
    ensures var s, met := Run(START, events), Met(START, {}, events);
            && s.armed == (if s.socket.Some? && s.socket.value !in met then {s.socket.value} else {})
            && s.timer == (if s.socket.Some? && s.socket.value !in met then s.socket else None)
            && (forall sid: nat :: !(Connected in Said(s.log, sid) && Failure(TimedOut) in Said(s.log, sid)))
  {
    RunKeepsInv(START, events);
    RunKeepsTiming(START, {}, events);
  }

  lemma {:induction false} MetGrows(s: State, met: set<nat>, events: seq<Event>)
    ensures met <= Met(s, met, events)
    decreases |events|
  {
    if events != [] {
      MetGrows(Step(s, events[0]), MetAfter(s, met, events[0]), events[1..]);
    }
  }

  lemma MetIsQuiet(s: State, met: set<nat>, sid: nat)
    requires OneSession(s) && Timing(s, met) && sid in met
    ensures sid !in s.armed && s.timer != Some(sid) && Step(s, TimerFired(sid)) == s
  {
  }

  /** Once a session's socket has connected its timer is gone, and firing it changes nothing however the run goes on. */
  lemma ConnectingEndsTimer(events: seq<Event>, sid: nat, more: seq<Event>)
    requires sid in Run(START, events).listening
    ensures Step(Run(START, events), SocketConnected(sid)).armed == {}
    ensures var t := Run(Step(Run(START, events), SocketConnected(sid)), more);
            sid !in t.armed && t.timer != Some(sid) && Step(t, TimerFired(sid)) == t
  {
    var s, met := Run(START, events), Met(START, {}, events);
    var u, after := Step(s, SocketConnected(sid)), met + {sid};
    RunKeepsInv(START, events);
    RunKeepsTiming(START, {}, events);
    StepKeepsInv(s, SocketConnected(sid));
    StepKeepsTiming(s, met, SocketConnected(sid));
    RunKeepsInv(u, more);
    RunKeepsTiming(u, after, more);
    MetGrows(u, after, more);
    MetIsQuiet(u, after, sid);
    MetIsQuiet(Run(u, more), Met(u, after, more), sid);
  }

  // ------------------------------------------------------------------ how a session ends

  /** What ends session `sid`, and what the browser is told about it. */
  ghost function Ending(s: State, sid: nat, e: Event): Option<Msg> {
    if e.ClientDisconnect? || e == SocketClosed(sid) then Some(Disconnected)
    else if e.SocketError? && e.sid == sid then Some(Failure(SocketFailed(e.text)))
    else if e == TimerFired(sid) && sid in s.armed then Some(Failure(TimedOut))
    else None
  }

  lemma StepEnds(s: State, e: Event, sid: nat)
    requires OneSession(s) && s.wsOpen && s.socket == Some(sid) && !e.ClientGone?
    ensures var t, ending := Step(s, e), Ending(s, sid, e);
            && (t.socket == Some(sid) <==> ending.None?)
            && (ending.Some? ==> t.socket.None? && Said(t.log, sid) == Said(s.log, sid) + [ending.value])
  {
    var ending := Ending(s, sid, e);
    if ending.Some? {
      SaidAppend(s.log, Some(sid), [ending.value], sid);
    }
  }

  /**
   While the browser is there, the session in progress ends on a disconnect, on its
   socket's close or error and on its own timer, with the message that says which,
   and on nothing else but the browser going.
   */
  lemma SessionEndsIff(events: seq<Event>, e: Event, sid: nat)
    requires var s := Run(START, events); s.wsOpen && s.socket == Some(sid) && !e.ClientGone?
    ensures var s := Run(START, events);
            var t, ending := Step(s, e), Ending(s, sid, e);
            && (t.socket == Some(sid) <==> ending.None?)
            && (ending.Some? ==> t.socket.None? && Said(t.log, sid) == Said(s.log, sid) + [ending.value])
  {
    RunKeepsInv(START, events);
    StepEnds(Run(START, events), e, sid);
  }

  // ------------------------------------------------------------------ what is written

  ghost function WrittenTo(s: State, sid: nat): string {
    if sid < |s.written| then s.written[sid] else ""
  }

  /** What event `e` has the browser send to session `sid`: nothing unless it is in progress with its socket alive. */
  ghost function SentBy(s: State, e: Event, sid: nat): string {
    if e.ClientSend? && s.wsOpen && s.socket == Some(sid) && !e.destroyed && e.data.Some? then e.data.value else ""
  }

  ghost function Sent(s: State, events: seq<Event>, sid: nat): string
    decreases |events|
  {
    if events == [] then "" else SentBy(s, events[0], sid) + Sent(Step(s, events[0]), events[1..], sid)
  }

  lemma StepWrites(s: State, e: Event, sid: nat)
    requires OneSession(s)
    ensures WrittenTo(Step(s, e), sid) == WrittenTo(s, sid) + SentBy(s, e, sid)
  {
  }

  lemma {:induction false} WritesFrom(s: State, events: seq<Event>, sid: nat)
    requires Inv(s)
    ensures WrittenTo(Run(s, events), sid) == WrittenTo(s, sid) + Sent(s, events, sid)
    decreases |events|
  {
    if events != [] {
      var t := Step(s, events[0]);
      StepKeepsInv(s, events[0]);
      StepWrites(s, events[0], sid);
      WritesFrom(t, events[1..], sid);
      assert WrittenTo(s, sid) + SentBy(s, events[0], sid) + Sent(t, events[1..], sid)
          == WrittenTo(s, sid) + (SentBy(s, events[0], sid) + Sent(t, events[1..], sid));
    }
  }

  /** Over every run each session's socket is written exactly what the browser sent to that session, in order and unframed. */
  lemma EverySendIsWritten(events: seq<Event>, sid: nat)
    ensures WrittenTo(Run(START, events), sid) == Sent(START, events, sid)
  {
    WritesFrom(START, events, sid);
    assert "" + Sent(START, events, sid) == Sent(START, events, sid);
  }

  // ------------------------------------------------------------------ requests that are refused

  /** Why a request of the browser is refused, if it is. */
  ghost function Refusal(s: State, e: Event): Option<Reason> {
    match e
    case ClientBadJson => Some(InvalidJson)
    case ClientUnknown => Some(UnknownType)
    case ClientConnect(validServer) =>
      if s.socket.Some? then Some(AlreadyConnected) else if validServer then None else Some(MissingServer)
    case ClientSend(data, destroyed) =>
      if s.socket.None? || destroyed then Some(NotConnected) else if data.Some? then None else Some(MissingData)
    case _ => None
  }

  /** In every run a refused request is answered once, on no session's behalf, and changes nothing; a connect not refused opens the next session. */
  lemma RefusedRequestsAreAnswered(events: seq<Event>, e: Event)
    requires Run(START, events).wsOpen
    ensures var s := Run(START, events);
            && (Refusal(s, e).Some? ==> Step(s, e) == s.(log := s.log + [(None, Failure(Refusal(s, e).value))]))
            && (e.ClientConnect? && Refusal(s, e).None? ==>
                  var sid := |s.received|;
                  Step(s, e) == State(Some(sid), Some(sid), "", true, {sid}, {sid}, s.log, s.received + [""], s.written + [""]))
  {
    RunKeepsInv(START, events);
    if Refusal(Run(START, events), e).Some? {
      assert Tag(None, [Failure(Refusal(Run(START, events), e).value)]) == [(None, Failure(Refusal(Run(START, events), e).value))];
    }
  }

  /** When the browser has gone nothing of the connection is left, and no event changes anything any more. */
  lemma {:induction false} NothingAfterGone(events: seq<Event>, more: seq<Event>)
    ensures var t := Step(Run(START, events), ClientGone);
            && t.socket.None? && t.timer.None? && t.listening == {} && t.armed == {}
            && Run(t, more) == t
  {
    RunKeepsInv(START, events);
    var t := Step(Run(START, events), ClientGone);
    GoneStays(t, more);
  }

  lemma {:induction false} GoneStays(t: State, more: seq<Event>)
    requires OneSession(t) && t.socket.None? && !t.wsOpen
    ensures Run(t, more) == t
    decreases |more|
  {
    if more != [] {
      assert Step(t, more[0]) == t;
      GoneStays(t, more[1..]);
    }
  }
}
