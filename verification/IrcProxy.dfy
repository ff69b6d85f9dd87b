/**
 The proxy's per-connection closure as an object whose handlers update its
 variables in place (bridge-client/proxy/irc-proxy.js). Every handler is proved
 to perform the corresponding step of IrcSession, so what holds of every run of
 that machine holds of every sequence of handler calls.
 */
module IrcProxyModule {
  import opened Wrappers
  import opened IrcFraming
  import opened IrcSession

  class IrcProxy {
    var ircSocket: Option<nat>
    var ircTimeout: Option<nat>
    var buffer: string
    var wsOpen: bool
    var log: Log
    // The runtime's registrations, and how many sockets were ever opened.
    var listening: set<nat>
    var armed: set<nat>
    ghost var received: seq<string>
    ghost var written: seq<string>
    var socketCount: nat

    ghost function Abs(): State
      reads this
    {
      State(ircSocket, ircTimeout, buffer, wsOpen, listening, armed, log, received, written)
    }

    ghost predicate Valid()
      reads this
    {
      Inv(Abs()) && socketCount == |received|
    }

    constructor ()
      ensures Valid() && Abs() == START
    {
      ircSocket, ircTimeout, buffer, wsOpen, log := None, None, "", true, [];
      listening, armed, received, written, socketCount := {}, {}, [], [], 0;
    }

    method SendToClient(tag: Option<nat>, msg: Msg)
      modifies this`log
      ensures Abs() == SendAll(old(Abs()), tag, [msg])
    {
      if wsOpen {
        assert Tag(tag, [msg]) == [(tag, msg)];
        log := log + [(tag, msg)];
      }
    }

    method DoCleanup()
      modifies this`ircTimeout, this`armed, this`ircSocket, this`listening, this`buffer
      ensures Abs() == Cleanup(old(Abs()))
    {
      if ircTimeout.Some? {
        armed, ircTimeout := armed - {ircTimeout.value}, None;
      }
      if ircSocket.Some? {
        listening, ircSocket := listening - {ircSocket.value}, None;
      }
      buffer := "";
    }

    method OnConnect(validServer: bool)
      requires Valid() && wsOpen
      modifies this
      ensures Valid() && Abs() == Step(old(Abs()), ClientConnect(validServer))
    {
      StepKeepsInv(Abs(), ClientConnect(validServer));
      if ircSocket.Some? {
        SendToClient(None, Failure(AlreadyConnected));
        return;
      }
      if !validServer {
        SendToClient(None, Failure(MissingServer));
        return;
      }
      var sid := socketCount;
      ircSocket, socketCount := Some(sid), socketCount + 1;
      ircTimeout, armed := Some(sid), armed + {sid};
      listening := listening + {sid};
      received, written := received + [""], written + [""];
    }

    /** Hands text to a socket. */
    method Write(sid: nat, text: string)
      requires sid < |written|
      modifies this`written
      ensures written == old(written)[sid := old(written)[sid] + text]
    {
      written := written[sid := written[sid] + text];
    }

    method OnSend(data: Option<string>, destroyed: bool)
      requires Valid() && wsOpen
      modifies this
      ensures Valid() && Abs() == Step(old(Abs()), ClientSend(data, destroyed))
    {
      StepKeepsInv(Abs(), ClientSend(data, destroyed));
      if ircSocket.None? || destroyed {
        SendToClient(None, Failure(NotConnected));
        return;
      }
      if data.None? {
        SendToClient(None, Failure(MissingData));
        return;
      }
      Write(ircSocket.value, data.value);
    }

    method OnDisconnect()
      requires Valid() && wsOpen
      modifies this
      ensures Valid() && Abs() == Step(old(Abs()), ClientDisconnect)
    {
      StepKeepsInv(Abs(), ClientDisconnect);
      var was := ircSocket;
      DoCleanup();
      SendToClient(was, Disconnected);
    }

    method OnBadMessage(parsed: bool)
      requires Valid() && wsOpen
      modifies this
      ensures Valid() && Abs() == Step(old(Abs()), if parsed then ClientUnknown else ClientBadJson)
    {
      StepKeepsInv(Abs(), if parsed then ClientUnknown else ClientBadJson);
      SendToClient(None, Failure(if parsed then UnknownType else InvalidJson));
    }

    /** The browser's connection starts to close; no handler runs, but nothing can be sent from here on. */
    method OnClientClosing()
      requires Valid()
      modifies this`wsOpen
      ensures Valid() && Abs() == Step(old(Abs()), ClientClosing)
    {
      StepKeepsInv(Abs(), ClientClosing);
      wsOpen := false;
    }

    method OnClientGone()
      requires Valid()
      modifies this
      ensures Valid() && Abs() == Step(old(Abs()), ClientGone)
    {
      StepKeepsInv(Abs(), ClientGone);
      wsOpen := false;
      DoCleanup();
    }

    method OnSocketConnected(sid: nat)
      requires Valid() && sid in listening
      modifies this
      ensures Valid() && Abs() == Step(old(Abs()), SocketConnected(sid))
      ensures ircSocket == Some(sid) && ircTimeout.None? && armed == {}
    {
      StepKeepsInv(Abs(), SocketConnected(sid));
      if ircTimeout.Some? {
        armed, ircTimeout := armed - {ircTimeout.value}, None;
      }
      SendToClient(Some(sid), Connected);
    }

    /** Sends each non-blank line. */
    method SendLines(sid: nat, lines: seq<string>)
      modifies this`log
      ensures Abs() == SendAll(old(Abs()), Some(sid), DataMsgs(NonBlank(lines)))
    {
      ghost var before := log;
      assert before + Tag(Some(sid), DataMsgs([])) == before;
      for i := 0 to |lines|
        invariant log == if wsOpen then before + Tag(Some(sid), DataMsgs(NonBlank(lines[..i]))) else before
      {
        assert lines[..i + 1][..i] == lines[..i];
        if !IsBlank(lines[i]) {
          SendToClient(Some(sid), Data(lines[i]));
          assert wsOpen ==> log == before + Tag(Some(sid), DataMsgs(NonBlank(lines[..i]) + [lines[i]]));
        }
      }
      assert lines[..|lines|] == lines;
    }

    /** Splits what is buffered, keeps the unterminated tail and sends each non-blank line. */
    method OnData(sid: nat, chunk: string)
      requires Valid() && sid in listening
      modifies this
      ensures Valid() && Abs() == Step(old(Abs()), SocketData(sid, chunk))
    {
      StepKeepsInv(Abs(), SocketData(sid, chunk));
      received := received[sid := received[sid] + chunk];
      buffer := buffer + chunk;
      var parts := Split(buffer);
      var lines := parts[..|parts| - 1];
      buffer := parts[|parts| - 1];
      SendLines(sid, lines);
    }

    method OnSocketClosed(sid: nat)
      requires Valid() && sid in listening
      modifies this
      ensures Valid() && Abs() == Step(old(Abs()), SocketClosed(sid))
    {
      StepKeepsInv(Abs(), SocketClosed(sid));
      SendToClient(Some(sid), Disconnected);
      DoCleanup();
    }

    method OnSocketError(sid: nat, text: string)
      requires Valid() && sid in listening
      modifies this
      ensures Valid() && Abs() == Step(old(Abs()), SocketError(sid, text))
    {
      StepKeepsInv(Abs(), SocketError(sid, text));
      SendToClient(Some(sid), Failure(SocketFailed(text)));
      DoCleanup();
    }

    method OnTimeout(sid: nat)
      requires Valid() && sid in armed
      modifies this
      ensures Valid() && Abs() == Step(old(Abs()), TimerFired(sid))
    {
      StepKeepsInv(Abs(), TimerFired(sid));
      armed := armed - {sid};
      SendToClient(Some(sid), Failure(TimedOut));
      DoCleanup();
    }
  }
}
