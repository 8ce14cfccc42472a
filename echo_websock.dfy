/**
 * The WebSocket echo endpoint at `/echo`.
 *
 * Each message that arrives on a connection is sent back on that same connection,
 * unchanged; opening and closing a connection send nothing. A connection is modelled by
 * the messages sent on it so far, oldest first.
 */
module EchoWebsock {

  /** The kinds of frame the transport reports; the echo handler ignores them. */
  datatype MessageType = Text | Binary | Ping | Pong | Close | Unknown

  /** The upgrade request that opens a connection; the handler does not look at it. */
  datatype UpgradeRequest = UpgradeRequest(path: string, headers: map<string, string>)

  class Connection {
    /** The payloads sent on this connection, in the order they were sent. */
    var outbox: seq<string>

    constructor ()
      ensures outbox == []
    {
      outbox := [];
    }

    /** `WebSocketConnection::send`: one more outbound message. */
    method Send(message: string)
      modifies this
      ensures outbox == old(outbox) + [message]
    {
      outbox := outbox + [message];
    }
  }

  /** `EchoWebsock::handleNewMessage`: the received payload goes back verbatim, as one
      send, whatever its kind and even when it is empty. */
  method HandleNewMessage(conn: Connection, message: string, kind: MessageType)
    modifies conn
    ensures conn.outbox == old(conn.outbox) + [message]
  {
    conn.Send(message);
  }

  /** `EchoWebsock::handleNewConnection`: nothing is sent and nothing changes. */
  method HandleNewConnection(req: UpgradeRequest, conn: Connection)
    ensures conn.outbox == old(conn.outbox)
  {
  }

  /** `EchoWebsock::handleConnectionClosed`: nothing is sent and nothing changes. */
  method HandleConnectionClosed(conn: Connection)
    ensures conn.outbox == old(conn.outbox)
  {
  }

  /** What the transport reports on one connection. */
  datatype Event = Opened(req: UpgradeRequest) | Message(payload: string, kind: MessageType) | Closed

  /** The payloads of the messages among `events`, in order. */
  function Payloads(events: seq<Event>): (p: seq<string>)
    ensures |p| <= |events|
    decreases |events|
  {
    if events == [] then []
    else
      var last := events[|events| - 1];
      Payloads(events[..|events| - 1]) + (if last.Message? then [last.payload] else [])
  }

  /** When every event is a message, the payloads are exactly the messages, in order. */
  lemma {:induction false} PayloadsOfMessages(events: seq<Event>)
    requires forall i :: 0 <= i < |events| ==> events[i].Message?
    ensures |Payloads(events)| == |events|
    ensures forall i :: 0 <= i < |events| ==> Payloads(events)[i] == events[i].payload
    decreases |events|
  {
    if events != [] {
      PayloadsOfMessages(events[..|events| - 1]);
    }
  }

  /** The transport delivering `events` to the handlers of one connection, in arrival
      order. Another connection's outbox is untouched. */
  method Serve(conn: Connection, events: seq<Event>, other: Connection)
    requires other != conn
    modifies conn
    ensures conn.outbox == old(conn.outbox) + Payloads(events)
    ensures other.outbox == old(other.outbox)
  {
    var i := 0;
    while i < |events|
      invariant 0 <= i <= |events|
      invariant conn.outbox == old(conn.outbox) + Payloads(events[..i])
    {
      var e := events[i];
      match e {
        case Opened(req) => HandleNewConnection(req, conn);
        case Message(payload, kind) => HandleNewMessage(conn, payload, kind);
        case Closed => HandleConnectionClosed(conn);
      }
      i := i + 1;
      assert events[..i][..i - 1] == events[..i - 1];
    }
    assert events[..|events|] == events;
  }
}
