/**
 The laptop's packet server: size check, verification, one connection per phone id,
 and removal of a connection when the socket that registered it closes. Each packet
 and each close is one atomic step.
 */
module PacketServer {
  import Protocol
  import opened PhoneConnection

  const MAX_PACKET_BYTES: nat := Protocol.HEADER_SIZE + Protocol.MAX_PAYLOAD_SAMPLES * 2 + Protocol.CRC_SIZE

  // ----- The server as a value -----

  datatype Server = Server(
    conns: map<int, Conn>,
    received: nat,
    bytesReceived: nat,
    rejected: nat,
    crcFailures: nat,
    decoded: nat,
    droppedFrames: nat,
    activePhones: nat)

  datatype Outcome = BadSize | Malformed | Handled(header: Protocol.Header, registered: bool, verdict: Verdict)

  function Connected(s: Server, h: Protocol.Header): Conn {
    if h.phoneId in s.conns then s.conns[h.phoneId] else NewConn(h.phoneId, h.sampleRateHz)
  }

  function Counted(s: Server, v: Verdict): Server {
    match v
    case RateLimited => s.(rejected := s.rejected + 1)
    case Duplicate => s
    case Accepted(gap) => s.(decoded := s.decoded + 1, droppedFrames := s.droppedFrames + gap)
  }

  /** A verified packet reaches its connection, which is created on first contact. */
  function Deliver(s: Server, h: Protocol.Header, raw: Packet, now: real): (Server, Outcome) {
    var registered := h.phoneId !in s.conns;
    var (c, v) := Arrive(Connected(s, h), h.sequence, raw, now);
    var t := s.(conns := s.conns[h.phoneId := c],
                activePhones := if registered then |s.conns| + 1 else s.activePhones);
    (Counted(t, v), Handled(h, registered, v))
  }

  function Handle(s: Server, raw: Packet, now: real): (Server, Outcome) {
    var t := s.(received := s.received + 1, bytesReceived := s.bytesReceived + |raw|);
    if |raw| > MAX_PACKET_BYTES || |raw| < Protocol.HEADER_SIZE + Protocol.CRC_SIZE then
      (t.(rejected := t.rejected + 1), BadSize)
    else
      var verified := Protocol.VerifyPacket(raw);
      if verified.Err? then (t.(rejected := t.rejected + 1, crcFailures := t.crcFailures + 1), Malformed)
      else Deliver(t, verified.value, raw, now)
  }

  /** Closing a socket removes the connection it registered last, if it is still there. */
  function Disconnect(s: Server, registered: seq<int>): Server {
    if registered == [] || registered[|registered| - 1] !in s.conns then s
    else
      var rest := s.conns - {registered[|registered| - 1]};
      s.(conns := rest, activePhones := |rest|)
  }

  // ----- The object -----

  class PacketServer {
    var connections: map<int, Connection>
    var received: nat
    var bytesReceived: nat
    var rejected: nat
    var crcFailures: nat
    var decoded: nat
    var droppedFrames: nat
    var activePhones: nat

    ghost predicate Valid()
      reads this`connections, connections.Values
    {
      forall k | k in connections :: connections[k].phoneId == k && |connections[k].queue| <= QUEUE_SIZE
    }

    ghost function Views(): map<int, Conn>
      reads this`connections, connections.Values
    {
      map k | k in connections :: connections[k].View()
    }

    ghost function View(): Server
      reads this, connections.Values
    {
      Server(Views(), received, bytesReceived, rejected, crcFailures, decoded, droppedFrames, activePhones)
    }

    constructor ()
      ensures Valid() && View() == Server(map[], 0, 0, 0, 0, 0, 0, 0)
    {
      connections := map[];
      received, bytesReceived, rejected, crcFailures, decoded, droppedFrames, activePhones := 0, 0, 0, 0, 0, 0, 0;
    }

    /** Finds the connection of a phone, creating and registering it on first contact. */
    method Connect(h: Protocol.Header) returns (conn: Connection, registered: bool)
      requires Valid()
      modifies this`connections, this`activePhones
      ensures Valid() && h.phoneId in connections && connections[h.phoneId] == conn
      ensures registered == (h.phoneId !in old(connections)) && (registered ==> fresh(conn))
      ensures connections == if registered then old(connections)[h.phoneId := conn] else old(connections)
      ensures conn.View() == Connected(old(View()), h)
      ensures Views() == old(Views())[h.phoneId := conn.View()]
      ensures activePhones == if registered then |old(Views())| + 1 else old(activePhones)
    {
      ghost var before := Views();
      registered := h.phoneId !in connections;
      if registered {
        conn := new Connection(h.phoneId, h.sampleRateHz);
        assert before.Keys == connections.Keys;
        assert |before| == |before.Keys| && |connections| == |connections.Keys|;
        connections := connections[h.phoneId := conn];
        activePhones := |connections|;
      } else {
        conn := connections[h.phoneId];
      }
    }

    /** The locked part of packet handling, followed by the queue put. */
    method Admit(conn: Connection, sequence: int, raw: Packet, now: real) returns (v: Verdict)
      requires Valid() && conn.phoneId in connections && connections[conn.phoneId] == conn
      modifies conn, this`rejected, this`decoded, this`droppedFrames
      ensures Valid()
      ensures (conn.View(), v) == Arrive(old(conn.View()), sequence, raw, now)
      ensures Views() == old(Views())[conn.phoneId := conn.View()]
      ensures View() == Counted(old(View()).(conns := Views()), v)
    {
      ghost var before := Views();
      v := AdmitCounted(conn, sequence, raw, now);
      forall k | k in connections && k != conn.phoneId ensures connections[k] != conn {}
      assert Views() == before[conn.phoneId := conn.View()];
    }

    method AdmitCounted(conn: Connection, sequence: int, raw: Packet, now: real) returns (v: Verdict)
      requires |conn.queue| <= QUEUE_SIZE
      modifies conn, this`rejected, this`decoded, this`droppedFrames
      ensures |conn.queue| <= QUEUE_SIZE
      ensures (conn.View(), v) == Arrive(old(conn.View()), sequence, raw, now)
      ensures rejected == old(rejected) + (if v.RateLimited? then 1 else 0)
      ensures decoded == old(decoded) + (if v.Accepted? then 1 else 0)
      ensures droppedFrames == old(droppedFrames) + (if v.Accepted? then v.gap else 0)
    {
      conn.NotePacket(now);
      var over := conn.OverRateLimit();
      if over {
        rejected := rejected + 1;
        return RateLimited;
      }
      if sequence <= conn.sequence {
        return Duplicate;
      }
      v := Accepted(sequence - conn.sequence - 1);
      if sequence != conn.sequence + 1 {
        conn.droppedFrames := conn.droppedFrames + v.gap;
        droppedFrames := droppedFrames + v.gap;
      }
      conn.sequence := sequence;
      decoded := decoded + 1;
      conn.PutNewest(raw);
    }

    method DeliverVerified(h: Protocol.Header, raw: Packet, now: real) returns (outcome: Outcome)
      requires Valid()
      modifies this, connections.Values
      ensures Valid()
      ensures forall c | c in connections.Values :: c in old(connections.Values) || fresh(c)
      ensures (View(), outcome) == Deliver(old(View()), h, raw, now)
      ensures outcome.Handled? && outcome.header == h
    {
      hide Arrive, Connected, Counted;
      ghost var start := View();
      var conn, registered := Connect(h);
      ghost var found := conn.View();
      ghost var joined := View();
      assert joined == start.(conns := start.conns[h.phoneId := found], activePhones := activePhones);
      var v := Admit(conn, h.sequence, raw, now);
      assert joined.(conns := Views()) == joined.(conns := start.conns[h.phoneId := conn.View()]);
      outcome := Handled(h, registered, v);
    }

    /** Returns the phone id, or -1, and whether the callback for a new registration fired. */
    method OnPacket(raw: Packet, now: real) returns (phoneId: int, outcome: Outcome)
      requires Valid()
      modifies this, connections.Values
      ensures Valid()
      ensures forall c | c in connections.Values :: c in old(connections.Values) || fresh(c)
      ensures (View(), outcome) == Handle(old(View()), raw, now)
      ensures phoneId == if outcome.Handled? then outcome.header.phoneId else -1
    {
      hide Deliver, Protocol.VerifyPacket;
      received := received + 1;
      bytesReceived := bytesReceived + |raw|;
      if |raw| > MAX_PACKET_BYTES || |raw| < Protocol.HEADER_SIZE + Protocol.CRC_SIZE {
        rejected := rejected + 1;
        return -1, BadSize;
      }
      var verified := Protocol.VerifyPacket(raw);
      if verified.Err? {
        rejected := rejected + 1;
        crcFailures := crcFailures + 1;
        return -1, Malformed;
      }
      outcome := DeliverVerified(verified.value, raw, now);
      phoneId := verified.value.phoneId;
    }

    /** The end of a socket's handler. */
    method Close(registered: seq<int>)
      requires Valid()
      modifies this`connections, this`activePhones
      ensures Valid() && View() == Disconnect(old(View()), registered)
    {
      if registered != [] {
        var pid := registered[|registered| - 1];
        if pid in connections {
          ghost var before := Views();
          connections := connections - {pid};
          activePhones := |connections|;
          assert Views() == before - {pid};
          assert Views().Keys == connections.Keys;
        }
      }
    }
  }
}
