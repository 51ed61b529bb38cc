/**
 * app/services/notification_service.py: the process-wide registry of open
 * notification websockets, the best-effort push to one user, the per-user
 * websocket session, and the append to the notification log.
 *
 * Sockets are numbered channels.  Every frame written to any socket is
 * appended to one log (`sent`), so "which channel received what, in which
 * order" is part of the state.  Whether writing to a socket succeeds is an
 * input: the transport is not modelled.
 */
module NotificationService {
  import opened Wrappers
  import opened Entities
  import opened Store

  /** An open websocket. */
  type Chan = nat

  /** The registry key: `payload.get("userId")`, which is None when the token carries no userId. */
  type UserKey = Option<Id>

  /** The JSON text frames the server writes. */
  datatype Frame =
    /** `{"type": "CONNECTION_ESTABLISHED", "message": "Notification WebSocket connected", "userId": ...}` */
    | Established(userId: UserKey)
    /** `{"message": "Notification received: " + data}` */
    | Received(data: string)
    /** The expiry scanner's dict: type "product_expiration", message, productName, expiryDate, timestamp. */
    | ExpiryAlert(message: string, productName: string, expiryDate: string, timestamp: string)
  {
    /** The frame's "message" field. */
    function Message(): string {
      match this
      case Established(_) => "Notification WebSocket connected"
      case Received(data) => "Notification received: " + data
      case ExpiryAlert(m, _, _, _) => m
    }

    /** The frame's "type" field, where it has one. */
    function Type(): Option<string> {
      match this
      case Established(_) => Some("CONNECTION_ESTABLISHED")
      case Received(_) => None
      case ExpiryAlert(_, _, _, _) => Some("product_expiration")
    }
  }

  datatype Delivery = Delivery(chan: Chan, frame: Frame)

  /** The registry together with everything written to sockets so far. */
  datatype Wire = Wire(connections: map<UserKey, Chan>, sent: seq<Delivery>)

  /**
   * `send_notification_to_user(user_id, message)` when writing to the socket
   * succeeds iff `ok`: no entry, nothing happens; a successful write reaches
   * the user's current channel; a failed write drops the user's entry and
   * the error goes no further.
   */
  function Deliver(w: Wire, user: Id, frame: Frame, ok: bool): Wire
  {
    if Some(user) !in w.connections then w
    else if ok then w.(sent := w.sent + [Delivery(w.connections[Some(user)], frame)])
    else w.(connections := w.connections - {Some(user)})
  }

  /** What a send to one user can and cannot do to the registry and the wire. */
  lemma DeliverEffect(w: Wire, user: Id, frame: Frame, ok: bool)
    ensures var r := Deliver(w, user, frame, ok);
      && r.connections.Keys <= w.connections.Keys
      && (forall k :: k in r.connections ==> r.connections[k] == w.connections[k])
      && (forall k :: k in w.connections && k != Some(user) ==> k in r.connections)
      && (Some(user) !in w.connections ==> r == w)
      && (Some(user) in w.connections && ok ==>
            r.connections == w.connections
            && r.sent == w.sent + [Delivery(w.connections[Some(user)], frame)])
      && (Some(user) in w.connections && !ok ==>
            Some(user) !in r.connections && r.sent == w.sent)
  {
  }

  /** The frames one session writes to its own socket: the acknowledgement, then one echo per inbound frame. */
  function SessionFrames(key: UserKey, inbound: seq<string>): (r: seq<Frame>)
    ensures |r| == |inbound| + 1
  {
    [Established(key)] + EchoFrames(inbound)
  }

  function EchoFrames(inbound: seq<string>): (r: seq<Frame>)
    ensures |r| == |inbound|
  {
    if inbound == [] then [] else [Received(inbound[0])] + EchoFrames(inbound[1..])
  }

  lemma {:induction false} EchoFramesAt(inbound: seq<string>, i: nat)
    requires i < |inbound|
    ensures EchoFrames(inbound)[i] == Received(inbound[i])
    ensures EchoFrames(inbound)[i].Message() == "Notification received: " + inbound[i]
  {
    if i > 0 { EchoFramesAt(inbound[1..], i - 1); }
  }

  lemma {:induction false} EchoFramesAppend(inbound: seq<string>, data: string)
    ensures EchoFrames(inbound + [data]) == EchoFrames(inbound) + [Received(data)]
  {
    if inbound == [] {
      assert inbound + [data] == [data];
    } else {
      assert (inbound + [data])[0] == inbound[0];
      assert (inbound + [data])[1..] == inbound[1..] + [data];
      EchoFramesAppend(inbound[1..], data);
    }
  }

  /** A session's first frame is the acknowledgement carrying its user id; frame i + 1 answers inbound frame i. */
  lemma SessionFramesShape(key: UserKey, inbound: seq<string>)
    ensures SessionFrames(key, inbound)[0] == Established(key)
    ensures SessionFrames(key, inbound)[0].Type() == Some("CONNECTION_ESTABLISHED")
    ensures forall i :: 0 <= i < |inbound| ==> SessionFrames(key, inbound)[i + 1] == Received(inbound[i])
  {
    forall i | 0 <= i < |inbound|
      ensures SessionFrames(key, inbound)[i + 1] == Received(inbound[i])
    {
      EchoFramesAt(inbound, i);
    }
  }

  /** Deliveries of the given frames, in order, on one channel. */
  function OnChannel(ch: Chan, frames: seq<Frame>): (r: seq<Delivery>)
    ensures |r| == |frames|
    ensures forall i :: 0 <= i < |frames| ==> r[i] == Delivery(ch, frames[i])
  {
    if frames == [] then [] else [Delivery(ch, frames[0])] + OnChannel(ch, frames[1..])
  }

  lemma OnChannelAppend(ch: Chan, a: seq<Frame>, b: seq<Frame>)
    ensures OnChannel(ch, a + b) == OnChannel(ch, a) + OnChannel(ch, b)
  {
  }

  /** How a session attempt ends. */
  datatype SessionOutcome =
    /** The handler raised before the socket was registered. */
    | Aborted(reason: string)
    /** The client disconnected after the inbound frames were answered. */
    | Closed(key: UserKey)

  /** One effect of the expiry scanner, as it happens. */
  datatype Step =
    /** `product.status = "expired"` on the row at this store position. */
    | MarkExpired(row: nat)
    /** `send_notification_to_user` is attempted for this user with this frame. */
    | Push(user: Id, frame: Frame)
    /** `add_notification_to_db`, whose commit also writes the marked row. */
    | Persist(notice: Notification)
    /** `db.commit()` */
    | Commit

  /**
   * A ghost record of the scanner's effects in the order the effectful
   * methods take them: each of them appends its own step.
   */
  class Journal {
    ghost var steps: seq<Step>

    constructor ()
      ensures steps == []
    {
      steps := [];
    }

    /** A step the caller takes itself. */
    method Record(s: Step)
      modifies this
      ensures steps == old(steps) + [s]
    {
      steps := steps + [s];
    }
  }

  /** `notification_connections` and the sockets it points to. */
  class Registry {
    var connections: map<UserKey, Chan>
    var sent: seq<Delivery>

    constructor ()
      ensures connections == map[] && sent == []
    {
      connections := map[];
      sent := [];
    }

    function State(): Wire
      reads this
    {
      Wire(connections, sent)
    }

    /**
     * `send_notification_to_user`; `ok` says whether `send_text` succeeds.
     * The attempt is recorded in the journal whether or not the user is
     * connected.
     */
    method Send(user: Id, frame: Frame, ok: bool, journal: Journal)
      modifies this, journal
      ensures State() == Deliver(old(State()), user, frame, ok)
      ensures journal.steps == old(journal.steps) + [Push(user, frame)]
    {
      journal.Record(Push(user, frame));
      if Some(user) in connections {
        if ok {
          sent := sent + [Delivery(connections[Some(user)], frame)];
        } else {
          connections := connections - {Some(user)};
        }
      }
    }

    /** `notification_connections[user_id] = websocket`, replacing any earlier socket of that user. */
    method Register(key: UserKey, ch: Chan)
      modifies this
      ensures connections == old(connections)[key := ch]
      ensures sent == old(sent)
    {
      connections := connections[key := ch];
    }

    /** `websocket.send_text(...)` on the session's own socket. */
    method Write(ch: Chan, frame: Frame)
      modifies this
      ensures connections == old(connections)
      ensures sent == old(sent) + [Delivery(ch, frame)]
    {
      sent := sent + [Delivery(ch, frame)];
    }

    /** The WebSocketDisconnect handler: drop the entry under the session's key, whichever socket it now holds. */
    method Disconnect(key: UserKey)
      modifies this
      ensures connections == old(connections) - {key}
      ensures sent == old(sent)
    {
      if key in connections {
        connections := connections - {key};
      }
    }

    /**
     * `notification_websocket`, run to the client's disconnect.  `token` is
     * the query parameter, `decoded` what `decode_access_token` returns for
     * it, `inbound` the text frames the client sends before disconnecting.
     */
    method Session(token: Option<string>, decoded: Option<Claims>, ch: Chan, inbound: seq<string>)
      returns (outcome: SessionOutcome)
      modifies this
      ensures token.None? || token.value == "" ==>
        outcome.Aborted? && connections == old(connections) && sent == old(sent)
      ensures token.Some? && token.value != "" && decoded.None? ==>
        outcome.Aborted? && connections == old(connections) && sent == old(sent)
      ensures token.Some? && token.value != "" && decoded.Some? ==>
        && outcome == Closed(decoded.value.userId)
        && connections == old(connections) - {decoded.value.userId}
        && sent == old(sent) + OnChannel(ch, SessionFrames(decoded.value.userId, inbound))
    {
      if token.None? || token.value == "" {
        // close(code=1008) is sent before the handshake, then accept() raises
        return Aborted("accept() after close()");
      }
      if decoded.None? {
        return Aborted("payload.get on None");
      }
      var key := decoded.value.userId;
      Register(key, ch);
      Write(ch, Established(key));
      var i := 0;
      while i < |inbound|
        invariant 0 <= i <= |inbound|
        invariant connections == old(connections)[key := ch]
        invariant sent == old(sent) + OnChannel(ch, SessionFrames(key, inbound[..i]))
      {
        assert inbound[..i + 1] == inbound[..i] + [inbound[i]];
        EchoFramesAppend(inbound[..i], inbound[i]);
        assert SessionFrames(key, inbound[..i + 1]) == SessionFrames(key, inbound[..i]) + [Received(inbound[i])];
        OnChannelAppend(ch, SessionFrames(key, inbound[..i]), [Received(inbound[i])]);
        Write(ch, Received(inbound[i]));
        i := i + 1;
      }
      assert inbound[..i] == inbound;
      Disconnect(key);
      outcome := Closed(key);
    }
  }

  /** `add_notification_to_db`: append exactly one unread record with a fresh id. */
  method AddNotification(db: Db, journal: Journal, user: Id, message: string, kind: NotificationType, now: string)
    returns (n: Notification)
    requires db.Valid()
    modifies db, journal
    ensures db.Valid()
    ensures journal.steps == old(journal.steps) + [Persist(n)]
    ensures n.id == old(db.nextId) && db.nextId == old(db.nextId) + 1
    ensures n == Notification(n.id, user, message, kind, now, false)
    ensures db.notifications == old(db.notifications) + [n]
    ensures db.users == old(db.users) && db.products == old(db.products)
    ensures db.nutrition == old(db.nutrition) && db.rows == old(db.rows)
  {
    var id := db.NewId();
    n := Notification(id, user, message, kind, now, false);
    db.notifications := db.notifications + [n];
    journal.Record(Persist(n));
  }
}
