/**
 * The server side of a GIOP connection (TAO_Server_Connection_Handler in
 * TAO/tao/Connect.cpp): the decision taken for each received message, the
 * LocateReply it builds, the error Reply it builds after a failed dispatch,
 * and the `svc` loop that keeps reading until a message ends the connection.
 *
 * The GIOP receiver, header parsing, POA dispatch and the CDR encoder are
 * collaborators: what they return is an input (`Received`), not computed.
 */
module ServerHandler {
  import opened Optional
  import opened Giop

  /** The request header, as the server-request constructor parses it. */
  datatype RequestHeader =
    | BadHeader(error: CorbaException)
    | Header(requestId: nat, responseExpected: bool, objectKey: string)

  /** What `dispatch_servant` left behind for a Request. */
  datatype DispatchResult =
    | Dispatched(output: Message)   // the reply the servant marshalled into the output stream
    | Raised(exception: CorbaException)
    | RaisedForeign                 // a C++ exception that is not a CORBA exception

  /** The LocateRequest header; on a parse failure the request id read so far is kept. */
  datatype LocateHeader =
    | BadLocateHeader(requestId: nat)
    | LocateHeaderOk(requestId: nat, objectKey: string)

  /**
   * What the `_non_existent` dispatch of a LocateRequest left behind: whether
   * the server request recorded an exception, the forward location it holds,
   * and the exception left in the environment.
   */
  datatype LocateLookup = LocateLookup(requestException: bool, forwardLocation: Reference, envException: Option<CorbaException>)

  /** A message as the GIOP receiver delivers it, with the collaborators' answers about it. */
  datatype Received =
    | RequestMsg(header: RequestHeader, dispatch: DispatchResult, errorMarshalOk: bool)
    | LocateRequestMsg(locateHeader: LocateHeader, lookup: LocateLookup, forwardEncodeOk: bool)
    | OtherMsg(kind: MsgType)       // every kind other than Request and LocateRequest

  /** One read: the received message and whether the ORB was asked to shut down meanwhile. */
  datatype Arrival = Arrival(msg: Received, shutdown: bool)

  // ---------------------------------------------------------------- handle_locate

  /** The locate status chosen, the forward location kept, and the environment afterwards. */
  datatype LocateDecision = LocateDecision(status: LocateStatus, forward: Reference, envAfter: Option<CorbaException>)

  /**
   * The status handle_locate chooses: ObjectHere exactly when neither the
   * server request nor the environment carries an exception; the exception
   * is cleared whenever there was one.
   */
  function SelectLocateStatus(l: LocateLookup): (d: LocateDecision)
    ensures d.status == ObjectHere <==> !l.requestException && l.envException.None?
    ensures d.status != ObjectHere ==> d.envAfter == None
  {
    if !l.requestException && l.envException.None? then
      LocateDecision(ObjectHere, Nil, l.envException)
    else if l.requestException then
      if l.forwardLocation != Nil then LocateDecision(ObjectForward, l.forwardLocation, None)
      else LocateDecision(UnknownObject, l.forwardLocation, None)
    else if l.envException.value.ForwardRequest? then
      LocateDecision(ObjectForward, l.envException.value.forwardReference, None)
    else
      LocateDecision(UnknownObject, Nil, None)
  }

  /**
   * ObjectForward exactly for a non-nil forward location recorded in the
   * server request, or for an environment exception that narrows to
   * ForwardRequest (whose reference is then used, nil or not); UnknownObject
   * for every other exception. Either way the exception is cleared.
   */
  lemma LocateForwardIff(l: LocateLookup)
    ensures var d := SelectLocateStatus(l);
      && (d.status == ObjectForward <==>
           (l.requestException && l.forwardLocation != Nil)
           || (!l.requestException && l.envException.Some? && l.envException.value.ForwardRequest?))
      && (d.status == ObjectForward ==>
           d.forward == if l.requestException then l.forwardLocation else l.envException.value.forwardReference)
      && (d.status == UnknownObject <==>
           (l.requestException && l.forwardLocation == Nil)
           || (!l.requestException && l.envException.Some? && !l.envException.value.ForwardRequest?))
      && d.envAfter == None
  {
  }

  /** The outcome of handle_locate: a LocateReply to send, or -1 with no response required. */
  datatype LocateOutcome =
    | LocateFailed(requestId: nat)
    | LocateReplied(requestId: nat, reply: Message)

  function LocateReplyBody(requestId: nat, d: LocateDecision): seq<Field>
  {
    [ULong(requestId), ULong(LocateStatusCode(d.status))]
      + (if d.status == ObjectForward then [ObjectField(d.forward)] else [])
  }

  /** handle_locate: the request id read is always reported; a reply is a LocateReply headed by it and the status. */
  function HandleLocate(h: LocateHeader, l: LocateLookup, forwardEncodeOk: bool): (o: LocateOutcome)
    ensures o.requestId == h.requestId
    ensures o.LocateReplied? ==>
      o.reply.kind == LocateReply && |o.reply.body| >= 2
      && o.reply.body[..2] == [ULong(h.requestId), ULong(LocateStatusCode(SelectLocateStatus(l).status))]
  {
    match h
    case BadLocateHeader(id) => LocateFailed(id)
    case LocateHeaderOk(id, _) =>
      var d := SelectLocateStatus(l);
      if d.status == ObjectForward && !forwardEncodeOk then LocateFailed(id)
      else LocateReplied(id, Message(LocateReply, LocateReplyBody(id, d)))
  }

  /**
   * handle_locate fails exactly on a bad header or a forward reference that
   * cannot be encoded; otherwise its LocateReply reads back as the request
   * id, the selected status, and the forward reference only for ObjectForward.
   */
  lemma HandleLocateReply(h: LocateHeader, l: LocateLookup, ok: bool)
    ensures var o := HandleLocate(h, l, ok);
      var d := SelectLocateStatus(l);
      && (o.LocateFailed? <==> h.BadLocateHeader? || (d.status == ObjectForward && !ok))
      && o.requestId == h.requestId
      && (o.LocateReplied? ==>
            o.reply.kind == LocateReply
            && DecodeLocateReply(o.reply.body)
               == Some(LocateAnswer(h.requestId, d.status, if d.status == ObjectForward then Some(d.forward) else None)))
  {
  }

  // ---------------------------------------------------------------- send_error

  /** What send_error does: nothing, close the connection, or send a Reply. */
  datatype ErrorReply = NoReply | CloseConnectionNow | SendReply(reply: Message)

  /** `convert_CORBA_to_GIOP_exception` after narrowing to SystemException. */
  function ExceptionStatus(x: CorbaException): ReplyStatus
  {
    if x.SystemException? then SystemExceptionStatus else UserExceptionStatus
  }

  /** send_error: nothing for request id 0; a Reply is four fields headed by no service contexts and the id. */
  function SendError(requestId: nat, x: CorbaException, marshalOk: bool): (e: ErrorReply)
    ensures e.NoReply? <==> requestId == 0
    ensures e.SendReply? ==>
      e.reply.kind == Reply && |e.reply.body| == 4 && e.reply.body[..2] == [ServiceContexts(0), ULong(requestId)]
  {
    if requestId == 0 then NoReply
    else if !marshalOk then CloseConnectionNow
    else
      var tail :=
        if x.ForwardRequest? && x.forwardReference != Nil then
          [ULong(ReplyStatusCode(LocationForward)), ObjectField(x.forwardReference)]
        else
          [ULong(ReplyStatusCode(ExceptionStatus(x))), ExceptionField(x)];
      SendReply(Message(Reply, [ServiceContexts(0), ULong(requestId)] + tail))
  }

  /**
   * send_error sends nothing for request id 0, closes the connection when
   * marshalling fails, and otherwise sends a Reply whose body starts with an
   * empty service-context list and the request id, then carries
   * LOCATION_FORWARD with the reference exactly for a ForwardRequest with a
   * non-nil reference, SYSTEM_EXCEPTION for a system exception, and
   * USER_EXCEPTION for everything else (a ForwardRequest with a nil reference
   * included).
   */
  lemma SendErrorReply(id: nat, x: CorbaException, ok: bool)
    ensures var e := SendError(id, x, ok);
      && (e.NoReply? <==> id == 0)
      && (e.CloseConnectionNow? <==> id != 0 && !ok)
      && (e.SendReply? ==>
            e.reply.kind == Reply
            && e.reply.body[0] == ServiceContexts(0)
            && DecodeErrorReply(e.reply.body)
               == if x.ForwardRequest? && x.forwardReference != Nil then Some(Forwarded(id, x.forwardReference))
                  else if x.SystemException? then Some(Failed(id, SystemExceptionStatus, x))
                  else Some(Failed(id, UserExceptionStatus, x)))
  {
  }

  // ---------------------------------------------------------------- handle_input

  /**
   * The result of one handle_input call: its return value, the message it
   * sent (if any), and whether send_error closed the connection.
   */
  datatype InputOutcome = InputOutcome(ret: int, reply: Option<Message>, closed: bool)

  const Close := InputOutcome(-1, None, false)
  const Continue := InputOutcome(0, None, false)

  /** The catch block's answer when send_error runs for a required response. */
  function ErrorOutcome(e: ErrorReply): InputOutcome
  {
    match e
    case NoReply => Continue
    case CloseConnectionNow => InputOutcome(0, None, true)
    case SendReply(m) => InputOutcome(0, Some(m), false)
  }

  /** handle_input answers 0 or -1, and -1 never comes with a reply or a close by send_error. */
  function HandleInputOutcome(a: Arrival): (o: InputOutcome)
    ensures o.ret == 0 || o.ret == -1
    ensures o.ret == -1 ==> o.reply.None? && !o.closed
  {
    if a.shutdown then Close
    else match a.msg
      case RequestMsg(h, d, marshalOk) =>
        (match h
         case BadHeader(_) => Close              // caught before response_required was read
         case Header(id, responseRequired, _) =>
           match d
           case Dispatched(output) => if responseRequired then InputOutcome(0, Some(output), false) else Continue
           case Raised(x) => if responseRequired then ErrorOutcome(SendError(id, x, marshalOk)) else Close
           case RaisedForeign => Close)
      case LocateRequestMsg(h, l, encodeOk) =>
        (match HandleLocate(h, l, encodeOk)
         case LocateFailed(_) => Close
         case LocateReplied(_, m) => InputOutcome(0, Some(m), false))
      case OtherMsg(_) => Close
  }

  /**
   * handle_input returns -1 and sends nothing whenever the shutdown flag is
   * raised, and for every kind a server must not receive or cannot read
   * (EndOfFile, Reply, LocateReply, CloseConnection, CommunicationError,
   * MessageError and the rest).
   */
  lemma HandleInputCloses(a: Arrival)
    requires a.shutdown || a.msg.OtherMsg?
    ensures HandleInputOutcome(a) == InputOutcome(-1, None, false)
  {
  }

  /**
   * For a Request, the dispatched reply is sent exactly when a response is
   * required and no error was encountered; a dispatch exception gives
   * send_error's reply when a response is required and -1 otherwise, and a
   * header that cannot be read gives -1.
   */
  lemma HandleRequestOutcome(h: RequestHeader, d: DispatchResult, ok: bool)
    ensures var o := HandleInputOutcome(Arrival(RequestMsg(h, d, ok), false));
      && (h.BadHeader? || d.RaisedForeign? ==> o == Close)
      && (h.Header? && d.Dispatched? ==>
            o.ret == 0 && !o.closed && (o.reply == Some(d.output) <==> h.responseExpected) && (o.reply.Some? <==> h.responseExpected))
      && (h.Header? && d.Raised? ==>
            o == if h.responseExpected then ErrorOutcome(SendError(h.requestId, d.exception, ok)) else Close)
  {
  }

  /** A reply goes out exactly for a readable request that owes one and whose answer can be marshalled. */
  lemma HandleInputReplyIff(a: Arrival)
    ensures HandleInputOutcome(a).reply.Some? <==>
      && !a.shutdown
      && ((a.msg.RequestMsg? && a.msg.header.Header? && a.msg.header.responseExpected
           && (a.msg.dispatch.Dispatched?
               || (a.msg.dispatch.Raised? && a.msg.header.requestId != 0 && a.msg.errorMarshalOk)))
          || (a.msg.LocateRequestMsg? && a.msg.locateHeader.LocateHeaderOk?
              && (SelectLocateStatus(a.msg.lookup).status != ObjectForward || a.msg.forwardEncodeOk)))
  {
    var o := HandleInputOutcome(a);
    if !a.shutdown && a.msg.RequestMsg? && a.msg.header.Header? && a.msg.dispatch.Raised? && a.msg.header.responseExpected {
      SendErrorReply(a.msg.header.requestId, a.msg.dispatch.exception, a.msg.errorMarshalOk);
    }
  }

  // ---------------------------------------------------------------- svc

  /** The arrival of the i-th read; once the stream is exhausted the peer has closed it. */
  function ArrivalAt(stream: seq<Arrival>, i: nat): Arrival
  {
    if i < |stream| then stream[i] else Arrival(OtherMsg(EndOfFile), false)
  }

  /**
   * The outcomes of the handle_input calls svc makes on `stream`: it keeps
   * calling while the result is non-negative and stops at the first negative
   * one, which is always the last.
   */
  function SvcTrace(stream: seq<Arrival>): (t: seq<InputOutcome>)
    ensures 1 <= |t| <= |stream| + 1
    ensures t[|t| - 1].ret < 0
    ensures forall j :: 0 <= j < |t| - 1 ==> t[j].ret >= 0
    decreases |stream|
  {
    if stream == [] then [HandleInputOutcome(ArrivalAt(stream, 0))]
    else
      var o := HandleInputOutcome(stream[0]);
      if o.ret < 0 then [o]
      else [o] + SvcTrace(stream[1..])
  }

  /** Entry j of the trace is the outcome of the j-th read. */
  lemma {:induction false} SvcTraceAt(stream: seq<Arrival>, j: nat)
    requires j < |SvcTrace(stream)|
    ensures SvcTrace(stream)[j] == HandleInputOutcome(ArrivalAt(stream, j))
    decreases |stream|
  {
    if j > 0 {
      assert stream != [] && SvcTrace(stream)[j] == SvcTrace(stream[1..])[j - 1];
      SvcTraceAt(stream[1..], j - 1);
      assert ArrivalAt(stream[1..], j - 1) == ArrivalAt(stream, j);
    }
  }

  /** The messages sent by a sequence of handle_input calls, in order. */
  function Sent(t: seq<InputOutcome>): seq<Message>
  {
    if t == [] then [] else (if t[0].reply.Some? then [t[0].reply.value] else []) + Sent(t[1..])
  }

  /** Whether one of a sequence of handle_input calls closed the connection through send_error. */
  function ClosedBy(t: seq<InputOutcome>): bool
  {
    t != [] && (t[0].closed || ClosedBy(t[1..]))
  }

  lemma {:induction false} SentSnoc(t: seq<InputOutcome>, o: InputOutcome)
    ensures Sent(t + [o]) == Sent(t) + (if o.reply.Some? then [o.reply.value] else [])
    ensures ClosedBy(t + [o]) == (ClosedBy(t) || o.closed)
  {
    if t != [] {
      assert (t + [o])[1..] == t[1..] + [o];
      SentSnoc(t[1..], o);
    }
  }

  /** What the first i + 1 calls sent, from what the first i sent. */
  lemma SentPrefix(t: seq<InputOutcome>, i: nat)
    requires i < |t|
    ensures Sent(t[..i + 1]) == Sent(t[..i]) + (if t[i].reply.Some? then [t[i].reply.value] else [])
    ensures ClosedBy(t[..i + 1]) == (ClosedBy(t[..i]) || t[i].closed)
  {
    assert t[..i + 1] == t[..i] + [t[i]];
    SentSnoc(t[..i], t[i]);
  }

  /**
   * A connection on which the peer sends a request that needs no answer,
   * then closes: svc reads twice, answers nothing, and ends with -1.
   */
  lemma SvcOneWayThenEof(h: RequestHeader, out: Message)
    requires h.Header? && !h.responseExpected
    ensures var t := SvcTrace([Arrival(RequestMsg(h, Dispatched(out), true), false)]);
      |t| == 2 && Sent(t) == [] && t[1].ret == -1
  {
    var s := [Arrival(RequestMsg(h, Dispatched(out), true), false)];
    assert s[1..] == [];
    var t := SvcTrace(s);
    SvcTraceAt(s, 0);
    SvcTraceAt(s, 1);
    assert t[0].reply.None? && t[1].reply.None?;
    assert Sent(t) == Sent(t[1..]) == Sent(t[2..]);
  }

  /**
   * The server connection handler. `sent` is what it has written to the
   * connection, `closed` whether send_error closed it.
   */
  class ServerConnectionHandler {
    var sent: seq<Message>
    var closed: bool

    constructor ()
      ensures sent == [] && !closed
    {
      sent := [];
      closed := false;
    }

    /** One handle_input call on the message the receiver delivers. */
    method HandleInput(a: Arrival) returns (result: int)
      modifies this
      ensures result == HandleInputOutcome(a).ret
      ensures var o := HandleInputOutcome(a);
        sent == old(sent) + (if o.reply.Some? then [o.reply.value] else [])
        && closed == (old(closed) || o.closed)
    {
      var o := HandleInputOutcome(a);
      if o.reply.Some? {
        sent := sent + [o.reply.value];   // send_response or send_error's send
      }
      if o.closed {
        closed := true;                   // send_error's handle_close
      }
      result := o.ret;
    }

    /**
     * svc: call handle_input until it returns a negative value, and return
     * that value. `stream` is what the successive reads deliver.
     */
    method Svc(stream: seq<Arrival>) returns (result: int)
      modifies this
      ensures result < 0
      ensures var t := SvcTrace(stream);
        result == t[|t| - 1].ret
        && sent == old(sent) + Sent(t)
        && closed == (old(closed) || ClosedBy(t))
    {
      ghost var t := SvcTrace(stream);
      var i := 0;
      SvcTraceAt(stream, 0);
      result := HandleInput(ArrivalAt(stream, i));
      SentPrefix(t, 0);
      assert t[..0] == [];
      while result >= 0
        invariant 0 <= i < |t|
        invariant result == t[i].ret
        invariant sent == old(sent) + Sent(t[..i + 1])
        invariant closed == (old(closed) || ClosedBy(t[..i + 1]))
        decreases |t| - i
      {
        i := i + 1;
        SvcTraceAt(stream, i);
        result := HandleInput(ArrivalAt(stream, i));
        SentPrefix(t, i);
      }
      assert t[..i + 1] == t;
    }
  }
}
