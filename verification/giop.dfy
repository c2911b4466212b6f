/**
 * Values exchanged by the GIOP connection handlers: object references,
 * the CORBA exceptions a dispatch can raise, GIOP message kinds, the
 * LocateReply and Reply status codes of chapter 15 of the CORBA
 * specification (sections 15.4.6 and 15.4.3), and the CDR fields a reply
 * body is made of. CDR encoding itself is not modelled: a body is the
 * list of values written into the output stream, in order.
 */
module Giop {
  import opened Optional

  /** An object reference; `Nil` is the nil reference that `CORBA::is_nil` detects. */
  datatype Reference = Nil | Ior(key: string)

  /**
   * The exceptions a dispatch can leave behind. `PortableServer::ForwardRequest`
   * is itself a user exception, so `ForwardRequest` narrows to neither
   * `SystemException` nor any other kind.
   */
  datatype CorbaException =
    | ForwardRequest(forwardReference: Reference)
    | SystemException(repositoryId: string)
    | UserException(repositoryId: string)

  /** The GIOP message kinds plus the two pseudo kinds the receiver reports. */
  datatype MsgType =
    | Request
    | Reply
    | CancelRequest
    | LocateRequest
    | LocateReply
    | CloseConnection
    | MessageError
    | Fragment
    | CommunicationError   // the read itself failed
    | EndOfFile            // the peer closed the connection

  /** LocateStatusType, section 15.4.6.1 of the CORBA specification. */
  datatype LocateStatus = UnknownObject | ObjectHere | ObjectForward

  function LocateStatusCode(s: LocateStatus): nat
  {
    match s
    case UnknownObject => 0
    case ObjectHere => 1
    case ObjectForward => 2
  }

  function LocateStatusOfCode(n: nat): Option<LocateStatus>
  {
    if n == 0 then Some(UnknownObject)
    else if n == 1 then Some(ObjectHere)
    else if n == 2 then Some(ObjectForward)
    else None
  }

  /** ReplyStatusType, section 15.4.3.1 of the CORBA specification. */
  datatype ReplyStatus = NoException | UserExceptionStatus | SystemExceptionStatus | LocationForward

  function ReplyStatusCode(s: ReplyStatus): nat
  {
    match s
    case NoException => 0
    case UserExceptionStatus => 1
    case SystemExceptionStatus => 2
    case LocationForward => 3
  }

  function ReplyStatusOfCode(n: nat): Option<ReplyStatus>
  {
    if n == 0 then Some(NoException)
    else if n == 1 then Some(UserExceptionStatus)
    else if n == 2 then Some(SystemExceptionStatus)
    else if n == 3 then Some(LocationForward)
    else None
  }

  lemma StatusCodesRoundTrip(l: LocateStatus, r: ReplyStatus)
    ensures LocateStatusOfCode(LocateStatusCode(l)) == Some(l)
    ensures ReplyStatusOfCode(ReplyStatusCode(r)) == Some(r)
  {
  }

  /** One value written into a CDR output stream. */
  datatype Field =
    | ULong(value: nat)
    | ServiceContexts(count: nat)      // a service-context list; only its length is modelled
    | ObjectField(reference: Reference)
    | ExceptionField(exception: CorbaException)
    | Opaque(bytes: seq<int>)          // anything a collaborator marshalled

  datatype Message = Message(kind: MsgType, body: seq<Field>)

  /** What a client reads back from a LocateReply body. */
  datatype LocateAnswer = LocateAnswer(requestId: nat, status: LocateStatus, forward: Option<Reference>)

  /**
   * Reference reading of a LocateReply body (section 15.4.6): the request
   * id, the status, and an object reference exactly when the status is
   * OBJECT_FORWARD.
   */
  function DecodeLocateReply(body: seq<Field>): Option<LocateAnswer>
  {
    if |body| < 2 || !body[0].ULong? || !body[1].ULong? then None
    else match LocateStatusOfCode(body[1].value)
      case None => None
      case Some(st) =>
        if st == ObjectForward then
          if |body| == 3 && body[2].ObjectField? then Some(LocateAnswer(body[0].value, st, Some(body[2].reference)))
          else None
        else if |body| == 2 then Some(LocateAnswer(body[0].value, st, None))
        else None
  }

  /** What a client reads back from an exceptional Reply body. */
  datatype ErrorAnswer =
    | Forwarded(requestId: nat, target: Reference)
    | Failed(requestId: nat, status: ReplyStatus, exception: CorbaException)

  /**
   * Reference reading of a Reply body carrying an error (section 15.4.3):
   * a service-context list, the request id, the reply status, then the
   * forward reference (LOCATION_FORWARD) or the exception.
   */
  function DecodeErrorReply(body: seq<Field>): Option<ErrorAnswer>
  {
    if |body| != 4 || !body[0].ServiceContexts? || !body[1].ULong? || !body[2].ULong? then None
    else match ReplyStatusOfCode(body[2].value)
      case None => None
      case Some(st) =>
        if st == LocationForward && body[3].ObjectField? then Some(Forwarded(body[1].value, body[3].reference))
        else if (st == UserExceptionStatus || st == SystemExceptionStatus) && body[3].ExceptionField? then
          Some(Failed(body[1].value, st, body[3].exception))
        else None
  }
}
