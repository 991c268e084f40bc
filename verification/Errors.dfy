/** The error types of `src/error.rs` and the conversions from the QUIC library's own errors. */
module Errors {
  import opened Types

  // ----- errors of the QUIC library ---------------------------------------------------------

  datatype QuinnConnectionError =
    | QVersionMismatch
    | QTransportError(transportCode: nat)
    | QConnectionClosed(closeCode: nat, closeReason: seq<Byte>)
    | QApplicationClosed(appCode: nat, appReason: seq<Byte>)
    | QReset
    | QTimedOut
    | QLocallyClosed

  datatype QuinnConnectError =
    | QEndpointStopping
    | QTooManyConnections
    | QInvalidDnsName(name: string)
    | QInvalidRemoteAddress(remote: SocketAddr)
    | QNoDefaultClientConfig
    | QUnsupportedVersion

  datatype ReadError =
    | ReadReset(resetCode: nat)
    | ReadConnectionLost(lost: QuinnConnectionError)
    | ReadUnknownStream
    | ReadIllegalOrderedRead
    | ReadZeroRttRejected

  datatype ReadExactError = FinishedEarly | ReadFailed(cause: ReadError)

  datatype WriteError =
    | WriteStopped(stopCode: nat)
    | WriteConnectionLost(wlost: QuinnConnectionError)
    | WriteUnknownStream
    | WriteZeroRttRejected

  // ----- errors of qp2p ---------------------------------------------------------------------

  datatype Close =
    | Local
    | Application(appCode: nat, appReason: seq<Byte>)
    | Transport(transportCode: nat, transportReason: seq<Byte>)

  datatype ConnectionError =
    | Stopped
    | TooManyConnections
    | InvalidAddress(invalid: SocketAddr)
    | InternalConfigError(source: QuinnConnectError)
    | VersionMismatch
    | TransportError(code: nat)
    | Reset
    | TimedOut
    | Closed(closer: Close)
  {
    /** A natural change of state rather than a fault of the connection. */
    predicate IsBenign() {
      match this
      case TimedOut => true
      case Closed(Local) => true
      case Closed(Application(code, _)) => code == 0
      case _ => false
    }
  }

  /** The texts the library attaches to serialisation errors, as distinct kinds. */
  datatype SerializationError =
    | EmptyMessage
    | InvalidFlag(flag: Byte)
    | Undecodable
    | TooFewBytes
    | TooLong(length: nat)
    | Unexpected(actual: Option<WireMsg>)

  datatype UnsupportedStreamOperation = OnRead(r: ReadError) | OnWrite(w: WriteError)

  datatype StreamError =
    | StreamStopped(code: nat)
    | Gone
    | Unsupported(operation: UnsupportedStreamOperation)

  datatype RecvError =
    | RecvSerialization(kind: SerializationError)
    | RecvConnectionLost(conn: ConnectionError)
    | RecvStreamLost(stream: StreamError)

  datatype SendError =
    | SendSerialization(kind: SerializationError)
    | SendConnectionLost(conn: ConnectionError)
    | SendStreamLost(stream: StreamError)

  datatype RpcError = RpcTimedOut | RpcSend(send: SendError) | RpcRecv(recv: RecvError)

  // ----- conversions ------------------------------------------------------------------------

  function FromQuinn(e: QuinnConnectionError): ConnectionError {
    match e
    case QLocallyClosed => Closed(Local)
    case QApplicationClosed(code, reason) => Closed(Application(code, reason))
    case QConnectionClosed(code, reason) => Closed(Transport(code, reason))
    case QVersionMismatch => VersionMismatch
    case QTransportError(code) => TransportError(code)
    case QReset => Reset
    case QTimedOut => TimedOut
  }

  function FromRead(e: ReadError): RecvError {
    match e
    case ReadReset(code) => RecvStreamLost(StreamStopped(code))
    case ReadConnectionLost(error) => RecvConnectionLost(FromQuinn(error))
    case ReadUnknownStream => RecvStreamLost(Gone)
    case ReadIllegalOrderedRead => RecvStreamLost(Unsupported(OnRead(e)))
    case ReadZeroRttRejected => RecvStreamLost(Unsupported(OnRead(e)))
  }

  function FromReadExact(e: ReadExactError): RecvError {
    match e
    case FinishedEarly => RecvSerialization(TooFewBytes)
    case ReadFailed(cause) => FromRead(cause)
  }

  function FromWrite(e: WriteError): SendError {
    match e
    case WriteStopped(code) => SendStreamLost(StreamStopped(code))
    case WriteConnectionLost(error) => SendConnectionLost(FromQuinn(error))
    case WriteUnknownStream => SendStreamLost(Gone)
    case WriteZeroRttRejected => SendStreamLost(Unsupported(OnWrite(e)))
  }

  predicate IsLoss(e: RecvError) {
    e.RecvConnectionLost?
  }

  predicate IsBenignLoss(e: RecvError) {
    e.RecvConnectionLost? && e.conn.IsBenign()
  }

  /** What each failure of a connection becomes. */
  lemma ConnectionErrorTargets(code: nat, reason: seq<Byte>)
    ensures FromQuinn(QLocallyClosed) == Closed(Local)
    ensures FromQuinn(QApplicationClosed(code, reason)) == Closed(Application(code, reason))
    ensures FromQuinn(QConnectionClosed(code, reason)) == Closed(Transport(code, reason))
    ensures FromQuinn(QVersionMismatch) == VersionMismatch
    ensures FromQuinn(QTransportError(code)) == TransportError(code)
    ensures FromQuinn(QReset) == Reset
    ensures FromQuinn(QTimedOut) == TimedOut
  {
  }

  /** What each failure to read or write becomes. */
  lemma StreamErrorTargets(code: nat, lost: QuinnConnectionError)
    ensures FromRead(ReadReset(code)) == RecvStreamLost(StreamStopped(code))
    ensures FromRead(ReadConnectionLost(lost)) == RecvConnectionLost(FromQuinn(lost))
    ensures FromRead(ReadUnknownStream) == RecvStreamLost(Gone)
    ensures FromRead(ReadIllegalOrderedRead) == RecvStreamLost(Unsupported(OnRead(ReadIllegalOrderedRead)))
    ensures FromRead(ReadZeroRttRejected) == RecvStreamLost(Unsupported(OnRead(ReadZeroRttRejected)))
    ensures FromReadExact(FinishedEarly) == RecvSerialization(TooFewBytes)
    ensures FromWrite(WriteStopped(code)) == SendStreamLost(StreamStopped(code))
    ensures FromWrite(WriteConnectionLost(lost)) == SendConnectionLost(FromQuinn(lost))
    ensures FromWrite(WriteUnknownStream) == SendStreamLost(Gone)
    ensures FromWrite(WriteZeroRttRejected) == SendStreamLost(Unsupported(OnWrite(WriteZeroRttRejected)))
  {
  }

  /** No read failure is confused with another, and connection loss is kept apart from stream
      loss: this is what lets the listeners branch on the converted error alone. */
  lemma ReadErrorsStayDistinct(a: ReadExactError, b: ReadExactError)
    ensures FromReadExact(a) == FromReadExact(b) <==> a == b
    ensures IsLoss(FromReadExact(a)) <==> a.ReadFailed? && a.cause.ReadConnectionLost?
    ensures IsBenignLoss(FromReadExact(a)) <==>
              && a.ReadFailed?
              && a.cause.ReadConnectionLost?
              && (|| a.cause.lost.QTimedOut?
                  || a.cause.lost.QLocallyClosed?
                  || (a.cause.lost.QApplicationClosed? && a.cause.lost.appCode == 0))
  {
  }

  /** Likewise for write failures; the loss of the connection is what makes a failure to send
      permanent, and a stream stopped by the peer is what a finished send forgives. */
  lemma WriteErrorsStayDistinct(a: WriteError, b: WriteError)
    ensures FromWrite(a) == FromWrite(b) <==> a == b
    ensures FromWrite(a).SendConnectionLost? <==> a.WriteConnectionLost?
    ensures FromWrite(a).SendStreamLost? && FromWrite(a).stream.StreamStopped? <==> a.WriteStopped?
  {
  }
}
