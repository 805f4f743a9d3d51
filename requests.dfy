/** Data model of the networking queue: requests and responses, the commands
    exchanged between the queue and its worker, and the callback invocations
    a drain performs. */
module Requests {

  datatype Option<T> = None | Some(value: T) {
    function GetOr(default: T): T {
      if Some? then value else default
    }
  }

  datatype Result<T, E> = Ok(value: T) | Err(error: E)

  type byte = b: int | 0 <= b < 256

  /** A reading of the monotonic clock, in nanoseconds. */
  type Instant = int

  /** A length of time, in nanoseconds. */
  type Duration = nat

  const NanosPerSecond: nat := 1_000_000_000

  datatype RequestType = Get | Post | Put | Delete

  /** One header: name and value. The header map is an ordered multimap,
      kept opaque: the queue only copies it into the outgoing request. */
  type Header = (string, string)

  datatype RequestOptions = RequestOptions(headers: seq<Header>, timeout: Option<Duration>)

  datatype Request = Request(httpType: RequestType, uri: string, body: seq<byte>, options: RequestOptions)

  /** hyper's StatusCode holds a three-digit code. */
  type StatusCode = c: int | 100 <= c < 1000 witness 200

  datatype Response = Response(baseRequest: Request, body: seq<byte>, statusCode: StatusCode)

  /** What the transport reported when the exchange failed; opaque to the queue. */
  type TransportFailure = string

  /** The error kinds a callback can observe. */
  datatype ErrorKind = HTTPError(cause: TransportFailure) | RequestCancelled | RequestTimeout

  /** Identity of a boxed callback closure. */
  type CallbackId = nat

  /** Identity of the oneshot channel that pairs a RequestCancellation with its request. */
  type SignalId = nat

  /** The sending half of a request's cancellation channel, handed to the caller. */
  datatype RequestCancellation = RequestCancellation(signal: SignalId)

  datatype InputCommand =
    | Request(cancellationSignal: SignalId, request: Request, callback: CallbackId)
    | Quit

  datatype OutputCommand =
    | Response(response: Response, callback: CallbackId)
    | Error(error: ErrorKind, callback: CallbackId)

  /** One invocation of a callback, with the argument it was given. */
  datatype Delivery = Delivery(callback: CallbackId, result: Result<Response, ErrorKind>)

  /** Why a non-blocking receive on the result channel found nothing. */
  datatype TryRecvError = Empty | Disconnected

  /** The argument a drain hands to an outcome's callback. */
  function CallbackArgument(o: OutputCommand): (r: Result<Response, ErrorKind>)
    ensures o.Response? <==> r.Ok?
    ensures r.Ok? ==> r.value == o.response
    ensures r.Err? ==> r.error == o.error
  {
    match o
    case Response(response, _) => Ok(response)
    case Error(error, _) => Err(error)
  }

  /** The callback invocation a drain performs for one outcome. */
  function DeliveryOf(o: OutputCommand): (d: Delivery)
    ensures d.callback == o.callback
    ensures d.result == CallbackArgument(o)
  {
    Delivery(o.callback, CallbackArgument(o))
  }

  /** The callback invocations for a run of outcomes drained in order. */
  function DeliveriesOf(os: seq<OutputCommand>): seq<Delivery> {
    seq(|os|, k requires 0 <= k < |os| => DeliveryOf(os[k]))
  }

  /** Draining the outcomes between two positions of the published sequence
      leaves the rest buffered and logs theirs after the earlier deliveries. */
  lemma DrainedPrefix(published: seq<OutputCommand>, before: nat, after: nat)
    requires before <= after <= |published|
    ensures published[after..] == published[before..][after - before..]
    ensures DeliveriesOf(published[..after])
         == DeliveriesOf(published[..before]) + DeliveriesOf(published[before..][..after - before])
  {
  }
}
