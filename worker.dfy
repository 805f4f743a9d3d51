/** The worker side of the queue: which commands the worker takes from the
    command channel, and how each request task resolves to exactly one
    outcome. Times here are measured from the start of the request's task. */
module Worker {
  import opened Requests

  // ---------------------------------------------------------------------
  // The command loop: take_while(not Quit), then for_each spawns a task.
  // ---------------------------------------------------------------------

  /** The commands the worker handles: the longest prefix free of Quit. */
  function ProcessedCommands(cmds: seq<InputCommand>): (r: seq<InputCommand>)
    ensures |r| <= |cmds| && r == cmds[..|r|]
    ensures forall k :: 0 <= k < |r| ==> r[k].Request?
    ensures |r| < |cmds| ==> cmds[|r|].Quit?
  {
    if cmds == [] || cmds[0].Quit? then [] else [cmds[0]] + ProcessedCommands(cmds[1..])
  }

  /** The requests among a run of commands, in order. */
  function RequestsIn(cmds: seq<InputCommand>): (r: seq<InputCommand>)
    ensures |r| <= |cmds|
    ensures forall k :: 0 <= k < |r| ==> r[k] in cmds && r[k].Request?
  {
    if cmds == [] then []
    else (if cmds[0].Request? then [cmds[0]] else []) + RequestsIn(cmds[1..])
  }

  /** A run made only of requests is its own run of requests. */
  lemma {:induction false} AllRequests(cmds: seq<InputCommand>)
    requires forall k :: 0 <= k < |cmds| ==> cmds[k].Request?
    ensures RequestsIn(cmds) == cmds
  {
    if cmds != [] {
      AllRequests(cmds[1..]);
    }
  }

  /** Appending commands never changes what the worker already handled. */
  lemma {:induction false} ProcessedPrefix(cmds: seq<InputCommand>, more: seq<InputCommand>)
    ensures ProcessedCommands(cmds) == ProcessedCommands(cmds + more)[..|ProcessedCommands(cmds)|]
  {
    if cmds != [] && !cmds[0].Quit? {
      assert (cmds + more)[1..] == cmds[1..] + more;
      ProcessedPrefix(cmds[1..], more);
    }
  }

  /** Once a Quit has reached the channel, nothing sent after it is handled. */
  lemma {:induction false} NothingAfterQuit(cmds: seq<InputCommand>, more: seq<InputCommand>)
    requires Quit in cmds
    ensures ProcessedCommands(cmds + more) == ProcessedCommands(cmds)
    ensures |ProcessedCommands(cmds)| < |cmds|
  {
    if cmds[0].Quit? {
    } else {
      assert (cmds + more)[1..] == cmds[1..] + more;
      assert Quit in cmds[1..];
      NothingAfterQuit(cmds[1..], more);
    }
  }

  // ---------------------------------------------------------------------
  // One request task: the transport future races the cancellation signal
  // (select2), the race is wrapped in a timeout, and the winning state is
  // published as one OutputCommand.
  // ---------------------------------------------------------------------

  datatype TransportResult = Received(body: seq<byte>, statusCode: StatusCode) | Failed(cause: TransportFailure)

  /** When, if ever, the transport future resolves, and with what. */
  datatype TransportEvent = Pending | Done(at: Duration, result: TransportResult)

  /** Both ways of resolving the cancellation receiver. */
  datatype CancelHow = SignalSent | SenderDropped

  /** When, if ever, the cancellation receiver resolves. */
  datatype CancelEvent = NotCancelled | Cancelled(at: Duration, how: CancelHow)

  /** What the network and the caller do to one request task. */
  datatype TaskEvents = TaskEvents(transport: TransportEvent, cancel: CancelEvent)

  datatype State = Successful(body: seq<byte>, statusCode: StatusCode) | Error(error: ErrorKind) | Canceled | Timeout

  /** The timeout used when a request sets none: u16::MAX seconds. */
  const DefaultTimeout: Duration := 65_535 * NanosPerSecond

  function Deadline(options: RequestOptions): Duration {
    options.timeout.GetOr(DefaultTimeout)
  }

  /** The state the transport future maps to: its map and or_else. */
  function TransportState(r: TransportResult): State {
    match r
    case Received(body, status) => Successful(body, status)
    case Failed(cause) => State.Error(HTTPError(cause))
  }

  /** select2 of the transport against the cancellation: the instant and state
      of the side that resolves first. select2 polls the transport first, so
      the transport wins a same-instant tie. */
  function Race(transport: TransportEvent, cancel: CancelEvent): Option<(Duration, State)> {
    match (transport, cancel)
    case (Pending, NotCancelled) => None
    case (Done(ta, r), NotCancelled) => Some((ta, TransportState(r)))
    case (Pending, Cancelled(tc, _)) => Some((tc, Canceled))
    case (Done(ta, r), Cancelled(tc, _)) =>
      if ta <= tc then Some((ta, TransportState(r))) else Some((tc, Canceled))
  }

  /** The timeout around the race. The timeout polls the race before its delay,
      so a race that resolves exactly at the deadline still wins. */
  function Resolve(options: RequestOptions, events: TaskEvents): State {
    match Race(events.transport, events.cancel)
    case None => Timeout
    case Some((t, s)) => if t <= Deadline(options) then s else Timeout
  }

  /** The mapping from the resolved state to the published OutputCommand. */
  function OutputFor(state: State, request: Request, callback: CallbackId): (o: OutputCommand)
    ensures o.callback == callback
  {
    match state
    case Successful(body, status) => OutputCommand.Response(Response.Response(request, body, status), callback)
    case Error(error) => OutputCommand.Error(error, callback)
    case Canceled => OutputCommand.Error(RequestCancelled, callback)
    case Timeout => OutputCommand.Error(RequestTimeout, callback)
  }

  /** The OutputCommand a request command's task publishes. */
  function TaskOutput(cmd: InputCommand, events: TaskEvents): (o: OutputCommand)
    requires cmd.Request?
    ensures o.callback == cmd.callback
  {
    OutputFor(Resolve(cmd.request.options, events), cmd.request, cmd.callback)
  }

  /** The outputs the worker publishes for a command stream, listed in
      submission order (the result channel receives them in completion order). */
  function WorkerOutputs(cmds: seq<InputCommand>, events: SignalId -> TaskEvents): seq<OutputCommand> {
    OutputsOf(ProcessedCommands(cmds), events)
  }

  function OutputsOf(cmds: seq<InputCommand>, events: SignalId -> TaskEvents): seq<OutputCommand> {
    if cmds == [] then []
    else
      (if cmds[0].Request? then [TaskOutput(cmds[0], events(cmds[0].cancellationSignal))] else [])
      + OutputsOf(cmds[1..], events)
  }

  // ---------------------------------------------------------------------
  // Properties of the resolution.
  // ---------------------------------------------------------------------

  /** The transport outcome resolves the race, no later than the deadline. */
  ghost predicate TransportWins(options: RequestOptions, events: TaskEvents) {
    && events.transport.Done?
    && events.transport.at <= Deadline(options)
    && (events.cancel.NotCancelled? || events.transport.at <= events.cancel.at)
  }

  /** The cancellation resolves the race, no later than the deadline. */
  ghost predicate CancelWins(options: RequestOptions, events: TaskEvents) {
    && events.cancel.Cancelled?
    && events.cancel.at <= Deadline(options)
    && (events.transport.Pending? || events.cancel.at < events.transport.at)
  }

  /** The state a task resolves to, characterised by who wins. */
  lemma ResolveCases(options: RequestOptions, events: TaskEvents)
    ensures !(TransportWins(options, events) && CancelWins(options, events))
    ensures Resolve(options, events).Successful? <==>
              TransportWins(options, events) && events.transport.result.Received?
    ensures Resolve(options, events).Error? <==>
              TransportWins(options, events) && events.transport.result.Failed?
    ensures Resolve(options, events) == Canceled <==> CancelWins(options, events)
    ensures Resolve(options, events) == Timeout <==>
              !TransportWins(options, events) && !CancelWins(options, events)
    ensures TransportWins(options, events) ==> Resolve(options, events) == TransportState(events.transport.result)
  {
  }

  /** The end-to-end outcome of one request: what its callback is eventually
      handed, for each way the race can go. */
  lemma TaskOutcome(cmd: InputCommand, events: TaskEvents)
    requires cmd.Request?
    ensures TaskOutput(cmd, events).callback == cmd.callback
    ensures var arg := CallbackArgument(TaskOutput(cmd, events));
            var o := cmd.request.options;
            && (TransportWins(o, events) && events.transport.result.Received? ==>
                  arg == Ok(Response.Response(cmd.request, events.transport.result.body, events.transport.result.statusCode)))
            && (TransportWins(o, events) && events.transport.result.Failed? ==>
                  arg == Err(HTTPError(events.transport.result.cause)))
            && (CancelWins(o, events) ==> arg == Err(RequestCancelled))
            && (!TransportWins(o, events) && !CancelWins(o, events) ==> arg == Err(RequestTimeout))
  {
    ResolveCases(cmd.request.options, events);
  }

  /** A successful response carries the original request unchanged. */
  lemma ResponseKeepsRequest(cmd: InputCommand, events: TaskEvents)
    requires cmd.Request?
    ensures TaskOutput(cmd, events).Response? ==> TaskOutput(cmd, events).response.baseRequest == cmd.request
  {
  }

  /** Sending the cancellation signal and dropping its sender are indistinguishable. */
  lemma CancelHowIrrelevant(options: RequestOptions, transport: TransportEvent, tc: Duration)
    ensures Resolve(options, TaskEvents(transport, Cancelled(tc, SignalSent)))
         == Resolve(options, TaskEvents(transport, Cancelled(tc, SenderDropped)))
  {
  }

  /** A cancellation that arrives after the transport has resolved has no effect. */
  lemma LateCancelIgnored(options: RequestOptions, ta: Duration, r: TransportResult, cancel: CancelEvent)
    requires cancel.Cancelled? ==> ta <= cancel.at
    ensures Resolve(options, TaskEvents(Done(ta, r), cancel)) == Resolve(options, TaskEvents(Done(ta, r), NotCancelled))
  {
  }

  /** Without a timeout in its options, a request times out only if nothing
      resolves within 65535 seconds. */
  lemma DefaultDeadline(request: Request, events: TaskEvents)
    requires request.options.timeout.None?
    ensures Resolve(request.options, events) == Timeout <==>
              (events.transport.Pending? || events.transport.at > 65_535_000_000_000) &&
              (events.cancel.NotCancelled? || events.cancel.at > 65_535_000_000_000)
  {
  }

  /** A zero timeout yields RequestTimeout whenever neither the transport nor the
      cancellation is ready at the instant the task starts. */
  lemma ZeroTimeout(cmd: InputCommand, events: TaskEvents)
    requires cmd.Request? && cmd.request.options.timeout == Some(0)
    requires events.transport.Done? ==> events.transport.at > 0
    requires events.cancel.Cancelled? ==> events.cancel.at > 0
    ensures CallbackArgument(TaskOutput(cmd, events)) == Err(RequestTimeout)
  {
  }

  /** A request whose cancellation sender was dropped before its task started
      ends with RequestCancelled, unless the transport is ready at that instant. */
  lemma CancelledBeforeStart(cmd: InputCommand, transport: TransportEvent)
    requires cmd.Request?
    requires transport.Done? ==> transport.at > 0
    ensures CallbackArgument(TaskOutput(cmd, TaskEvents(transport, Cancelled(0, SenderDropped)))) == Err(RequestCancelled)
  {
  }

  /** A request left alone whose transport succeeds within the default timeout
      hands its callback the response, built on the request itself. */
  lemma UndisturbedSuccess(cmd: InputCommand, ta: Duration, body: seq<byte>, status: StatusCode)
    requires cmd.Request? && cmd.request.options.timeout.None?
    requires ta <= 65_535_000_000_000
    ensures CallbackArgument(TaskOutput(cmd, TaskEvents(Done(ta, Received(body, status)), NotCancelled)))
         == Ok(Response.Response(cmd.request, body, status))
  {
  }

  // ---------------------------------------------------------------------
  // Properties of the command loop.
  // ---------------------------------------------------------------------

  /** Each handled request yields exactly one output, in order, for its own callback. */
  lemma {:induction false} OneOutputPerRequest(cmds: seq<InputCommand>, events: SignalId -> TaskEvents)
    ensures |OutputsOf(cmds, events)| == |RequestsIn(cmds)|
    ensures forall k :: 0 <= k < |RequestsIn(cmds)| ==>
              OutputsOf(cmds, events)[k] == TaskOutput(RequestsIn(cmds)[k], events(RequestsIn(cmds)[k].cancellationSignal))
  {
    if cmds != [] {
      OneOutputPerRequest(cmds[1..], events);
    }
  }

  /** The worker publishes one output per request before the first Quit, and
      commands sent after a Quit never produce one. */
  lemma WorkerOutputsSpec(cmds: seq<InputCommand>, more: seq<InputCommand>, events: SignalId -> TaskEvents)
    ensures |WorkerOutputs(cmds, events)| == |ProcessedCommands(cmds)|
    ensures forall k :: 0 <= k < |ProcessedCommands(cmds)| ==>
              WorkerOutputs(cmds, events)[k]
              == TaskOutput(cmds[k], events(cmds[k].cancellationSignal))
    ensures Quit in cmds ==> WorkerOutputs(cmds + more, events) == WorkerOutputs(cmds, events)
    ensures Quit !in cmds ==> WorkerOutputs(cmds, events) == OutputsOf(cmds, events)
  {
    AllRequests(ProcessedCommands(cmds));
    OneOutputPerRequest(ProcessedCommands(cmds), events);
    if Quit in cmds {
      NothingAfterQuit(cmds, more);
    }
  }
}
