# Networking queue of gRIP, modelled in Dafny

gRIP's networking queue lets a single-threaded host issue HTTP requests
without blocking. The host owns a `Queue`. `send_request` hands a request
and its callback to a worker thread, which runs the exchange. The outcome
comes back through a result channel. A callback runs only when the host
drains the queue with `execute_queue_with_limit` (or
`execute_query_with_timeout`); both pop outcomes through the private
`try_recv_queue`. In the model, only `TryRecvQueue` and
`ExecuteQueueWithLimit` have the delivery log in their `modifies` frame,
so no other step runs a callback.
`stop` (also run on drop) sends `Quit` and joins the worker.

The project has three modules:

- `Requests` (`requests.dfy`) is the data model. It has `RequestType`,
  `RequestOptions`, `Request`, `Response` and the error kinds
  (`HTTPError`, `RequestCancelled`, `RequestTimeout`). It also has the two
  command types, `InputCommand` (`Request` or `Quit`) and `OutputCommand`
  (`Response` or `Error`), and the `Delivery` record. A `Delivery` logs one
  callback invocation and the argument it got.
- `Worker` (`worker.dfy`) is the worker's pure core.
  - `ProcessedCommands` is the `take_while` rule: commands are handled up
    to the first `Quit`, which is excluded.
  - `Resolve` gives the state one request task ends in. The transport
    resolves at `ta`, the cancellation at `tc`, and the deadline is `d`,
    all measured from the start of the task.
  - `OutputFor` maps `State` to `OutputCommand`.
  - `WorkerOutputs` lists the outputs of a whole command stream.
- `NetworkingQueue` (`queue.dfy`) has the `Queue` class. Its fields are
  the pending counter, the last rate-limited timestamp, the optional
  worker handle, and both channel buffers as sequences. It also keeps a
  delivery log. Three methods model steps taken by the other threads,
  so every interleaving of those steps between facade operations is
  covered:
  - `RunSendTask`: a spawned send reaches the command channel, in any
    order.
  - `CompleteTask`: a request task publishes its outcome once.
  - `DropResultSenders`: once a `Quit` has reached the channel, the result
    channel's senders go away.

  The invariant `Valid()` states the following:
  - the counter is the number of commands sent, `Quit` included, minus
    the number of outcomes drained;
  - each outcome is the output of a distinct request that the worker
    handled;
  - the result buffer holds exactly the published outcomes that have not
    been drained, in order;
  - every request sent has its own cancellation signal;
  - the worker thread is joined at most once.

Time, tie-breaks and the default timeout:

- Time is an integer number of nanoseconds. `now` is a parameter of
  `ExecuteQueueWithLimit`.
- `select2` polls the transport first, so the transport wins a
  same-instant tie with the cancellation.
- tokio's `Timeout` polls the inner future before its delay, so a race
  that resolves exactly at the deadline still wins. A timeout is reported
  only when nothing resolved by the deadline.
- Without a configured timeout, the deadline is `u16::MAX` = 65535
  seconds.

Three behaviours of the code that are easy to misread:

- A zero timeout yields `RequestTimeout` only when neither the transport
  nor the cancellation is ready at the instant the task starts.
  `ZeroTimeout` states it with that condition.
- Every `stop` sends another `Quit` and counts it in the pending counter.
  Only the join is skipped on a second call.
- The pending counter counts every command, `Quit` included.
  `QuitKeepsCounterPositive` proves the consequence: once `stop` has run,
  the counter never returns to zero.

## Model

| member | source | states |
|---|---|---|
| `Requests.CallbackArgument` | rust/src/networking_queue/mod.rs:300-307 | a `Response` outcome hands its callback `Ok(response)` and an `Error` outcome hands it `Err(error)` |
| `Worker.ProcessedCommands` | rust/src/networking_queue/mod.rs:151-163 | the commands the worker handles are the longest prefix of the stream that holds no `Quit`; all of them are requests, and the command after them, if any, is a `Quit` |
| `Worker.ProcessedPrefix` | rust/src/networking_queue/mod.rs:151-159 | commands arriving later never change what the worker has already handled |
| `Worker.NothingAfterQuit` | rust/src/networking_queue/mod.rs:152-159 | once a `Quit` is in the stream, nothing sent after it is handled, and the `Quit` itself is not handled |
| `Worker.Deadline` | rust/src/networking_queue/mod.rs:205-206 | the configured timeout, or `u16::MAX` seconds when none is set; specified by `DefaultDeadline` and `ResolveCases` |
| `Worker.TransportState` | rust/src/networking_queue/mod.rs:189-195 | a received body and status become `Successful`, a transport failure becomes `Error(HTTPError)`; specified by `ResolveCases` |
| `Worker.Race` | rust/src/networking_queue/mod.rs:196-203 | the `select2` of the transport against the cancellation, the transport winning a tie; specified by `ResolveCases` and `LateCancelIgnored` |
| `Worker.Resolve` | rust/src/networking_queue/mod.rs:189-207 | the state the task ends in once the timeout wraps the race; specified by `ResolveCases` and `TaskOutcome` |
| `Worker.WorkerOutputs` | rust/src/networking_queue/mod.rs:151-163 | the outputs of the requests the worker takes before the first `Quit`; specified by `WorkerOutputsSpec` |
| `Worker.OutputsOf` | rust/src/networking_queue/mod.rs:160-245 | one task output per request of a run, each with the events of its own signal; specified by `OneOutputPerRequest` |
| `Worker.OutputFor` | rust/src/networking_queue/mod.rs:210-241 | the published command carries the request's own callback; which command each state yields is stated by `TaskOutcome` |
| `Worker.TaskOutput` | rust/src/networking_queue/mod.rs:174-243 | a request task publishes one command, for the request's own callback |
| `Worker.ResolveCases` | rust/src/networking_queue/mod.rs:189-207 | the transport and the cancellation never both win. The task ends `Successful` or `Error` exactly when the transport resolves first (a tie counts) and by the deadline. It ends `Canceled` exactly when the cancellation resolves strictly first and by the deadline. It ends `Timeout` exactly when neither resolves by the deadline |
| `Worker.TaskOutcome` | rust/src/networking_queue/mod.rs:166-241 | what the callback eventually receives: `Ok` of a response built from the request, the body and the status when the transport succeeds first; `Err(HTTPError)` when it fails first; `Err(RequestCancelled)` when the cancellation wins; `Err(RequestTimeout)` otherwise |
| `Worker.ResponseKeepsRequest` | rust/src/networking_queue/mod.rs:212-220 | a `Response` output's `base_request` is the submitted request, unchanged |
| `Worker.CancelHowIrrelevant` | rust/src/networking_queue/mod.rs:196-198 | a sent cancellation signal and a dropped sender resolve a task identically |
| `Worker.LateCancelIgnored` | rust/src/networking_queue/mod.rs:196-203 | a cancellation at or after the transport's completion has no effect on the outcome |
| `Worker.DefaultDeadline` | rust/src/networking_queue/mod.rs:205-207 | with no configured timeout, a task times out exactly when neither the transport nor the cancellation resolves within 65535 seconds |
| `Worker.ZeroTimeout` | rust/src/networking_queue/mod.rs:205-208 | with a zero timeout, the callback gets `Err(RequestTimeout)` whenever neither the transport nor the cancellation is ready at the task's start |
| `Worker.CancelledBeforeStart` | rust/src/networking_queue/mod.rs:196-199 | dropping the cancellation before the task starts yields `Err(RequestCancelled)` when the transport needs any time at all |
| `Worker.UndisturbedSuccess` | rust/src/networking_queue/mod.rs:184-192 | an uncancelled request whose transport succeeds within the default timeout gets `Ok` of a response carrying the request, the body and the status |
| `Worker.OneOutputPerRequest` | rust/src/networking_queue/mod.rs:160-245 | the handled commands yield exactly one output per request, in order, each the task output of that request |
| `Worker.WorkerOutputsSpec` | rust/src/networking_queue/mod.rs:151-248 | the worker publishes exactly one output per command before the first `Quit`, the k-th being the task output of the k-th command with the events of its own signal; commands sent after a `Quit` add no output; without a `Quit`, every request yields its output |
| `NetworkingQueue.Queue.constructor` | rust/src/networking_queue/mod.rs:253-260 | a new queue has a worker handle, empty channels, no timestamp and a zero counter |
| `NetworkingQueue.Queue.NumberOfPendingRequests` | rust/src/networking_queue/mod.rs:346-348 | the counter equals the commands sent, `Quit` included, minus the outcomes drained |
| `NetworkingQueue.Queue.SendInputCommand` | rust/src/networking_queue/mod.rs:288-297 | every command, a `Quit` included, raises the counter by exactly one and is handed to a send task; its callers pass a request only with a signal no earlier request has |
| `NetworkingQueue.Queue.SendRequest` | rust/src/networking_queue/mod.rs:272-286 | sends a `Request` command carrying the request, its callback and a cancellation signal that no request already in transit or in the channel carries; returns that signal's token; counter plus one |
| `NetworkingQueue.Queue.Stop` | rust/src/networking_queue/mod.rs:263-269 | enqueues `Quit` and raises the counter on every call; afterwards the handle is gone; the thread is joined only when the handle was still there, so a second `stop` joins nothing |
| `NetworkingQueue.Queue.Drop` | rust/src/networking_queue/mod.rs:120-124 | dropping the queue has exactly the effect of `stop` |
| `NetworkingQueue.Queue.TryRecvQueue` | rust/src/networking_queue/mod.rs:299-312 | on a non-empty buffer: removes exactly the front outcome, invokes its callback once with `Ok(response)` or `Err(error)`, and lowers the counter by one. On an empty buffer: returns `Empty`, or `Disconnected` once the senders are gone, and changes nothing |
| `NetworkingQueue.Queue.ExecuteQueueWithLimit` | rust/src/networking_queue/mod.rs:314-335 | if a previous drain was at most `delay` ago (inclusive), returns 0 and changes nothing, the timestamp included. Otherwise it stores `now`, drains in FIFO order until the buffer is empty or `limit + 1` outcomes are drained, logs their callbacks in order, and returns the number drained, which is also how much the counter drops |
| `NetworkingQueue.Queue.RunSendTask` | rust/src/networking_queue/mod.rs:291-296 | a spawned send moves its command, whichever one it is, to the end of the command channel |
| `NetworkingQueue.Queue.CompleteTask` | rust/src/networking_queue/mod.rs:174-243 | a handled request's task appends its one output to the result buffer and to the published record, together with the events it saw; a task publishes at most once |
| `NetworkingQueue.Queue.DropResultSenders` | rust/src/networking_queue/mod.rs:145-161 | the worker's senders go away only once a `Quit` has reached the channel; afterwards an empty buffer reports `Disconnected` |
| `NetworkingQueue.PendingBounds` | rust/src/networking_queue/mod.rs:288-312 | the counter never goes below the number of undrained outcomes, nor below the number of commands the worker will never handle |
| `NetworkingQueue.QuitKeepsCounterPositive` | rust/src/networking_queue/mod.rs:263-265 | once a `Quit` has been sent, the counter is at least one forever |
| `NetworkingQueue.CounterZero` | rust/src/networking_queue/mod.rs:288-312 | the counter is zero exactly when nothing is in flight and as many outcomes are published as commands reached the channel, all of them drained; then every command's index has an outcome and no `Quit` was ever sent |
| `NetworkingQueue.ChannelSignalsDistinct` | rust/src/networking_queue/mod.rs:276-284 | two requests in the command channel never share a cancellation signal, since each `send_request` makes its own oneshot channel |
| `NetworkingQueue.CompletedSignalsDistinct` | rust/src/networking_queue/mod.rs:276-284 | every completed task belongs to a request, and two completed tasks never share a cancellation signal, so each task's race uses its own signal |
| `NetworkingQueue.PublishedAreWorkerOutputs` | rust/src/networking_queue/mod.rs:151-243 | each published outcome is the output the command loop yields for its request at that request's channel position, under any events-by-signal map that agrees with what each completed task saw |
| `NetworkingQueue.DeliveredOnce` | rust/src/networking_queue/mod.rs:299-312 | the k-th callback invocation belongs to the request at a position the worker handled, before the first `Quit`, carries that request's callback, and no other invocation belongs to the same request |

## Left out

- The tokio runtime, the worker thread itself, `block_on` and
  `executor.spawn` are concurrency plumbing. The model replaces them with
  steps on sequences: `RunSendTask`, `CompleteTask` and `DropResultSenders`.
- The HTTPS client and the HTTP exchange are network I/O in foreign
  libraries. A task's transport result and its completion time are an
  abstract input (`TransportEvent`).
- `execute_query_with_timeout` is a blocking wall-clock loop with
  `thread::sleep`, so it is not modelled. It discards every error
  `try_recv_queue` returns, `Disconnected` included.
- Real `Instant`/`Duration` arithmetic is not modelled. Times are integers,
  and the two readings of `Instant::now()` in `execute_queue_with_limit`
  are one `now`.
- The polling internals of `select2` and `timeout` are not modelled. They
  are replaced by the two tie-break rules stated above.
- Header maps, URI parsing and the `ext` header helper are library types.
  Headers are an opaque sequence and the URI is a string.
- `number_of_dns_threads` only sizes the transport's resolver, so it has
  no effect in the model.
- The tests in the source depend on the network. The scenario lemmas
  `UndisturbedSuccess`, `CancelledBeforeStart` and `ZeroTimeout` mirror
  them.
- `Stop` records the join but does not block until the worker has
  exited. The model also does not cover tasks still in flight when the
  worker's runtime goes away: every handled request may still complete.
- The `unwrap` on each result send panics when the result receiver is
  gone. The `Queue` holds that receiver for its whole life, and tasks
  outliving the `Queue` are not modelled, so in the model every send
  succeeds. `CompleteTask` requires the senders to be present because a
  task can publish only while the worker's runtime holds them.
- `number_of_pending_requests` is a `usize`. The model uses `nat` and
  does not model overflow of the increment, which needs `usize::MAX` commands.
  The decrement's underflow is proved never to happen.
- `NetworkingQueue.Queue.ExecuteQueueWithLimit`: requires the clock to be
  monotonic (`last <= now`) rather than modelling `duration_since` for an
  earlier instant.
- `NetworkingQueue.Queue.ExecuteQueueWithLimit`: each facade operation is
  one atomic step, so the exact drain count `min(buffered, limit + 1)`
  assumes no task publishes while the drain loop runs. In the code, an
  outcome published during the loop can also be drained by it.
- `NetworkingQueue.Queue.Stop`: a second `stop` is modelled as a plain
  enqueue of `Quit`. In the code, the worker's runtime has shut down after
  the first `stop`, and the `executor.spawn` that the second one makes may
  fail on the shut-down pool; that failure is not modelled.
- `NetworkingQueue.Queue.SendRequest`: a request sent after the first
  `stop` is modelled as an ordinary send, and it may still be handled and
  delivered in the model, because `Stop` does not force the worker to take
  the `Quit` first. In the code, the first `stop`'s join returns only after
  the worker has taken the `Quit`, and the late request's `executor.spawn`
  meets the same shut-down runtime as a second `stop`.
- `NetworkingQueue.Queue.TryRecvQueue`: every callback is assumed to
  return. In the code, the callback runs before the counter is
  decremented, so a panicking callback pops its outcome but leaves the
  counter one higher for good.
