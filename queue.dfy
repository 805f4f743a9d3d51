/** The Queue facade, owned by the calling thread. The two channels are FIFO
    buffers, the worker thread's handle is an optional value, every callback
    invocation is appended to a delivery log, and the clock is a parameter.
    The steps the other threads take (a spawned send reaching the command
    channel, a request task publishing its outcome, the result senders going
    away) are methods of their own, so that every interleaving of them
    between the facade's operations is covered. */
module NetworkingQueue {
  import opened Requests
  import opened Worker

  /** The join handle of the worker thread. */
  datatype JoinHandle = JoinHandle

  ghost predicate Distinct(s: seq<nat>) {
    forall i, j :: 0 <= i < j < |s| ==> s[i] != s[j]
  }

  function Elements(s: seq<nat>): set<nat> {
    set x | x in s
  }

  lemma {:induction false} DistinctElements(s: seq<nat>)
    requires Distinct(s)
    ensures |Elements(s)| == |s|
  {
    if s != [] {
      assert Distinct(s[1..]) by {
        forall i, j | 0 <= i < j < |s[1..]| ensures s[1..][i] != s[1..][j] {
          assert s[1..][i] == s[i + 1] && s[1..][j] == s[j + 1];
        }
      }
      DistinctElements(s[1..]);
      assert Elements(s) == Elements(s[1..]) + {s[0]};
      assert s[0] !in Elements(s[1..]);
    }
  }

  lemma {:induction false} SetBelow(t: set<nat>, n: nat)
    requires forall x :: x in t ==> x < n
    ensures |t| <= n
  {
    if n > 0 {
      SetBelow(t - {n - 1}, n - 1);
    } else {
      assert t == {};
    }
  }

  /** A set of values below n that leaves out one of them has fewer than n elements. */
  lemma {:induction false} SetBelowExcept(t: set<nat>, n: nat, missing: nat)
    requires missing < n
    requires forall x :: x in t ==> x < n && x != missing
    ensures |t| < n
  {
    if missing == n - 1 {
      SetBelow(t, n - 1);
    } else {
      SetBelowExcept(t - {n - 1}, n - 1, missing);
    }
  }

  /** n distinct values below n take every value below n. */
  lemma Covers(s: seq<nat>, n: nat)
    requires Distinct(s) && |s| == n
    requires forall k :: 0 <= k < |s| ==> s[k] < n
    ensures forall i :: 0 <= i < n ==> i in s
  {
    forall i | 0 <= i < n ensures i in s {
      if i !in s {
        DistinctElements(s);
        forall x | x in Elements(s) ensures x < n && x != i {
          var k :| 0 <= k < |s| && s[k] == x;
        }
        SetBelowExcept(Elements(s), n, i);
        assert false;
      }
    }
  }

  /** The cancellation signals of the requests in a run of commands. */
  function SignalsOf(cmds: seq<InputCommand>): multiset<SignalId> {
    if cmds == [] then multiset{}
    else (if cmds[0].Request? then multiset{cmds[0].cancellationSignal} else multiset{}) + SignalsOf(cmds[1..])
  }

  lemma {:induction false} SignalsOfAppend(a: seq<InputCommand>, b: seq<InputCommand>)
    ensures SignalsOf(a + b) == SignalsOf(a) + SignalsOf(b)
  {
    if a == [] {
      assert a + b == b;
    } else {
      assert (a + b)[0] == a[0];
      assert (a + b)[1..] == a[1..] + b;
      SignalsOfAppend(a[1..], b);
    }
  }

  /** Moving one command from the spawned sends to the channel keeps the
      signals sent. */
  lemma MoveKeepsSignals(channel: seq<InputCommand>, spawned: seq<InputCommand>, i: nat)
    requires i < |spawned|
    ensures SignalsOf(channel + [spawned[i]]) + SignalsOf(spawned[..i] + spawned[i + 1..])
         == SignalsOf(channel) + SignalsOf(spawned)
  {
    assert spawned == spawned[..i] + [spawned[i]] + spawned[i + 1..];
    SignalsOfAppend(spawned[..i] + [spawned[i]], spawned[i + 1..]);
    SignalsOfAppend(spawned[..i], [spawned[i]]);
    SignalsOfAppend(spawned[..i], spawned[i + 1..]);
    SignalsOfAppend(channel, [spawned[i]]);
  }

  /** Sending a command adds its signal, if it has one, to the signals sent. */
  lemma SendAddsSignal(channel: seq<InputCommand>, spawned: seq<InputCommand>, command: InputCommand)
    ensures SignalsOf(channel) + SignalsOf(spawned + [command])
         == SignalsOf(channel) + SignalsOf(spawned)
            + (if command.Request? then multiset{command.cancellationSignal} else multiset{})
  {
    SignalsOfAppend(spawned, [command]);
    assert [command][1..] == [];
  }

  lemma {:induction false} SignalOfMember(cmds: seq<InputCommand>, j: nat)
    requires j < |cmds| && cmds[j].Request?
    ensures cmds[j].cancellationSignal in SignalsOf(cmds)
  {
    if j > 0 {
      SignalOfMember(cmds[1..], j - 1);
    }
  }

  /** Two requests of a run that share a signal count it twice. */
  lemma {:induction false} SharedSignalCountsTwice(cmds: seq<InputCommand>, i: nat, j: nat)
    requires i < j < |cmds| && cmds[i].Request? && cmds[j].Request?
    requires cmds[i].cancellationSignal == cmds[j].cancellationSignal
    ensures SignalsOf(cmds)[cmds[i].cancellationSignal] >= 2
  {
    if i == 0 {
      SignalOfMember(cmds[1..], j - 1);
    } else {
      SharedSignalCountsTwice(cmds[1..], i - 1, j - 1);
    }
  }

  /** Every signal of a run of commands is the signal of one of its requests. */
  lemma {:induction false} SignalHasRequest(cmds: seq<InputCommand>, x: SignalId)
    requires x in SignalsOf(cmds)
    ensures exists c :: c in cmds && c.Request? && c.cancellationSignal == x
  {
    if !(cmds[0].Request? && cmds[0].cancellationSignal == x) {
      SignalHasRequest(cmds[1..], x);
      var c :| c in cmds[1..] && c.Request? && c.cancellationSignal == x;
      assert c in cmds;
    }
  }

  /** Every request sent has its own cancellation signal, numbered below the
      count of commands sent. */
  ghost predicate FreshSignals(channel: seq<InputCommand>, spawned: seq<InputCommand>) {
    && (forall c :: c in channel + spawned && c.Request? ==> c.cancellationSignal < |channel| + |spawned|)
    && (forall x :: (SignalsOf(channel) + SignalsOf(spawned))[x] <= 1)
  }

  lemma MoveKeepsFreshSignals(channel: seq<InputCommand>, spawned: seq<InputCommand>, i: nat)
    requires i < |spawned|
    requires FreshSignals(channel, spawned)
    ensures FreshSignals(channel + [spawned[i]], spawned[..i] + spawned[i + 1..])
  {
    MoveKeepsSignals(channel, spawned, i);
  }

  /** Distinct indices below n are at most n many. */
  lemma DistinctBelow(s: seq<nat>, n: nat)
    requires Distinct(s)
    requires forall k :: 0 <= k < |s| ==> s[k] < n
    ensures |s| <= n
  {
    DistinctElements(s);
    forall x | x in Elements(s) ensures x < n {
      var k :| 0 <= k < |s| && s[k] == x;
    }
    SetBelow(Elements(s), n);
  }

  /** The rate-limit guard: a previous drain exists and no more than the delay has passed since. */
  predicate ExecutedRecently(last: Option<Instant>, delay: Duration, now: Instant) {
    last.Some? && now - last.value <= delay
  }

  function Min(a: nat, b: nat): nat {
    if a <= b then a else b
  }

  class Queue {
    var workingThread: Option<JoinHandle>
    /** Commands handed to spawned send tasks that have not yet run. */
    var inTransit: seq<InputCommand>
    /** The command channel: every command that reached it, in arrival order. */
    var commands: seq<InputCommand>
    /** The result channel's buffer. */
    var results: seq<OutputCommand>
    /** Whether every sending end of the result channel is gone. */
    var resultSendersDropped: bool
    var lastTimeExecutedWithLimit: Option<Instant>
    var numberOfPendingRequests: nat
    /** Every callback invocation, in order. */
    var deliveries: seq<Delivery>
    /** How many times the worker thread was joined. */
    var joins: nat

    /** Every outcome ever published, in publish order. */
    ghost var published: seq<OutputCommand>
    /** For each published outcome, the index in commands of its request. */
    ghost var completionOrder: seq<nat>
    /** For each published outcome, what the network and the caller did to its task. */
    ghost var completionEvents: seq<TaskEvents>

    /** Each published outcome is the output of a distinct request task that
        the worker took from the channel before any Quit. */
    ghost predicate TasksValid()
      reads this`published, this`completionOrder, this`completionEvents, this`commands
    {
      && |published| == |completionOrder| == |completionEvents|
      && Distinct(completionOrder)
      && (forall k :: 0 <= k < |completionOrder| ==> completionOrder[k] < |ProcessedCommands(commands)|)
      && (forall k :: 0 <= k < |published| ==>
            published[k] == TaskOutput(commands[completionOrder[k]], completionEvents[k]))
    }

    /** The result channel: the published outcomes not yet drained, behind the
        ones whose callbacks have run, in publish order. */
    ghost predicate ResultsValid()
      reads this`published, this`results, this`deliveries
    {
      && |deliveries| <= |published|
      && results == published[|deliveries|..]
      && deliveries == DeliveriesOf(published[..|deliveries|])
    }

    /** The counter: commands sent, Quit included, minus outcomes drained. */
    ghost predicate CounterValid()
      reads this`inTransit, this`commands, this`deliveries, this`numberOfPendingRequests
    {
      && |deliveries| <= |inTransit| + |commands|
      && numberOfPendingRequests == |inTransit| + |commands| - |deliveries|
    }

    /** The handle is taken out exactly when the thread has been joined, and
        that happens at most once. */
    ghost predicate ThreadValid()
      reads this`workingThread, this`joins
    {
      (workingThread.Some? <==> joins == 0) && joins <= 1
    }

    /** The cancellation signals of all requests sent so far, whether still in
        transit or in the channel. */
    ghost function SentSignals(): multiset<SignalId>
      reads this`inTransit, this`commands
    {
      SignalsOf(commands) + SignalsOf(inTransit)
    }

    ghost predicate SignalsValid()
      reads this`inTransit, this`commands
    {
      FreshSignals(commands, inTransit)
    }

    ghost predicate Valid()
      reads this
    {
      TasksValid() && ResultsValid() && CounterValid() && ThreadValid() && SignalsValid()
    }

    /** Queue::new: the worker thread is running, both channels are empty, the
        counter is zero and no rate-limited drain has happened. */
    constructor (numberOfDnsThreads: nat)
      ensures Valid()
      ensures workingThread == Some(JoinHandle) && joins == 0
      ensures inTransit == [] && commands == [] && results == [] && deliveries == []
      ensures !resultSendersDropped
      ensures lastTimeExecutedWithLimit == None && numberOfPendingRequests == 0
    {
      workingThread := Some(JoinHandle);
      inTransit, commands, results, deliveries := [], [], [], [];
      resultSendersDropped := false;
      lastTimeExecutedWithLimit := None;
      numberOfPendingRequests := 0;
      joins := 0;
      published, completionOrder, completionEvents := [], [], [];
    }

    /** The counter: commands sent, Quit included, minus outcomes drained. */
    function NumberOfPendingRequests(): (n: nat)
      reads this
      requires Valid()
      ensures n == |inTransit| + |commands| - |deliveries|
    {
      numberOfPendingRequests
    }

    /** Counts the command and spawns the task that sends it. */
    method SendInputCommand(command: InputCommand)
      requires Valid()
      requires command.Request? ==> command.cancellationSignal !in SentSignals()
      requires command.Request? ==> command.cancellationSignal <= |inTransit| + |commands|
      modifies this`inTransit, this`numberOfPendingRequests
      ensures Valid()
      ensures inTransit == old(inTransit) + [command]
      ensures numberOfPendingRequests == old(numberOfPendingRequests) + 1
    {
      SendAddsSignal(commands, inTransit, command);
      numberOfPendingRequests := numberOfPendingRequests + 1;
      inTransit := inTransit + [command];
    }

    /** Sends a request with a fresh cancellation channel and hands back its sending half. */
    method SendRequest(request: Request, callback: CallbackId) returns (cancellation: RequestCancellation)
      requires Valid()
      modifies this`inTransit, this`numberOfPendingRequests
      ensures Valid()
      ensures cancellation.signal == |old(inTransit)| + |old(commands)|
      ensures forall c :: c in old(inTransit) + old(commands) && c.Request? ==> c.cancellationSignal != cancellation.signal
      ensures inTransit == old(inTransit) + [InputCommand.Request(cancellation.signal, request, callback)]
      ensures numberOfPendingRequests == old(numberOfPendingRequests) + 1
    {
      var signal := |inTransit| + |commands|;
      if signal in SignalsOf(commands) {
        SignalHasRequest(commands, signal);
      }
      if signal in SignalsOf(inTransit) {
        SignalHasRequest(inTransit, signal);
      }
      SendInputCommand(InputCommand.Request(signal, request, callback));
      cancellation := RequestCancellation(signal);
    }

    /** Sends Quit, then takes the worker handle out and joins it if it was still there. */
    method Stop()
      requires Valid()
      modifies this`inTransit, this`numberOfPendingRequests, this`workingThread, this`joins
      ensures Valid()
      ensures inTransit == old(inTransit) + [Quit]
      ensures numberOfPendingRequests == old(numberOfPendingRequests) + 1
      ensures workingThread == None
      ensures joins == if old(workingThread).Some? then old(joins) + 1 else old(joins)
    {
      SendInputCommand(Quit);
      var thread := workingThread;
      workingThread := None;
      if thread.Some? {
        joins := joins + 1;
      }
    }

    /** Dropping the queue stops it. */
    method Drop()
      requires Valid()
      modifies this`inTransit, this`numberOfPendingRequests, this`workingThread, this`joins
      ensures Valid()
      ensures inTransit == old(inTransit) + [Quit]
      ensures numberOfPendingRequests == old(numberOfPendingRequests) + 1
      ensures workingThread == None
      ensures joins == if old(workingThread).Some? then old(joins) + 1 else old(joins)
    {
      Stop();
    }

    /** Pops one outcome, if there is one, and invokes its callback. */
    method TryRecvQueue() returns (r: Result<(), TryRecvError>)
      requires Valid()
      modifies this`results, this`deliveries, this`numberOfPendingRequests
      ensures Valid()
      ensures old(results) == [] ==>
                && r == Err(if resultSendersDropped then Disconnected else Empty)
                && results == old(results) && deliveries == old(deliveries)
                && numberOfPendingRequests == old(numberOfPendingRequests)
      ensures old(results) != [] ==>
                && r == Ok(())
                && results == old(results)[1..]
                && deliveries == old(deliveries) + [DeliveryOf(old(results)[0])]
                && numberOfPendingRequests == old(numberOfPendingRequests) - 1
    {
      if results == [] {
        return Err(if resultSendersDropped then Disconnected else Empty);
      }
      var output := results[0];
      results := results[1..];
      DistinctBelow(completionOrder, |ProcessedCommands(commands)|);
      assert published[..|deliveries| + 1] == published[..|deliveries|] + [output];
      deliveries := deliveries + [DeliveryOf(output)];
      numberOfPendingRequests := numberOfPendingRequests - 1;
      r := Ok(());
    }

    /** The rate-limited drain. Within the delay of the previous one it does
        nothing; otherwise it records now and drains up to limit + 1 outcomes. */
    method ExecuteQueueWithLimit(limit: nat, delayBetweenExecutions: Duration, now: Instant) returns (counter: nat)
      requires Valid()
      requires lastTimeExecutedWithLimit.Some? ==> lastTimeExecutedWithLimit.value <= now
      modifies this`results, this`deliveries, this`numberOfPendingRequests, this`lastTimeExecutedWithLimit
      ensures Valid()
      ensures ExecutedRecently(old(lastTimeExecutedWithLimit), delayBetweenExecutions, now) ==>
                && counter == 0
                && lastTimeExecutedWithLimit == old(lastTimeExecutedWithLimit)
                && results == old(results) && deliveries == old(deliveries)
                && numberOfPendingRequests == old(numberOfPendingRequests)
      ensures !ExecutedRecently(old(lastTimeExecutedWithLimit), delayBetweenExecutions, now) ==>
                && lastTimeExecutedWithLimit == Some(now)
                && counter == Min(|old(results)|, limit + 1)
                && results == old(results)[counter..]
                && deliveries == old(deliveries) + DeliveriesOf(old(results)[..counter])
                && numberOfPendingRequests == old(numberOfPendingRequests) - counter
    {
      if ExecutedRecently(lastTimeExecutedWithLimit, delayBetweenExecutions, now) {
        return 0;
      }
      lastTimeExecutedWithLimit := Some(now);
      ghost var drainedBefore, buffered, delivered := |deliveries|, results, deliveries;
      assert buffered == published[drainedBefore..];
      counter := 0;
      while counter <= limit
        invariant Valid()
        invariant counter <= limit + 1
        invariant |deliveries| == drainedBefore + counter
        invariant lastTimeExecutedWithLimit == Some(now)
      {
        var r := TryRecvQueue();
        if r.Err? {
          break;
        }
        counter := counter + 1;
      }
      DrainedPrefix(published, drainedBefore, |deliveries|);
      assert results == buffered[counter..];
      assert deliveries == delivered + DeliveriesOf(buffered[..counter]);
      assert counter == Min(|buffered|, limit + 1);
    }

    // -------------------------------------------------------------------
    // Steps taken by the other threads.
    // -------------------------------------------------------------------

    /** A spawned send task runs: its command reaches the command channel.
        These tasks run in any order. */
    method RunSendTask(i: nat)
      requires Valid()
      requires i < |inTransit|
      modifies this`inTransit, this`commands
      ensures Valid()
      ensures inTransit == old(inTransit[..i] + inTransit[i + 1..])
      ensures commands == old(commands) + [old(inTransit[i])]
    {
      ProcessedPrefix(commands, [inTransit[i]]);
      MoveKeepsFreshSignals(commands, inTransit, i);
      commands := commands + [inTransit[i]];
      inTransit := inTransit[..i] + inTransit[i + 1..];
    }

    /** The task of the request at index i of the command channel resolves and
        publishes its outcome. Only commands the worker took before a Quit have
        a task, and each task publishes once. */
    method CompleteTask(i: nat, events: TaskEvents)
      requires Valid()
      requires !resultSendersDropped
      requires i < |ProcessedCommands(commands)|
      requires i !in completionOrder
      modifies this`results, this`published, this`completionOrder, this`completionEvents
      ensures Valid()
      ensures commands[i].Request?
      ensures results == old(results) + [TaskOutput(commands[i], events)]
      ensures published == old(published) + [TaskOutput(commands[i], events)]
      ensures completionOrder == old(completionOrder) + [i]
      ensures completionEvents == old(completionEvents) + [events]
    {
      var output := TaskOutput(commands[i], events);
      results := results + [output];
      published := published + [output];
      completionOrder := completionOrder + [i];
      completionEvents := completionEvents + [events];
      assert published[..|deliveries|] == old(published)[..|deliveries|];
    }

    /** The worker's runtime is gone, and with it every sender of the result
        channel. The worker holds a sender until its loop has seen a Quit. */
    method DropResultSenders()
      requires Valid()
      requires Quit in commands
      modifies this`resultSendersDropped
      ensures Valid()
      ensures resultSendersDropped
    {
      resultSendersDropped := true;
    }
  }

  // ---------------------------------------------------------------------
  // What the invariant says about the counter.
  // ---------------------------------------------------------------------

  /** The counter never goes below the number of commands the worker will not
      handle (a Quit and everything after it) nor below the undrained outcomes. */
  lemma PendingBounds(q: Queue)
    requires q.Valid()
    ensures q.numberOfPendingRequests >= |q.inTransit| + |q.commands| - |ProcessedCommands(q.commands)|
    ensures q.numberOfPendingRequests >= |q.results|
  {
    DistinctBelow(q.completionOrder, |ProcessedCommands(q.commands)|);
  }

  /** A Quit is counted and never drained: once one has been sent, the counter
      never returns to zero. */
  lemma QuitKeepsCounterPositive(q: Queue)
    requires q.Valid()
    requires Quit in q.inTransit || Quit in q.commands
    ensures q.numberOfPendingRequests >= 1
  {
    PendingBounds(q);
    if Quit in q.commands {
      NothingAfterQuit(q.commands, []);
    }
  }

  /** The counter is zero exactly when nothing is in flight: every command has
      reached the channel and every one of them is a request whose outcome has
      been published and drained. In particular no Quit was ever sent. */
  lemma CounterZero(q: Queue)
    requires q.Valid()
    ensures q.numberOfPendingRequests == 0 <==>
              q.inTransit == [] && q.results == [] && |q.published| == |q.commands|
    ensures q.numberOfPendingRequests == 0 ==> Quit !in q.commands
    ensures q.numberOfPendingRequests == 0 ==>
              && |q.deliveries| == |q.published|
              && forall i :: 0 <= i < |q.commands| ==> i in q.completionOrder
  {
    PendingBounds(q);
    if Quit in q.commands {
      NothingAfterQuit(q.commands, []);
    }
    if q.numberOfPendingRequests == 0 {
      Covers(q.completionOrder, |q.commands|);
    }
  }

  /** No two requests in the command channel share a cancellation signal, so
      cancelling one request never reaches another's task. */
  lemma ChannelSignalsDistinct(q: Queue, i: nat, j: nat)
    requires q.Valid()
    requires i < j < |q.commands| && q.commands[i].Request? && q.commands[j].Request?
    ensures q.commands[i].cancellationSignal != q.commands[j].cancellationSignal
  {
    assert q.SentSignals()[q.commands[i].cancellationSignal] <= 1;
    if q.commands[i].cancellationSignal == q.commands[j].cancellationSignal {
      SharedSignalCountsTwice(q.commands, i, j);
      assert false;
    }
  }

  /** Completed tasks belong to requests with pairwise different signals, so
      the events read off each completion determine one map by signal. */
  lemma CompletedSignalsDistinct(q: Queue, j1: nat, j2: nat)
    requires q.Valid()
    requires j1 < |q.published| && j2 < |q.published| && j1 != j2
    ensures q.commands[q.completionOrder[j1]].Request? && q.commands[q.completionOrder[j2]].Request?
    ensures q.commands[q.completionOrder[j1]].cancellationSignal != q.commands[q.completionOrder[j2]].cancellationSignal
  {
    var i1, i2 := q.completionOrder[j1], q.completionOrder[j2];
    assert ProcessedCommands(q.commands)[i1] == q.commands[i1];
    assert ProcessedCommands(q.commands)[i2] == q.commands[i2];
    if i1 < i2 {
      ChannelSignalsDistinct(q, i1, i2);
    } else {
      ChannelSignalsDistinct(q, i2, i1);
    }
  }

  /** Each published outcome is what the worker's command loop yields for its
      request, under any assignment of events by signal that agrees with the
      events each completed task saw. */
  lemma PublishedAreWorkerOutputs(q: Queue, events: SignalId -> TaskEvents, k: nat)
    requires q.Valid()
    requires k < |q.published|
    requires forall j :: 0 <= j < |q.published| && q.commands[q.completionOrder[j]].Request? ==>
               events(q.commands[q.completionOrder[j]].cancellationSignal) == q.completionEvents[j]
    ensures q.completionOrder[k] < |WorkerOutputs(q.commands, events)|
    ensures q.published[k] == WorkerOutputs(q.commands, events)[q.completionOrder[k]]
  {
    WorkerOutputsSpec(q.commands, [], events);
    assert ProcessedCommands(q.commands)[q.completionOrder[k]] == q.commands[q.completionOrder[k]];
  }

  /** Each request's callback is invoked at most once: the k-th invocation is
      for the request at completionOrder[k], and those indices are distinct. */
  lemma DeliveredOnce(q: Queue, k: nat)
    requires q.Valid()
    requires k < |q.deliveries|
    ensures q.completionOrder[k] < |ProcessedCommands(q.commands)|
    ensures q.completionOrder[k] < |q.commands| && q.commands[q.completionOrder[k]].Request?
    ensures q.deliveries[k].callback == q.commands[q.completionOrder[k]].callback
    ensures forall j :: 0 <= j < |q.deliveries| && j != k ==> q.completionOrder[j] != q.completionOrder[k]
  {
  }
}
