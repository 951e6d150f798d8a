/** The deletion queue: producers push deletion tasks into a bounded channel; a single
    consumer loop moves them into a buffer and, on every timer tick and on every
    cancellation signal, hands the whole buffer to the store's DoDeleteURLTasks.

    The channel is the sequence `pending` of at most `capacity` tasks; the loop is a
    sequence of events, one per select. The store and the logger are outside the
    queue: `storeCalls` lists the argument of every DoDeleteURLTasks call, each call's
    answer is part of the event that triggers it, and `logs` lists the logger's lines. */
module DeleteQueue {
  import opened Domain

  /** What the queue tells its logger: a success count, or an error's message. */
  datatype LogLine = Done(count: nat) | Failed(err: Error)

  /** What the consumer's select receives: a task on the channel, a timer tick or the
      cancellation signal. The last two carry the store's answer to the flush. */
  datatype Event = TaskArrived | Tick(storeReply: Option<Error>) | Cancelled(storeReply: Option<Error>)

  datatype QueueState = QueueState(
    pending: seq<DeleteURLsTask>,
    tasks: seq<DeleteURLsTask>,
    storeCalls: seq<seq<DeleteURLsTask>>,
    logs: seq<LogLine>)

  /** doDeleteTasks: an empty buffer returns without calling the store; otherwise
      the store gets the whole buffer once, a failure is returned as it is, and a
      success is logged. The buffer is left as it was in every case: the
      reassignment after a success, `q.tasks = q.tasks[0:]`, keeps every element. */
  function Flush(s: QueueState, storeReply: Option<Error>): (r: (QueueState, Option<Error>))
    ensures r.0.tasks == s.tasks && r.0.pending == s.pending
    ensures r.1 == if s.tasks == [] then None else storeReply
    ensures r.0.storeCalls == s.storeCalls + if s.tasks == [] then [] else [s.tasks]
    ensures r.0.logs == s.logs + if s.tasks != [] && storeReply == None then [Done(|s.tasks|)] else []
  {
    if |s.tasks| == 0 then
      (s, None)
    else
      var called := s.(storeCalls := s.storeCalls + [s.tasks]);
      if storeReply.Some? then
        (called, storeReply)
      else
        var logged := called.(logs := called.logs + [Done(|s.tasks|)]);
        (logged.(tasks := logged.tasks[0..]), None)
  }

  /** A flush whose error, if any, is logged: the tick and cancellation branches. A
      non-empty buffer costs exactly one store call and one log line, the success
      count or the store's error; an empty one costs neither. */
  function FlushAndLog(s: QueueState, storeReply: Option<Error>): (r: QueueState)
    ensures r.tasks == s.tasks && r.pending == s.pending
    ensures r.storeCalls == s.storeCalls + if s.tasks == [] then [] else [s.tasks]
    ensures r.logs == s.logs + if s.tasks == [] then []
                               else if storeReply.Some? then [Failed(storeReply.value)]
                               else [Done(|s.tasks|)]
  {
    var (flushed, err) := Flush(s, storeReply);
    if err.Some? then flushed.(logs := flushed.logs + [Failed(err.value)]) else flushed
  }

  /** One iteration of Start's loop. Neither the tick nor the cancellation branch
      leaves the loop; a task event can only be selected when one is pending. A task
      event moves the head of the channel to the end of the buffer; no event drops a
      task, a store call or a log line. */
  function Step(s: QueueState, e: Event): (r: QueueState)
    ensures s.tasks + s.pending == r.tasks + r.pending
    ensures s.tasks <= r.tasks && s.storeCalls <= r.storeCalls && s.logs <= r.logs
    ensures e == TaskArrived && s.pending != [] ==> r.tasks == s.tasks + [s.pending[0]]
  {
    match e
    case TaskArrived =>
      if s.pending == [] then s
      else
        assert s.pending == [s.pending[0]] + s.pending[1..];
        s.(pending := s.pending[1..], tasks := s.tasks + [s.pending[0]])
    case Tick(reply) => FlushAndLog(s, reply)
    case Cancelled(reply) => FlushAndLog(s, reply)
  }

  /** Start's loop over a finite run of events. The buffer only ever grows, and tasks
      move from the channel to its end in order; the store sees a call only ever added
      after the earlier ones, and the logger a line only after the earlier ones. */
  function Run(s: QueueState, events: seq<Event>): (r: QueueState)
    ensures s.tasks + s.pending == r.tasks + r.pending
    ensures s.tasks <= r.tasks && s.storeCalls <= r.storeCalls && s.logs <= r.logs
    decreases |events|
  {
    if events == [] then s else Run(Step(s, events[0]), events[1..])
  }

  /** Every store call is a prefix of the buffer, and each call is a prefix of every
      later one: a flush re-submits everything submitted before. */
  ghost predicate CallsNested(s: QueueState)
  {
    && (forall i :: 0 <= i < |s.storeCalls| ==> s.storeCalls[i] <= s.tasks)
    && (forall i, j :: 0 <= i < j < |s.storeCalls| ==> s.storeCalls[i] <= s.storeCalls[j])
  }

  lemma StepKeepsCallsNested(s: QueueState, e: Event)
    requires CallsNested(s)
    ensures CallsNested(Step(s, e))
  {
    var r := Step(s, e);
    if e == TaskArrived && s.pending != [] {
      forall i | 0 <= i < |r.storeCalls| ensures r.storeCalls[i] <= r.tasks {
        assert s.storeCalls[i] <= s.tasks;
      }
    }
  }

  lemma {:induction false} RunKeepsCallsNested(s: QueueState, events: seq<Event>)
    requires CallsNested(s)
    ensures CallsNested(Run(s, events))
    decreases |events|
  {
    if events != [] {
      StepKeepsCallsNested(s, events[0]);
      RunKeepsCallsNested(Step(s, events[0]), events[1..]);
    }
  }

  /** `n` task events in a row. */
  function Arrivals(n: nat): (r: seq<Event>)
    ensures |r| == n && forall i :: 0 <= i < n ==> r[i] == TaskArrived
  {
    seq(n, _ => TaskArrived)
  }

  lemma {:induction false} RunAppend(s: QueueState, a: seq<Event>, b: seq<Event>)
    ensures Run(s, a + b) == Run(Run(s, a), b)
    decreases |a|
  {
    if a != [] {
      assert (a + b)[0] == a[0] && (a + b)[1..] == a[1..] + b;
      RunAppend(Step(s, a[0]), a[1..], b);
    } else {
      assert a + b == b;
    }
  }

  /** `n` task events move the first `n` pending tasks to the end of the buffer,
      without any store call. */
  lemma {:induction false} ReceiveTasks(s: QueueState, n: nat)
    requires n <= |s.pending|
    ensures Run(s, Arrivals(n)) == s.(pending := s.pending[n..], tasks := s.tasks + s.pending[..n])
    decreases n
  {
    if n > 0 {
      var s1 := Step(s, TaskArrived);
      assert Arrivals(n)[0] == TaskArrived && Arrivals(n)[1..] == Arrivals(n - 1);
      ReceiveTasks(s1, n - 1);
      assert s1.pending[n - 1..] == s.pending[n..];
      assert s.tasks + s.pending[..n] == s.tasks + [s.pending[0]] + s.pending[1..][..n - 1];
    } else {
      assert s.pending[0..] == s.pending && s.tasks + s.pending[..0] == s.tasks;
    }
  }

  /** Queue batching: K pushed tasks, received by the consumer and followed by one tick,
      reach the store in exactly one call carrying all K in push order. */
  lemma OneTickFlushesAll(pushed: seq<DeleteURLsTask>, reply: Option<Error>)
    requires pushed != []
    ensures var r := Run(QueueState(pushed, [], [], []), Arrivals(|pushed|) + [Tick(reply)]);
            r.storeCalls == [pushed] && r.pending == []
  {
    var s := QueueState(pushed, [], [], []);
    RunAppend(s, Arrivals(|pushed|), [Tick(reply)]);
    ReceiveTasks(s, |pushed|);
    assert [] + pushed[..|pushed|] == pushed;
  }

  /** A tick with an empty buffer calls nothing and changes nothing. */
  lemma EmptyTickIsIdle(s: QueueState, reply: Option<Error>)
    requires s.tasks == []
    ensures Step(s, Tick(reply)) == s && Step(s, Cancelled(reply)) == s
  {
  }

  /** Graceful shutdown: every task buffered when cancellation arrives is in the
      store call that cancellation makes, and the loop still accepts tasks after it. */
  lemma CancellationFlushesBuffer(s: QueueState, reply: Option<Error>)
    requires s.tasks != []
    ensures Step(s, Cancelled(reply)).storeCalls == s.storeCalls + [s.tasks]
    ensures s.pending != [] ==>
              Step(Step(s, Cancelled(reply)), TaskArrived).tasks == s.tasks + [s.pending[0]]
  {
  }

  /** Two successful ticks with no task in between submit the same batch twice. */
  lemma {:induction false} SuccessfulTicksResubmit(s: QueueState)
    requires s.tasks != []
    ensures Run(s, [Tick(None), Tick(None)]).storeCalls == s.storeCalls + [s.tasks, s.tasks]
  {
    var s1 := Step(s, Tick(None));
    assert s1.tasks == s.tasks;
    assert [Tick(None), Tick(None)][1..] == [Tick(None)];
    assert Run(s, [Tick(None), Tick(None)]) == Run(s1, [Tick(None)]);
  }

  class DeleteURLQueue {
    const capacity: nat
    var pending: seq<DeleteURLsTask>
    var tasks: seq<DeleteURLsTask>
    var storeCalls: seq<seq<DeleteURLsTask>>
    var logs: seq<LogLine>

    ghost predicate Valid()
      reads this
    {
      |pending| <= capacity
    }

    function State(): QueueState
      reads this
    {
      QueueState(pending, tasks, storeCalls, logs)
    }

    /** NewDeleteURLQueue: a channel with room for `maxWorker` tasks and an empty buffer. */
    constructor (maxWorker: nat)
      ensures Valid() && capacity == maxWorker
      ensures State() == QueueState([], [], [], [])
    {
      capacity := maxWorker;
      pending, tasks, storeCalls, logs := [], [], [], [];
    }

    /** Push: a send on the channel. When the channel is full the sender would block
        until the consumer receives; here the send is then refused and nothing changes. */
    method Push(task: DeleteURLsTask) returns (sent: bool)
      requires Valid()
      modifies this`pending
      ensures Valid()
      ensures sent <==> |old(pending)| < capacity
      ensures pending == if sent then old(pending) + [task] else old(pending)
    {
      sent := |pending| < capacity;
      if sent {
        pending := pending + [task];
      }
    }

    /** doDeleteTasks, with the store's answer to its call as a parameter. */
    method DoDeleteTasks(storeReply: Option<Error>) returns (err: Option<Error>)
      modifies this`tasks, this`storeCalls, this`logs
      ensures (State(), err) == Flush(old(State()), storeReply)
    {
      if |tasks| == 0 {
        return None;
      }
      storeCalls := storeCalls + [tasks];
      if storeReply.Some? {
        return storeReply;
      }
      logs := logs + [Done(|tasks|)];
      tasks := tasks[0..];
      return None;
    }

    /** One select of Start's loop. */
    method Select(e: Event)
      requires Valid()
      modifies this`pending, this`tasks, this`storeCalls, this`logs
      ensures Valid()
      ensures State() == Step(old(State()), e)
    {
      match e
      case TaskArrived =>
        if pending != [] {
          var task := pending[0];
          pending := pending[1..];
          tasks := tasks + [task];
        }
      case Tick(reply) =>
        var err := DoDeleteTasks(reply);
        if err.Some? {
          logs := logs + [Failed(err.value)];
        }
      case Cancelled(reply) =>
        var err := DoDeleteTasks(reply);
        if err.Some? {
          logs := logs + [Failed(err.value)];
        }
    }

    /** Start's loop, over the events that arrive; nothing but the end of this run
        of events ends it. */
    method Start(events: seq<Event>)
      requires Valid()
      modifies this`pending, this`tasks, this`storeCalls, this`logs
      ensures Valid()
      ensures State() == Run(old(State()), events)
    {
      var i := 0;
      while i < |events|
        invariant 0 <= i <= |events| && Valid()
        invariant Run(old(State()), events) == Run(State(), events[i..])
      {
        assert events[i..][0] == events[i] && events[i..][1..] == events[i + 1..];
        Select(events[i]);
        i := i + 1;
      }
      assert events[i..] == [];
    }
  }
}
