/** The HTTP audit sink's background worker (crates/app/src/context.rs): events go
    through a bounded queue into a batch that is flushed when full, when the
    interval has passed, or when all senders are gone. A flush always empties the
    batch, whatever the server answers. */
module AuditWorker {
  import opened Windows

  /** What `recv_timeout` reports. */
  datatype Message<T> = Received(event: T) | TimedOut | Disconnected

  /** The sink and its history: all events recorded and all batches handed to flush. */
  datatype State<T> = State(
    queue: seq<T>, batch: seq<T>, open: bool, running: bool, recorded: seq<T>, flushed: seq<seq<T>>)

  datatype Step<T> = Record(event: T) | HangUp | Receive(message: Message<T>)

  function Initial<T>(): State<T>
  {
    State([], [], true, true, [], [])
  }

  function Capacity(batchSize: nat): nat
  {
    Max(batchSize, 1) * 2
  }

  function Flush<T>(s: State<T>): State<T>
  {
    if s.batch == [] then s else s.(batch := [], flushed := s.flushed + [s.batch])
  }

  /** A send waits for room; a receive reports an event only from the front of the
      queue, and a hang-up only when the queue is empty. */
  predicate Enabled<T(==)>(s: State<T>, step: Step<T>, batchSize: nat)
  {
    match step
    case Record(_) => s.open && s.running && |s.queue| < Capacity(batchSize)
    case HangUp => s.open
    case Receive(Received(event)) => s.running && s.queue != [] && s.queue[0] == event
    case Receive(TimedOut) => s.running
    case Receive(Disconnected) => s.running && !s.open && s.queue == []
  }

  function Apply<T(==)>(s: State<T>, step: Step<T>, batchSize: nat): State<T>
    requires Enabled(s, step, batchSize)
  {
    match step
    case Record(event) => s.(queue := s.queue + [event], recorded := s.recorded + [event])
    case HangUp => s.(open := false)
    case Receive(Received(event)) =>
      var s := s.(queue := s.queue[1..], batch := s.batch + [event]);
      if |s.batch| >= batchSize then Flush(s) else s
    case Receive(TimedOut) => Flush(s)
    case Receive(Disconnected) =>
      Flush(s.(batch := s.batch + s.queue, queue := [])).(running := false)
  }

  function Concat<T>(parts: seq<seq<T>>): seq<T>
  {
    if parts == [] then [] else Concat(parts[..|parts| - 1]) + parts[|parts| - 1]
  }

  /** Every recorded event is in a flushed batch, the current batch or the queue, in order. */
  ghost predicate Conserved<T>(s: State<T>)
  {
    s.recorded == Concat(s.flushed) + s.batch + s.queue
  }

  ghost predicate BatchesBounded<T>(s: State<T>, batchSize: nat)
  {
    && (forall i :: 0 <= i < |s.flushed| ==> 1 <= |s.flushed[i]| <= Max(batchSize, 1))
    && |s.batch| < Max(batchSize, 1)
    && |s.queue| <= Capacity(batchSize)
    && (!s.running ==> !s.open && s.batch == [] && s.queue == [])
  }

  ghost predicate Inv<T>(s: State<T>, batchSize: nat)
  {
    Conserved(s) && BatchesBounded(s, batchSize)
  }

  lemma FlushKeepsEvents<T>(s: State<T>)
    ensures Concat(Flush(s).flushed) + Flush(s).batch + s.queue == Concat(s.flushed) + s.batch + s.queue
  {
    if s.batch != [] {
      assert Flush(s).flushed[..|s.flushed|] == s.flushed;
      assert Concat(Flush(s).flushed) + [] == Concat(s.flushed) + s.batch;
    }
  }

  lemma StepInv<T>(s: State<T>, step: Step<T>, batchSize: nat)
    requires Inv(s, batchSize) && Enabled(s, step, batchSize)
    ensures Inv(Apply(s, step, batchSize), batchSize)
  {
    hide Concat;
    match step
    case Record(event) =>
      assert s.recorded + [event] == Concat(s.flushed) + s.batch + (s.queue + [event]);
    case HangUp =>
    case Receive(Received(event)) =>
      ReceiveInv(s, event, batchSize);
    case Receive(TimedOut) =>
      FlushInv(s, batchSize);
    case Receive(Disconnected) =>
      FlushInv(s, batchSize);
      assert s.(batch := s.batch + s.queue, queue := []) == s;
  }

  lemma FlushInv<T>(s: State<T>, batchSize: nat)
    requires Inv(s, batchSize)
    ensures Inv(Flush(s), batchSize) && Flush(s).batch == []
  {
    hide Concat;
    FlushKeepsEvents(s);
  }

  lemma ReceiveInv<T>(s: State<T>, event: T, batchSize: nat)
    requires Inv(s, batchSize) && Enabled(s, Receive(Received(event)), batchSize)
    ensures Inv(Apply(s, Receive(Received(event)), batchSize), batchSize)
  {
    hide Concat;
    var t := s.(queue := s.queue[1..], batch := s.batch + [event]);
    assert s.queue == [event] + t.queue;
    assert Concat(t.flushed) + t.batch + t.queue == Concat(s.flushed) + s.batch + s.queue;
    FlushKeepsEvents(t);
  }

  ghost predicate IsRun<T>(states: seq<State<T>>, steps: seq<Step<T>>, batchSize: nat)
  {
    && |states| == |steps| + 1
    && states[0] == Initial()
    && forall i :: 0 <= i < |steps| ==> Enabled(states[i], steps[i], batchSize) && states[i + 1] == Apply(states[i], steps[i], batchSize)
  }

  /** In every run the recorded events are the flushed batches, the current batch and
      the queue, in order; every flushed batch has between 1 and max(1, batch_size)
      events; and a worker that has stopped has flushed everything recorded. */
  lemma {:induction false} RunConserves<T>(states: seq<State<T>>, steps: seq<Step<T>>, batchSize: nat, k: nat)
    requires IsRun(states, steps, batchSize) && k < |states|
    ensures Inv(states[k], batchSize)
    ensures !states[k].running ==> states[k].recorded == Concat(states[k].flushed)
    decreases k
  {
    if k > 0 {
      RunConserves(states, steps, batchSize, k - 1);
      StepInv(states[k - 1], steps[k - 1], batchSize);
    }
  }

  /** The step makes the worker flush what it has, however little. */
  predicate FlushesEarly<T>(step: Step<T>)
  {
    step.Receive? && !step.message.Received?
  }

  /** An event received completes the batch or joins it. */
  lemma ReceivedExactly<T>(s: State<T>, event: T, batchSize: nat)
    requires Inv(s, batchSize) && Enabled(s, Receive(Received(event)), batchSize)
    ensures var t := Apply(s, Receive(Received(event)), batchSize);
      && s.queue == [event] + t.queue && t.recorded == s.recorded && t.open == s.open && t.running == s.running
      && if |s.batch| + 1 == Max(batchSize, 1) then t.flushed == s.flushed + [s.batch + [event]] && t.batch == []
         else t.flushed == s.flushed && t.batch == s.batch + [event]
  {
  }

  /** In every run a batch flushed with fewer than max(1, batch_size) events was
      flushed by a timeout or by the last sender going away. */
  lemma {:induction false} ShortBatchesAreEarly<T>(states: seq<State<T>>, steps: seq<Step<T>>, batchSize: nat, k: nat, i: nat)
      returns (m: nat)
    requires IsRun(states, steps, batchSize) && k < |states|
    requires i < |states[k].flushed| && |states[k].flushed[i]| < Max(batchSize, 1)
    ensures m < k && FlushesEarly(steps[m])
    ensures |states[m].flushed| == i && states[m + 1].flushed == states[m].flushed + [states[k].flushed[i]]
    decreases k
  {
    hide Inv;
    hide Apply;
    hide Enabled;
    var s, step := states[k - 1], steps[k - 1];
    RunConserves(states, steps, batchSize, k - 1);
    FlushedGrows(s, step, batchSize);
    if i < |s.flushed| {
      m := ShortBatchesAreEarly(states, steps, batchSize, k - 1, i);
    } else {
      m := k - 1;
      if step.Receive? && step.message.Received? {
        ReceivedExactly(s, step.message.event, batchSize);
      }
    }
  }

  lemma FlushedGrows<T>(s: State<T>, step: Step<T>, batchSize: nat)
    requires Inv(s, batchSize) && Enabled(s, step, batchSize)
    ensures var t := Apply(s, step, batchSize);
      || t.flushed == s.flushed
      || (step.Receive? && |t.flushed| == |s.flushed| + 1 && t.flushed == s.flushed + [t.flushed[|s.flushed|]])
  {
  }

  /** After a timeout nothing received is left unflushed. */
  lemma TimeoutFlushes<T>(s: State<T>, batchSize: nat)
    requires Inv(s, batchSize) && Enabled(s, Receive(TimedOut), batchSize)
    ensures Apply(s, Receive(TimedOut), batchSize).batch == []
    ensures Concat(Apply(s, Receive(TimedOut), batchSize).flushed) + s.queue == s.recorded
  {
    FlushKeepsEvents(s);
    assert Concat(Apply(s, Receive(TimedOut), batchSize).flushed) + [] == Concat(Apply(s, Receive(TimedOut), batchSize).flushed);
  }

  /** What becomes of a send: queued, or still waiting for room. */
  datatype Sending = Sent | Waiting

  /** A sender that waits can go on once the worker has received one event. */
  lemma WaitingEnds<T>(s: State<T>, batchSize: nat, event: T)
    requires Inv(s, batchSize) && s.open && |s.queue| == Capacity(batchSize)
    ensures Enabled(s, Receive(Received(s.queue[0])), batchSize)
    ensures Enabled(Apply(s, Receive(Received(s.queue[0])), batchSize), Record(event), batchSize)
  {
  }

  class Sink<T(==)> {
    const batchSize: nat
    var queue: seq<T>
    var batch: seq<T>
    var open: bool
    var running: bool
    ghost var recorded: seq<T>
    var flushed: seq<seq<T>>

    ghost function Model(): State<T>
      reads this
    {
      State(queue, batch, open, running, recorded, flushed)
    }

    ghost predicate Valid()
      reads this
    {
      Inv(Model(), batchSize)
    }

    constructor (batchSize: nat)
      ensures Valid() && Model() == Initial() && this.batchSize == batchSize
    {
      this.batchSize := batchSize;
      queue, batch, open, running, recorded, flushed := [], [], true, true, [], [];
    }

    /** `record`: a full queue makes the sender wait. The worker stops only after all senders
        are gone, so a sender never finds the queue closed. */
    method RecordEvent(event: T) returns (r: Sending)
      requires Valid() && open
      modifies this
      ensures Valid()
      ensures running && r == if |old(queue)| < Capacity(batchSize) then Sent else Waiting
      ensures r == Sent <==> |old(queue)| < 2 * Max(1, batchSize)
      ensures r == Sent ==> queue == old(queue) + [event] && recorded == old(recorded) + [event]
      ensures Model() == if r == Sent then Apply(old(Model()), Record(event), batchSize) else old(Model())
    {
      if |queue| >= Capacity(batchSize) {
        return Waiting;
      }
      StepInv(Model(), Record(event), batchSize);
      queue := queue + [event];
      recorded := recorded + [event];
      return Sent;
    }

    /** One turn of the worker loop. */
    method Handle(message: Message<T>)
      requires Valid() && Enabled(Model(), Receive(message), batchSize)
      modifies this
      ensures Valid() && Model() == Apply(old(Model()), Receive(message), batchSize)
      ensures match message
        case Received(event) =>
          && old(queue) == [event] + queue && running
          && (if |old(batch)| + 1 >= batchSize then flushed == old(flushed) + [old(batch) + [event]] && batch == []
              else flushed == old(flushed) && batch == old(batch) + [event])
        case TimedOut =>
          && queue == old(queue) && batch == [] && running
          && flushed == old(flushed) + if old(batch) == [] then [] else [old(batch)]
        case Disconnected =>
          && queue == old(queue) == [] && batch == [] && !running
          && flushed == old(flushed) + if old(batch) == [] then [] else [old(batch)]
    {
      StepInv(Model(), Receive(message), batchSize);
      hide Inv;
      match message
      case Received(event) =>
        queue := queue[1..];
        batch := batch + [event];
        if |batch| >= batchSize {
          FlushBatch();
        }
      case TimedOut =>
        if batch != [] {
          FlushBatch();
        }
      case Disconnected =>
        DrainQueue();
        assert batch == old(batch);
        if batch != [] {
          FlushBatch();
        }
        running := false;
    }

    method DrainQueue()
      modifies this`batch, this`queue
      ensures queue == [] && batch == old(batch) + old(queue)
    {
      while queue != []
        invariant batch + queue == old(batch) + old(queue)
        decreases |queue|
      {
        batch := batch + [queue[0]];
        queue := queue[1..];
      }
    }

    /** Hands the batch over and empties it, whether or not the server took it. */
    method FlushBatch()
      modifies this`batch, this`flushed
      ensures Model() == Flush(old(Model()))
    {
      if batch == [] {
        return;
      }
      flushed := flushed + [batch];
      batch := [];
    }
  }
}
