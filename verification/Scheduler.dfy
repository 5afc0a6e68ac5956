/** The conversion scheduler as a state machine over its atomic steps: enqueuers, workers and shutdown. */
module Scheduler {
  import opened Bytes

  type Oid = Hash

  /** A call of try_enqueue between its atomic steps. */
  datatype Enqueuer =
    | Idle
    | Checked(oid: Oid)                 // found the scheduler open
    | Inserted(oid: Oid)                // added the OID to the tracked set
    | Locked(oid: Oid)                  // holds the lock of the sender
    | Refused(oid: Oid, holding: bool)  // about to take the OID out of the tracked set again
  {
    /** Whether the OID is held, as a count. */
    function Holds(o: Oid): nat { if (Inserted? || Locked? || Refused?) && oid == o then 1 else 0 }

    predicate HoldsLock() { Locked? || (Refused? && holding) }
  }

  datatype Worker =
    | Waiting
    | Running(oid: Oid)    // converting
    | Finishing(oid: Oid)  // done or cancelled, about to take the OID out of the tracked set
    | Aborted(oid: Oid)    // killed while converting
    | Stopped
  {
    function Holds(o: Oid): nat { if (Running? || Finishing? || Aborted?) && oid == o then 1 else 0 }

    predicate Ended() { Aborted? || Stopped? }

    predicate Working() { Running? || Finishing? }
  }

  datatype Shutdown = Open | Closing | Taken | Joining | Cleared

  /** `accepted`, `received` and `finished` are histories: what was sent, taken from the channel and completed. */
  datatype State = State(
    capacity: nat,
    tracked: set<Oid>, channel: seq<Oid>, sender: bool, lock: Option<nat>,
    enqueuers: seq<Enqueuer>, workers: seq<Worker>, shutdown: Shutdown,
    accepted: seq<Oid>, received: seq<Oid>, finished: multiset<Oid>)
  {
    predicate Closed() { !shutdown.Open? }

    predicate Cancelled() { shutdown.Joining? || shutdown.Cleared? }

    predicate AllEnded() { forall w | 0 <= w < |workers| :: workers[w].Ended() }
  }

  /** Any number of callers; a scheduler with no worker or no queue is refused. */
  function Initial(callers: nat, concurrency: nat, capacity: nat): Result<State> {
    if concurrency == 0 || capacity == 0 then Err
    else Ok(State(capacity, {}, [], true, None, seq(callers, _ => Idle), seq(concurrency, _ => Waiting), Open,
                  [], [], multiset{}))
  }

  datatype Action =
    | Begin(caller: nat, oid: Oid)
    | Insert(caller: nat)
    | TryLock(caller: nat, behind: bool)  // `behind`: a waiter is queued for the lock
    | Send(caller: nat)
    | Withdraw(caller: nat)
    | Receive(worker: nat)
    | Complete(worker: nat)
    | Release(worker: nat)
    | Exit(worker: nat)
    | Abort(worker: nat)
    | Close
    | TakeSender
    | Cancel
    | Clear

  predicate Enabled(s: State, a: Action) {
    match a
    case Begin(i, _) => i < |s.enqueuers| && s.enqueuers[i].Idle?
    case Insert(i) => i < |s.enqueuers| && s.enqueuers[i].Checked?
    case TryLock(i, behind) => i < |s.enqueuers| && s.enqueuers[i].Inserted? && (behind ==> s.shutdown.Closing?)
    case Send(i) => i < |s.enqueuers| && s.enqueuers[i].Locked?
    case Withdraw(i) => i < |s.enqueuers| && s.enqueuers[i].Refused?
    case Receive(w) => w < |s.workers| && s.workers[w].Waiting? && s.channel != []
    case Complete(w) => w < |s.workers| && s.workers[w].Running?
    case Release(w) => w < |s.workers| && s.workers[w].Finishing?
    case Exit(w) => w < |s.workers| && s.workers[w].Waiting? && (s.Cancelled() || (!s.sender && s.channel == []))
    case Abort(w) => w < |s.workers| && s.shutdown.Joining? && (s.workers[w].Waiting? || s.workers[w].Running?)
    case Close => s.shutdown.Open?
    case TakeSender => s.shutdown.Closing? && s.lock.None?
    case Cancel => s.shutdown.Taken?
    case Clear => s.shutdown.Joining? && s.AllEnded()
  }

  function SetEnqueuer(s: State, i: nat, e: Enqueuer): State
    requires i < |s.enqueuers|
  {
    s.(enqueuers := s.enqueuers[i := e])
  }

  function SetWorker(s: State, w: nat, p: Worker): State
    requires w < |s.workers|
  {
    s.(workers := s.workers[w := p])
  }

  /** A send fails when the sender is gone, the channel is full or every worker has ended. */
  predicate CanSend(s: State) { s.sender && |s.channel| < s.capacity && !s.AllEnded() }

  function EnqueueStep(s: State, a: Action): State
    requires Enabled(s, a) && (a.Begin? || a.Insert? || a.TryLock? || a.Send? || a.Withdraw?)
  {
    match a
    case Begin(i, oid) => if s.Closed() then s else SetEnqueuer(s, i, Checked(oid))
    case Insert(i) =>
      var oid := s.enqueuers[i].oid;
      if oid in s.tracked then SetEnqueuer(s, i, Idle)
      else SetEnqueuer(s, i, Inserted(oid)).(tracked := s.tracked + {oid})
    case TryLock(i, behind) =>
      var oid := s.enqueuers[i].oid;
      if s.lock.Some? || behind then SetEnqueuer(s, i, Refused(oid, false))
      else SetEnqueuer(s, i, Locked(oid)).(lock := Some(i))
    case Send(i) =>
      var oid := s.enqueuers[i].oid;
      if CanSend(s) then
        SetEnqueuer(s, i, Idle).(lock := None, channel := s.channel + [oid], accepted := s.accepted + [oid])
      else SetEnqueuer(s, i, Refused(oid, true))
    case Withdraw(i) =>
      var e := s.enqueuers[i];
      SetEnqueuer(s, i, Idle).(tracked := s.tracked - {e.oid}, lock := if e.holding then None else s.lock)
  }

  function WorkerStep(s: State, a: Action): State
    requires Enabled(s, a) && (a.Receive? || a.Complete? || a.Release? || a.Exit? || a.Abort?)
  {
    match a
    case Receive(w) =>
      var oid := s.channel[0];
      SetWorker(s, w, Running(oid)).(channel := s.channel[1..], received := s.received + [oid])
    case Complete(w) => SetWorker(s, w, Finishing(s.workers[w].oid))
    case Release(w) =>
      var oid := s.workers[w].oid;
      SetWorker(s, w, Waiting).(tracked := s.tracked - {oid}, finished := s.finished + multiset{oid})
    case Exit(w) => SetWorker(s, w, Stopped)
    case Abort(w) => SetWorker(s, w, if s.workers[w].Running? then Aborted(s.workers[w].oid) else Stopped)
  }

  function ShutdownStep(s: State, a: Action): State
    requires Enabled(s, a) && (a.Close? || a.TakeSender? || a.Cancel? || a.Clear?)
  {
    match a
    case Close => s.(shutdown := Closing)
    case TakeSender => s.(sender := false, shutdown := Taken)
    case Cancel => s.(shutdown := Joining)
    case Clear => s.(tracked := {}, shutdown := Cleared)
  }

  function Apply(s: State, a: Action): State
    requires Enabled(s, a)
  {
    if a.Begin? || a.Insert? || a.TryLock? || a.Send? || a.Withdraw? then EnqueueStep(s, a)
    else if a.Receive? || a.Complete? || a.Release? || a.Exit? || a.Abort? then WorkerStep(s, a)
    else ShutdownStep(s, a)
  }

  // ----- how often an OID is held -----

  function EnqueuersHold(es: seq<Enqueuer>, o: Oid): nat {
    if es == [] then 0 else es[0].Holds(o) + EnqueuersHold(es[1..], o)
  }

  function WorkersHold(ws: seq<Worker>, o: Oid): nat {
    if ws == [] then 0 else ws[0].Holds(o) + WorkersHold(ws[1..], o)
  }

  function Queued(channel: seq<Oid>, o: Oid): nat { multiset(channel)[o] }

  /** How often the OID is held by callers in flight, by the channel and by the workers. */
  function Held(s: State, o: Oid): nat {
    EnqueuersHold(s.enqueuers, o) + Queued(s.channel, o) + WorkersHold(s.workers, o)
  }

  lemma {:induction false} EnqueuersHoldUpdate(es: seq<Enqueuer>, i: nat, e: Enqueuer, o: Oid)
    requires i < |es|
    ensures EnqueuersHold(es[i := e], o) + es[i].Holds(o) == EnqueuersHold(es, o) + e.Holds(o)
  {
    hide Enqueuer.Holds;
    if i == 0 {
      assert es[0 := e][1..] == es[1..];
    } else {
      EnqueuersHoldUpdate(es[1..], i - 1, e, o);
      assert es[i := e][1..] == es[1..][i - 1 := e];
    }
  }

  lemma {:induction false} WorkersHoldUpdate(ws: seq<Worker>, w: nat, p: Worker, o: Oid)
    requires w < |ws|
    ensures WorkersHold(ws[w := p], o) + ws[w].Holds(o) == WorkersHold(ws, o) + p.Holds(o)
  {
    hide Worker.Holds;
    if w == 0 {
      assert ws[0 := p][1..] == ws[1..];
    } else {
      WorkersHoldUpdate(ws[1..], w - 1, p, o);
      assert ws[w := p][1..] == ws[1..][w - 1 := p];
    }
  }

  lemma QueuedSnoc(channel: seq<Oid>, x: Oid, o: Oid)
    ensures Queued(channel + [x], o) == Queued(channel, o) + if x == o then 1 else 0
  {
  }

  lemma QueuedTail(channel: seq<Oid>, o: Oid)
    requires channel != []
    ensures Queued(channel, o) == Queued(channel[1..], o) + if channel[0] == o then 1 else 0
  {
    assert channel == [channel[0]] + channel[1..];
  }

  // ----- invariant -----

  /** Until the set is cleared, the OID is held once if it is tracked, and not at all otherwise. */
  ghost predicate TrackedAt(s: State, o: Oid) {
    !s.shutdown.Cleared? ==> Held(s, o) == if o in s.tracked then 1 else 0
  }

  ghost predicate LockOk(s: State) {
    forall i | 0 <= i < |s.enqueuers| :: s.enqueuers[i].HoldsLock() <==> s.lock == Some(i)
  }

  /**
   * The sender is there exactly until shutdown takes it, and until then every worker lives; after the clear all have
   * ended.
   */
  ghost predicate PhasesOk(s: State) {
    && (s.sender <==> s.shutdown.Open? || s.shutdown.Closing?)
    && (s.shutdown.Cleared? ==> s.AllEnded())
    && (s.sender ==> forall w | 0 <= w < |s.workers| :: !s.workers[w].Ended())
  }

  /** First in, first out: what was accepted has been received or is still queued. */
  ghost predicate QueueOk(s: State) { |s.channel| <= s.capacity && s.accepted == s.received + s.channel }

  /** What was received is in hand or finished. */
  ghost predicate ReceivedAt(s: State, o: Oid) { Queued(s.received, o) == WorkersHold(s.workers, o) + s.finished[o] }

  ghost predicate Inv(s: State) {
    && LockOk(s) && PhasesOk(s) && QueueOk(s)
    && (forall o: Oid :: TrackedAt(s, o)) && (forall o: Oid :: ReceivedAt(s, o))
  }

  lemma EnqueueKeepsTracked(s: State, a: Action, o: Oid)
    requires TrackedAt(s, o) && Enabled(s, a) && (a.Begin? || a.Insert? || a.TryLock? || a.Send? || a.Withdraw?)
    ensures TrackedAt(EnqueueStep(s, a), o)
  {
    hide EnqueuersHold, WorkersHold, CanSend, Queued;
    var i := a.caller;
    var s' := EnqueueStep(s, a);
    assert s.enqueuers[i := s.enqueuers[i]] == s.enqueuers;
    EnqueuersHoldUpdate(s.enqueuers, i, s'.enqueuers[i], o);
    if a.Send? {
      QueuedSnoc(s.channel, s.enqueuers[i].oid, o);
    }
  }

  lemma WorkerKeepsTracked(s: State, a: Action, o: Oid)
    requires TrackedAt(s, o) && Enabled(s, a) && (a.Receive? || a.Complete? || a.Release? || a.Exit? || a.Abort?)
    ensures TrackedAt(WorkerStep(s, a), o)
  {
    hide EnqueuersHold, WorkersHold, Queued;
    WorkersHoldUpdate(s.workers, a.worker, WorkerStep(s, a).workers[a.worker], o);
    if a.Receive? {
      QueuedTail(s.channel, o);
    }
  }

  lemma WorkerKeepsReceived(s: State, a: Action, o: Oid)
    requires ReceivedAt(s, o) && Enabled(s, a) && (a.Receive? || a.Complete? || a.Release? || a.Exit? || a.Abort?)
    ensures ReceivedAt(WorkerStep(s, a), o)
  {
    hide WorkersHold, Queued;
    WorkersHoldUpdate(s.workers, a.worker, WorkerStep(s, a).workers[a.worker], o);
    if a.Receive? {
      QueuedSnoc(s.received, s.channel[0], o);
    }
  }

  lemma EnqueueKeepsRest(s: State, a: Action)
    requires Inv(s) && Enabled(s, a) && (a.Begin? || a.Insert? || a.TryLock? || a.Send? || a.Withdraw?)
    ensures PhasesOk(EnqueueStep(s, a)) && QueueOk(EnqueueStep(s, a))
    ensures forall o: Oid :: ReceivedAt(s, o) ==> ReceivedAt(EnqueueStep(s, a), o)
  {
    hide TrackedAt, WorkersHold, LockOk;
    Assoc(s.received, s.channel, if a.Send? then [s.enqueuers[a.caller].oid] else []);
  }

  lemma EnqueueKeepsLock(s: State, a: Action)
    requires LockOk(s) && Enabled(s, a) && (a.Begin? || a.Insert? || a.TryLock? || a.Send? || a.Withdraw?)
    ensures LockOk(EnqueueStep(s, a))
  {
    hide CanSend;
    assert s.enqueuers[a.caller].HoldsLock() <==> s.lock == Some(a.caller);
  }

  lemma WorkerKeepsRest(s: State, a: Action)
    requires Inv(s) && Enabled(s, a) && (a.Receive? || a.Complete? || a.Release? || a.Exit? || a.Abort?)
    ensures LockOk(WorkerStep(s, a)) && PhasesOk(WorkerStep(s, a)) && QueueOk(WorkerStep(s, a))
  {
    hide TrackedAt, ReceivedAt, LockOk;
    LockUnchanged(s, WorkerStep(s, a));
    if a.Receive? {
      assert s.channel == [s.channel[0]] + s.channel[1..];
      Assoc(s.received, [s.channel[0]], s.channel[1..]);
    }
  }

  lemma LockUnchanged(s: State, s': State)
    requires LockOk(s) && s'.lock == s.lock && s'.enqueuers == s.enqueuers
    ensures LockOk(s')
  {
  }

  /** Every step keeps the invariant. */
  lemma StepKeepsInv(s: State, a: Action)
    requires Inv(s) && Enabled(s, a)
    ensures Inv(Apply(s, a))
  {
    hide LockOk, PhasesOk, QueueOk, TrackedAt, ReceivedAt, EnqueueStep, WorkerStep, ShutdownStep;
    if a.Begin? || a.Insert? || a.TryLock? || a.Send? || a.Withdraw? {
      EnqueueKeepsRest(s, a);
      EnqueueKeepsLock(s, a);
      forall o: Oid ensures TrackedAt(Apply(s, a), o) { EnqueueKeepsTracked(s, a, o); }
    } else if a.Receive? || a.Complete? || a.Release? || a.Exit? || a.Abort? {
      WorkerKeepsRest(s, a);
      forall o: Oid ensures TrackedAt(Apply(s, a), o) { WorkerKeepsTracked(s, a, o); }
      forall o: Oid ensures ReceivedAt(Apply(s, a), o) { WorkerKeepsReceived(s, a, o); }
    } else {
      ShutdownKeepsInv(s, a);
    }
  }

  lemma ShutdownKeepsInv(s: State, a: Action)
    requires Inv(s) && Enabled(s, a) && (a.Close? || a.TakeSender? || a.Cancel? || a.Clear?)
    ensures Inv(ShutdownStep(s, a))
  {
    hide EnqueuersHold, WorkersHold, Queued;
    forall o: Oid
      ensures TrackedAt(ShutdownStep(s, a), o) && ReceivedAt(ShutdownStep(s, a), o)
    {
      assert TrackedAt(s, o) && ReceivedAt(s, o);
    }
  }

  lemma {:induction false} NothingHeld(callers: nat, concurrency: nat, o: Oid)
    ensures EnqueuersHold(seq(callers, _ => Idle), o) == 0
    ensures WorkersHold(seq(concurrency, _ => Waiting), o) == 0
    decreases callers + concurrency
  {
    if callers > 0 {
      NothingHeld(callers - 1, concurrency, o);
      assert seq(callers, _ => Idle)[1..] == seq(callers - 1, _ => Idle);
    } else if concurrency > 0 {
      NothingHeld(callers, concurrency - 1, o);
      assert seq(concurrency, _ => Waiting)[1..] == seq(concurrency - 1, _ => Waiting);
    }
  }

  lemma InitialInv(callers: nat, concurrency: nat, capacity: nat)
    requires Initial(callers, concurrency, capacity).Ok?
    ensures Inv(Initial(callers, concurrency, capacity).value)
  {
    hide EnqueuersHold, WorkersHold;
    var s := Initial(callers, concurrency, capacity).value;
    forall o: Oid
      ensures TrackedAt(s, o) && ReceivedAt(s, o)
    {
      NothingHeld(callers, concurrency, o);
    }
  }

  // ----- runs -----

  /** `states` is a run: it starts initially and each state follows by an enabled step. */
  ghost predicate IsRun(callers: nat, concurrency: nat, capacity: nat, states: seq<State>, actions: seq<Action>) {
    && |states| == |actions| + 1
    && Initial(callers, concurrency, capacity) == Ok(states[0])
    && forall k | 0 <= k < |actions| :: Enabled(states[k], actions[k]) && states[k + 1] == Apply(states[k], actions[k])
  }

  lemma {:induction false} RunKeepsInv(callers: nat, concurrency: nat, capacity: nat, states: seq<State>,
                                       actions: seq<Action>, k: nat)
    requires IsRun(callers, concurrency, capacity, states, actions) && k < |states|
    ensures Inv(states[k]) && |states[k].workers| == concurrency && states[k].capacity == capacity
  {
    hide Inv, Apply, Enabled;
    if k == 0 {
      InitialInv(callers, concurrency, capacity);
    } else {
      RunKeepsInv(callers, concurrency, capacity, states, actions, k - 1);
      StepKeepsInv(states[k - 1], actions[k - 1]);
      StepKeepsLimits(states[k - 1], actions[k - 1]);
    }
  }

  lemma StepKeepsLimits(s: State, a: Action)
    requires Enabled(s, a)
    ensures |Apply(s, a).workers| == |s.workers| && Apply(s, a).capacity == s.capacity
    ensures !s.sender ==> !Apply(s, a).sender && Apply(s, a).accepted == s.accepted
  {
  }

  lemma {:induction false} WorkerHeld(ws: seq<Worker>, w: nat, o: Oid)
    requires w < |ws| && ws[w].Holds(o) == 1
    ensures WorkersHold(ws, o) >= 1
  {
    if w > 0 {
      WorkerHeld(ws[1..], w - 1, o);
    }
  }

  lemma {:induction false} TwoWorkersHeld(ws: seq<Worker>, v: nat, w: nat, o: Oid)
    requires v < w < |ws| && ws[v].Holds(o) == 1 && ws[w].Holds(o) == 1
    ensures WorkersHold(ws, o) >= 2
  {
    if v > 0 {
      TwoWorkersHeld(ws[1..], v - 1, w - 1, o);
    } else {
      WorkerHeld(ws[1..], w - 1, o);
    }
  }

  /** In every reachable state no OID is being converted by two workers, and none that is converted is queued too. */
  lemma NoDoubleConversion(callers: nat, concurrency: nat, capacity: nat, states: seq<State>, actions: seq<Action>,
                           k: nat, v: nat, w: nat)
    requires IsRun(callers, concurrency, capacity, states, actions) && k < |states|
    requires v < |states[k].workers| && w < |states[k].workers| && states[k].workers[w].Working()
    ensures states[k].workers[w].oid in states[k].tracked && states[k].workers[w].oid !in states[k].channel
    ensures v != w && states[k].workers[v].Working() ==> states[k].workers[v].oid != states[k].workers[w].oid
  {
    hide IsRun, EnqueuersHold, WorkersHold;
    RunKeepsInv(callers, concurrency, capacity, states, actions, k);
    var s := states[k];
    var o := s.workers[w].oid;
    WorkerHeld(s.workers, w, o);
    assert TrackedAt(s, o);
    if v != w && s.workers[v].Working() && s.workers[v].oid == o {
      TwoWorkersHeld(s.workers, if v < w then v else w, if v < w then w else v, o);
    }
  }

  /** Until the clear, the tracked set is the disjoint union of the OIDs in flight, queued and in hand. */
  lemma TrackedIsDisjointUnion(callers: nat, concurrency: nat, capacity: nat,
                               states: seq<State>, actions: seq<Action>, k: nat, o: Oid)
    requires IsRun(callers, concurrency, capacity, states, actions) && k < |states| && !states[k].shutdown.Cleared?
    ensures EnqueuersHold(states[k].enqueuers, o) + Queued(states[k].channel, o) + WorkersHold(states[k].workers, o)
         == if o in states[k].tracked then 1 else 0
  {
    hide IsRun, EnqueuersHold, WorkersHold, Queued;
    RunKeepsInv(callers, concurrency, capacity, states, actions, k);
    assert TrackedAt(states[k], o);
  }

  /** The queue is bounded, first in first out, and every accepted OID is queued, in hand or finished. */
  lemma AcceptedIsConserved(callers: nat, concurrency: nat, capacity: nat,
                            states: seq<State>, actions: seq<Action>, k: nat, o: Oid)
    requires IsRun(callers, concurrency, capacity, states, actions) && k < |states|
    ensures |states[k].channel| <= capacity && |states[k].workers| == concurrency
    ensures states[k].accepted == states[k].received + states[k].channel
    ensures Queued(states[k].accepted, o)
         == Queued(states[k].channel, o) + WorkersHold(states[k].workers, o) + states[k].finished[o]
  {
    hide IsRun, EnqueuersHold, WorkersHold;
    RunKeepsInv(callers, concurrency, capacity, states, actions, k);
    assert ReceivedAt(states[k], o);
  }

  /** Once the sender is taken, nothing is accepted any more. */
  lemma {:induction false} NothingAcceptedAfterShutdown(callers: nat, concurrency: nat, capacity: nat,
                                                         states: seq<State>, actions: seq<Action>, j: nat, k: nat)
    requires IsRun(callers, concurrency, capacity, states, actions) && j <= k < |states| && !states[j].sender
    ensures !states[k].sender && states[k].accepted == states[j].accepted
    decreases k
  {
    hide Apply, Enabled;
    if j < k {
      NothingAcceptedAfterShutdown(callers, concurrency, capacity, states, actions, j, k - 1);
      StepKeepsLimits(states[k - 1], actions[k - 1]);
    }
  }

  // ----- what is done, not only what is avoided -----

  /** The actions lead from one state to the other. */
  ghost predicate Leads(s: State, actions: seq<Action>, t: State)
    decreases |actions|
  {
    if actions == [] then s == t else Enabled(s, actions[0]) && Leads(Apply(s, actions[0]), actions[1..], t)
  }

  lemma LeadsStep(s: State, actions: seq<Action>, next: State, t: State)
    requires actions != [] && Enabled(s, actions[0]) && Apply(s, actions[0]) == next && Leads(next, actions[1..], t)
    ensures Leads(s, actions, t)
  {
    hide Apply, Enabled;
  }

  lemma LeadsNowhere(s: State)
    ensures Leads(s, [], s)
  {
  }

  lemma Tails(all: seq<Action>)
    ensures forall i | 0 <= i < |all| :: all[i..][0] == all[i] && all[i..][1..] == all[i + 1..]
    ensures all[|all|..] == []
  {
  }

  /** An open scheduler, an idle caller and a free lock. */
  ghost predicate Undisturbed(s: State, i: nat) {
    s.shutdown.Open? && s.lock.None? && i < |s.enqueuers| && s.enqueuers[i].Idle?
  }

  /** An undisturbed call for an OID that is not tracked, with room in the queue, is accepted and queued. */
  lemma CallIsAccepted(s: State, i: nat, oid: Oid)
    requires Inv(s) && Undisturbed(s, i) && s.workers != [] && oid !in s.tracked && |s.channel| < s.capacity
    ensures Leads(s, [Begin(i, oid), Insert(i), TryLock(i, false), Send(i)],
                  s.(tracked := s.tracked + {oid}, channel := s.channel + [oid], accepted := s.accepted + [oid]))
  {
    hide TrackedAt, ReceivedAt, LockOk, QueueOk, Leads;
    var es := s.enqueuers;
    var s1 := s.(enqueuers := es[i := Checked(oid)]);
    var s2 := s.(enqueuers := es[i := Inserted(oid)], tracked := s.tracked + {oid});
    var s3 := s2.(enqueuers := es[i := Locked(oid)], lock := Some(i));
    var t := s.(tracked := s.tracked + {oid}, channel := s.channel + [oid], accepted := s.accepted + [oid]);
    assert Apply(s, Begin(i, oid)) == s1;
    assert s1.enqueuers[i := Inserted(oid)] == s2.enqueuers && Apply(s1, Insert(i)) == s2;
    assert s2.enqueuers[i := Locked(oid)] == s3.enqueuers && Apply(s2, TryLock(i, false)) == s3;
    assert !s.workers[0].Ended() && s3.enqueuers[i := Idle] == es && Apply(s3, Send(i)) == t;
    var all := [Begin(i, oid), Insert(i), TryLock(i, false), Send(i)];
    hide Apply, Enabled;
    Tails(all);
    LeadsNowhere(t);
    LeadsStep(s3, all[3..], t, t);
    LeadsStep(s2, all[2..], s3, t);
    LeadsStep(s1, all[1..], s2, t);
    LeadsStep(s, all, s1, t);
  }

  /** A call for a tracked OID changes nothing. */
  lemma DuplicateChangesNothing(s: State, i: nat, oid: Oid)
    requires Undisturbed(s, i) && oid in s.tracked
    ensures Leads(s, [Begin(i, oid), Insert(i)], s)
  {
    hide Leads;
    var s1 := s.(enqueuers := s.enqueuers[i := Checked(oid)]);
    assert Apply(s, Begin(i, oid)) == s1;
    assert s1.enqueuers[i := Idle] == s.enqueuers && Apply(s1, Insert(i)) == s;
    var all := [Begin(i, oid), Insert(i)];
    hide Apply, Enabled;
    Tails(all);
    LeadsNowhere(s);
    LeadsStep(s1, all[1..], s, s);
    LeadsStep(s, all, s1, s);
  }

  /** A call that finds the queue full changes nothing: the OID is untracked again and the lock released. */
  lemma FullQueueChangesNothing(s: State, i: nat, oid: Oid)
    requires Undisturbed(s, i) && oid !in s.tracked && |s.channel| >= s.capacity
    ensures Leads(s, [Begin(i, oid), Insert(i), TryLock(i, false), Send(i), Withdraw(i)], s)
  {
    hide Leads;
    var es := s.enqueuers;
    var s1 := s.(enqueuers := es[i := Checked(oid)]);
    var s2 := s.(enqueuers := es[i := Inserted(oid)], tracked := s.tracked + {oid});
    var s3 := s2.(enqueuers := es[i := Locked(oid)], lock := Some(i));
    var s4 := s3.(enqueuers := es[i := Refused(oid, true)]);
    assert Apply(s, Begin(i, oid)) == s1;
    assert s1.enqueuers[i := Inserted(oid)] == s2.enqueuers && Apply(s1, Insert(i)) == s2;
    assert s2.enqueuers[i := Locked(oid)] == s3.enqueuers && Apply(s2, TryLock(i, false)) == s3;
    assert s3.enqueuers[i := Refused(oid, true)] == s4.enqueuers && Apply(s3, Send(i)) == s4;
    assert s4.enqueuers[i := Idle] == es && s.tracked + {oid} - {oid} == s.tracked && Apply(s4, Withdraw(i)) == s;
    var all := [Begin(i, oid), Insert(i), TryLock(i, false), Send(i), Withdraw(i)];
    hide Apply, Enabled;
    Tails(all);
    LeadsNowhere(s);
    LeadsStep(s4, all[4..], s, s);
    LeadsStep(s3, all[3..], s4, s);
    LeadsStep(s2, all[2..], s3, s);
    LeadsStep(s1, all[1..], s2, s);
    LeadsStep(s, all, s1, s);
  }

  /** A waiting worker takes the oldest OID, and when it is done the OID may be enqueued again. */
  lemma WorkerTurn(s: State, w: nat)
    requires w < |s.workers| && s.workers[w].Waiting? && s.channel != []
    ensures var oid := s.channel[0];
            Leads(s, [Receive(w), Complete(w), Release(w)],
                  s.(channel := s.channel[1..], received := s.received + [oid], tracked := s.tracked - {oid},
                     finished := s.finished + multiset{oid}))
  {
    hide Leads;
    var oid, ws := s.channel[0], s.workers;
    var s1 := s.(workers := ws[w := Running(oid)], channel := s.channel[1..], received := s.received + [oid]);
    var s2 := s1.(workers := ws[w := Finishing(oid)]);
    var t := s.(channel := s.channel[1..], received := s.received + [oid], tracked := s.tracked - {oid},
                finished := s.finished + multiset{oid});
    assert Apply(s, Receive(w)) == s1;
    assert s1.workers[w := Finishing(oid)] == s2.workers && Apply(s1, Complete(w)) == s2;
    assert s2.workers[w := Waiting] == ws && Apply(s2, Release(w)) == t;
    var all := [Receive(w), Complete(w), Release(w)];
    hide Apply, Enabled;
    Tails(all);
    LeadsNowhere(t);
    LeadsStep(s2, all[2..], t, t);
    LeadsStep(s1, all[1..], s2, t);
    LeadsStep(s, all, s1, t);
  }

  /** A call that begins after shutdown closed the scheduler is refused at once. */
  lemma ClosedRefusesCalls(s: State, i: nat, oid: Oid)
    requires s.Closed() && Enabled(s, Begin(i, oid))
    ensures Apply(s, Begin(i, oid)) == s
  {
  }

  /** While the sender is there every worker lives. */
  lemma WorkersLiveUntilShutdown(callers: nat, concurrency: nat, capacity: nat, states: seq<State>,
                                 actions: seq<Action>, k: nat, w: nat)
    requires IsRun(callers, concurrency, capacity, states, actions) && k < |states| && states[k].sender
             && w < concurrency
    ensures |states[k].workers| == concurrency && !states[k].workers[w].Ended()
  {
    hide IsRun, TrackedAt, ReceivedAt;
    RunKeepsInv(callers, concurrency, capacity, states, actions, k);
  }
}
