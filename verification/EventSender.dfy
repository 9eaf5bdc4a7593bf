/** The Prometheus-CR watcher's notification path as interleaved steps: informer handlers fill a one-slot channel, a
    ticking sender empties it towards the main loop without ever blocking, the main loop loads and applies. */
module EventSender {

  datatype Sender =
    | Sleeping      // waiting for the ticker or for the stop signal
    | Holding       // took the notification, about to try the upstream channel
    | PuttingBack   // upstream was not ready, about to return the notification
    | Stopped

  datatype Consumer =
    | Waiting                              // blocked in its select, ready to receive
    | Elsewhere                            // busy with something else, or on its way back to the select
    | Received                             // got the event, nothing read yet
    | HasServiceMonitors(sm: nat)          // read the first store
    | HasBoth(sm: nat, pm: nat)            // read the second store

  /** What a configuration is generated from: the contents of the two informer stores, told apart by how many changes
      led to them. */
  datatype Contents = Contents(sm: nat, pm: nat)

  /** `now` are the contents of the stores and `smObjects`, `pmObjects` the numbers of objects in them; `pending` counts
      the handler calls still to come. `kept` is what the configuration was generated from that was last handed over to
      be applied, and `inForce` that of the one that was last applied. */
  datatype State = State(
    now: Contents, smObjects: nat, pmObjects: nat, pending: nat,
    token: bool,
    sender: Sender, consumer: Consumer,
    kept: Contents, inForce: Contents,
    lastLoadFailed: bool)

  const INIT: State := State(Contents(0, 0), 0, 0, 0, false, Sleeping, Waiting, Contents(0, 0), Contents(0, 0), false)

  datatype Change = Added | Updated | Deleted

  datatype Step =
    | ServiceMonitorChanges(change: Change)       // a store changes; its handler call is due
    | PodMonitorChanges(change: Change)
    | Resync                                      // an informer presents an object of its store once more
    | Notify                                      // a handler writes to the channel unless it is full
    | Tick                                        // the ticker fires and the sender finds a notification
    | Send | SendFails | PutBack
    | ReadServiceMonitors | ReadPodMonitors | ApplyConfig
    | LoadFails                                   // reading or generating fails: the configuration is not handed over
    | ApplyFails                                  // it is handed over, but not applied
    | FileApplied                                 // the main loop applies the configuration file and what is kept
    | Leave | Return                              // the main loop turns to other events, and comes back
    | Stop

  predicate Enabled(s: State, step: Step) {
    match step
    case ServiceMonitorChanges(change) => change == Added || s.smObjects > 0
    case PodMonitorChanges(change) => change == Added || s.pmObjects > 0
    case Resync => s.smObjects + s.pmObjects > 0
    case Notify => s.pending > 0
    case Tick => s.sender == Sleeping && s.token
    case Send => s.sender == Holding && s.consumer == Waiting
    case SendFails => s.sender == Holding && s.consumer != Waiting
    case PutBack => s.sender == PuttingBack
    case ReadServiceMonitors => s.consumer == Received
    case ReadPodMonitors => s.consumer.HasServiceMonitors?
    case ApplyConfig => s.consumer.HasBoth?
    case LoadFails => Loading(s)
    case ApplyFails => s.consumer.HasBoth?
    case FileApplied => s.consumer == Waiting
    case Leave => s.consumer == Waiting
    case Return => s.consumer == Elsewhere
    case Stop => s.sender == Sleeping
  }

  function Recounted(objects: nat, change: Change): nat
    requires change == Added || objects > 0
  {
    match change
    case Added => objects + 1
    case Updated => objects
    case Deleted => objects - 1
  }

  function Next(s: State, step: Step): State
    requires Enabled(s, step)
  {
    match step
    case ServiceMonitorChanges(change) =>
      s.(now := Contents(s.now.sm + 1, s.now.pm), smObjects := Recounted(s.smObjects, change), pending := s.pending + 1)
    case PodMonitorChanges(change) =>
      s.(now := Contents(s.now.sm, s.now.pm + 1), pmObjects := Recounted(s.pmObjects, change), pending := s.pending + 1)
    case Resync => s.(pending := s.pending + 1)
    case Notify => s.(pending := s.pending - 1, token := true)
    case Tick => s.(token := false, sender := Holding)
    case Send => s.(sender := Sleeping, consumer := Received)
    case SendFails => s.(sender := PuttingBack)
    case PutBack => s.(sender := Sleeping, token := true)
    case ReadServiceMonitors => s.(consumer := HasServiceMonitors(s.now.sm))
    case ReadPodMonitors => s.(consumer := HasBoth(s.consumer.sm, s.now.pm))
    case ApplyConfig =>
      var read := Contents(s.consumer.sm, s.consumer.pm);
      s.(consumer := Elsewhere, kept := read, inForce := read, lastLoadFailed := false)
    case LoadFails => s.(consumer := Elsewhere, lastLoadFailed := true)
    case ApplyFails =>
      s.(consumer := Elsewhere, kept := Contents(s.consumer.sm, s.consumer.pm), lastLoadFailed := false)
    case FileApplied => s.(consumer := Elsewhere, inForce := s.kept)
    case Leave => s.(consumer := Elsewhere)
    case Return => s.(consumer := Waiting)
    case Stop => s.(sender := Stopped)
  }

  /** The steps can be taken one after the other. */
  predicate Possible(s: State, steps: seq<Step>)
    decreases steps
  {
    steps == [] || (Enabled(s, steps[0]) && Possible(Next(s, steps[0]), steps[1..]))
  }

  function After(s: State, steps: seq<Step>): State
    requires Possible(s, steps)
    decreases steps
  {
    if steps == [] then s else After(Next(s, steps[0]), steps[1..])
  }

  /** How often a step is taken. */
  function Times(steps: seq<Step>, step: Step): nat {
    multiset(steps)[step]
  }

  /** The objects of a store are those that were added and not deleted. */
  lemma {:induction false} ObjectsAreCounted(s: State, steps: seq<Step>)
    requires Possible(s, steps)
    ensures After(s, steps).smObjects ==
              s.smObjects + Times(steps, ServiceMonitorChanges(Added)) - Times(steps, ServiceMonitorChanges(Deleted))
    ensures After(s, steps).pmObjects ==
              s.pmObjects + Times(steps, PodMonitorChanges(Added)) - Times(steps, PodMonitorChanges(Deleted))
    decreases steps
  {
    if steps != [] {
      ObjectsAreCounted(Next(s, steps[0]), steps[1..]);
      assert steps == [steps[0]] + steps[1..];
    }
  }

  // ---------------------------------------------------------------- no change is lost

  predicate UpToDate(s: State) {
    s.inForce == s.now
  }

  /** Someone still carries a notification: a handler, the channel, or the sender. */
  predicate InFlight(s: State) {
    s.pending > 0 || s.token || s.sender == Holding || s.sender == PuttingBack
  }

  predicate Loading(s: State) {
    s.consumer.Received? || s.consumer.HasServiceMonitors? || s.consumer.HasBoth?
  }

  /** Nothing is under way any more. */
  predicate Quiescent(s: State) {
    s.pending == 0 && !s.token && s.sender == Sleeping && !Loading(s)
  }

  /** The contents a load under way has read or will read; otherwise those of the configuration that is kept. */
  function Reflected(s: State): Contents {
    match s.consumer
    case Received => s.now
    case HasServiceMonitors(sm) => Contents(sm, s.now.pm)
    case HasBoth(sm, pm) => Contents(sm, pm)
    case _ => s.kept
  }

  /** A change that no load has seen, nor will see, is in flight, or the last load to finish has failed. A load that is
      under way does not help the changes that came after its read: these have a notification of their own. */
  predicate Inv(s: State) {
    Reflected(s) != s.now ==> InFlight(s) || (s.lastLoadFailed && !Loading(s)) || s.sender == Stopped
  }

  lemma StepKeepsInv(s: State, step: Step)
    requires Inv(s) && Enabled(s, step)
    ensures Inv(Next(s, step))
  {
  }

  lemma {:induction false} RunKeepsInv(s: State, steps: seq<Step>)
    requires Inv(s) && Possible(s, steps)
    ensures Inv(After(s, steps))
    decreases steps
  {
    if steps != [] {
      StepKeepsInv(s, steps[0]);
      RunKeepsInv(Next(s, steps[0]), steps[1..]);
    }
  }

  /** Over all interleavings: a change the configuration in force does not reflect is still in flight, or a load is
      under way, or the last load failed, or a configuration is kept that could not be applied, or the watcher was
      stopped. */
  lemma UnreflectedChangeIsPending(steps: seq<Step>)
    requires Possible(INIT, steps)
    ensures var s := After(INIT, steps);
            !UpToDate(s) ==> InFlight(s) || Loading(s) || s.lastLoadFailed || s.kept != s.inForce || s.sender == Stopped
    ensures var s := After(INIT, steps);
            Quiescent(s) && !s.lastLoadFailed && s.kept == s.inForce ==> UpToDate(s)
  {
    RunKeepsInv(INIT, steps);
  }

  lemma {:induction false} NoFailureWithoutFailingStep(s: State, steps: seq<Step>)
    requires Possible(s, steps) && LoadFails !in steps && ApplyFails !in steps && !s.lastLoadFailed
        && s.kept == s.inForce
    ensures !After(s, steps).lastLoadFailed && After(s, steps).kept == After(s, steps).inForce
    decreases steps
  {
    if steps != [] {
      NoFailureWithoutFailingStep(Next(s, steps[0]), steps[1..]);
    }
  }

  /** No lost update, as long as loads succeed and can be applied. */
  lemma NoLostUpdate(steps: seq<Step>)
    requires Possible(INIT, steps) && LoadFails !in steps && ApplyFails !in steps && Quiescent(After(INIT, steps))
    ensures UpToDate(After(INIT, steps))
  {
    UnreflectedChangeIsPending(steps);
    NoFailureWithoutFailingStep(INIT, steps);
  }

  // ---------------------------------------------------------------- and it settles

  /** The steps that bring a change forward: everything but new changes, resyncs, failures, futile sends, and turning
      away. */
  predicate Productive(step: Step) {
    step.Notify? || step.Tick? || step.Send? || step.PutBack? || step.ReadServiceMonitors? || step.ReadPodMonitors?
    || step.ApplyConfig? || step.Return?
  }

  function Work(s: State): nat {
    7 * s.pending
    + (if s.token then 6 else 0)
    + (match s.sender case Holding => 5 case PuttingBack => 7 case _ => 0)
    + (match s.consumer case Received => 4 case HasServiceMonitors(_) => 3 case HasBoth(_, _) => 2
       case Elsewhere => 1 case Waiting => 0)
  }

  /** Unless stopped, the protocol is quiescent or a productive step is possible, and productive steps use up the work:
      without new changes any schedule that keeps choosing productive ones settles within Work(s) of them. */
  lemma SettlesByProductiveSteps(s: State)
    requires s.sender != Stopped
    ensures Quiescent(s) || exists step :: Productive(step) && Enabled(s, step)
    ensures forall step | Productive(step) && Enabled(s, step) :: Work(Next(s, step)) < Work(s)
  {
    if s.pending > 0 {
      assert Enabled(s, Notify);
    } else if s.sender == PuttingBack {
      assert Enabled(s, PutBack);
    } else if s.consumer.Received? {
      assert Enabled(s, ReadServiceMonitors);
    } else if s.consumer.HasServiceMonitors? {
      assert Enabled(s, ReadPodMonitors);
    } else if s.consumer.HasBoth? {
      assert Enabled(s, ApplyConfig);
    } else if s.consumer.Elsewhere? {
      assert Enabled(s, Return);
    } else if s.sender == Holding {
      assert Enabled(s, Send);
    } else if s.token {
      assert Enabled(s, Tick);
    }
  }

  /** From every reachable state that is not stopped, productive steps alone can bring the configuration up to date
      with both stores, provided that nothing has just failed or a notification is still in flight. */
  lemma {:induction false} CanCatchUp(s: State) returns (steps: seq<Step>)
    requires Inv(s) && s.sender != Stopped
    requires (!s.lastLoadFailed && s.kept == s.inForce) || InFlight(s) || Loading(s)
    ensures Possible(s, steps) && forall i | 0 <= i < |steps| :: Productive(steps[i])
    ensures |steps| <= Work(s)
    ensures UpToDate(After(s, steps)) && Quiescent(After(s, steps))
    decreases Work(s)
  {
    if Quiescent(s) {
      return [];
    }
    SettlesByProductiveSteps(s);
    var step :| Productive(step) && Enabled(s, step);
    StepKeepsInv(s, step);
    var later := CanCatchUp(Next(s, step));
    steps := [step] + later;
    assert steps[1..] == later;
  }

  // ---------------------------------------------------------------- what becomes of a failure

  predicate IsChange(step: Step) {
    step.ServiceMonitorChanges? || step.PodMonitorChanges?
  }

  predicate NoChanges(steps: seq<Step>) {
    forall i | 0 <= i < |steps| :: !IsChange(steps[i])
  }

  /** Nothing carries a notification that could still arrive, no load is under way, and there is no object left that an
      informer could present again. */
  predicate Idle(s: State) {
    !Loading(s)
    && (s.sender == Stopped || (s.sender == Sleeping && s.pending == 0 && !s.token && s.smObjects + s.pmObjects == 0))
  }

  /** Once idle, the protocol does nothing until a store changes: what is in force stays in force, unless the
      configuration file is applied, which brings into force what is kept. */
  lemma {:induction false} QuiescenceIsFinal(s: State, steps: seq<Step>)
    requires Idle(s) && Possible(s, steps) && NoChanges(steps)
    ensures var s' := After(s, steps);
            && s'.now == s.now && s'.kept == s.kept
            && s'.inForce == if FileApplied in steps then s.kept else s.inForce
    decreases steps
  {
    if steps != [] {
      assert !IsChange(steps[0]);
      QuiescenceIsFinal(Next(s, steps[0]), steps[1..]);
    }
  }

  /** The main loop drops a failed load. If nothing is in flight behind it, it would have put everything in force; if
      the stores are empty besides, its failure leaves a quiescent state that is as far behind as before, and without
      a further change only the configuration file changes that, provided that the failure was in applying. */
  lemma FailedLoadLosesUpdate(steps: seq<Step>, failure: Step, later: seq<Step>)
    requires Possible(INIT, steps) && NoChanges(later)
    requires var s := After(INIT, steps);
             && Loading(s) && !InFlight(s) && s.sender == Sleeping && s.smObjects + s.pmObjects == 0
             && (failure == LoadFails || failure == ApplyFails) && Enabled(s, failure)
    ensures var s := After(INIT, steps);
            var failed := Next(s, failure);
            && Quiescent(failed) && (UpToDate(failed) <==> UpToDate(s))
            && (Possible(failed, later) ==>
                  (UpToDate(After(failed, later)) <==>
                     if FileApplied in later then failure == ApplyFails || s.kept == s.now else UpToDate(s)))
            && (s.consumer.HasBoth? ==> UpToDate(Next(s, ApplyConfig)))
  {
    var s := After(INIT, steps);
    RunKeepsInv(INIT, steps);
    if Possible(Next(s, failure), later) {
      QuiescenceIsFinal(Next(s, failure), later);
    }
  }

  /** Without further changes, and without the configuration file unless `withFile`, these steps lead to a state that is
      up to date. */
  predicate MakesUpFor(s: State, later: seq<Step>, withFile: bool) {
    NoChanges(later) && (withFile || FileApplied !in later) && Possible(s, later) && UpToDate(After(s, later))
  }

  /** Exactly when a failure can be made up for without further changes: if it had nothing to bring; if what is kept
      is up to date and the configuration file is applied; or if a notification is still in flight, or a store has an
      object that its informer will present again, and somebody is there to deliver it. */
  lemma FailureIsMadeUpFor(steps: seq<Step>, failure: Step, withFile: bool)
    requires Possible(INIT, steps) && (failure == LoadFails || failure == ApplyFails)
    requires Enabled(After(INIT, steps), failure)
    ensures var s := After(INIT, steps);
            var failed := Next(s, failure);
            (exists later :: MakesUpFor(failed, later, withFile)) <==>
              || UpToDate(s) || (withFile && failed.kept == s.now)
              || ((InFlight(s) || s.smObjects + s.pmObjects > 0) && s.sender != Stopped)
  {
    var s := After(INIT, steps);
    var failed := Next(s, failure);
    RunKeepsInv(INIT, steps);
    StepKeepsInv(s, failure);
    if UpToDate(s) {
      assert MakesUpFor(failed, [], withFile);
    } else if withFile && failed.kept == s.now {
      FileMakesUpFor(failed);
    } else if (InFlight(s) || s.smObjects + s.pmObjects > 0) && s.sender != Stopped {
      NotificationMakesUpFor(failed, withFile);
    } else {
      forall later | NoChanges(later) && (withFile || FileApplied !in later) && Possible(failed, later)
        ensures !UpToDate(After(failed, later))
      {
        QuiescenceIsFinal(failed, later);
      }
    }
  }

  lemma FileMakesUpFor(failed: State)
    requires failed.consumer == Elsewhere && failed.kept == failed.now
    ensures exists later :: MakesUpFor(failed, later, true)
  {
    var back := Next(failed, Return);
    var later := [Return, FileApplied];
    assert later[1..] == [FileApplied] && later[1..][1..] == [];
    assert Possible(back, [FileApplied]) && After(back, [FileApplied]) == Next(back, FileApplied);
    assert MakesUpFor(failed, later, true);
  }

  /** A resync takes the place of a notification. */
  lemma NotificationMakesUpFor(failed: State, withFile: bool)
    requires Inv(failed) && failed.sender != Stopped && (InFlight(failed) || failed.smObjects + failed.pmObjects > 0)
    ensures exists later :: MakesUpFor(failed, later, withFile)
  {
    if InFlight(failed) {
      var later := CanCatchUp(failed);
      assert MakesUpFor(failed, later, withFile);
    } else {
      StepKeepsInv(failed, Resync);
      var rest := CanCatchUp(Next(failed, Resync));
      var later := [Resync] + rest;
      assert later[1..] == rest;
      assert MakesUpFor(failed, later, withFile);
    }
  }

  lemma {:induction false} OneStepMore(s: State, steps: seq<Step>, step: Step)
    requires Possible(s, steps) && Enabled(After(s, steps), step)
    ensures Possible(s, steps + [step]) && After(s, steps + [step]) == Next(After(s, steps), step)
    decreases steps
  {
    if steps == [] {
      assert ([] + [step])[1..] == [];
    } else {
      OneStepMore(Next(s, steps[0]), steps[1..], step);
      assert (steps + [step])[1..] == steps[1..] + [step];
    }
  }

  /** One notification on its way, and the load it leads to. */
  lemma Loaded(steps: seq<Step>) returns (more: seq<Step>)
    requires Possible(INIT, steps)
    requires var s := After(INIT, steps); s.pending == 1 && !s.token && s.sender == Sleeping && s.consumer == Waiting
    ensures more == steps + [Notify, Tick, Send] && Possible(INIT, more)
    ensures After(INIT, more) == After(INIT, steps).(pending := 0, consumer := Received)
  {
    OneStepMore(INIT, steps, Notify);
    OneStepMore(INIT, steps + [Notify], Tick);
    OneStepMore(INIT, steps + [Notify] + [Tick], Send);
    more := steps + [Notify] + [Tick] + [Send];
  }

  lemma Applied(steps: seq<Step>) returns (more: seq<Step>)
    requires Possible(INIT, steps) && After(INIT, steps).consumer == Received
    ensures more == steps + [ReadServiceMonitors, ReadPodMonitors, ApplyConfig, Return] && Possible(INIT, more)
    ensures var s := After(INIT, steps);
            After(INIT, more) == s.(consumer := Waiting, kept := s.now, inForce := s.now, lastLoadFailed := false)
  {
    OneStepMore(INIT, steps, ReadServiceMonitors);
    OneStepMore(INIT, steps + [ReadServiceMonitors], ReadPodMonitors);
    OneStepMore(INIT, steps + [ReadServiceMonitors] + [ReadPodMonitors], ApplyConfig);
    OneStepMore(INIT, steps + [ReadServiceMonitors] + [ReadPodMonitors] + [ApplyConfig], Return);
    more := steps + [ReadServiceMonitors] + [ReadPodMonitors] + [ApplyConfig] + [Return];
  }

  /** A loss that nothing makes up for does occur: the only object is deleted and the load that follows fails. */
  lemma LossIsReachable()
    ensures var run := [ServiceMonitorChanges(Added), Notify, Tick, Send,
                        ReadServiceMonitors, ReadPodMonitors, ApplyConfig, Return,
                        ServiceMonitorChanges(Deleted), Notify, Tick, Send];
            && Possible(INIT, run)
            && var s := After(INIT, run);
               && Loading(s) && !InFlight(s) && s.sender == Sleeping && s.smObjects + s.pmObjects == 0
               && !UpToDate(s) && s.kept != s.now
               && forall later | NoChanges(later) && Possible(Next(s, LoadFails), later) ::
                    !UpToDate(After(Next(s, LoadFails), later))
  {
    OneStepMore(INIT, [], ServiceMonitorChanges(Added));
    var loaded := Loaded([] + [ServiceMonitorChanges(Added)]);
    var applied := Applied(loaded);
    OneStepMore(INIT, applied, ServiceMonitorChanges(Deleted));
    var run := Loaded(applied + [ServiceMonitorChanges(Deleted)]);
    assert run == [ServiceMonitorChanges(Added), Notify, Tick, Send,
                   ReadServiceMonitors, ReadPodMonitors, ApplyConfig, Return,
                   ServiceMonitorChanges(Deleted), Notify, Tick, Send];
    forall later | NoChanges(later) && Possible(Next(After(INIT, run), LoadFails), later)
      ensures !UpToDate(After(Next(After(INIT, run), LoadFails), later))
    {
      FailedLoadLosesUpdate(run, LoadFails, later);
    }
  }
}
