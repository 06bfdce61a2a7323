/** Depth accounting: the depth is the weight of what is in the spool, at the
    dispatcher and waiting to enter, and before the teardown it stays within the
    ordinary capacity and one emergency slot. */
module EventDepth {
  import opened Wrappers
  import opened EventSpool
  import opened EventDispatch

  function CurrentWeight(s: State): nat {
    if s.current.Some? then Weight(s.current.value.item) else 0
  }

  /** What the teardown holds while it waits for a slot. */
  function WaitingWeight(t: Teardown): nat {
    if t.Dropping? && t.offered && t.batches != [] then |t.batches[0]| else if t.Closing? then 1 else 0
  }

  ghost predicate Accounted(s: State) {
    s.core.depth == WeightOf(s.core.spool) + CurrentWeight(s) + WaitingWeight(s.teardown)
  }

  ghost predicate AllWeigh(s: State) {
    && (forall i | i in s.core.spool :: Weight(i) >= 1)
    && (s.teardown.Dropping? ==> forall b | b in s.teardown.batches :: b != [])
    && (s.teardown.Dropping? && s.teardown.offered ==> s.teardown.started)
    && (s.emission.Some? ==> s.emission.value.item.Direct? || s.emission.value.item.Deferred?)
  }

  /** No teardown batch has been offered yet. */
  predicate Quiet(s: State) {
    s.teardown.Running? || (s.teardown.Dropping? && !s.teardown.started)
  }

  ghost predicate Bounded(c: Config, s: State) {
    && (s.emission.Some? ==> Admits(s.core.admission))
    && (Quiet(s) ==>
          && s.core.depth <= c.capacity + 1
          && (Admits(s.core.admission) ==> s.core.depth <= c.capacity)
          && (s.emission.Some? && s.emission.value.room ==> s.core.depth < c.capacity))
  }

  ghost predicate Depths(c: Config, s: State) {
    Accounted(s) && AllWeigh(s) && Bounded(c, s)
  }

  lemma WeightAppend(spool: seq<Item>, i: Item)
    ensures WeightOf(spool + [i]) == WeightOf(spool) + Weight(i)
  {
    assert (spool + [i])[..|spool|] == spool;
  }

  lemma WeightTake(spool: seq<Item>)
    requires spool != []
    ensures WeightOf(spool) == Weight(spool[0]) + WeightOf(spool[1..])
  {
    assert spool == [spool[0]] + spool[1..];
    WeightSplit([spool[0]], spool[1..]);
    assert WeightOf([spool[0]]) == WeightOf([]) + Weight(spool[0]);
  }

  /** The spool is never longer than the depth. */
  lemma LengthBelowDepth(s: State)
    requires Accounted(s) && AllWeigh(s)
    ensures |s.core.spool| <= s.core.depth
  {
    WeightBoundsLength(s.core.spool);
  }

  lemma AccountedNext(c: Config, s: State, step: Step, s': State)
    requires Accounted(s) && AllWeigh(s) && Next(c, s, step, s')
    ensures Accounted(s')
  {
    hide EmitStep, ResponseStep, TeardownStep, DispatchStep, ConsumerStep, AllWeigh, WeightOf;
    if EmitStep(c, s, step, s') {
      EmitAccounted(c, s, step, s');
    } else if TeardownStep(c, s, step, s') {
      TeardownAccounted(c, s, step, s');
    } else if DispatchStep(c, s, step, s') {
      DispatchAccounted(c, s, step, s');
    } else {
      QuietAccounted(s, step, s');
    }
  }

  lemma EmitAccounted(c: Config, s: State, step: Step, s': State)
    requires Accounted(s) && EmitStep(c, s, step, s')
    ensures Accounted(s')
  {
    hide WeightOf, HasSlot, Idle, Admits;
    if step.FinishEmit? {
      WeightAppend(s.core.spool, s.emission.value.item);
    }
  }

  lemma QuietAccounted(s: State, step: Step, s': State)
    requires Accounted(s) && (ResponseStep(s, step, s') || ConsumerStep(s, step, s'))
    ensures Accounted(s')
  {
    QuietSame(s, step, s');
    hide WeightOf, ResponseStep, ConsumerStep;
  }

  lemma TeardownAccounted(c: Config, s: State, step: Step, s': State)
    requires Accounted(s) && TeardownStep(c, s, step, s')
    ensures Accounted(s')
  {
    hide WeightOf, HasSlot;
    match step {
      case SendBatch => WeightAppend(s.core.spool, Batch(s.teardown.batches[0]));
      case SendTerminal => WeightAppend(s.core.spool, Final(s.teardown.reason));
      case _ =>
    }
  }

  lemma DispatchAccounted(c: Config, s: State, step: Step, s': State)
    requires Accounted(s) && DispatchStep(c, s, step, s')
    ensures Accounted(s')
  {
    hide WeightOf, Free, Ready, EventsOf;
    if step.Receive? {
      WeightTake(s.core.spool);
    }
  }

  lemma AllWeighNext(c: Config, s: State, step: Step, s': State)
    requires AllWeigh(s) && Next(c, s, step, s')
    ensures AllWeigh(s')
  {
    hide EmitStep, ResponseStep, TeardownStep, DispatchStep, ConsumerStep, AllWeigh;
    if EmitStep(c, s, step, s') {
      EmitWeighs(c, s, step, s');
    } else if TeardownStep(c, s, step, s') {
      TeardownWeighs(c, s, step, s');
    } else if DispatchStep(c, s, step, s') {
      DispatchWeighs(c, s, step, s');
    } else {
      QuietWeighs(s, step, s');
    }
  }

  lemma EmitWeighs(c: Config, s: State, step: Step, s': State)
    requires AllWeigh(s) && EmitStep(c, s, step, s')
    ensures AllWeigh(s')
  {
    hide HasSlot, Idle;
  }

  lemma TeardownWeighs(c: Config, s: State, step: Step, s': State)
    requires AllWeigh(s) && TeardownStep(c, s, step, s')
    ensures AllWeigh(s')
  {
    hide HasSlot;
    if step.SendBatch? || step.AbandonBatch? {
      var batches := s.teardown.batches;
      assert batches[0] in batches && forall b | b in batches[1..] :: b in batches;
    }
  }

  lemma QuietWeighs(s: State, step: Step, s': State)
    requires AllWeigh(s) && (ResponseStep(s, step, s') || ConsumerStep(s, step, s'))
    ensures AllWeigh(s')
  {
    QuietSame(s, step, s');
    hide ResponseStep, ConsumerStep;
  }

  lemma DispatchWeighs(c: Config, s: State, step: Step, s': State)
    requires AllWeigh(s) && DispatchStep(c, s, step, s')
    ensures AllWeigh(s')
  {
    hide Free, Ready, EventsOf, Weight;
    assert forall i | i in s'.core.spool :: i in s.core.spool;
  }

  lemma BoundedNext(c: Config, s: State, step: Step, s': State)
    requires Depths(c, s) && Next(c, s, step, s')
    ensures Bounded(c, s')
  {
    hide EmitStep, ResponseStep, TeardownStep, DispatchStep, ConsumerStep, Accounted, AllWeigh, Bounded;
    if EmitStep(c, s, step, s') {
      EmitBounded(c, s, step, s');
    } else if TeardownStep(c, s, step, s') {
      TeardownBounded(c, s, step, s');
    } else if DispatchStep(c, s, step, s') {
      DispatchBounded(c, s, step, s');
    } else {
      QuietBounded(c, s, step, s');
    }
  }

  lemma EmitBounded(c: Config, s: State, step: Step, s': State)
    requires Depths(c, s) && EmitStep(c, s, step, s')
    ensures Bounded(c, s')
  {
    LengthBelowDepth(s);
    hide Accounted, Idle;
  }

  lemma TeardownBounded(c: Config, s: State, step: Step, s': State)
    requires Depths(c, s) && TeardownStep(c, s, step, s')
    ensures Bounded(c, s')
  {
    hide Accounted, HasSlot;
  }

  lemma QuietBounded(c: Config, s: State, step: Step, s': State)
    requires Depths(c, s) && (ResponseStep(s, step, s') || ConsumerStep(s, step, s'))
    ensures Bounded(c, s')
  {
    QuietSame(s, step, s');
    hide Accounted, ResponseStep, ConsumerStep;
  }

  lemma DispatchBounded(c: Config, s: State, step: Step, s': State)
    requires Depths(c, s) && DispatchStep(c, s, step, s')
    ensures Bounded(c, s')
  {
    hide Accounted, Free, Ready, EventsOf;
  }

  lemma DepthsNext(c: Config, s: State, step: Step, s': State)
    requires Depths(c, s) && Next(c, s, step, s')
    ensures Depths(c, s')
  {
    hide Accounted, AllWeigh, Bounded, Next;
    AccountedNext(c, s, step, s');
    AllWeighNext(c, s, step, s');
    BoundedNext(c, s, step, s');
  }

  /** Before any teardown batch, an emission always finds a slot. */
  lemma QuietEmissionEnters(c: Config, s: State, s': State)
    requires Depths(c, s) && Quiet(s) && EmitStep(c, s, FinishEmit, s')
    ensures s'.entered == s.entered + [s.emission.value.item]
    ensures s'.core.admission == if s.emission.value.room then s.core.admission else Overflowed
  {
    LengthBelowDepth(s);
    hide Accounted;
  }
}
