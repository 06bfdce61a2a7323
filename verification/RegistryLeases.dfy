/** Runs of the registry as its lease holders drive it: automatic and manual
    reservations, retirement, and leases dropped at any moment. */
module RegistryLeases {
  import opened Wrappers
  import opened RetiredRanges
  import opened SequenceRegistry

  /** A live lease object. Retiring it, whether or not that succeeds, clears
      `releaseOnDrop`. */
  datatype Lease = Lease(manual: bool, releaseOnDrop: bool)

  /** `issued` and `retired` are histories: ids leased automatically so far, and
      ids on which `retire` was called so far. */
  datatype State = State(
    registry: Registry,
    leases: map<u32, Lease>,
    issued: set<u32>,
    retired: set<u32>)

  datatype Step =
    | Automatic(leased: Option<u32>)
    | Manual(base: u32, count: nat, ids: Option<seq<u32>>)
    | Retire(id: u32, ok: bool)
    | DropLease(id: u32)

  /** The ids a step hands to a caller. */
  function HandedOut(step: Step): set<u32> {
    match step
    case Automatic(Some(id)) => {id}
    case Manual(_, _, Some(ids)) => set x | x in ids
    case _ => {}
  }

  ghost predicate Next(s: State, step: Step, s': State) {
    match step
    case Automatic(id) =>
      && NextSpec(s.registry, s'.registry, id)
      && s'.leases == s.leases + (map x | x in HandedOut(step) :: Lease(false, true))
      && s'.issued == s.issued + HandedOut(step)
      && s'.retired == s.retired
    case Manual(base, count, ids) =>
      && BatchSpec(s.registry, s'.registry, base, count, ids)
      && s'.leases == s.leases + (map x | x in HandedOut(step) :: Lease(true, true))
      && s'.issued == s.issued && s'.retired == s.retired
    case Retire(id, ok) =>
      && id in s.leases
      && RetireSpec(s.registry, s'.registry, id, ok)
      && s'.leases == s.leases[id := s.leases[id].(releaseOnDrop := false)]
      && s'.issued == s.issued && s'.retired == s.retired + {id}
    case DropLease(id) =>
      && id in s.leases
      && s'.registry == (if s.leases[id].releaseOnDrop then Released(s.registry, id) else s.registry)
      && s'.leases == s.leases - {id}
      && s'.issued == s.issued && s'.retired == s.retired
  }

  ghost predicate Init(s: State) {
    && (exists next: u32 :: s.registry == NewRegistry(next))
    && s.leases == map[] && s.issued == {} && s.retired == {}
  }

  ghost predicate Inv(s: State) {
    && Valid(s.registry)
    && (forall id :: id in s.leases ==> Blocked(s.registry, id))
    && (forall id :: id in s.leases && s.leases[id].releaseOnDrop ==> id in s.registry.reserved)
    && (forall id :: id in s.leases && !s.leases[id].releaseOnDrop ==> id in s.retired)
    && (forall id :: id in s.issued ==> InPrefix(s.registry, id))
    && (forall id :: id in s.retired ==> Blocked(s.registry, id))
    && (forall id :: id in s.retired && id in s.leases ==> !s.leases[id].releaseOnDrop)
  }

  /** Whatever a reservation does, blocked ids stay blocked and the ids it hands
      out were free before and are blocked after. */
  lemma ReservationKeepsBlocked(s: State, step: Step, s': State)
    requires Valid(s.registry) && Next(s, step, s') && (step.Automatic? || step.Manual?)
    ensures Valid(s'.registry)
    ensures forall id: u32 :: Spent(s.registry, id) ==> Spent(s'.registry, id)
    ensures forall id: u32 :: InPrefix(s.registry, id) ==> InPrefix(s'.registry, id)
    ensures s'.registry.reserved == s.registry.reserved + HandedOut(step)
    ensures forall id :: id in HandedOut(step) ==> !Blocked(s.registry, id)
    ensures step.Automatic? ==> forall id :: id in HandedOut(step) ==> InPrefix(s'.registry, id)
  {
    hide Canonical, Covers, NextSpec, BatchSpec;
    match step
    case Automatic(id) => NextFacts(s.registry, s'.registry, id);
    case Manual(base, count, ids) => BatchFacts(s.registry, s'.registry, base, count, ids);
  }

  lemma InvInit(s: State)
    requires Init(s)
    ensures Inv(s)
  {
  }

  lemma InvNext(s: State, step: Step, s': State)
    requires Inv(s) && Next(s, step, s')
    ensures Inv(s')
  {
    hide Canonical, Covers, NextSpec, BatchSpec, RetireSpec;
    match step
    case Automatic(_) => ReservationKeepsBlocked(s, step, s');
    case Manual(_, _, _) => ReservationKeepsBlocked(s, step, s');
    case Retire(id, ok) => InvRetire(s, step, s');
    case DropLease(id) => hide Valid;
  }

  lemma InvRetire(s: State, step: Step, s': State)
    requires Inv(s) && Next(s, step, s') && step.Retire?
    ensures Inv(s')
  {
    hide Valid, Covers, InPrefix, RetireSpec;
    RetireFacts(s.registry, s'.registry, step.id, step.ok);
  }

  ghost predicate Run(states: seq<State>, steps: seq<Step>) {
    && |states| == |steps| + 1
    && Init(states[0])
    && forall i | 0 <= i < |steps| :: Next(states[i], steps[i], states[i + 1])
  }

  lemma {:induction false} RunInv(states: seq<State>, steps: seq<Step>, n: nat)
    requires Run(states, steps) && n < |states|
    ensures Inv(states[n])
  {
    hide Inv, Next, Init;
    if n == 0 {
      InvInit(states[0]);
    } else {
      RunInv(states, steps, n - 1);
      InvNext(states[n - 1], steps[n - 1], states[n]);
    }
  }

  lemma {:induction false} HistoryGrows(states: seq<State>, steps: seq<Step>, i: nat, j: nat)
    requires Run(states, steps) && i <= j < |states|
    ensures states[i].issued <= states[j].issued && states[i].retired <= states[j].retired
    decreases j - i
  {
    if i < j {
      HistoryGrows(states, steps, i, j - 1);
      assert Next(states[j - 1], steps[j - 1], states[j]);
    }
  }

  /** In every run, an id that was issued automatically, or on which a lease was
      retired (even when the table refused it), is never handed out later. */
  lemma NeverReissued(states: seq<State>, steps: seq<Step>, i: nat, j: nat, id: u32)
    requires Run(states, steps) && i < j < |steps|
    requires (steps[i].Automatic? && id in HandedOut(steps[i])) || (steps[i].Retire? && steps[i].id == id)
    ensures id !in HandedOut(steps[j])
  {
    assert Next(states[i], steps[i], states[i + 1]);
    HistoryGrows(states, steps, i + 1, j);
    RunInv(states, steps, j);
    assert Next(states[j], steps[j], states[j + 1]);
    HandedOutIsNew(states[j], steps[j], states[j + 1]);
  }

  /** A handed-out id differs from every id ever issued or retired and from every
      id leased at that moment. */
  lemma HandedOutIsNew(s: State, step: Step, s': State)
    requires Inv(s) && Next(s, step, s')
    ensures HandedOut(step) !! s.issued && HandedOut(step) !! s.retired && HandedOut(step) !! s.leases.Keys
  {
    hide Canonical, Covers, NextSpec, BatchSpec, RetireSpec;
    if step.Automatic? || step.Manual? {
      ReservationKeepsBlocked(s, step, s');
    }
  }
}
