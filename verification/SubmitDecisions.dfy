/** Every admitted submit gets at most one terminal decision, and is decided
    exactly when it has left the pending map or was answered while being written. */
module SubmitDecisions {
  import opened Wrappers
  import opened SequenceRegistry
  import opened SubmitModel
  import opened SubmitOwnership

  ghost function DecidedIds(ds: seq<Decision>): set<u32> {
    set d | d in ds :: d.id
  }

  /** Whether `id` still waits for its decision. */
  ghost predicate Undecided(s: State, id: u32) {
    id in s.pending && !s.pending[id].state.RespondedWhileWriting?
  }

  ghost predicate Decided(s: State, id: u32) {
    id in DecidedIds(s.log.decisions)
  }

  ghost predicate NoneTwice(ds: seq<Decision>) {
    forall i, j | 0 <= i < j < |ds| :: ds[i].id != ds[j].id
  }

  ghost predicate Dec(s: State) {
    && NoneTwice(s.log.decisions)
    && (forall id: u32 :: Decided(s, id) ==> id in s.log.admitted)
    && (forall id | id in s.log.admitted :: Decided(s, id) <==> !Undecided(s, id))
    && (forall id | id in s.pending && !Undecided(s, id) :: Responded(id) in s.log.decisions)
  }

  lemma Append(ds: seq<Decision>, d: Decision)
    ensures DecidedIds(ds + [d]) == DecidedIds(ds) + {d.id}
    ensures NoneTwice(ds) && d.id !in DecidedIds(ds) ==> NoneTwice(ds + [d])
  {
    forall id: u32
      ensures id in DecidedIds(ds + [d]) <==> id in DecidedIds(ds) + {d.id}
    {
      if id in DecidedIds(ds) + {d.id} {
        var e :| (e in ds || e == d) && e.id == id;
        assert e in ds + [d];
      }
    }
  }

  lemma OwnPending(s: State)
    requires Own(s)
    ensures forall id | id in s.pending :: id in s.log.admitted
  {
  }

  /** Steps that make no decision. */
  lemma DecQuiet(s: State, s': State)
    requires Dec(s)
    requires s'.log.decisions == s.log.decisions && s'.log.admitted == s.log.admitted
    requires forall id: u32 :: Undecided(s', id) <==> Undecided(s, id)
    requires forall id | id in s'.pending :: id in s.pending
    ensures Dec(s')
  {
    hide Undecided, NoneTwice, DecidedIds;
  }

  /** Steps that decide one undecided id: it leaves the map, or stays only as
      answered while being written. */
  lemma DecDecide(s: State, d: Decision, s': State)
    requires Dec(s) && Undecided(s, d.id) && d.id in s.log.admitted
    requires s'.log.admitted == s.log.admitted && s'.log.decisions == s.log.decisions + [d]
    requires forall id: u32 :: Undecided(s', id) <==> Undecided(s, id) && id != d.id
    requires forall id | id in s'.pending :: id in s.pending
    requires d.id in s'.pending ==> d.Responded?
    ensures Dec(s')
  {
    hide Own, Undecided, NoneTwice, DecidedIds;
    Append(s.log.decisions, d);
    forall id | id in s'.pending && !Undecided(s', id)
      ensures Responded(id) in s'.log.decisions
    {
      if id == d.id {
        assert d in s'.log.decisions;
      } else {
        assert Responded(id) in s.log.decisions;
      }
    }
  }

  lemma DecCaller(s: State, step: Step, s': State)
    requires Own(s) && Dec(s) && CallerStep(s, step, s')
    ensures Dec(s')
  {
    if step.Admit? && step.retired {
      DecAdmit(s, step, s');
    } else {
      hide Own, Dec, NextSpec, BatchSpec, RetireSpec;
      DecQuiet(s, s');
    }
  }

  /** A new id enters the map undecided. */
  lemma DecEnters(s: State, id: u32, s': State)
    requires Dec(s) && id !in s.log.admitted && id !in s.pending
    requires s'.log.decisions == s.log.decisions
    requires forall x :: x in s'.log.admitted <==> x in s.log.admitted || x == id
    requires forall x: u32 :: Undecided(s', x) <==> Undecided(s, x) || x == id
    requires forall x | x in s'.pending :: x in s.pending || x == id
    ensures Dec(s')
  {
    hide Undecided, NoneTwice, DecidedIds;
    assert Decided(s, id) == Decided(s', id);
  }

  lemma DecAdmit(s: State, step: Step, s': State)
    requires Own(s) && Dec(s) && CallerStep(s, step, s') && step.Admit? && step.retired
    ensures Dec(s')
  {
    var id := step.id;
    assert id !in s.log.admitted && id !in s.pending;
    hide Own, Dec, RetireSpec;
    DecEnters(s, id, s');
  }

  lemma DecWriter(s: State, step: Step, s': State)
    requires Dec(s) && WriterStep(s, step, s')
    ensures Dec(s')
  {
    hide Dec;
    DecQuiet(s, s');
  }

  lemma DecRespond(s: State, id: u32)
    requires Own(s) && Dec(s)
    ensures Dec(RespondOne(s, id))
  {
    hide Own, Dec;
    OwnPending(s);
    if Answers(s.pending, id) {
      DecDecide(s, Responded(id), RespondOne(s, id));
    }
  }

  lemma DecScan(s: State, c: Config, step: Step, s': State)
    requires Own(s) && Dec(s) && ScanStep(s, c, step, s')
    ensures Dec(s')
  {
    hide Own, Dec, IsScanList, RetireSpec;
    if step.ScanTimeout? && StillExpired(s.pending, s.scanner.list[0]) && step.accepted {
      DecTimeout(s, c, step, s');
    } else {
      DecQuiet(s, s');
    }
  }

  lemma DecTimeout(s: State, c: Config, step: Step, s': State)
    requires Own(s) && Dec(s) && ScanStep(s, c, step, s')
    requires step.ScanTimeout? && StillExpired(s.pending, s.scanner.list[0]) && step.accepted
    ensures Dec(s')
  {
    hide Own, Dec, RetireSpec;
    OwnPending(s);
    DecDecide(s, TimedOut(s.scanner.list[0].sequenceId, s.scanner.list[0].attempt), s');
  }

  lemma DecShutdown(s: State, step: Step, s': State)
    requires Own(s) && Dec(s) && ShutdownStep(s, step, s')
    ensures Dec(s')
  {
    hide Own, Dec;
    OwnPending(s);
    if step.FailOne? && Undecided(s, step.id) {
      DecDecide(s, Dropped(step.id), s');
    } else {
      DecQuiet(s, s');
    }
  }

  lemma DecInit(s: State, c: Config)
    requires Init(s, c)
    ensures Dec(s)
  {
  }

  lemma DecNext(s: State, c: Config, step: Step, s': State)
    requires Own(s) && Dec(s) && Next(s, c, step, s')
    ensures Dec(s')
  {
    hide Own, Dec, CallerStep, WriterStep, ScanStep, ShutdownStep, RespondOne;
    if CallerStep(s, step, s') {
      DecCaller(s, step, s');
    } else if WriterStep(s, step, s') {
      DecWriter(s, step, s');
    } else if ScanStep(s, c, step, s') {
      DecScan(s, c, step, s');
    } else if ShutdownStep(s, step, s') {
      DecShutdown(s, step, s');
    } else {
      DecRespond(s, step.id);
    }
  }

  // -------------------------------------------------------------- conservation

  ghost function UndecidedIds(s: State): set<u32> {
    set id | id in s.pending && Undecided(s, id)
  }

  lemma {:induction false} CountDecisions(ds: seq<Decision>)
    requires NoneTwice(ds)
    ensures |DecidedIds(ds)| == |ds|
  {
    if ds != [] {
      var init, d := ds[..|ds| - 1], ds[|ds| - 1];
      assert ds == init + [d];
      Append(init, d);
      CountDecisions(init);
      forall e | e in init
        ensures e.id != d.id
      {
        var i :| 0 <= i < |init| && init[i] == e;
        assert ds[i] == e;
      }
    }
  }

  /** Admitted submits = terminal decisions + submits still undecided. */
  lemma AdmittedConserved(s: State)
    requires Own(s) && Dec(s)
    ensures |s.log.admitted| == |s.log.decisions| + |UndecidedIds(s)|
  {
    OwnPending(s);
    CountDecisions(s.log.decisions);
    AdmittedSplit(s);
  }

  lemma AdmittedSplit(s: State)
    requires Dec(s) && forall id | id in s.pending :: id in s.log.admitted
    ensures DecidedIds(s.log.decisions) !! UndecidedIds(s)
    ensures s.log.admitted.Keys == DecidedIds(s.log.decisions) + UndecidedIds(s)
  {
    hide NoneTwice, DecidedIds;
    forall id: u32
      ensures id in UndecidedIds(s) <==> Undecided(s, id)
    {
    }
    hide Undecided, UndecidedIds;
    forall id | id in DecidedIds(s.log.decisions)
      ensures id !in UndecidedIds(s)
    {
      assert Decided(s, id);
    }
  }

  /** Once teardown has emptied the map, every admitted submit has exactly one
      decision. */
  lemma AllDecided(s: State)
    requires Own(s) && Dec(s) && s.pending == map[]
    ensures forall id | id in s.log.admitted ::
              exists i :: && 0 <= i < |s.log.decisions| && s.log.decisions[i].id == id
                          && forall j | 0 <= j < |s.log.decisions| && j != i :: s.log.decisions[j].id != id
  {
    forall id | id in s.log.admitted
      ensures exists i :: && 0 <= i < |s.log.decisions| && s.log.decisions[i].id == id
                          && forall j | 0 <= j < |s.log.decisions| && j != i :: s.log.decisions[j].id != id
    {
      assert Decided(s, id);
      var d :| d in s.log.decisions && d.id == id;
      var i :| 0 <= i < |s.log.decisions| && s.log.decisions[i] == d;
    }
  }
}
