/** Progress: an expired attempt cannot wait behind others for more than four
    timeout scans. */
module SubmitScans {
  import opened Wrappers
  import opened SequenceRegistry
  import opened SubmitModel
  import opened SubmitOwnership
  import opened SubmitDecisions
  import opened SubmitPlaces
  import opened SubmitTheorems
  import opened SubmitPromises

  /** Unanswered attempts at least as old as one written at `t` under `id`. */
  ghost function Front(p: Pending, t: nat, id: u32): set<u32> {
    set x | x in p && InFront(p[x].state, x, t, id)
  }

  predicate InFront(st: AttemptState, x: u32, t: nat, id: u32) {
    st.AwaitingResponse? && (st.writtenAt < t || (st.writtenAt == t && x <= id))
  }

  // ------------------------------------------------------- how the front moves

  /** An entry begins to await its response only now. */
  ghost predicate OldEntriesOnly(s: State, s': State) {
    && s.now <= s'.now
    && forall x | x in s'.pending && s'.pending[x].state.AwaitingResponse? && s'.pending[x].state.writtenAt != s.now ::
         x in s.pending && s'.pending[x] == s.pending[x]
  }

  lemma OldCaller(s: State, step: Step, s': State)
    requires CallerStep(s, step, s')
    ensures OldEntriesOnly(s, s')
  {
    hide NextSpec, BatchSpec, RetireSpec;
  }

  lemma OldWriter(s: State, step: Step, s': State)
    requires WriterStep(s, step, s')
    ensures OldEntriesOnly(s, s')
  {
  }

  lemma OldScan(s: State, c: Config, step: Step, s': State)
    requires ScanStep(s, c, step, s')
    ensures OldEntriesOnly(s, s')
  {
    hide IsScanList, RetireSpec;
  }

  lemma OldShutdown(s: State, step: Step, s': State)
    requires ShutdownStep(s, step, s')
    ensures OldEntriesOnly(s, s')
  {
  }

  lemma OldRespond(s: State, id: u32)
    ensures OldEntriesOnly(s, RespondOne(s, id))
  {
  }

  lemma OldStep(s: State, c: Config, step: Step, s': State)
    requires Next(s, c, step, s')
    ensures OldEntriesOnly(s, s')
  {
    hide OldEntriesOnly, CallerStep, WriterStep, ScanStep, ShutdownStep, RespondOne;
    if CallerStep(s, step, s') {
      OldCaller(s, step, s');
    } else if WriterStep(s, step, s') {
      OldWriter(s, step, s');
    } else if ScanStep(s, c, step, s') {
      OldScan(s, c, step, s');
    } else if ShutdownStep(s, step, s') {
      OldShutdown(s, step, s');
    } else {
      OldRespond(s, step.id);
    }
  }

  /** Nothing joins the front of an attempt written in the past, and whoever stays
      in it has not moved. */
  lemma {:induction false} FrontShrinks(
    c: Config, states: seq<State>, steps: seq<Step>, i: nat, j: nat, t: nat, id: u32)
    requires Run(c, states, steps) && i <= j < |states| && t < states[i].now
    ensures states[i].now <= states[j].now
    ensures Front(states[j].pending, t, id) <= Front(states[i].pending, t, id)
    ensures forall x | x in Front(states[j].pending, t, id) :: states[j].pending[x] == states[i].pending[x]
    decreases j - i
  {
    hide Next, Init, ValidConfig;
    if i < j {
      FrontShrinks(c, states, steps, i, j - 1, t, id);
      OldStep(states[j - 1], c, steps[j - 1], states[j]);
    }
  }

  // ------------------------------------------------------------------ one scan

  /** States `p`..`q` hold one scan: started by step `p`, worked off by `q`. */
  ghost predicate IsScan(states: seq<State>, steps: seq<Step>, p: nat, q: nat) {
    && p < q < |states| && q <= |steps|
    && steps[p].ScanStart?
    && states[q].scanner == Scanner([], false)
    && forall r | p < r < q :: !steps[r].ScanStart?
  }

  /** The queue has room, events are accepted and the connection stays open. */
  ghost predicate Unhindered(states: seq<State>, steps: seq<Step>, i: nat, j: nat) {
    && i <= j < |states| && j <= |steps|
    && forall r | i <= r < j ::
         && !steps[r].ScanSkip?
         && (steps[r].ScanTimeout? ==> steps[r].accepted)
         && states[r].shutdown.phase == Open
  }

  /** What one step does to the scan list: nothing, or its head is dealt with. */
  lemma ListStep(s: State, c: Config, step: Step, s': State)
    requires Next(s, c, step, s') && !step.ScanStart? && !step.ScanSkip?
    requires step.ScanTimeout? ==> step.accepted
    requires s.shutdown.phase == Open
    ensures || s'.scanner.list == s.scanner.list
            || (&& |s.scanner.list| > 0 && s'.scanner.list == s.scanner.list[1..]
                && (StillExpired(s.pending, s.scanner.list[0]) ==>
                      s.scanner.list[0].sequenceId in s'.pending ==>
                        !s'.pending[s.scanner.list[0].sequenceId].state.AwaitingResponse?))
  {
    hide CallerStep, WriterStep, ScanStep, ShutdownStep, RespondOne;
    if CallerStep(s, step, s') {
      CallerKeepsScanner(s, step, s');
    } else if WriterStep(s, step, s') {
      WriterKeepsScanner(s, step, s');
    } else if ScanStep(s, c, step, s') {
      ScanDealsWithHead(s, c, step, s');
    } else if ShutdownStep(s, step, s') {
      ShutdownKeepsScanner(s, step, s');
    } else {
      RespondKeepsScanner(s, step.id);
    }
  }

  lemma ScanDealsWithHead(s: State, c: Config, step: Step, s': State)
    requires ScanStep(s, c, step, s') && !step.ScanStart? && !step.ScanSkip?
    requires step.ScanTimeout? ==> step.accepted
    requires s.shutdown.phase == Open
    ensures || s'.scanner.list == s.scanner.list
            || (&& |s.scanner.list| > 0 && s'.scanner.list == s.scanner.list[1..]
                && (StillExpired(s.pending, s.scanner.list[0]) ==>
                      s.scanner.list[0].sequenceId in s'.pending ==>
                        !s'.pending[s.scanner.list[0].sequenceId].state.AwaitingResponse?))
  {
    hide RetireSpec;
  }

  /** During a scan, a listed attempt is still to come or has left the front. */
  lemma {:induction false} ScanProgress(
    c: Config, states: seq<State>, steps: seq<Step>, p: nat, r: nat, q: nat, t: nat, id: u32, k: Key)
    requires Run(c, states, steps) && IsScan(states, steps, p, q) && Unhindered(states, steps, p, q)
    requires t < states[p].now && p < r <= q
    requires k in states[p + 1].scanner.list
    requires k.sequenceId in Front(states[p].pending, t, id) ==> k == KeyOf(states[p].pending, k.sequenceId)
    ensures k in states[r].scanner.list || k.sequenceId !in Front(states[r].pending, t, id)
    decreases r
  {
    hide Next, Init, ValidConfig;
    if r > p + 1 {
      ScanProgress(c, states, steps, p, r - 1, q, t, id, k);
      FrontShrinks(c, states, steps, p, r - 1, t, id);
      FrontShrinks(c, states, steps, r - 1, r, t, id);
      assert !steps[r - 1].ScanStart?;
      HeadLeavesFront(states[p].pending, states[r - 1], c, steps[r - 1], states[r], t, id, k);
    }
  }

  lemma HeadLeavesFront(p0: Pending, s: State, c: Config, step: Step, s': State, t: nat, id: u32, k: Key)
    requires Next(s, c, step, s') && !step.ScanStart? && !step.ScanSkip?
    requires step.ScanTimeout? ==> step.accepted
    requires s.shutdown.phase == Open
    requires k in s.scanner.list || k.sequenceId !in Front(s.pending, t, id)
    requires Front(s'.pending, t, id) <= Front(s.pending, t, id) <= Front(p0, t, id)
    requires forall x | x in Front(s.pending, t, id) :: s.pending[x] == p0[x]
    requires k.sequenceId in Front(p0, t, id) ==> k == KeyOf(p0, k.sequenceId)
    ensures k in s'.scanner.list || k.sequenceId !in Front(s'.pending, t, id)
  {
    hide Next;
    ListStep(s, c, step, s');
    var x := k.sequenceId;
    if x in Front(s.pending, t, id) && k !in s'.scanner.list {
      assert k in s.scanner.list;
      assert s'.scanner.list != s.scanner.list;
      assert k == s.scanner.list[0];
      assert StillExpired(s.pending, k);
    }
  }

  /** A scan that starts after the attempt expired either takes it out of its
      front or takes out a full retry batch of older ones. */
  lemma ScanAdvances(c: Config, states: seq<State>, steps: seq<Step>, p: nat, q: nat, t: nat, id: u32)
    requires Run(c, states, steps) && IsScan(states, steps, p, q) && Unhindered(states, steps, p, q)
    requires t + c.responseTimeout <= states[p].now
    ensures id in Front(states[q].pending, t, id) ==>
              |Front(states[q].pending, t, id)| + RetryBatchSize(c) <= |Front(states[p].pending, t, id)|
  {
    var front, rest := Front(states[p].pending, t, id), Front(states[q].pending, t, id);
    assert ValidConfig(c);
    FrontShrinks(c, states, steps, p, q, t, id);
    if id in rest {
      var list := states[p + 1].scanner.list;
      assert Next(states[p], c, steps[p], states[p + 1]);
      StartsList(states[p], c, states[p + 1]);
      hide Run, Next;
      var listed := Ids(list);
      forall k | k in list
        ensures k.sequenceId !in rest
      {
        ScanProgress(c, states, steps, p, q, q, t, id, k);
      }
      assert KeyOf(states[p].pending, id) !in list;
      assert Expired(states[p], c, id);
      assert listed <= front;
      ListedSize(list);
      assert rest <= front - listed;
      SubsetSize(rest, front - listed);
    }
  }

  lemma StartsList(s: State, c: Config, s': State)
    requires Next(s, c, ScanStart, s')
    ensures s'.pending == s.pending && IsScanList(s, c, s'.scanner.list)
  {
  }

  ghost function Ids(list: seq<Key>): set<u32> {
    set k | k in list :: k.sequenceId
  }

  lemma IdsSnoc(init: seq<Key>, last: Key)
    ensures Ids(init + [last]) == Ids(init) + {last.sequenceId}
  {
    forall x
      ensures x in Ids(init + [last]) <==> x in Ids(init) || x == last.sequenceId
    {
      if x in Ids(init) {
        var k :| k in init && k.sequenceId == x;
        assert k in init + [last];
      }
      if x == last.sequenceId {
        assert last in init + [last];
      }
    }
  }

  lemma {:induction false} ListedSize(list: seq<Key>)
    requires forall i, j | 0 <= i < j < |list| :: list[i].sequenceId != list[j].sequenceId
    ensures |Ids(list)| == |list|
  {
    if list != [] {
      var init, last := list[..|list| - 1], list[|list| - 1];
      assert list == init + [last];
      ListedSize(init);
      IdsSnoc(init, last);
      forall k | k in init
        ensures k.sequenceId != last.sequenceId
      {
        var i :| 0 <= i < |init| && init[i] == k;
        assert list[i] == k;
      }
    }
  }

  // ----------------------------------------------------------------- the bound

  lemma FrontInWindow(c: Config, states: seq<State>, steps: seq<Step>, n: nat, t: nat, id: u32)
    requires Run(c, states, steps) && n < |states|
    ensures |Front(states[n].pending, t, id)| <= c.windowSize
  {
    hide Own, Dec, Frames, Timed, Draining, Next, Init, ValidConfig;
    At(c, states, steps, n);
    SubsetSize(Front(states[n].pending, t, id), states[n].pending.Keys);
  }

  /** Four scans in a row, each unhindered; anything may happen between them. */
  ghost predicate FourScans(states: seq<State>, steps: seq<Step>, p: seq<nat>, q: seq<nat>) {
    && |p| == |q| == 4
    && (forall m | 0 <= m < 4 :: IsScan(states, steps, p[m], q[m]))
    && (forall m | 0 <= m < 4 :: Unhindered(states, steps, p[m], q[m]))
    && (forall m | 0 <= m < 3 :: q[m] <= p[m + 1])
  }

  /** Four unhindered scans after its expiry, an attempt no longer awaits its
      response: it was queued again, timed out, answered or dropped meanwhile.
      Anything may happen between and during the scans. */
  lemma FourScansSuffice(
    c: Config, states: seq<State>, steps: seq<Step>, p: seq<nat>, q: seq<nat>, id: u32)
    requires Run(c, states, steps) && FourScans(states, steps, p, q)
    requires Expired(states[p[0]], c, id)
    ensures id !in states[q[3]].pending || states[q[3]].pending[id].state != states[p[0]].pending[id].state
  {
    var t := states[p[0]].pending[id].state.writtenAt;
    assert ValidConfig(c);
    FrontInWindow(c, states, steps, p[0], t, id);
    assert q[0] <= p[1] && q[1] <= p[2] && q[2] <= p[3];
    hide Init, Next, IsScan, Unhindered;
    ScanThenGap(c, states, steps, p[0], q[0], p[1], t, id);
    ScanThenGap(c, states, steps, p[1], q[1], p[2], t, id);
    ScanThenGap(c, states, steps, p[2], q[2], p[3], t, id);
    ScanThenGap(c, states, steps, p[3], q[3], q[3], t, id);
    MemberCounts(Front(states[q[3]].pending, t, id), id);
  }

  lemma MemberCounts(s: set<u32>, x: u32)
    ensures x in s ==> |s| >= 1
  {
    if x in s {
      SubsetSize({x}, s);
    }
  }

  /** From the start of one scan to the start of the next. */
  lemma ScanThenGap(c: Config, states: seq<State>, steps: seq<Step>, p: nat, q: nat, p': nat, t: nat, id: u32)
    requires Run(c, states, steps) && IsScan(states, steps, p, q) && Unhindered(states, steps, p, q)
    requires t + c.responseTimeout <= states[p].now && q <= p' < |states|
    ensures states[p].now <= states[p'].now
    ensures Front(states[p'].pending, t, id) <= Front(states[p].pending, t, id)
    ensures id in Front(states[p'].pending, t, id) ==>
              |Front(states[p'].pending, t, id)| + RetryBatchSize(c) <= |Front(states[p].pending, t, id)|
  {
    assert ValidConfig(c);
    hide Init, Next, Unhindered;
    FrontShrinks(c, states, steps, p, q, t, id);
    FrontShrinks(c, states, steps, q, p', t, id);
    ScanAdvances(c, states, steps, p, q, t, id);
    SubsetSize(Front(states[p'].pending, t, id), Front(states[q].pending, t, id));
  }
}
