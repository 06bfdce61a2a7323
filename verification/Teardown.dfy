/** Where the submit window and the event spool meet: what a teardown asks of the
    spool. */
module Teardown {
  import opened Wrappers
  import opened SubmitModel
  import SubmitPromises
  import SubmitWindow
  import EventSpool

  /** In every reachable state, the ids a teardown could have to report fit into
      batches that are no more than the spool's ordinary slots. */
  lemma BatchesFitSpool(
    c: Config, states: seq<State>, steps: seq<Step>, n: nat, configured: nat, dropped: seq<u32>)
    requires Run(c, states, steps) && n < |states| && |dropped| <= |states[n].pending|
    ensures |SubmitWindow.Chunks(dropped)| <= EventSpool.SpoolCapacity(configured, c.windowSize)
  {
    hide Run;
    SubmitPromises.NothingLost(c, states, steps, n);
    EventSpool.TeardownFits(configured, c.windowSize, |dropped|);
  }
}
