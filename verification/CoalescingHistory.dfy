/**
 * The history of a run of ScanCoalescing: which request each scan was started by, and which scan
 * each request shares.
 */
module CoalescingHistory {
  import opened Prelude
  import opened ScanCoalescing

  /** What a step does to the history of a scan that is there already. */
  lemma StepOnScan(s: State, step: Step, gen: nat)
    requires Inv(s) && Enabled(s, step) && gen < |s.coord.scans|
    ensures
      var after := Apply(s, step);
      && |after.coord.scans| == |after.runs| >= |s.coord.scans|
      && after.coord.scans[gen].key == s.coord.scans[gen].key && after.runs[gen].leader == s.runs[gen].leader
      && (if step.ScanReturns? && s.procs[step.p].gen == gen
          then s.runs[gen].leader == step.p && after.runs[gen].outcome == Some(step.outcome)
          else after.runs[gen].outcome == s.runs[gen].outcome)
  {
    assert ProcInv(s, step.p);
  }

  /** And a new scan is started by the request that enters. */
  lemma StepAddsScan(s: State, step: Step)
    requires Inv(s) && Enabled(s, step) && |Apply(s, step).coord.scans| > |s.coord.scans|
    ensures step.EnterStep?
    ensures
      var after, gen := Apply(s, step), |s.coord.scans|;
      && |after.coord.scans| == |after.runs| == gen + 1
      && after.coord.scans[gen].key == step.key && after.runs[gen] == ScanRun(step.p, None)
  {
  }

  /** Every scan was started by its leader's request, and what it returned, it returned later. */
  lemma {:induction false} ScanHistory(states: seq<State>, steps: seq<Step>, j: nat, gen: nat)
    returns (i: nat, k: nat)
    requires Execution(states, steps) && Inv(states[0]) && states[0].coord.scans == []
    requires j < |states| && InRange(states[j]) && gen < |states[j].coord.scans|
    ensures i < j && steps[i].EnterStep? && |states[i].coord.scans| == gen
    ensures steps[i].p == states[j].runs[gen].leader && steps[i].key == states[j].coord.scans[gen].key
    ensures states[j].runs[gen].outcome.Some? ==>
              i < k < j && steps[k] == ScanReturns(states[j].runs[gen].leader, states[j].runs[gen].outcome.value)
  {
    ExecutionKeepsInv(states, steps, j - 1);
    var before, step := states[j - 1], steps[j - 1];
    if gen >= |before.coord.scans| {
      StepAddsScan(before, step);
      i, k := j - 1, 0;
    } else {
      i, k := ScanHistory(states, steps, j - 1, gen);
      StepOnScan(before, step, gen);
      if step.ScanReturns? && before.procs[step.p].gen == gen {
        k := j - 1;
      }
    }
  }

  /** What a step does to a request: it may enter, and then it stays with its scan. */
  lemma StepOnRequest(s: State, step: Step, p: nat)
    requires Inv(s) && Enabled(s, step) && p < |s.procs|
    ensures |Apply(s, step).procs| == |s.procs| && InRange(Apply(s, step))
    ensures
      var after := Apply(s, step);
      var proc := after.procs[p];
      !proc.Idle? && !proc.Crashed? ==>
        if s.procs[p].Idle?
        then step.EnterStep? && step.p == p && proc.gen == s.coord.Target(step.key)
             && after.coord.scans[proc.gen].key == step.key
        else !s.procs[p].Crashed? && proc.gen == s.procs[p].gen
             && after.coord.scans[proc.gen].key == s.coord.scans[proc.gen].key
  {
    assert ProcInv(s, p) && ProcInv(s, step.p);
    StepKeepsInv(s, step);
  }

  /** So from one state of a run to the next. */
  lemma RequestStep(states: seq<State>, steps: seq<Step>, i: nat, p: nat)
    requires Execution(states, steps) && Inv(states[0]) && i < |steps| && InRange(states[i + 1])
    requires p < |states[i + 1].procs| && !states[i + 1].procs[p].Idle? && !states[i + 1].procs[p].Crashed?
    ensures p < |states[i].procs| && InRange(states[i])
    ensures
      var proc, key := states[i + 1].procs[p], states[i + 1].coord.scans[states[i + 1].procs[p].gen].key;
      if states[i].procs[p].Idle?
      then steps[i].EnterStep? && steps[i].p == p && key == steps[i].key
           && proc.gen == states[i].coord.Target(steps[i].key)
      else !states[i].procs[p].Crashed? && proc.gen == states[i].procs[p].gen
           && key == states[i].coord.scans[proc.gen].key
  {
    ExecutionKeepsInv(states, steps, i);
    if p < |states[i].procs| {
      StepOnRequest(states[i], steps[i], p);
    }
  }

  /** A request that is under way entered at some step, at or after the start of its scan. */
  lemma {:induction false} RequestHistory(states: seq<State>, steps: seq<Step>, j: nat, p: nat) returns (e: nat)
    requires Execution(states, steps) && Inv(states[0])
    requires forall q :: 0 <= q < |states[0].procs| ==> states[0].procs[q].Idle?
    requires j < |states| && InRange(states[j]) && p < |states[j].procs|
    requires !states[j].procs[p].Idle? && !states[j].procs[p].Crashed?
    ensures e < j && steps[e].EnterStep? && steps[e].p == p && InRange(states[e])
    ensures states[e].coord.Target(steps[e].key) == states[j].procs[p].gen
    ensures steps[e].key == states[j].coord.scans[states[j].procs[p].gen].key
  {
    RequestStep(states, steps, j - 1, p);
    if states[j - 1].procs[p].Idle? {
      e := j - 1;
    } else {
      e := RequestHistory(states, steps, j - 1, p);
    }
  }
}
