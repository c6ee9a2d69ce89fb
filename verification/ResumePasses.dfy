/** Baidu Netdisk driver: what one pass over the parts amounts to, from its start to its end: which error
    ends it, that nothing is left in flight, and what a later call resumes. */
module ResumePasses {
  import opened Results
  import opened ResumeUpload

  // ---------- The first error of a pass ----------

  /** The step starts a pass of the call. */
  predicate Starts(step: Step, c: nat) {
    (step.Take? || step.Precreate? || step.Restart?) && step.c == c
  }

  /** A part of the call fails for good, or the call is cancelled. */
  predicate Errs(step: Step, c: nat) {
    (step.Failed? || step.Cancel?) && step.c == c
  }

  predicate Sending(s: State, c: nat) {
    c in s.calls && s.calls[c].Uploading?
  }

  /** Step `m` started the pass that the call is in, in state `n`. */
  ghost predicate Pass(states: seq<State>, steps: seq<Step>, c: nat, m: nat, n: nat)
    requires IsRun(states, steps) && n < |states|
  {
    m < n && Starts(steps[m], c) && forall k | m < k <= n :: Sending(states[k], c)
  }

  /** Step `f` is the first error of the pass that step `m` started, before step `n`. */
  ghost predicate FirstError(steps: seq<Step>, c: nat, m: nat, f: nat, n: nat)
    requires n <= |steps|
  {
    m < f < n && Errs(steps[f], c) && forall k | m < k < f :: !Errs(steps[k], c)
  }

  /** Within a pass a call keeps the first error it gets, and gets one only from its own steps. */
  lemma ErrorStays(s: State, step: Step, c: nat)
    requires Enabled(s, step) && Sending(s, c) && Sending(Apply(s, step), c)
    ensures s.calls[c].err != NoError ==> Apply(s, step).calls[c].err == s.calls[c].err
    ensures s.calls[c].err == NoError && !Errs(step, c) ==> Apply(s, step).calls[c].err == NoError
    ensures s.calls[c].err == NoError && step == Cancel(c) ==> Apply(s, step).calls[c].err == Cancelled
    ensures s.calls[c].err == NoError && step.Failed? && step.c == c ==> Apply(s, step).calls[c].err == step.cause
  {
  }

  /** A pass starts without an error. */
  lemma StartsClean(s: State, step: Step, c: nat)
    requires Enabled(s, step)
    ensures Starts(step, c) && Sending(Apply(s, step), c) ==> Apply(s, step).calls[c].err == NoError
    ensures Sending(Apply(s, step), c) && !Sending(s, c) ==> Starts(step, c)
    ensures Starts(step, c) ==> !Sending(s, c)
  {
  }

  lemma StepAt(states: seq<State>, steps: seq<Step>, i: nat)
    requires IsRun(states, steps) && i < |steps|
    ensures Enabled(states[i], steps[i]) && states[i + 1] == Apply(states[i], steps[i])
  {
  }

  /** A call that is sending is in a pass that some step started. */
  lemma {:induction false} InSomePass(states: seq<State>, steps: seq<Step>, c: nat, n: nat) returns (m: nat)
    requires IsRun(states, steps) && n < |states| && Sending(states[n], c)
    ensures Pass(states, steps, c, m, n)
  {
    hide Enabled, Apply, Starts, Sending;
    if n == 0 {
      NobodySends(states, steps, c);
    } else {
      StepAt(states, steps, n - 1);
      StartsClean(states[n - 1], steps[n - 1], c);
      if Sending(states[n - 1], c) {
        m := InSomePass(states, steps, c, n - 1);
      } else {
        m := n - 1;
      }
    }
  }

  lemma NobodySends(states: seq<State>, steps: seq<Step>, c: nat)
    requires IsRun(states, steps)
    ensures !Sending(states[0], c)
  {
  }

  /** The error of a call is that of the first step of its pass that is an error. */
  lemma {:induction false} PassError(states: seq<State>, steps: seq<Step>, c: nat, m: nat, n: nat)
    requires IsRun(states, steps) && n < |states| && Pass(states, steps, c, m, n)
    ensures states[n].calls[c].err == NoError <==> forall k | m < k < n :: !Errs(steps[k], c)
    ensures forall f: nat | FirstError(steps, c, m, f, n) ::
              states[n].calls[c].err == if steps[f].Cancel? then Cancelled else steps[f].cause
  {
    hide Enabled, Apply, Starts;
    StepAt(states, steps, n - 1);
    assert Sending(states[n], c);
    if n == m + 1 {
      StartsClean(states[m], steps[m], c);
    } else {
      assert Sending(states[n - 1], c);
      PassError(states, steps, c, m, n - 1);
      ErrorStays(states[n - 1], steps[n - 1], c);
      CausesAreErrors(states[n - 1], steps[n - 1]);
      forall f: nat | FirstError(steps, c, m, f, n) && f < n - 1 ensures FirstError(steps, c, m, f, n - 1) {
      }
    }
  }

  lemma CausesAreErrors(s: State, step: Step)
    requires Enabled(s, step)
    ensures step.Failed? ==> step.cause != NoError
  {
  }

  /** The first of the steps that are errors. */
  lemma {:induction false} FirstOf(steps: seq<Step>, c: nat, m: nat, n: nat) returns (f: nat)
    requires n <= |steps| && exists k :: m < k < n && Errs(steps[k], c)
    ensures FirstError(steps, c, m, f, n)
    decreases n
  {
    hide Errs;
    if exists k :: m < k < n - 1 && Errs(steps[k], c) {
      f := FirstOf(steps, c, m, n - 1);
    } else {
      f := n - 1;
    }
  }

  /** Over whole runs: a call that gives up a pass has seen an error in it, and starts over iff the first
      one was a part whose uploadid had expired, whatever came after it; otherwise the call ends. */
  lemma FirstErrorDecides(states: seq<State>, steps: seq<Step>, c: nat, n: nat)
    requires IsRun(states, steps) && n < |steps| && steps[n] == GiveUp(c)
    ensures exists m: nat, f: nat :: Pass(states, steps, c, m, n) && FirstError(steps, c, m, f, n)
    ensures forall m: nat, f: nat | Pass(states, steps, c, m, n) && FirstError(steps, c, m, f, n) ::
              if steps[f].Failed? && steps[f].cause == Expired
              then c in states[n + 1].calls && states[n + 1].calls[c].Restarting? else c !in states[n + 1].calls
  {
    StepAt(states, steps, n);
    assert Sending(states[n], c) && states[n].calls[c].err != NoError;
    var err := states[n].calls[c].err;
    assert if err == Expired then c in states[n + 1].calls && states[n + 1].calls[c].Restarting?
           else c !in states[n + 1].calls;
    hide Enabled, Apply, Starts, Sending;
    var m := InSomePass(states, steps, c, n);
    PassError(states, steps, c, m, n);
    var f := FirstOf(steps, c, m, n);
    assert FirstError(steps, c, m, f, n);
    forall m': nat, f': nat | Pass(states, steps, c, m', n) && FirstError(steps, c, m', f', n)
      ensures err == if steps[f'].Cancel? then Cancelled else steps[f'].cause
    {
      PassError(states, steps, c, m', n);
    }
  }

  /** A call goes on to create the file without a restart only after a pass in which nothing failed. */
  lemma AllSentWithoutError(states: seq<State>, steps: seq<Step>, c: nat, n: nat)
    requires IsRun(states, steps) && n < |steps| && steps[n] == AllSent(c)
    ensures exists m: nat :: Pass(states, steps, c, m, n) && forall k | m < k < n :: !Errs(steps[k], c)
  {
    StepAt(states, steps, n);
    assert Sending(states[n], c) && states[n].calls[c].err == NoError;
    hide Enabled, Apply, Starts, Sending, Errs;
    var m := InSomePass(states, steps, c, n);
    PassError(states, steps, c, m, n);
  }

  // ---------- How a call goes on ----------

  datatype Phase = Away | AtParts | AtRestart | AtCreate

  function PhaseOf(s: State, c: nat): Phase {
    if c !in s.calls then Away
    else
      match s.calls[c]
      case Uploading(_, _, _, _, _, _) => AtParts
      case Restarting(_, _) => AtRestart
      case Creating(_, _, _) => AtCreate
  }

  /** The ways in which a call goes on: it starts with its parts; from there it gives up, and then ends or
      starts over, or goes on to create the file; starting over leads back to the parts, on to the creation, or
      fails; and creation ends the call.  Nothing else ever changes where a call is. */
  lemma PhaseStep(s: State, step: Step, c: nat)
    requires Enabled(s, step) && !Apply(s, step).crashed
    ensures var before, after := PhaseOf(s, c), PhaseOf(Apply(s, step), c);
            match step
            case Take(d) => if d == c then before.Away? && after.AtParts? else before == after
            case Precreate(d, _) => if d == c then before.Away? && after.AtParts? else before == after
            case AllSent(d) => if d == c then before.AtParts? && after.AtCreate? else before == after
            case GiveUp(d) => if d == c then before.AtParts? && (after.AtRestart? || after.Away?) else before == after
            case Restart(d, _) =>
              if d == c then before.AtRestart? && (after.AtParts? || after.AtCreate?) else before == after
            case RestartFails(d) => if d == c then before.AtRestart? && after.Away? else before == after
            case Create(d, _) => if d == c then before.AtCreate? && after.Away? else before == after
            case Evict => before == after
            case _ => before == after && (step.c == c ==> before.AtParts?)
  {
    hide Pending;
  }

  lemma PassNumber(s: State, step: Step, c: nat)
    requires Enabled(s, step) && Sending(Apply(s, step), c)
    ensures Starts(step, c) ==> Apply(s, step).calls[c].pass == if step.Restart? then 2 else 1
    ensures !Starts(step, c) ==> Sending(s, c) && Apply(s, step).calls[c].pass == s.calls[c].pass
    ensures Starts(step, c) && step.Restart? ==> c in s.calls && s.calls[c].Restarting? && s.calls[c].pass == 1
  {
  }

  /** Over whole runs: a call goes through its parts a second time exactly after a restart; it then does not
      restart into a third. */
  lemma {:induction false} TwoPasses(states: seq<State>, steps: seq<Step>, c: nat, m: nat, n: nat)
    requires IsRun(states, steps) && n < |states| && Pass(states, steps, c, m, n)
    ensures states[n].calls[c].pass == if steps[m].Restart? then 2 else 1
  {
    hide Enabled, Apply, Starts;
    StepAt(states, steps, n - 1);
    assert Sending(states[n], c);
    PassNumber(states[n - 1], steps[n - 1], c);
    if m + 1 < n {
      TwoPasses(states, steps, c, m, n - 1);
      StartsClean(states[n - 1], steps[n - 1], c);
      assert Sending(states[n - 1], c);
    }
  }

  // ---------- Nothing is left in flight ----------

  /** Step `k` puts a part of the call in flight, under this index. */
  ghost predicate Launches(s: State, step: Step, c: nat, i: nat) {
    && step == Launch(c) && IsUploading(s, c) && s.calls[c].next == i
    && i < |s.lists[s.calls[c].list]| && s.lists[s.calls[c].list][i] >= 0
  }

  /** The part of the call under this index is confirmed or fails for good. */
  predicate Answers(step: Step, c: nat, i: nat) {
    (step.Sent? || step.Failed?) && step.c == c && step.i == i
  }

  predicate InFlight(s: State, c: nat, i: nat) {
    Sending(s, c) && i in s.calls[c].tasks
  }

  lemma FlightStep(s: State, step: Step, c: nat, i: nat)
    requires Enabled(s, step)
    ensures Launches(s, step, c, i) ==> InFlight(Apply(s, step), c, i)
    ensures InFlight(s, c, i) && !Answers(step, c, i) ==> InFlight(Apply(s, step), c, i)
    ensures step == GiveUp(c) || step == AllSent(c) ==> !InFlight(s, c, i)
  {
  }

  lemma {:induction false} StaysInFlight(states: seq<State>, steps: seq<Step>, c: nat, i: nat, k: nat, n: nat)
    requires IsRun(states, steps) && k < n < |states| && Launches(states[k], steps[k], c, i)
    requires forall j | k < j < n :: !Answers(steps[j], c, i)
    ensures InFlight(states[n], c, i)
    decreases n
  {
    hide Enabled, Apply, Launches, InFlight, Answers;
    StepAt(states, steps, n - 1);
    FlightStep(states[n - 1], steps[n - 1], c, i);
    if k + 1 < n {
      StaysInFlight(states, steps, c, i, k, n - 1);
    }
  }

  /** A call ends a pass only when every part it launched has been confirmed or has failed. */
  lemma EveryLaunchAnswered(states: seq<State>, steps: seq<Step>, c: nat, i: nat, k: nat, n: nat)
    requires IsRun(states, steps) && k < n < |steps| && Launches(states[k], steps[k], c, i)
    requires steps[n] == GiveUp(c) || steps[n] == AllSent(c)
    ensures exists j :: k < j < n && Answers(steps[j], c, i)
  {
    hide Enabled, Apply, Launches, InFlight, Answers;
    StepAt(states, steps, n);
    FlightStep(states[n], steps[n], c, i);
    if forall j | k < j < n :: !Answers(steps[j], c, i) {
      StaysInFlight(states, steps, c, i, k, n);
    }
  }

  // ---------- What a later call resumes ----------

  /** The list holds exactly the parts of a progress that were asked for and not confirmed, each once. */
  ghost predicate Unconfirmed(prog: Progress, list: seq<int>) {
    && (forall x: nat :: x in list <==> x in prog.asked && x !in prog.confirmed)
    && (forall x <- list :: x >= 0)
    && (forall i, j | 0 <= i < j < |list| :: list[i] != list[j])
  }

  lemma PendingIsUnconfirmed(prog: Progress, list: seq<int>)
    requires Conserved(prog, list)
    ensures Unconfirmed(prog, Pending(list))
  {
    hide Pending;
    PendingExact(list);
    FilterConserves(prog, list);
    var kept := Pending(list);
    forall x <- kept ensures x in prog.asked && x !in prog.confirmed {
      var i :| 0 <= i < |kept| && kept[i] == x;
    }
    forall i | 0 <= i < |kept| ensures kept[i] >= 0 {
      assert kept[i] in kept;
    }
  }

  /** Whatever ends a pass early, the next call that takes the saved progress starts at the beginning of a
      list of exactly the parts that are not confirmed yet. */
  lemma ResumeTakesUnconfirmed(s: State, c: nat, d: nat)
    requires Inv(s) && Enabled(s, GiveUp(c)) && d !in Apply(s, GiveUp(c)).calls
    ensures var t := Apply(s, GiveUp(c));
            && Enabled(t, Take(d))
            && var u := Apply(t, Take(d));
               && u.calls[d].Uploading? && u.calls[d].list < |u.lists|
               && u.calls[d].next == 0 && u.calls[d].tasks == map[] && u.calls[d].err == NoError
               && Unconfirmed(s.progs[s.calls[c].prog], u.lists[u.calls[d].list])
  {
    hide ProgsRight, CallsRight, Exclusive, CacheRight, Conserved, Pending, Unconfirmed;
    var p := s.calls[c].prog;
    ProgConserved(s, p);
    PendingIsUnconfirmed(s.progs[p], s.lists[s.progs[p].list]);
  }

  // ---------- What was asked for ----------

  /** Step `j` had the server asked for the parts of progress `p`. */
  ghost predicate AskedBy(states: seq<State>, steps: seq<Step>, p: nat, j: nat)
    requires IsRun(states, steps) && j < |steps|
  {
    && (steps[j].Precreate? || steps[j].Restart?) && |states[j].progs| == p < |states[j + 1].progs|
    && states[j + 1].progs[p].list < |states[j + 1].lists|
    && states[j + 1].lists[states[j + 1].progs[p].list] == steps[j].answer
  }

  lemma AskedStep(s: State, step: Step)
    requires Enabled(s, step)
    ensures var t := Apply(s, step);
            && |s.progs| <= |t.progs| <= |s.progs| + 1
            && (forall p | 0 <= p < |s.progs| :: t.progs[p].asked == s.progs[p].asked)
            && (|t.progs| > |s.progs| ==>
                  var p := |s.progs|;
                  && (step.Precreate? || step.Restart?) && t.progs[p].list < |t.lists|
                  && t.lists[t.progs[p].list] == step.answer
                  && t.progs[p].asked == (set x <- step.answer) && t.progs[p].confirmed == {})
  {
    hide Pending;
    if step.Precreate? || step.Restart? {
      var list := NewProgress(s, step.answer).lists[|s.lists|];
      assert list == step.answer;
    }
  }

  /** Over whole runs: what a progress asks for is the answer of the server that made it, and its first
      block list is that answer, in the order of the server. */
  lemma {:induction false} AskedIsAnswer(states: seq<State>, steps: seq<Step>, n: nat, p: nat)
    requires IsRun(states, steps) && n < |states| && p < |states[n].progs|
    ensures exists j: nat ::
              j < n && AskedBy(states, steps, p, j) && states[n].progs[p].asked == set x <- steps[j].answer
  {
    hide Enabled, Apply;
    if n > 0 {
      StepAt(states, steps, n - 1);
      AskedStep(states[n - 1], steps[n - 1]);
      if p < |states[n - 1].progs| {
        AskedIsAnswer(states, steps, n - 1, p);
      } else {
        assert AskedBy(states, steps, p, n - 1);
      }
    }
  }
}
