/** Baidu Netdisk driver: when a confirmation finds its index past the end of the block list, which
    ends the process. */
module ResumeCrash {
  import opened Results
  import opened ResumeUpload
  import opened ResumeSharing

  // ---------- Exactly when a crash lies ahead ----------

  ghost predicate Shaped(s: State) {
    && (forall p | 0 <= p < |s.progs| :: s.progs[p].list < |s.lists|)
    && (forall c <- s.calls :: s.calls[c].Uploading? ==> s.calls[c].prog < |s.progs| && s.calls[c].list < |s.lists|)
  }

  /** The block list that the confirmations of a call write to. */
  function CurrentList(s: State, call: Call): seq<int>
    requires call.prog < |s.progs| && s.progs[call.prog].list < |s.lists|
  {
    s.lists[s.progs[call.prog].list]
  }

  /** Every part in flight, of any call, has its index inside the list that its confirmation will write
      to. */
  ghost predicate Inside(s: State)
    requires Shaped(s)
  {
    forall c, i | c in s.calls && s.calls[c].Uploading? && i in s.calls[c].tasks :: i < |CurrentList(s, s.calls[c])|
  }

  lemma ShapedKeeps(s: State, step: Step)
    requires Shaped(s) && Enabled(s, step)
    ensures Shaped(Apply(s, step))
  {
  }

  /** Giving up filters the list that another call still has parts in flight for, past the new end. */
  ghost predicate CutsOff(s: State, step: Step)
    requires Shaped(s) && Enabled(s, step)
  {
    step.GiveUp? &&
    exists d, i ::
      && d in s.calls && d != step.c && WorksOn(s, d, s.calls[step.c].prog) && i in s.calls[d].tasks
      && i >= |Pending(CurrentList(s, s.calls[step.c]))|
  }

  /** A call still walking the list as it was launches a part past the end of the list as it is. */
  predicate LaunchesPast(s: State, step: Step)
    requires Shaped(s) && Enabled(s, step)
  {
    step.Launch? &&
    var call := s.calls[step.c];
    s.lists[call.list][call.next] >= 0 && call.next >= |CurrentList(s, call)|
  }

  lemma GiveUpInside(s: State, c: nat)
    requires Shaped(s) && Inside(s) && Enabled(s, GiveUp(c)) && Shaped(Apply(s, GiveUp(c)))
    ensures Inside(Apply(s, GiveUp(c))) <==> !CutsOff(s, GiveUp(c))
  {
    hide Pending;
    var t := Apply(s, GiveUp(c));
    var p := s.calls[c].prog;
    forall d | d in t.calls && t.calls[d].Uploading?
      ensures d != c && d in s.calls && t.calls[d] == s.calls[d]
      ensures CurrentList(t, t.calls[d])
           == if t.calls[d].prog == p then Pending(CurrentList(s, s.calls[c])) else CurrentList(s, s.calls[d])
    {
    }
    if d, i :| d in s.calls && d != c && WorksOn(s, d, p) && i in s.calls[d].tasks
               && i >= |Pending(CurrentList(s, s.calls[c]))| {
      assert d in t.calls && t.calls[d].Uploading? && i in t.calls[d].tasks;
      assert !Inside(t);
    }
  }

  /** The two steps, and no others, that put a part in flight past the end of its list. */
  lemma InsideStepIff(s: State, step: Step)
    requires Shaped(s) && Inside(s) && Enabled(s, step) && Shaped(Apply(s, step))
    ensures Inside(Apply(s, step)) <==> !CutsOff(s, step) && !LaunchesPast(s, step)
  {
    hide Pending;
    var t := Apply(s, step);
    match step
    case GiveUp(c) => GiveUpInside(s, c);
    case Launch(c) =>
      if LaunchesPast(s, step) {
        assert s.calls[c].next in t.calls[c].tasks;
      }
    case _ =>
  }

  /** A confirmation can crash the process in a state iff a part is in flight past the end of its list. */
  lemma CrashNextIff(s: State)
    requires Shaped(s) && !s.crashed
    ensures Inside(s) <==> forall c, i | Enabled(s, Sent(c, i)) :: !Apply(s, Sent(c, i)).crashed
  {
    if !Inside(s) {
      var c, i :| c in s.calls && s.calls[c].Uploading? && i in s.calls[c].tasks && i >= |CurrentList(s, s.calls[c])|;
      assert Enabled(s, Sent(c, i)) && Apply(s, Sent(c, i)).crashed;
    }
  }

  lemma {:induction false} AllShaped(states: seq<State>, steps: seq<Step>, n: nat)
    requires IsRun(states, steps) && n < |states|
    ensures Shaped(states[n])
  {
    hide Enabled, Apply;
    if n > 0 {
      AllShaped(states, steps, n - 1);
      assert Enabled(states[n - 1], steps[n - 1]) && states[n] == Apply(states[n - 1], steps[n - 1]);
      ShapedKeeps(states[n - 1], steps[n - 1]);
    }
  }

  /** Step `k` of a run is one of the two. */
  ghost predicate Strands(states: seq<State>, steps: seq<Step>, k: nat)
    requires IsRun(states, steps) && k < |steps|
  {
    Shaped(states[k]) && (CutsOff(states[k], steps[k]) || LaunchesPast(states[k], steps[k]))
  }

  lemma {:induction false} InsideUpTo(states: seq<State>, steps: seq<Step>, n: nat)
    requires IsRun(states, steps) && n < |states|
    requires forall k | 0 <= k < n :: !Strands(states, steps, k)
    ensures Shaped(states[n]) && Inside(states[n])
  {
    hide Enabled, Apply, CutsOff, LaunchesPast;
    AllShaped(states, steps, n);
    if n > 0 {
      InsideUpTo(states, steps, n - 1);
      assert Enabled(states[n - 1], steps[n - 1]) && states[n] == Apply(states[n - 1], steps[n - 1]);
      assert !Strands(states, steps, n - 1);
      hide Inside, Shaped;
      InsideStepIff(states[n - 1], steps[n - 1]);
    }
  }

  /** In any run at all: no part is ever in flight past the end of its list iff no call filters a list
      under parts that another call has in flight there, and none launches past the end of the list as
      it is. */
  lemma InsideIff(states: seq<State>, steps: seq<Step>)
    requires IsRun(states, steps)
    ensures (forall n | 0 <= n < |states| :: Shaped(states[n]) && Inside(states[n]))
       <==> forall k | 0 <= k < |steps| :: !Strands(states, steps, k)
  {
    hide Enabled, Apply, CutsOff, LaunchesPast, Inside, Shaped;
    if forall k | 0 <= k < |steps| :: !Strands(states, steps, k) {
      forall n | 0 <= n < |states| ensures Shaped(states[n]) && Inside(states[n]) {
        InsideUpTo(states, steps, n);
      }
    } else {
      var k :| 0 <= k < |steps| && Strands(states, steps, k);
      assert Enabled(states[k], steps[k]) && states[k + 1] == Apply(states[k], steps[k]);
      AllShaped(states, steps, k + 1);
      if Inside(states[k]) {
        InsideStepIff(states[k], steps[k]);
        assert !Inside(states[k + 1]);
      }
    }
  }

  /** What that means for the process: a run without such a step never crashes it, and a run with one can
      go on, right after the first, with a confirmation that does. */
  lemma CrashIffStranded(states: seq<State>, steps: seq<Step>)
    requires IsRun(states, steps)
    ensures (forall k | 0 <= k < |steps| :: !Strands(states, steps, k)) ==> !states[|states| - 1].crashed
    ensures (exists k :: 0 <= k < |steps| && Strands(states, steps, k)) ==>
              exists n, step, t :: 0 < n < |states| && IsRun(states[..n + 1] + [t], steps[..n] + [step]) && t.crashed
  {
    hide Enabled, Apply, CutsOff, LaunchesPast, Inside, Shaped;
    if forall k | 0 <= k < |steps| :: !Strands(states, steps, k) {
      NeverCrashed(states, steps, |steps|);
    } else {
      var k :| 0 <= k < |steps| && Strands(states, steps, k);
      var n := FirstStranded(states, steps, k + 1);
      InsideUpTo(states, steps, n);
      assert Enabled(states[n], steps[n]) && states[n + 1] == Apply(states[n], steps[n]);
      AllShaped(states, steps, n + 1);
      InsideStepIff(states[n], steps[n]);
      NotBySent(states[n], steps[n]);
      CrashNextIff(states[n + 1]);
      var c, i :| Enabled(states[n + 1], Sent(c, i)) && Apply(states[n + 1], Sent(c, i)).crashed;
      GoesOn(states, steps, n + 1, Sent(c, i));
    }
  }

  lemma NotBySent(s: State, step: Step)
    requires Shaped(s) && Enabled(s, step) && (CutsOff(s, step) || LaunchesPast(s, step))
    ensures !Apply(s, step).crashed
  {
  }

  lemma GoesOn(states: seq<State>, steps: seq<Step>, n: nat, step: Step)
    requires IsRun(states, steps) && n < |states| && Enabled(states[n], step)
    ensures IsRun(states[..n + 1] + [Apply(states[n], step)], steps[..n] + [step])
  {
    hide Enabled, Apply;
  }

  lemma {:induction false} FirstStranded(states: seq<State>, steps: seq<Step>, below: nat) returns (n: nat)
    requires IsRun(states, steps) && below <= |steps|
    requires exists k :: 0 <= k < below && Strands(states, steps, k)
    ensures n < |steps| && Strands(states, steps, n) && forall k | 0 <= k < n :: !Strands(states, steps, k)
  {
    hide Enabled, Apply, Strands;
    if exists k :: 0 <= k < below - 1 && Strands(states, steps, k) {
      n := FirstStranded(states, steps, below - 1);
    } else {
      n := below - 1;
    }
  }

  lemma {:induction false} NeverCrashed(states: seq<State>, steps: seq<Step>, n: nat)
    requires IsRun(states, steps) && n < |states|
    requires forall k | 0 <= k < n :: !Strands(states, steps, k)
    ensures !states[n].crashed
  {
    hide Enabled, Apply, Strands, Inside;
    if n > 0 {
      InsideUpTo(states, steps, n - 1);
      assert Enabled(states[n - 1], steps[n - 1]) && states[n] == Apply(states[n - 1], steps[n - 1]);
      StaysAlive(states[n - 1], steps[n - 1]);
    }
  }

  lemma StaysAlive(s: State, step: Step)
    requires Shaped(s) && Inside(s) && Enabled(s, step)
    ensures !Apply(s, step).crashed
  {
  }

  // ---------- A run that crashes ----------

  // Up to S8 as in the run that loses a part.  Call 1 launches part 1 as well; call 0 confirms part 0
  // and gives up, which leaves a list of one entry; call 1 then confirms part 1 at index 1.
  const T9 := State([Progress({0}, 1, {}), Progress({0, 1}, 2, {})], [[0], [0], [0, 1]], None,
                     map[0 := Uploading(1, 2, 2, 1, map[0 := 0], NoError),
                         1 := Uploading(1, 2, 1, 2, map[0 := 0, 1 := 1], NoError)], false)
  const T10 := State([Progress({0}, 1, {}), Progress({0, 1}, 2, {0})], [[0], [0], [-1, 1]], None,
                     map[0 := Uploading(1, 2, 2, 1, map[], NoError),
                         1 := Uploading(1, 2, 1, 2, map[0 := 0, 1 := 1], NoError)], false)
  const T11 := State([Progress({0}, 1, {}), Progress({0, 1}, 2, {0})], [[0], [0], [-1, 1]], None,
                     map[0 := Uploading(1, 2, 2, 1, map[], Cancelled),
                         1 := Uploading(1, 2, 1, 2, map[0 := 0, 1 := 1], NoError)], false)
  const T12 := State([Progress({0}, 1, {}), Progress({0, 1}, 3, {0})], [[0], [0], [-1, 1], [1]], Some(1),
                     map[1 := Uploading(1, 2, 1, 2, map[0 := 0, 1 := 1], NoError)], false)
  const T13 := T12.(crashed := true)

  const CRASH_STATES := [INIT, S1, S2, S3, S4, S5, S6, S7, S8, T9, T10, T11, T12, T13]

  const CRASH_STEPS := [
    Precreate(0, [0]), Launch(0), Failed(0, 0, Expired), GiveUp(0), Restart(0, [0, 1]), Take(1),
    Launch(0), Launch(1), Launch(1), Sent(0, 0), Cancel(0), GiveUp(0), Sent(1, 1)]

  lemma Step9()
    ensures Goes(S8, Launch(1), T9)
  {
  }

  lemma Step10()
    ensures Goes(T9, Sent(0, 0), T10)
  {
    assert [0, 1][0 := -1] == [-1, 1] && {} + {0} == {0};
    assert Apply(T9, Sent(0, 0)).lists == T10.lists;
    assert Apply(T9, Sent(0, 0)).progs == T10.progs;
    assert Apply(T9, Sent(0, 0)).calls == T10.calls;
  }

  lemma Steps11To13()
    ensures Goes(T10, Cancel(0), T11)
    ensures Goes(T11, GiveUp(0), T12)
    ensures Goes(T12, Sent(1, 1), T13)
  {
    PendingOf10();
  }

  lemma CrashRunsFrom8()
    ensures forall i | 8 <= i < 13 :: Goes(CRASH_STATES[i], CRASH_STEPS[i], CRASH_STATES[i + 1])
  {
    hide Goes;
    Step9();
    Step10();
    Steps11To13();
  }

  lemma CrashRunsTo8()
    ensures forall i | 0 <= i < 8 :: Goes(CRASH_STATES[i], CRASH_STEPS[i], CRASH_STATES[i + 1])
  {
    hide Goes;
    RunsTo8();
    forall i | 0 <= i < 8 ensures Goes(CRASH_STATES[i], CRASH_STEPS[i], CRASH_STATES[i + 1]) {
      assert Goes(STATES[i], STEPS[i], STATES[i + 1]);
    }
  }

  /** Two calls share a progress after an expiry; one gives up and filters the list while the other has
      its second part in flight, whose confirmation then ends the process. */
  lemma CrashRun()
    ensures IsRun(CRASH_STATES, CRASH_STEPS) && CRASH_STATES[|CRASH_STATES| - 1].crashed
  {
    hide Enabled, Apply;
    CrashRunsTo8();
    CrashRunsFrom8();
    forall i | 0 <= i < |CRASH_STEPS|
      ensures Enabled(CRASH_STATES[i], CRASH_STEPS[i])
      ensures CRASH_STATES[i + 1] == Apply(CRASH_STATES[i], CRASH_STEPS[i])
    {
      assert Goes(CRASH_STATES[i], CRASH_STEPS[i], CRASH_STATES[i + 1]);
    }
  }
}
