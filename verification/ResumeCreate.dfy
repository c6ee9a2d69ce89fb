/** Baidu Netdisk driver: what has been sent when the file is created. */
module ResumeCreate {
  import opened Results
  import opened ResumeUpload
  import opened ResumeSharing

  // ---------- A pass without error has confirmed everything ----------

  /** The part is confirmed, in flight, or still to be looked at by the loop of the call. */
  ghost predicate Seen(s: State, call: Call, part: nat)
    requires call.Uploading? && call.prog < |s.progs| && call.list < |s.lists|
  {
    || part in s.progs[call.prog].confirmed
    || (exists i <- call.tasks :: call.tasks[i] == part)
    || (exists k :: call.next <= k < |s.lists[call.list]| && s.lists[call.list][k] == part)
  }

  /** While a pass has no error, its call has overlooked no part.  The list it walks is that of its
      progress, now or formerly, and of no other. */
  ghost predicate CallCovers(s: State, call: Call)
    requires call.Uploading?
  {
    && call.prog < |s.progs| && call.list < |s.lists|
    && (forall q | 0 <= q < |s.progs| && q != call.prog :: s.progs[q].list != call.list)
    && (forall i <- call.tasks :: i < call.next)
    && (call.err == NoError ==> forall part <- s.progs[call.prog].asked :: Seen(s, call, part))
  }

  ghost predicate Covers(s: State) {
    forall c <- s.calls :: s.calls[c].Uploading? ==> CallCovers(s, s.calls[c])
  }

  /** A pass starts with every part confirmed or on its list. */
  lemma StartCovers(s: State, c: nat, p: nat, pass: nat)
    requires ProgsRight(s) && p < |s.progs|
    ensures s.progs[p].list < |s.lists|
    ensures CallCovers(s, Uploading(p, s.progs[p].list, pass, 0, map[], NoError))
  {
    ProgConserved(s, p);
    var call := Uploading(p, s.progs[p].list, pass, 0, map[], NoError);
    forall part <- s.progs[p].asked ensures Seen(s, call, part) {
    }
  }

  /** What one step does to a call that goes on: its own loop and confirmations, and those of others. */
  lemma GoesOnCovering(s: State, step: Step, d: nat)
    requires ProgsRight(s) && Enabled(s, step) && (step.Sent? ==> Lands(s, step.c, step.i))
    requires d in s.calls && s.calls[d].Uploading? && CallCovers(s, s.calls[d])
    requires var t := Apply(s, step); d in t.calls && t.calls[d].Uploading?
    requires !step.Take? && !step.Precreate? && !(step.Restart? && step.c == d)
    ensures CallCovers(Apply(s, step), Apply(s, step).calls[d])
  {
    hide ProgsRight, Conserved, Pending;
    var t := Apply(s, step);
    var was, call := s.calls[d], t.calls[d];
    if call.err == NoError {
      forall part <- t.progs[call.prog].asked ensures Seen(t, call, part) {
        assert Seen(s, was, part);
        StillSeen(s, step, d, part);
      }
    }
  }

  lemma StillSeen(s: State, step: Step, d: nat, part: nat)
    requires Enabled(s, step) && (step.Sent? ==> Lands(s, step.c, step.i))
    requires d in s.calls && s.calls[d].Uploading? && CallCovers(s, s.calls[d]) && Seen(s, s.calls[d], part)
    requires var t := Apply(s, step); d in t.calls && t.calls[d].Uploading? && t.calls[d].err == NoError
    requires !step.Take? && !step.Precreate? && !(step.Restart? && step.c == d)
    requires var t := Apply(s, step);
             t.calls[d].prog == s.calls[d].prog < |t.progs| && t.calls[d].list == s.calls[d].list < |t.lists|
    ensures Seen(Apply(s, step), Apply(s, step).calls[d], part)
  {
    hide Pending;
    var t := Apply(s, step);
    var was, call := s.calls[d], t.calls[d];
    if part in s.progs[was.prog].confirmed {
      assert part in t.progs[call.prog].confirmed;
    } else if i :| i in was.tasks && was.tasks[i] == part {
      if step == Sent(d, i) {
        assert part in t.progs[call.prog].confirmed;
      } else {
        assert i in call.tasks && call.tasks[i] == part;
      }
    } else {
      var k :| was.next <= k < |s.lists[was.list]| && s.lists[was.list][k] == part;
      if step == Launch(d) && k == was.next {
        assert call.tasks[k] == part;
      } else if step.Sent? && s.progs[s.calls[step.c].prog].list == was.list && step.i == k {
        assert part in t.progs[call.prog].confirmed;
      } else {
        assert t.lists[call.list][k] == part;
      }
    }
  }

  lemma StepCovers(s: State, step: Step)
    requires ProgsRight(s) && Covers(s) && Enabled(s, step) && (step.Sent? ==> Lands(s, step.c, step.i))
    ensures Covers(Apply(s, step))
  {
    hide CallCovers, ProgsRight, Lands;
    var t := Apply(s, step);
    forall d <- t.calls | t.calls[d].Uploading? ensures CallCovers(t, t.calls[d]) {
      if step.Take? && d == step.c {
        ProgConserved(s, s.cache.value);
        SameCovers(s, t, d, s.cache.value, 1);
      } else if step.Precreate? {
        NewCovers(s, step, t, d);
      } else if step.Restart? && d == step.c {
        NewCovers(s, step, t, d);
      } else if step.Take? {
        Unchanged(s, t, s.calls[d]);
      } else {
        assert d in s.calls && s.calls[d].Uploading?;
        GoesOnCovering(s, step, d);
      }
    }
  }

  lemma Unchanged(s: State, t: State, call: Call)
    requires call.Uploading? && CallCovers(s, call) && s.progs == t.progs && s.lists == t.lists
    ensures CallCovers(t, call)
  {
    if call.err == NoError {
      forall part <- t.progs[call.prog].asked ensures Seen(t, call, part) {
        assert Seen(s, call, part);
      }
    }
  }

  lemma SameCovers(s: State, t: State, d: nat, p: nat, pass: nat)
    requires ProgsRight(s) && p < |s.progs| && s.progs == t.progs && s.lists == t.lists
    requires d in t.calls && s.progs[p].list < |s.lists|
    requires t.calls[d] == Uploading(p, s.progs[p].list, pass, 0, map[], NoError)
    ensures CallCovers(t, t.calls[d])
  {
    hide ProgsRight, CallCovers;
    StartCovers(s, d, p, pass);
    Unchanged(s, t, t.calls[d]);
  }

  /** A new progress changes nothing for the other calls, and its own call starts covering. */
  lemma NewCovers(s: State, step: Step, t: State, d: nat)
    requires ProgsRight(s) && Covers(s) && Enabled(s, step) && t == Apply(s, step)
    requires step.Precreate? || (step.Restart? && d == step.c)
    requires d in t.calls && t.calls[d].Uploading?
    ensures CallCovers(t, t.calls[d])
  {
    var u := NewProgress(s, step.answer);
    FreshConserved(s, step.answer);
    hide ProgsRight, Conserved;
    if d == step.c {
      SameCovers(u, t, d, |s.progs|, t.calls[d].pass);
    } else {
      var call := s.calls[d];
      assert CallCovers(s, call) && t.calls[d] == call;
      assert t.progs[call.prog] == s.progs[call.prog] && t.lists[call.list] == s.lists[call.list];
      if call.err == NoError {
        forall part <- t.progs[call.prog].asked ensures Seen(t, call, part) {
          assert Seen(s, call, part);
          SeenInBoth(s, t, call, part);
        }
      }
    }
  }

  lemma SeenInBoth(s: State, t: State, call: Call, part: nat)
    requires call.Uploading? && call.prog < |s.progs| && call.list < |s.lists| && Seen(s, call, part)
    requires call.prog < |t.progs| && call.list < |t.lists|
    requires t.progs[call.prog] == s.progs[call.prog] && t.lists[call.list] == s.lists[call.list]
    ensures Seen(t, call, part)
  {
  }

  lemma {:induction false} CoversUpTo(states: seq<State>, steps: seq<Step>, n: nat)
    requires IsRun(states, steps) && n < |states|
    requires forall k | 0 <= k < n && steps[k].Sent? :: Lands(states[k], steps[k].c, steps[k].i)
    ensures ProgsRight(states[n]) && Covers(states[n])
  {
    hide Enabled, Apply, ProgsRight, Covers, Lands;
    ConservedUpTo(states, steps, n);
    if n == 0 {
      NothingToCover();
    } else {
      CoversUpTo(states, steps, n - 1);
      assert Enabled(states[n - 1], steps[n - 1]) && states[n] == Apply(states[n - 1], steps[n - 1]);
      StepCovers(states[n - 1], steps[n - 1]);
    }
  }

  lemma NothingToCover()
    ensures Covers(INIT)
  {
  }

  /** In any run in which every confirmation lands, shared progress included: a call that ends a pass
      without error goes on to create the file with everything it was asked for confirmed. */
  lemma AllSentConfirmed(states: seq<State>, steps: seq<Step>, n: nat, c: nat)
    requires IsRun(states, steps) && n < |steps| && steps[n] == AllSent(c)
    requires forall k | 0 <= k < n && steps[k].Sent? :: Lands(states[k], steps[k].c, steps[k].i)
    ensures IsUploading(states[n], c)
    ensures var prog := states[n].progs[states[n].calls[c].prog]; prog.confirmed == prog.asked
  {
    hide ProgsRight, Apply, Lands;
    assert Enabled(states[n], steps[n]);
    CoversUpTo(states, steps, n);
    var s := states[n];
    var call := s.calls[c];
    assert CallCovers(s, call);
    forall part <- s.progs[call.prog].asked ensures part in s.progs[call.prog].confirmed {
      assert Seen(s, call, part);
    }
    ProgConserved(s, call.prog);
    ListWithin(s.progs[call.prog], s.lists[s.progs[call.prog].list]);
  }

  /** For the bytes of the file: when the server asked for every part, each byte has been sent in exactly
      one of the confirmed sections, and no section reaches past the end. */
  lemma AllSentCoversFile(states: seq<State>, steps: seq<Step>, n: nat, c: nat, streamSize: nat, sliceSize: nat,
                          byte: nat)
    requires IsRun(states, steps) && n < |steps| && steps[n] == AllSent(c)
    requires forall k | 0 <= k < n && steps[k].Sent? :: Lands(states[k], steps[k].c, steps[k].i)
    requires sliceSize > 0 && byte < streamSize && IsUploading(states[n], c)
    requires AsksForAll(states[n].progs[states[n].calls[c].prog].asked, PlanParts(streamSize, sliceSize))
    ensures SentOnce(states[n].progs[states[n].calls[c].prog].confirmed, streamSize, sliceSize, byte)
  {
    hide ProgsRight, Apply, Lands, SentOnce;
    AllSentConfirmed(states, steps, n, c);
    EachByteOnce(states[n].progs[states[n].calls[c].prog].confirmed, streamSize, sliceSize, byte);
  }

  /** The byte lies in the section of exactly one of the parts, and all their sections in the file. */
  ghost predicate SentOnce(parts: set<nat>, streamSize: nat, sliceSize: nat, byte: nat)
    requires sliceSize > 0
  {
    var plan := PlanParts(streamSize, sliceSize);
    && (exists part <- parts :: Carries(plan, sliceSize, part, byte))
    && (forall p, q | p in parts && q in parts ::
          Carries(plan, sliceSize, p, byte) && Carries(plan, sliceSize, q, byte) ==> p == q)
    && (forall part <- parts ::
          SectionOf(plan, sliceSize, part).offset + SectionOf(plan, sliceSize, part).size <= streamSize)
  }

  lemma EachByteOnce(parts: set<nat>, streamSize: nat, sliceSize: nat, byte: nat)
    requires sliceSize > 0 && byte < streamSize && AsksForAll(parts, PlanParts(streamSize, sliceSize))
    ensures SentOnce(parts, streamSize, sliceSize, byte)
  {
    hide PlanParts, SectionOf;
    var plan := PlanParts(streamSize, sliceSize);
    SectionsTile(streamSize, sliceSize, byte / sliceSize, byte);
    assert byte / sliceSize in parts && Carries(plan, sliceSize, byte / sliceSize, byte);
    forall part <- parts
      ensures SectionOf(plan, sliceSize, part).offset + SectionOf(plan, sliceSize, part).size <= streamSize
      ensures Carries(plan, sliceSize, part, byte) <==> part == byte / sliceSize
    {
      SectionsTile(streamSize, sliceSize, part, byte);
    }
  }

  ghost predicate AsksForAll(asked: set<nat>, plan: Plan) {
    forall part: nat :: part in asked <==> part < plan.count
  }

  /** The byte lies in the section sent for the part. */
  predicate Carries(plan: Plan, sliceSize: nat, part: nat, byte: nat) {
    var section := SectionOf(plan, sliceSize, part);
    section.offset <= byte < section.offset + section.size
  }

  // ---------- A run with two expiries ----------

  const U6 := State([Progress({0}, 1, {}), Progress({0, 1}, 2, {})], [[0], [0], [0, 1]], Some(1),
                     map[0 := Uploading(1, 2, 2, 1, map[0 := 0], NoError)], false)
  const U7 := State([Progress({0}, 1, {}), Progress({0, 1}, 2, {})], [[0], [0], [0, 1]], Some(1),
                     map[0 := Uploading(1, 2, 2, 1, map[], Expired)], false)
  const U8 := State([Progress({0}, 1, {}), Progress({0, 1}, 3, {})], [[0], [0], [0, 1], [0, 1]], Some(1),
                     map[0 := Restarting(1, 2)], false)
  const U9 := State([Progress({0}, 1, {}), Progress({0, 1}, 3, {}), Progress({0}, 4, {})],
                     [[0], [0], [0, 1], [0, 1], [0]], Some(2),
                     map[0 := Creating(2, 2, true)], false)

  const TWICE_STATES := [INIT, S1, S2, S3, S4, S5, U6, U7, U8, U9]

  const TWICE_STEPS := [
    Precreate(0, [0]), Launch(0), Failed(0, 0, Expired), GiveUp(0), Restart(0, [0, 1]),
    Launch(0), Failed(0, 0, Expired), GiveUp(0), Restart(0, [0])]

  lemma Steps5To7()
    ensures Goes(S5, Launch(0), U6) && Goes(U6, Failed(0, 0, Expired), U7)
  {
  }

  lemma Step7()
    ensures Goes(U7, GiveUp(0), U8)
  {
    PendingOf01();
    assert U8.lists == U7.lists + [[0, 1]];
  }

  lemma PendingOf01()
    ensures Pending([0, 1]) == [0, 1]
  {
    assert [0, 1][..1] == [0] && [0][..0] == [];
  }

  lemma Step8To9()
    ensures Goes(U8, Restart(0, [0]), U9)
  {
    assert NewProgress(U8, [0]).lists[4] == [0];
    assert NewProgress(U8, [0]).progs[2].asked == {0};
    assert NewProgress(U8, [0]).lists == U9.lists && NewProgress(U8, [0]).progs == U9.progs;
  }

  lemma TwiceRuns()
    ensures forall i | 0 <= i < 9 :: Goes(TWICE_STATES[i], TWICE_STEPS[i], TWICE_STATES[i + 1])
  {
    hide Goes;
    Steps0To3();
    Steps3To5();
    Steps5To7();
    Step7();
    Step8To9();
  }

  /** One call alone, whose uploadid expires twice: it comes to create the file with nothing confirmed. */
  lemma SecondExpiry()
    ensures IsRun(TWICE_STATES, TWICE_STEPS) && Polite(TWICE_STATES, TWICE_STEPS)
    ensures U9.calls[0] == Creating(2, 2, true) && U9.progs[2].asked == {0} && U9.progs[2].confirmed == {}
  {
    hide Enabled, Apply, InWindow;
    TwiceRuns();
    forall i | 0 <= i < |TWICE_STEPS|
      ensures Enabled(TWICE_STATES[i], TWICE_STEPS[i]) && TWICE_STATES[i + 1] == Apply(TWICE_STATES[i], TWICE_STEPS[i])
    {
      assert Goes(TWICE_STATES[i], TWICE_STEPS[i], TWICE_STATES[i + 1]);
    }
  }
}
