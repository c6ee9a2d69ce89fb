/** Baidu Netdisk driver: a run in which a saved progress gets a second owner and a part is
    lost, and the byte ranges that the parts carry. */
module ResumeSharing {
  import opened Results
  import opened ResumeUpload

  // ---------- A run that loses a part ----------

  ghost predicate Goes(s: State, step: Step, t: State) {
    Enabled(s, step) && Apply(s, step) == t
  }

  // Call 0 starts; its uploadid expires; it restarts and saves the new progress it uploads.
  const S1 := State([Progress({0}, 0, {})], [[0]], None,
                     map[0 := Uploading(0, 0, 1, 0, map[], NoError)], false)
  const S2 := State([Progress({0}, 0, {})], [[0]], None,
                     map[0 := Uploading(0, 0, 1, 1, map[0 := 0], NoError)], false)
  const S3 := State([Progress({0}, 0, {})], [[0]], None,
                     map[0 := Uploading(0, 0, 1, 1, map[], Expired)], false)
  const S4 := State([Progress({0}, 1, {})], [[0], [0]], Some(0),
                     map[0 := Restarting(0, 1)], false)
  const S5 := State([Progress({0}, 1, {}), Progress({0, 1}, 2, {})], [[0], [0], [0, 1]], Some(1),
                     map[0 := Uploading(1, 2, 2, 0, map[], NoError)], false)
  // Call 1 takes that progress.  Both launch part 0; call 0 confirms it and gives up, which
  // shortens the block list; call 1 then confirms part 0 at an index that now means part 1.
  const S6 := State([Progress({0}, 1, {}), Progress({0, 1}, 2, {})], [[0], [0], [0, 1]], None,
                     map[0 := Uploading(1, 2, 2, 0, map[], NoError), 1 := Uploading(1, 2, 1, 0, map[], NoError)], false)
  const S7 := State([Progress({0}, 1, {}), Progress({0, 1}, 2, {})], [[0], [0], [0, 1]], None,
                     map[0 := Uploading(1, 2, 2, 1, map[0 := 0], NoError),
                         1 := Uploading(1, 2, 1, 0, map[], NoError)], false)
  const S8 := State([Progress({0}, 1, {}), Progress({0, 1}, 2, {})], [[0], [0], [0, 1]], None,
                     map[0 := Uploading(1, 2, 2, 1, map[0 := 0], NoError),
                         1 := Uploading(1, 2, 1, 1, map[0 := 0], NoError)], false)
  const S9 := State([Progress({0}, 1, {}), Progress({0, 1}, 2, {0})], [[0], [0], [-1, 1]], None,
                     map[0 := Uploading(1, 2, 2, 1, map[], NoError),
                         1 := Uploading(1, 2, 1, 1, map[0 := 0], NoError)], false)
  const S10 := State([Progress({0}, 1, {}), Progress({0, 1}, 2, {0})], [[0], [0], [-1, 1]], None,
                     map[0 := Uploading(1, 2, 2, 1, map[], Cancelled),
                         1 := Uploading(1, 2, 1, 1, map[0 := 0], NoError)], false)
  const S11 := State([Progress({0}, 1, {}), Progress({0, 1}, 3, {0})], [[0], [0], [-1, 1], [1]], Some(1),
                     map[1 := Uploading(1, 2, 1, 1, map[0 := 0], NoError)], false)
  const S12 := State([Progress({0}, 1, {}), Progress({0, 1}, 3, {0})], [[0], [0], [-1, 1], [-1]], Some(1),
                     map[1 := Uploading(1, 2, 1, 1, map[], NoError)], false)
  // Call 1 gives up as well.  Call 2 resumes a progress with nothing pending.
  const S13 := State([Progress({0}, 1, {}), Progress({0, 1}, 3, {0})], [[0], [0], [-1, 1], [-1]], Some(1),
                     map[1 := Uploading(1, 2, 1, 1, map[], Cancelled)], false)
  const S14 := State([Progress({0}, 1, {}), Progress({0, 1}, 4, {0})], [[0], [0], [-1, 1], [-1], []], Some(1),
                     map[], false)
  const S15 := State([Progress({0}, 1, {}), Progress({0, 1}, 4, {0})], [[0], [0], [-1, 1], [-1], []], None,
                     map[2 := Uploading(1, 4, 1, 0, map[], NoError)], false)
  const S16 := State([Progress({0}, 1, {}), Progress({0, 1}, 4, {0})], [[0], [0], [-1, 1], [-1], []], None,
                     map[2 := Creating(1, 1, false)], false)

  const STATES := [INIT, S1, S2, S3, S4, S5, S6, S7, S8, S9, S10, S11, S12, S13, S14, S15, S16]

  const STEPS := [
    Precreate(0, [0]), Launch(0), Failed(0, 0, Expired), GiveUp(0), Restart(0, [0, 1]), Take(1),
    Launch(0), Launch(1), Sent(0, 0), Cancel(0), GiveUp(0), Sent(1, 0),
    Cancel(1), GiveUp(1), Take(2), AllSent(2)]

  lemma PendingOf3()
    ensures Pending([0]) == [0]
  {
    assert [0][..0] == [];
  }

  lemma PendingOf10()
    ensures Pending([-1, 1]) == [1]
  {
    assert [-1, 1][..1] == [-1] && [-1][..0] == [];
  }

  lemma PendingOf13()
    ensures Pending([-1]) == []
  {
    assert [-1][..0] == [];
  }

  lemma NewLists()
    ensures NewProgress(INIT, [0]).progs == S1.progs && NewProgress(INIT, [0]).lists == S1.lists
    ensures NewProgress(S4, [0, 1]).progs == S5.progs && NewProgress(S4, [0, 1]).lists == S5.lists
  {
    assert NewProgress(INIT, [0]).lists[0] == [0];
    assert NewProgress(S4, [0, 1]).lists[2] == [0, 1];
    assert NewProgress(INIT, [0]).progs[0].asked == {0};
    assert NewProgress(S4, [0, 1]).progs[1].asked == {0, 1} by {
      assert forall x: nat :: x in [0, 1] <==> x in {0, 1};
    }
  }

  lemma Steps0To3()
    ensures Goes(INIT, Precreate(0, [0]), S1)
    ensures Goes(S1, Launch(0), S2)
    ensures Goes(S2, Failed(0, 0, Expired), S3)
  {
    NewLists();
  }

  lemma Steps3To5()
    ensures Goes(S3, GiveUp(0), S4)
    ensures Goes(S4, Restart(0, [0, 1]), S5)
  {
    PendingOf3();
    NewLists();
  }

  lemma Steps5To8()
    ensures Goes(S5, Take(1), S6)
    ensures Goes(S6, Launch(0), S7)
    ensures Goes(S7, Launch(1), S8)
  {
  }

  lemma Step8()
    ensures Goes(S8, Sent(0, 0), S9)
  {
    assert [0, 1][0 := -1] == [-1, 1] && {} + {0} == {0};
    assert Apply(S8, Sent(0, 0)).lists == S9.lists;
    assert Apply(S8, Sent(0, 0)).progs == S9.progs;
    assert Apply(S8, Sent(0, 0)).calls == S9.calls;
  }

  lemma Steps9To11()
    ensures Goes(S9, Cancel(0), S10)
    ensures Goes(S10, GiveUp(0), S11)
  {
    PendingOf10();
  }

  lemma Step11()
    ensures Goes(S11, Sent(1, 0), S12)
  {
    assert [1][0 := -1] == [-1] && {0} + {0} == {0};
    assert Apply(S11, Sent(1, 0)).lists == S12.lists;
    assert Apply(S11, Sent(1, 0)).progs == S12.progs;
    assert Apply(S11, Sent(1, 0)).calls == S12.calls;
  }

  lemma Steps12To14()
    ensures Goes(S12, Cancel(1), S13)
    ensures Goes(S13, GiveUp(1), S14)
  {
    PendingOf13();
  }

  lemma Steps14To16()
    ensures Goes(S14, Take(2), S15)
    ensures Goes(S15, AllSent(2), S16)
  {
  }

  /** Call 1 confirms part 0 at the index that now belongs to part 1. */
  lemma Stray()
    ensures Enabled(S11, Sent(1, 0)) && !Lands(S11, 1, 0)
  {
  }

  lemma RunsTo8()
    ensures forall i | 0 <= i < 8 :: Goes(STATES[i], STEPS[i], STATES[i + 1])
  {
    hide Goes;
    Steps0To3();
    Steps3To5();
    Steps5To8();
  }

  lemma RunsFrom8()
    ensures forall i | 8 <= i < 16 :: Goes(STATES[i], STEPS[i], STATES[i + 1])
  {
    hide Goes;
    Step8();
    Steps9To11();
    Step11();
    Steps12To14();
    Steps14To16();
  }

  lemma ItRuns()
    ensures IsRun(STATES, STEPS)
  {
    hide Enabled, Apply;
    RunsTo8();
    RunsFrom8();
    forall i | 0 <= i < |STEPS|
      ensures Enabled(STATES[i], STEPS[i]) && STATES[i + 1] == Apply(STATES[i], STEPS[i])
    {
      assert Goes(STATES[i], STEPS[i], STATES[i + 1]);
    }
  }

  lemma FirstRestart()
    ensures SavesInUse(S4, Restart(0, [0, 1]))
  {
  }

  /** An expired uploadid makes a call save the very progress it goes on with.  A second call
      can take it, and then the upload ends with a call about to create the file although
      part 1 was asked for, never confirmed, and is no longer pending. */
  lemma PartLost()
    ensures IsRun(STATES, STEPS) && !Polite(STATES, STEPS)
    ensures Enabled(S11, Sent(1, 0)) && !Lands(S11, 1, 0)
    ensures S16.calls[2] == Creating(1, 1, false)
    ensures 1 in S16.progs[1].asked && 1 !in S16.progs[1].confirmed && 1 !in S16.lists[S16.progs[1].list]
  {
    hide IsRun, Enabled, Apply, Lands, SavesInUse;
    ItRuns();
    FirstRestart();
    assert STEPS[5].Take? && InWindow(STATES, STEPS, 4, 5);
    Stray();
  }

  // ---------- What a part carries ----------

  /** How a file is cut: the number of parts and the size of the last one. */
  datatype Plan = Plan(count: nat, last: nat)

  function PlanParts(streamSize: nat, sliceSize: nat): Plan
    requires sliceSize > 0
  {
    var rest := streamSize % sliceSize;
    Plan(if streamSize > sliceSize then (streamSize + sliceSize - 1) / sliceSize else 1,
         if rest == 0 then sliceSize else rest)
  }

  /** The section of the file that is sent for a part. */
  datatype Section = Section(offset: nat, size: nat)

  function SectionOf(plan: Plan, sliceSize: nat, part: nat): Section {
    Section(part * sliceSize, if part + 1 == plan.count then plan.last else sliceSize)
  }

  /** The sections of the parts tile the file: every byte belongs to exactly one of them, and
      none reaches past the end. */
  lemma SectionsTile(streamSize: nat, sliceSize: nat, part: nat, byte: nat)
    requires sliceSize > 0 && streamSize > 0 && byte < streamSize
    ensures var plan := PlanParts(streamSize, sliceSize);
            var section := SectionOf(plan, sliceSize, part);
            && byte / sliceSize < plan.count
            && (part < plan.count ==>
                  && section.offset + section.size <= streamSize
                  && (section.offset <= byte < section.offset + section.size <==> part == byte / sliceSize))
  {
    hide PlanParts;
    var plan := PlanParts(streamSize, sliceSize);
    var k := byte / sliceSize;
    CountOfParts(streamSize, sliceSize);
    SliceOfByte(byte, sliceSize, part);
    ByteInSomePart(byte, streamSize, sliceSize);
    if part < plan.count {
      PartEnds(plan.count, part, sliceSize);
      InOwnSection(streamSize, sliceSize, part * sliceSize, plan.count * sliceSize, plan.last,
                   part + 1 == plan.count, byte, part == k);
    }
  }

  lemma ByteInSomePart(byte: nat, streamSize: nat, sliceSize: nat)
    requires sliceSize > 0 && byte < streamSize
    ensures byte / sliceSize < PlanParts(streamSize, sliceSize).count
  {
    hide PlanParts;
    CountOfParts(streamSize, sliceSize);
    SliceOfByte(byte, sliceSize, byte / sliceSize);
    LessByFactor(byte / sliceSize, PlanParts(streamSize, sliceSize).count, sliceSize);
  }

  lemma PartEnds(count: nat, part: nat, d: nat)
    requires part < count
    ensures if part + 1 == count then part * d + d == count * d else part * d + d + d <= count * d
  {
    PlusOne(part, d);
    if part + 1 < count {
      LessByFactor'(part + 2, count, d);
      PlusOne(part + 1, d);
    }
  }

  lemma InOwnSection(n: nat, d: nat, start: nat, end: nat, last: nat, isLast: bool, byte: nat, own: bool)
    requires end == n + d - last && 0 < last <= d && byte < n
    requires if isLast then start + d == end else start + d + d <= end
    requires start <= byte < start + d <==> own
    ensures var size := if isLast then last else d;
            start + size <= n && (start <= byte < start + size <==> own)
  {
  }

  lemma PlusOne(part: nat, d: nat)
    ensures (part + 1) * d == part * d + d
  {
  }

  lemma SliceOfByte(byte: nat, d: nat, part: nat)
    requires d > 0
    ensures part * d <= byte < part * d + d <==> part == byte / d
  {
    PlusOne(part, d);
    var k := byte / d;
    assert byte == k * d + byte % d;
    if part * d <= byte < (part + 1) * d {
      QuotientIs(byte, d, part);
    }
  }

  /** The last part ends exactly where the file ends. */
  lemma CountOfParts(streamSize: nat, sliceSize: nat)
    requires sliceSize > 0 && streamSize > 0
    ensures var plan := PlanParts(streamSize, sliceSize);
            && plan.count == streamSize / sliceSize + (if streamSize % sliceSize == 0 then 0 else 1)
            && plan.count * sliceSize == streamSize + sliceSize - plan.last
            && 0 < plan.last <= sliceSize
  {
    var q, r := streamSize / sliceSize, streamSize % sliceSize;
    var whole := q * sliceSize;
    assert streamSize == whole + r;
    PlusOne(q, sliceSize);
    PlusOne(q + 1, sliceSize);
    if streamSize > sliceSize {
      QuotientIs(streamSize + sliceSize - 1, sliceSize, if r == 0 then q else q + 1);
    } else {
      QuotientIs(streamSize, sliceSize, if streamSize < sliceSize then 0 else 1);
    }
  }

  lemma QuotientIs(n: nat, d: nat, q: nat)
    requires d > 0 && q * d <= n < (q + 1) * d
    ensures n / d == q
  {
    var p := n / d;
    assert p * d <= n < (p + 1) * d;
    if p < q {
      LessByFactor'(p + 1, q, d);
    } else if q < p {
      LessByFactor'(q + 1, p, d);
    }
  }

  lemma LessByFactor(a: nat, b: nat, d: nat)
    requires a * d < b * d
    ensures a < b
  {
  }

  lemma LessByFactor'(a: nat, b: nat, d: nat)
    requires a <= b
    ensures a * d <= b * d
  {
  }
}
