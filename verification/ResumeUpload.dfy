/** Baidu Netdisk driver: resumable upload of a file in parts.

    Any number of upload calls for the same file run at once.  Each step below is one atomic
    action of one call, or of the cache; a run is any interleaving of them. */
module ResumeUpload {
  import opened Results

  // ---------- The state ----------

  /** An upload progress object: which parts the server asked for, where its block list is
      kept, and (for the record) which parts the server confirmed. */
  datatype Progress = Progress(asked: set<nat>, list: nat, confirmed: set<nat>)

  datatype Cause = NoError | Cancelled | Expired | OtherError

  /** An upload call.  `list` is the block list its part loop walks, `next` the loop position,
      `tasks` the parts in flight by their position, `err` the first error. */
  datatype Call =
    | Uploading(prog: nat, list: nat, pass: nat, next: nat, tasks: map<nat, nat>, err: Cause)
    | Restarting(prog: nat, pass: nat)
    | Creating(prog: nat, pass: nat, afterExpiry: bool)

  /** Progress objects and block lists live on the heap; the cache keeps at most one progress
      for the file.  An index out of range ends the whole process, with all its calls. */
  datatype State = State(progs: seq<Progress>, lists: seq<seq<int>>, cache: Option<nat>, calls: map<nat, Call>,
                         crashed: bool)

  const INIT := State([], [], None, map[], false)

  datatype Step =
    | Take(c: nat)                              // GetUploadProgress finds a saved progress
    | Precreate(c: nat, answer: seq<nat>)       // it did not: ask the server for the parts
    | Launch(c: nat)                            // the part loop looks at the next entry
    | Skip(c: nat)                              // after an error a part may not be launched
    | Sent(c: nat, i: nat)                      // a part is confirmed
    | Failed(c: nat, i: nat, cause: Cause)      // a part fails for good
    | Cancel(c: nat)
    | AllSent(c: nat)                           // Wait reports no error
    | GiveUp(c: nat)                            // Wait reports an error: filter and save
    | Restart(c: nat, answer: seq<nat>)         // the uploadid expired: ask again and save
    | RestartFails(c: nat)
    | Create(c: nat, ok: bool)
    | Evict                                     // the cache entry times out

  // ---------- The steps ----------

  /** What is assumed of the server: it asks for each part at most once. */
  ghost predicate Distinct(answer: seq<nat>) {
    forall i, j | 0 <= i < j < |answer| :: answer[i] != answer[j]
  }

  function NewProgress(s: State, answer: seq<nat>): State {
    s.(progs := s.progs + [Progress(set x <- answer, |s.lists|, {})],
       lists := s.lists + [seq(|answer|, i requires 0 <= i < |answer| => answer[i])])
  }

  function StartPass(s: State, c: nat, p: nat, pass: nat): State
    requires p < |s.progs|
  {
    s.(calls := s.calls[c := Uploading(p, s.progs[p].list, pass, 0, map[], NoError)])
  }

  /** `SliceFilter`: the entries still pending. */
  function Pending(list: seq<int>): seq<int> {
    if list == [] then []
    else Pending(list[..|list| - 1]) + if list[|list| - 1] >= 0 then [list[|list| - 1]] else []
  }

  ghost predicate IsUploading(s: State, c: nat) {
    c in s.calls && s.calls[c].Uploading? && s.calls[c].prog < |s.progs| && s.calls[c].list < |s.lists|
    && s.progs[s.calls[c].prog].list < |s.lists|
  }

  ghost predicate Enabled(s: State, step: Step) {
    !s.crashed &&
    match step
    case Take(c) => c !in s.calls && s.cache.Some? && s.cache.value < |s.progs|
    case Precreate(c, answer) => c !in s.calls && Distinct(answer)
    case Launch(c) => IsUploading(s, c) && s.calls[c].next < |s.lists[s.calls[c].list]|
    case Skip(c) => IsUploading(s, c) && s.calls[c].next < |s.lists[s.calls[c].list]| && s.calls[c].err != NoError
    case Sent(c, i) => IsUploading(s, c) && i in s.calls[c].tasks
    case Failed(c, i, cause) => IsUploading(s, c) && i in s.calls[c].tasks && cause != NoError
    case Cancel(c) => IsUploading(s, c)
    case AllSent(c) =>
      IsUploading(s, c) && s.calls[c].tasks == map[] && s.calls[c].err == NoError
      && s.calls[c].next == |s.lists[s.calls[c].list]|
    case GiveUp(c) => IsUploading(s, c) && s.calls[c].tasks == map[] && s.calls[c].err != NoError
    case Restart(c, answer) => c in s.calls && s.calls[c].Restarting? && Distinct(answer)
    case RestartFails(c) => c in s.calls && s.calls[c].Restarting?
    case Create(c, _) => c in s.calls && s.calls[c].Creating?
    case Evict => true
  }

  ghost function Apply(s: State, step: Step): State
    requires Enabled(s, step)
  {
    match step
    case Take(c) => StartPass(s, c, s.cache.value, 1).(cache := None)
    case Precreate(c, answer) => StartPass(NewProgress(s, answer), c, |s.progs|, 1)
    case Launch(c) =>
      var call := s.calls[c];
      var part := s.lists[call.list][call.next];
      s.(calls := s.calls[c := call.(next := call.next + 1,
                                     tasks := if part < 0 then call.tasks else call.tasks[call.next := part])])
    case Skip(c) => s.(calls := s.calls[c := s.calls[c].(next := s.calls[c].next + 1)])
    case Sent(c, i) =>
      var call := s.calls[c];
      var prog := s.progs[call.prog];
      if i >= |s.lists[prog.list]| then s.(crashed := true)
      else
        s.(lists := s.lists[prog.list := s.lists[prog.list][i := -1]],
           progs := s.progs[call.prog := prog.(confirmed := prog.confirmed + {call.tasks[i]})],
           calls := s.calls[c := call.(tasks := call.tasks - {i})])
    case Failed(c, i, cause) =>
      var call := s.calls[c];
      s.(calls := s.calls[c := call.(tasks := call.tasks - {i},
                                     err := if call.err == NoError then cause else call.err)])
    case Cancel(c) =>
      var call := s.calls[c];
      s.(calls := s.calls[c := call.(err := if call.err == NoError then Cancelled else call.err)])
    case AllSent(c) => s.(calls := s.calls[c := Creating(s.calls[c].prog, s.calls[c].pass, false)])
    case GiveUp(c) =>
      var call := s.calls[c];
      var prog := s.progs[call.prog];
      s.(lists := s.lists + [Pending(s.lists[prog.list])],
         progs := s.progs[call.prog := prog.(list := |s.lists|)],
         cache := Some(call.prog),
         calls := if call.err == Expired then s.calls[c := Restarting(call.prog, call.pass)] else s.calls - {c})
    case Restart(c, answer) =>
      var p := |s.progs|;
      var t := NewProgress(s, answer).(cache := Some(p));
      if s.calls[c].pass == 1 then StartPass(t, c, p, 2)
      else t.(calls := t.calls[c := Creating(p, 2, true)])
    case RestartFails(c) => s.(calls := s.calls - {c})
    case Create(c, ok) => s.(calls := s.calls - {c}, cache := if ok then None else s.cache)
    case Evict => s.(cache := None)
  }

  // ---------- What every step keeps ----------

  /** Conservation: the parts asked for are the confirmed ones and the pending ones, and no
      part is both or pending twice. */
  ghost predicate Conserved(prog: Progress, list: seq<int>) {
    && (forall i | 0 <= i < |list| && list[i] >= 0 :: list[i] in prog.asked && list[i] !in prog.confirmed)
    && PendingOnce(list)
    && prog.confirmed <= prog.asked
    && (forall x <- prog.asked :: x in prog.confirmed || x in list)
  }

  /** A call's view of its progress is right: what is in flight is pending under the very
      index, and what its loop has passed without error is done or in flight. */
  ghost predicate CallRight(progs: seq<Progress>, lists: seq<seq<int>>, call: Call) {
    && call.prog < |progs| && progs[call.prog].list < |lists|
    && var prog := progs[call.prog];
    var list := lists[prog.list];
    match call
    case Uploading(_, at, pass, next, tasks, err) =>
      && at == prog.list && next <= |list| && (pass == 1 || pass == 2)
      && (forall i <- tasks :: i < next && list[i] == tasks[i])
      && (err == NoError ==> forall i | 0 <= i < next && list[i] >= 0 :: i in tasks)
    case Restarting(_, pass) => pass == 1 || pass == 2
    case Creating(_, pass, afterExpiry) => if afterExpiry then pass == 2 else prog.confirmed == prog.asked
  }

  /** The progress of this call may be saved at the same time: the call no longer sends parts of
      it, or started it after its uploadid expired. */
  predicate MayBeSaved(call: Call) {
    call.Uploading? ==> call.pass == 2
  }

  ghost predicate ProgsRight(s: State) {
    && (forall p | 0 <= p < |s.progs| :: s.progs[p].list < |s.lists|)
    && (forall p, q | 0 <= p < q < |s.progs| :: s.progs[p].list != s.progs[q].list)
    && (forall p | 0 <= p < |s.progs| :: Conserved(s.progs[p], s.lists[s.progs[p].list]))
  }

  ghost predicate CallsRight(s: State) {
    forall c <- s.calls :: CallRight(s.progs, s.lists, s.calls[c])
  }

  /** The call sends parts of the progress.  A call that starts over, or that creates the file, no
      longer reads or writes its block list. */
  predicate WorksOn(s: State, c: nat, p: nat) {
    c in s.calls && s.calls[c].Uploading? && s.calls[c].prog == p
  }

  /** No two calls work on the same progress. */
  ghost predicate Exclusive(s: State) {
    forall c, d, p | WorksOn(s, c, p) && WorksOn(s, d, p) :: c == d
  }

  /** A call works on a progress that is saved only after its uploadid expired. */
  ghost predicate CacheRight(s: State) {
    s.cache.Some? ==>
      && s.cache.value < |s.progs|
      && forall c | WorksOn(s, c, s.cache.value) :: MayBeSaved(s.calls[c])
  }

  ghost predicate Inv(s: State) {
    ProgsRight(s) && CallsRight(s) && Exclusive(s) && CacheRight(s) && !s.crashed
  }

  /** The call works on the progress that is saved. */
  predicate Shares(s: State, c: nat) {
    s.cache.Some? && WorksOn(s, c, s.cache.value)
  }

  /** A call may start on the saved progress: nobody is still working on it. */
  ghost predicate Unowned(s: State) {
    forall c :: !Shares(s, c)
  }

  // ---------- One step at a time ----------

  lemma OnlyCall(s: State, c: nat, call: Call)
    requires Inv(s) && c in s.calls && call.prog == s.calls[c].prog && CallRight(s.progs, s.lists, call)
    requires MayBeSaved(s.calls[c]) ==> MayBeSaved(call)
    requires call.Uploading? ==> s.calls[c].Uploading?
    ensures Inv(s.(calls := s.calls[c := call]))
  {
    hide ProgsRight, Conserved;
    var s' := s.(calls := s.calls[c := call]);
    ProgsOnly(s, s');
    forall d <- s'.calls ensures CallRight(s'.progs, s'.lists, s'.calls[d]) {
      assert CallRight(s.progs, s.lists, s'.calls[d]);
    }
    forall d, p | WorksOn(s', d, p) ensures WorksOn(s, d, p) {
    }
  }

  lemma DropCall(s: State, c: nat)
    requires Inv(s) && c in s.calls
    ensures Inv(s.(calls := s.calls - {c}))
  {
    var s' := s.(calls := s.calls - {c});
    forall d <- s'.calls ensures CallRight(s'.progs, s'.lists, s'.calls[d]) {
      assert CallRight(s.progs, s.lists, s.calls[d]);
    }
    forall d, p | WorksOn(s', d, p) ensures WorksOn(s, d, p) {
    }
  }

  lemma DropCache(s: State)
    requires Inv(s)
    ensures Inv(s.(cache := None))
  {
    var s' := s.(cache := None);
    forall d <- s'.calls ensures CallRight(s'.progs, s'.lists, s'.calls[d]) {
      assert CallRight(s.progs, s.lists, s.calls[d]);
    }
    forall d, p | WorksOn(s', d, p) ensures WorksOn(s, d, p) {
    }
  }

  lemma FreshConserved(s: State, answer: seq<nat>)
    requires ProgsRight(s) && Distinct(answer)
    ensures ProgsRight(NewProgress(s, answer))
  {
    var t := NewProgress(s, answer);
    var p := |s.progs|;
    forall q | 0 <= q < p ensures t.progs[q] == s.progs[q] && t.lists[t.progs[q].list] == s.lists[s.progs[q].list] {
    }
    assert Conserved(t.progs[p], t.lists[|s.lists|]) by {
      forall x <- t.progs[p].asked ensures x in t.lists[|s.lists|] {
        var i :| 0 <= i < |answer| && answer[i] == x;
        assert t.lists[|s.lists|][i] == x;
      }
    }
  }

  /** A new progress asks for everything and has nothing confirmed. */
  lemma FreshProgress(s: State, answer: seq<nat>)
    requires Inv(s) && Distinct(answer)
    ensures Inv(NewProgress(s, answer))
    ensures var t := NewProgress(s, answer); var p := |s.progs|;
            && t.progs[p].confirmed == {} && t.progs[p].list == |s.lists| && |t.progs| == p + 1
            && (forall c <- t.calls :: t.calls[c].prog < p)
            && t.cache == s.cache && t.calls == s.calls
  {
    var t := NewProgress(s, answer);
    FreshConserved(s, answer);
    hide ProgsRight, Conserved;
    forall d <- t.calls ensures CallRight(t.progs, t.lists, t.calls[d]) && t.calls[d].prog < |s.progs| {
      assert CallRight(s.progs, s.lists, s.calls[d]);
    }
    forall d, q | WorksOn(t, d, q) ensures WorksOn(s, d, q) {
    }
  }

  /** Starting a pass on a progress nobody works on. */
  lemma PassStarts(s: State, c: nat, p: nat, pass: nat)
    requires Inv(s) && p < |s.progs| && (pass == 1 || pass == 2)
    requires forall d :: WorksOn(s, d, p) ==> d == c
    requires s.cache == Some(p) ==> pass == 2
    ensures Inv(StartPass(s, c, p, pass))
  {
    ProgConserved(s, p);
    hide ProgsRight, Conserved;
    var s' := StartPass(s, c, p, pass);
    ProgsOnly(s, s');
    forall d <- s'.calls ensures CallRight(s'.progs, s'.lists, s'.calls[d]) {
      if d != c {
        assert CallRight(s.progs, s.lists, s.calls[d]);
      }
    }
    forall d, q | WorksOn(s', d, q) ensures (d == c && q == p) || WorksOn(s, d, q) {
    }
  }

  // ---------- A part is confirmed; a pass is given up ----------

  /** Confirming a pending part moves it from pending to confirmed. */
  lemma ConfirmOne(prog: Progress, list: seq<int>, i: nat)
    requires Conserved(prog, list) && i < |list| && list[i] >= 0
    ensures Conserved(prog.(confirmed := prog.confirmed + {list[i]}), list[i := -1])
  {
    var x := list[i];
    var prog', list' := prog.(confirmed := prog.confirmed + {x}), list[i := -1];
    forall y <- prog.asked ensures y in prog'.confirmed || y in list' {
      if y !in prog'.confirmed {
        var j :| 0 <= j < |list| && list[j] == y;
        assert list'[j] == y;
      }
    }
  }

  /** No pending part appears twice in a block list. */
  ghost predicate PendingOnce(list: seq<int>) {
    forall i, j | 0 <= i < j < |list| && list[i] >= 0 :: list[i] != list[j]
  }

  lemma {:induction false} PendingExact(list: seq<int>)
    ensures forall x :: x in Pending(list) <==> x in list && x >= 0
    ensures PendingOnce(list) ==> PendingOnce(Pending(list))
  {
    if list != [] {
      var n := |list| - 1;
      PendingExact(list[..n]);
      assert list == list[..n] + [list[n]];
      if PendingOnce(list) {
        var kept := Pending(list[..n]);
        forall k | 0 <= k < |kept| ensures kept[k] != list[n] {
          assert kept[k] in kept;
          var j :| 0 <= j < n && list[..n][j] == kept[k];
          assert list[j] == kept[k];
        }
      }
    }
  }

  /** Filtering out the confirmed entries loses no pending part. */
  lemma FilterConserves(prog: Progress, list: seq<int>)
    requires Conserved(prog, list)
    ensures Conserved(prog, Pending(list))
  {
    PendingExact(list);
    var kept := Pending(list);
    forall i | 0 <= i < |kept| ensures kept[i] in prog.asked && kept[i] !in prog.confirmed {
      assert kept[i] in kept;
      var j :| 0 <= j < |list| && list[j] == kept[i];
    }
  }

  /** One progress changes, either in its own list or onto a new one. */
  ghost predicate OneChanged(s: State, p: nat, prog: Progress, lists: seq<seq<int>>) {
    && p < |s.progs| && s.progs[p].list < |s.lists| <= |lists|
    && (forall a | 0 <= a < |s.lists| && a != s.progs[p].list :: lists[a] == s.lists[a])
    && (prog.list == s.progs[p].list || |s.lists| <= prog.list) && prog.list < |lists|
    && prog.asked == s.progs[p].asked && s.progs[p].confirmed <= prog.confirmed <= prog.asked
  }

  lemma ProgsStayRight(s: State, p: nat, prog: Progress, lists: seq<seq<int>>)
    requires ProgsRight(s) && OneChanged(s, p, prog, lists) && Conserved(prog, lists[prog.list])
    ensures ProgsRight(s.(progs := s.progs[p := prog], lists := lists))
  {
    hide Conserved;
  }

  lemma OthersStayRight(s: State, p: nat, prog: Progress, lists: seq<seq<int>>, call: Call)
    requires ProgsRight(s) && OneChanged(s, p, prog, lists)
    requires CallRight(s.progs, s.lists, call) && (call.Uploading? ==> call.prog != p)
    ensures CallRight(s.progs[p := prog], lists, call)
  {
    hide Conserved;
    assert call.Uploading? ==> s.progs[call.prog].list != s.progs[p].list;
  }

  /** One progress changes together with the call that works on it. */
  lemma OneStaysRight(s: State, c: nat, prog: Progress, lists: seq<seq<int>>, call: Call)
    requires Inv(s) && WorksOn(s, c, call.prog)
    requires OneChanged(s, call.prog, prog, lists) && Conserved(prog, lists[prog.list])
    requires CallRight(s.progs[call.prog := prog], lists, call)
    requires MayBeSaved(s.calls[c]) ==> MayBeSaved(call)
    ensures Inv(s.(progs := s.progs[call.prog := prog], lists := lists, calls := s.calls[c := call]))
  {
    hide CallRight, Conserved, ProgsRight;
    var p := call.prog;
    ProgsStayRight(s, p, prog, lists);
    var s' := s.(progs := s.progs[p := prog], lists := lists, calls := s.calls[c := call]);
    ProgsOnly(s.(progs := s.progs[p := prog], lists := lists), s');
    forall d <- s'.calls ensures CallRight(s'.progs, s'.lists, s'.calls[d]) {
      if d != c {
        CallAt(s, d);
        assert s.calls[d].Uploading? ==> WorksOn(s, d, s.calls[d].prog);
        OthersStayRight(s, p, prog, lists, s.calls[d]);
      }
    }
    forall d, q | WorksOn(s', d, q) ensures WorksOn(s, d, q) {
    }
  }

  lemma ProgsOnly(s: State, t: State)
    requires ProgsRight(s) && s.progs == t.progs && s.lists == t.lists
    ensures ProgsRight(t)
  {
  }

  lemma SentKeeps(s: State, c: nat, i: nat)
    requires Inv(s) && Enabled(s, Sent(c, i))
    ensures Inv(Apply(s, Sent(c, i)))
  {
    hide ProgsRight, Exclusive, CacheRight;
    var call := s.calls[c];
    var prog := s.progs[call.prog];
    assert CallRight(s.progs, s.lists, call);
    ProgConserved(s, call.prog);
    ConfirmOne(prog, s.lists[prog.list], i);
    hide Conserved, CallsRight;
    var prog' := prog.(confirmed := prog.confirmed + {call.tasks[i]});
    var lists' := s.lists[prog.list := s.lists[prog.list][i := -1]];
    var call' := call.(tasks := call.tasks - {i});
    SentCall(s.progs, s.lists, call, i);
    hide CallRight;
    OneStaysRight(s, c, prog', lists', call');
  }

  lemma SentCall(progs: seq<Progress>, lists: seq<seq<int>>, call: Call, i: nat)
    requires CallRight(progs, lists, call) && call.Uploading? && i in call.tasks
    ensures var prog := progs[call.prog];
            && i < |lists[prog.list]|
            && CallRight(progs[call.prog := prog.(confirmed := prog.confirmed + {call.tasks[i]})],
                         lists[prog.list := lists[prog.list][i := -1]], call.(tasks := call.tasks - {i}))
  {
  }

  lemma ProgConserved(s: State, p: nat)
    requires ProgsRight(s) && p < |s.progs|
    ensures s.progs[p].list < |s.lists| && Conserved(s.progs[p], s.lists[s.progs[p].list])
  {
  }

  lemma GiveUpKeeps(s: State, c: nat)
    requires Inv(s) && Enabled(s, GiveUp(c))
    ensures Inv(Apply(s, GiveUp(c)))
  {
    hide ProgsRight, CallsRight, Exclusive, CacheRight, Conserved;
    var call := s.calls[c];
    var prog := s.progs[call.prog];
    CallAt(s, c);
    ProgConserved(s, call.prog);
    FilterConserves(prog, s.lists[prog.list]);
    SameParts(prog, |s.lists|, Pending(s.lists[prog.list]));
    var prog', lists' := prog.(list := |s.lists|), s.lists + [Pending(s.lists[prog.list])];
    var call' := Restarting(call.prog, call.pass);
    OneStaysRight(s, c, prog', lists', call');
    var t := s.(progs := s.progs[call.prog := prog'], lists := lists', calls := s.calls[c := call']);
    assert forall d :: !WorksOn(t, d, call.prog) by {
      forall d | WorksOn(t, d, call.prog) ensures false {
        assert WorksOn(s, d, call.prog) && WorksOn(s, c, call.prog);
        OnlyWorker(s, c, d, call.prog);
      }
    }
    SaveIdle(t, call.prog);
    if call.err != Expired {
      DropCall(t.(cache := Some(call.prog)), c);
      assert t.calls - {c} == s.calls - {c};
    }
  }

  lemma OnlyWorker(s: State, c: nat, d: nat, p: nat)
    requires Exclusive(s) && WorksOn(s, c, p) && WorksOn(s, d, p)
    ensures c == d
  {
  }

  lemma CallAt(s: State, c: nat)
    requires CallsRight(s) && c in s.calls
    ensures CallRight(s.progs, s.lists, s.calls[c])
  {
  }

  lemma SameParts(prog: Progress, at: nat, list: seq<int>)
    requires Conserved(prog, list)
    ensures Conserved(prog.(list := at), list)
  {
  }

  /** A progress that nobody works on may be saved. */
  lemma SaveIdle(s: State, p: nat)
    requires Inv(s) && p < |s.progs| && forall d :: !WorksOn(s, d, p)
    ensures Inv(s.(cache := Some(p)))
  {
    hide Conserved;
    var s' := s.(cache := Some(p));
    ProgsOnly(s, s');
    forall d <- s'.calls ensures CallRight(s'.progs, s'.lists, s'.calls[d]) {
      CallAt(s, d);
    }
    forall d, q | WorksOn(s', d, q) ensures WorksOn(s, d, q) {
    }
  }

  /** A new progress is saved while its call goes on with it. */
  lemma FreshSaved(s: State, answer: seq<nat>)
    requires Inv(s) && Distinct(answer)
    ensures Inv(NewProgress(s, answer).(cache := Some(|s.progs|)))
  {
    FreshProgress(s, answer);
    hide Inv, NewProgress;
    SaveIdle(NewProgress(s, answer), |s.progs|);
  }

  lemma RestartKeeps(s: State, c: nat, answer: seq<nat>)
    requires Inv(s) && Enabled(s, Restart(c, answer))
    ensures Inv(Apply(s, Restart(c, answer)))
  {
    hide Conserved, ProgsRight, Exclusive, CacheRight;
    var p := |s.progs|;
    FreshProgress(s, answer);
    FreshSaved(s, answer);
    CallAt(s, c);
    var t := NewProgress(s, answer).(cache := Some(p));
    if s.calls[c].pass == 1 {
      hide CallsRight;
      PassStarts(t, c, p, 2);
    } else {
      CreateAnyway(t, c, p);
    }
  }

  /** A second expiry: the call leaves its loop and goes on to create the file. */
  lemma CreateAnyway(t: State, c: nat, p: nat)
    requires Inv(t) && p < |t.progs|
    ensures Inv(t.(calls := t.calls[c := Creating(p, 2, true)]))
  {
    ProgConserved(t, p);
    hide Conserved, ProgsRight;
    var t' := t.(calls := t.calls[c := Creating(p, 2, true)]);
    ProgsOnly(t, t');
    forall d <- t'.calls ensures CallRight(t'.progs, t'.lists, t'.calls[d]) {
      if d != c {
        CallAt(t, d);
      }
    }
    forall d, q | WorksOn(t', d, q) ensures WorksOn(t, d, q) {
    }
  }

  /** A step that changes nothing but its own call. */
  lemma CallOnlyKeeps(s: State, step: Step)
    requires Inv(s) && Enabled(s, step)
    requires step.Launch? || step.Skip? || step.Failed? || step.Cancel? || step.AllSent?
    ensures Inv(Apply(s, step))
  {
    hide ProgsRight, CallsRight, Exclusive, CacheRight, Conserved;
    CallAt(s, step.c);
    if step.AllSent? {
      var p := s.calls[step.c].prog;
      ProgConserved(s, p);
      NothingPending(s.progs[p], s.lists[s.progs[p].list]);
    }
    OnlyCall(s, step.c, Apply(s, step).calls[step.c]);
  }

  /** With nothing left in the block list, everything asked for is confirmed. */
  lemma NothingPending(prog: Progress, list: seq<int>)
    requires Conserved(prog, list) && forall i | 0 <= i < |list| :: list[i] < 0
    ensures prog.confirmed == prog.asked
  {
    assert forall x <- prog.asked :: x !in list;
  }

  lemma StartKeeps(s: State, step: Step)
    requires Inv(s) && Enabled(s, step) && (step.Take? || step.Precreate?)
    requires step.Take? ==> Unowned(s)
    ensures Inv(Apply(s, step))
  {
    hide ProgsRight, CallsRight, Exclusive, Conserved;
    if step.Take? {
      DropCache(s);
      forall d ensures !WorksOn(s, d, s.cache.value) {
        assert !Shares(s, d);
      }
      assert forall d, q :: WorksOn(s.(cache := None), d, q) == WorksOn(s, d, q);
      PassStarts(s.(cache := None), step.c, s.cache.value, 1);
    } else {
      FreshProgress(s, step.answer);
      PassStarts(NewProgress(s, step.answer), step.c, |s.progs|, 1);
    }
  }

  lemma EndKeeps(s: State, step: Step)
    requires Inv(s) && Enabled(s, step) && (step.RestartFails? || step.Create? || step.Evict?)
    ensures Inv(Apply(s, step))
  {
    hide Inv;
    match step
    case RestartFails(c) => DropCall(s, c);
    case Create(c, ok) =>
      DropCall(s, c);
      if ok {
        DropCache(s.(calls := s.calls - {c}));
      }
    case Evict => DropCache(s);
  }

  /** Every step keeps the invariant, except possibly taking a saved progress that another
      call still works on. */
  lemma StepKeeps(s: State, step: Step)
    requires Inv(s) && Enabled(s, step)
    requires step.Take? ==> Unowned(s)
    ensures Inv(Apply(s, step))
  {
    hide Inv, Enabled, Apply;
    match step
    case Sent(c, i) => SentKeeps(s, c, i);
    case GiveUp(c) => GiveUpKeeps(s, c);
    case Restart(c, answer) => RestartKeeps(s, c, answer);
    case Take(_) => StartKeeps(s, step);
    case Precreate(_, _) => StartKeeps(s, step);
    case RestartFails(_) => EndKeeps(s, step);
    case Create(_, _) => EndKeeps(s, step);
    case Evict => EndKeeps(s, step);
    case _ => CallOnlyKeeps(s, step);
  }

  // ---------- Whole runs ----------

  ghost predicate IsRun(states: seq<State>, steps: seq<Step>) {
    && |states| == |steps| + 1 && states[0] == INIT
    && forall i | 0 <= i < |steps| :: Enabled(states[i], steps[i]) && states[i + 1] == Apply(states[i], steps[i])
  }

  /** Taking what another call works on is the one step that breaks it. */
  lemma StepKeepsIff(s: State, step: Step)
    requires Inv(s) && Enabled(s, step)
    ensures Inv(Apply(s, step)) <==> (step.Take? ==> Unowned(s))
  {
    hide Enabled, Apply, ProgsRight, CallsRight, Exclusive, CacheRight, Unowned;
    if step.Take? ==> Unowned(s) {
      StepKeeps(s, step);
    } else {
      TakeSharesIff(s, step.c);
    }
  }

  // ---------- Which step opens the window for a second owner ----------

  /** A call starts over for the first time: it saves a progress and goes on working on it. */
  predicate SavesInUse(s: State, step: Step) {
    step.Restart? && step.c in s.calls && s.calls[step.c].Restarting? && s.calls[step.c].pass == 1
  }

  /** A step after which the saved progress is still the same one, and call `c` still at work if it
      was: it does not write the cache or take from it, and does not end the pass of `c`. */
  predicate Leaves(step: Step, c: nat) {
    match step
    case Take(_) => false
    case GiveUp(_) => false
    case Restart(_, _) => false
    case Create(_, ok) => !ok
    case Evict => false
    case AllSent(d) => d != c
    case _ => true
  }

  /** Only a first restart makes a call work on a saved progress, and that lasts exactly as long as
      the steps leave both alone. */
  lemma ShareStep(s: State, step: Step, c: nat)
    requires Inv(s) && Enabled(s, step)
    ensures SavesInUse(s, step) ==> (Shares(Apply(s, step), c) <==> c == step.c)
    ensures !SavesInUse(s, step) ==> (Shares(Apply(s, step), c) <==> Shares(s, c) && Leaves(step, c))
  {
    hide ProgsRight, Conserved, PendingOnce;
    var t := Apply(s, step);
    match step
    case Restart(_, _) =>
      forall d | WorksOn(s, d, |s.progs|) ensures false {
        CallAt(s, d);
      }
    case Precreate(_, _) =>
    case GiveUp(d) =>
      assert WorksOn(s, d, s.calls[d].prog);
      if WorksOn(t, c, s.calls[d].prog) {
        OnlyWorker(s, c, d, s.calls[d].prog);
      }
    case _ =>
  }

  /** The one step after which a call may find a saved progress that another call works on: a call
      whose uploadid expired starts over for the first time. */
  lemma WindowOpensIff(s: State, step: Step)
    requires Inv(s) && Unowned(s) && Enabled(s, step)
    ensures Unowned(Apply(s, step)) <==> !SavesInUse(s, step)
  {
    hide Inv, Enabled, Apply, SavesInUse, WorksOn;
    var t := Apply(s, step);
    assert forall c :: !Shares(s, c);
    forall c ensures Shares(t, c) ==> SavesInUse(s, step) {
      ShareStep(s, step, c);
    }
    if SavesInUse(s, step) {
      Opener(s, step);
      ShareStep(s, step, step.c);
    }
  }

  lemma Opener(s: State, step: Step)
    requires SavesInUse(s, step)
    ensures step.Restart?
  {
  }

  // ---------- Whole runs: never two owners, exactly when ----------

  /** Step `j` opened the window and it is still open in state `n`. */
  ghost predicate InWindow(states: seq<State>, steps: seq<Step>, j: nat, n: nat)
    requires IsRun(states, steps) && n < |states|
  {
    && j < n && SavesInUse(states[j], steps[j])
    && forall k | j < k < n :: Leaves(steps[k], steps[j].c)
  }

  /** No call takes a saved progress between the moment another call, starting over for the first
      time, saves it and the moment that call is done sending or the cache entry is gone or
      replaced. */
  ghost predicate Polite(states: seq<State>, steps: seq<Step>)
    requires IsRun(states, steps)
  {
    forall n, j | 0 <= n < |steps| && steps[n].Take? && 0 <= j < n :: !InWindow(states, steps, j, n)
  }

  /** At most one window is open at a time, and it is open exactly while a call works on the saved
      progress. */
  lemma {:induction false} WindowIsSharing(states: seq<State>, steps: seq<Step>, n: nat, c: nat)
    requires IsRun(states, steps) && n < |states|
    requires forall k | 0 <= k < n :: Inv(states[k])
    ensures Shares(states[n], c) <==> exists j: nat :: InWindow(states, steps, j, n) && steps[j].c == c
  {
    hide Inv, Enabled, Apply, Shares, Leaves;
    if n == 0 {
      NothingShared(c);
    } else {
      var m := n - 1;
      assert Enabled(states[m], steps[m]) && states[n] == Apply(states[m], steps[m]);
      WindowIsSharing(states, steps, m, c);
      ShareStep(states[m], steps[m], c);
      if SavesInUse(states[m], steps[m]) {
        RestartEnds(states[m], steps[m], c);
        assert InWindow(states, steps, m, n);
        forall j: nat | InWindow(states, steps, j, n) && j != m ensures false {
          RestartEnds(states[m], steps[m], steps[j].c);
        }
      } else {
        forall j: nat | InWindow(states, steps, j, n) && steps[j].c == c
          ensures InWindow(states, steps, j, m) && Leaves(steps[m], c)
        {
        }
        if Shares(states[m], c) && Leaves(steps[m], c) {
          var j: nat :| InWindow(states, steps, j, m) && steps[j].c == c;
          assert InWindow(states, steps, j, n);
        }
      }
    }
  }

  lemma NothingShared(c: nat)
    ensures !Shares(INIT, c)
  {
  }

  lemma RestartEnds(s: State, step: Step, c: nat)
    requires SavesInUse(s, step)
    ensures !Leaves(step, c)
  {
  }

  /** Safety over the part of a run up to which no call takes a progress inside a window. */
  lemma {:induction false} RightUpTo(states: seq<State>, steps: seq<Step>, n: nat)
    requires IsRun(states, steps) && n < |states|
    requires forall m, j | 0 <= m < n && steps[m].Take? && 0 <= j < m :: !InWindow(states, steps, j, m)
    ensures forall k | 0 <= k <= n :: Inv(states[k])
  {
    hide Inv, Enabled, Apply, InWindow;
    if n == 0 {
      InitRight();
    } else {
      var m := n - 1;
      assert Enabled(states[m], steps[m]) && states[n] == Apply(states[m], steps[m]);
      RightUpTo(states, steps, m);
      if steps[m].Take? {
        NoWindowUnowned(states, steps, m);
      }
      StepKeeps(states[m], steps[m]);
    }
  }

  lemma InitRight()
    ensures Inv(INIT)
  {
  }

  lemma NoWindowUnowned(states: seq<State>, steps: seq<Step>, n: nat)
    requires IsRun(states, steps) && n < |states|
    requires forall k | 0 <= k < n :: Inv(states[k])
    ensures Unowned(states[n]) <==> forall j | 0 <= j < n :: !InWindow(states, steps, j, n)
  {
    hide Inv, Enabled, Apply, WorksOn, Shares, Leaves;
    if !Unowned(states[n]) {
      var c :| Shares(states[n], c);
      WindowIsSharing(states, steps, n, c);
      var j: nat :| InWindow(states, steps, j, n);
      Before(states, steps, j, n);
    }
    if j: nat :| j < n && InWindow(states, steps, j, n) {
      Before(states, steps, j, n);
      WindowIsSharing(states, steps, n, steps[j].c);
      assert Shares(states[n], steps[j].c);
    }
  }

  lemma Before(states: seq<State>, steps: seq<Step>, j: nat, n: nat)
    requires IsRun(states, steps) && n < |states| && InWindow(states, steps, j, n)
    ensures j < n <= |steps| && steps[j].Restart?
  {
  }

  /** Safety over whole runs, whatever the interleaving of parts, failures, cancellations, expiries
      and resumes. */
  lemma AlwaysRight(states: seq<State>, steps: seq<Step>, i: nat)
    requires IsRun(states, steps) && Polite(states, steps) && i < |states|
    ensures Inv(states[i])
  {
    RightUpTo(states, steps, i);
  }

  /** In any run at all: no progress ever has two calls working on it iff no call takes a saved
      progress inside a window. */
  lemma OneOwnerIff(states: seq<State>, steps: seq<Step>)
    requires IsRun(states, steps)
    ensures (forall i | 0 <= i < |states| :: Exclusive(states[i])) <==> Polite(states, steps)
  {
    hide Enabled, Apply, InWindow, Exclusive, WorksOn, ProgsRight, CallsRight, CacheRight;
    if Polite(states, steps) {
      forall i | 0 <= i < |states| ensures Exclusive(states[i]) {
        AlwaysRight(states, steps, i);
      }
    } else {
      var n := FirstRude(states, steps, |steps|);
      RightUpTo(states, steps, n);
      NoWindowUnowned(states, steps, n);
      assert Enabled(states[n], steps[n]) && states[n + 1] == Apply(states[n], steps[n]);
      TakeSharesIff(states[n], steps[n].c);
      assert !Exclusive(states[n + 1]);
    }
  }

  /** The first Take inside a window. */
  lemma {:induction false} FirstRude(states: seq<State>, steps: seq<Step>, below: nat) returns (n: nat)
    requires IsRun(states, steps) && below <= |steps|
    requires exists m, j :: 0 <= m < below && steps[m].Take? && 0 <= j < m && InWindow(states, steps, j, m)
    ensures n < |steps| && steps[n].Take? && exists j :: 0 <= j < n && InWindow(states, steps, j, n)
    ensures forall m, j | 0 <= m < n && steps[m].Take? && 0 <= j < m :: !InWindow(states, steps, j, m)
  {
    hide Enabled, Apply, InWindow;
    if exists m, j :: 0 <= m < below - 1 && steps[m].Take? && 0 <= j < m && InWindow(states, steps, j, m) {
      n := FirstRude(states, steps, below - 1);
    } else {
      n := below - 1;
    }
  }

  /** Taking a saved progress that somebody works on gives it two owners, and nothing else does. */
  lemma TakeSharesIff(s: State, c: nat)
    requires Inv(s) && Enabled(s, Take(c))
    ensures Exclusive(Apply(s, Take(c))) <==> Unowned(s)
  {
    var s' := Apply(s, Take(c));
    var p := s.cache.value;
    assert WorksOn(s', c, p);
    forall d, q | d != c ensures WorksOn(s', d, q) <==> WorksOn(s, d, q) {
    }
    forall d ensures Shares(s, d) <==> WorksOn(s, d, p) {
    }
  }

  /** The parts still to be sent of a progress. */
  ghost function PendingParts(s: State, p: nat): set<int>
    requires p < |s.progs| && s.progs[p].list < |s.lists|
  {
    set x <- s.lists[s.progs[p].list] | x >= 0
  }

  /** What the invariant means for every progress and every call: the parts asked for are
      split into confirmed and pending; no confirmation writes outside its block list; no two
      calls work on one progress; and a call that did not lose its uploadid twice creates the file
      with everything confirmed. */
  lemma WhatHolds(s: State)
    requires Inv(s)
    ensures forall p: nat | p < |s.progs| ::
              && s.progs[p].list < |s.lists|
              && s.progs[p].asked == s.progs[p].confirmed + PendingParts(s, p)
              && s.progs[p].confirmed !! PendingParts(s, p)
    ensures forall c, i | IsUploading(s, c) && i in s.calls[c].tasks ::
              Enabled(s, Sent(c, i)) && !Apply(s, Sent(c, i)).crashed
    ensures forall c | c in s.calls && s.calls[c].Creating? && s.calls[c].prog < |s.progs| ::
              s.calls[c].afterExpiry || s.progs[s.calls[c].prog].confirmed == s.progs[s.calls[c].prog].asked
    ensures Exclusive(s)
  {
    forall p: nat | p < |s.progs|
      ensures s.progs[p].list < |s.lists|
      ensures s.progs[p].asked == s.progs[p].confirmed + PendingParts(s, p)
      ensures s.progs[p].confirmed !! PendingParts(s, p)
    {
      ProgConserved(s, p);
      AskedIsSplit(s.progs[p], s.lists[s.progs[p].list]);
    }
    hide ProgsRight, Conserved;
    forall c, i | IsUploading(s, c) && i in s.calls[c].tasks
      ensures Enabled(s, Sent(c, i)) && !Apply(s, Sent(c, i)).crashed
    {
      CallAt(s, c);
    }
    forall c | c in s.calls && s.calls[c].Creating? && s.calls[c].prog < |s.progs|
      ensures s.calls[c].afterExpiry || s.progs[s.calls[c].prog].confirmed == s.progs[s.calls[c].prog].asked
    {
      CallAt(s, c);
    }
  }

  lemma AskedIsSplit(prog: Progress, list: seq<int>)
    requires Conserved(prog, list)
    ensures prog.asked == prog.confirmed + (set x <- list | x >= 0)
    ensures prog.confirmed !! set x <- list | x >= 0
  {
    forall x <- list | x >= 0 ensures x in prog.asked && x !in prog.confirmed {
      var i :| 0 <= i < |list| && list[i] == x;
    }
  }

  /** The two ways to the creation of the file: with nothing pending, or, by a second expiry, with
      everything pending. */
  lemma ReachesCreate(s: State, step: Step, c: nat)
    requires Inv(s) && Enabled(s, step)
    requires var t := Apply(s, step); c in t.calls && t.calls[c].Creating? && !(c in s.calls && s.calls[c].Creating?)
    ensures var t := Apply(s, step);
            var p := t.calls[c].prog;
            && p < |t.progs| && t.progs[p].list < |t.lists|
            && (if t.calls[c].afterExpiry
                then step.Restart? && s.calls[c].pass == 2 && step.c == c
                     && t.progs[p].confirmed == {} && PendingParts(t, p) == t.progs[p].asked
                else step == AllSent(c) && t.progs[p].confirmed == t.progs[p].asked && PendingParts(t, p) == {})
  {
    hide ProgsRight, Conserved, Exclusive, CacheRight;
    var t := Apply(s, step);
    var p := t.calls[c].prog;
    CreatesHow(s, step, c);
    if c in s.calls {
      CallAt(s, c);
    }
    if step.Restart? {
      FreshProgress(s, step.answer);
      ProgConserved(NewProgress(s, step.answer), p);
      AskedIsSplit(t.progs[p], t.lists[t.progs[p].list]);
    } else {
      CallAt(s, c);
      ProgConserved(s, p);
      AllSentSent(s, c);
      AskedIsSplit(s.progs[p], s.lists[s.progs[p].list]);
    }
  }

  lemma CreatesHow(s: State, step: Step, c: nat)
    requires Enabled(s, step)
    requires var t := Apply(s, step); c in t.calls && t.calls[c].Creating? && !(c in s.calls && s.calls[c].Creating?)
    ensures var t := Apply(s, step);
            || (step == AllSent(c) && t.calls[c] == Creating(s.calls[c].prog, s.calls[c].pass, false))
            || (step.Restart? && step.c == c && s.calls[c].pass != 1 && t.calls[c] == Creating(|s.progs|, 2, true))
  {
  }

  lemma AllSentSent(s: State, c: nat)
    requires Inv(s) && Enabled(s, AllSent(c))
    ensures s.progs[s.calls[c].prog].confirmed == s.progs[s.calls[c].prog].asked
  {
    hide ProgsRight, Conserved, Exclusive, CacheRight;
    CallAt(s, c);
    var p := s.calls[c].prog;
    ProgConserved(s, p);
    NothingPending(s.progs[p], s.lists[s.progs[p].list]);
  }

  // ---------- Whole runs: never a part lost, exactly when ----------

  /** The entry that a confirmation blanks is there, and is the one of its own part, or was blank
      already and the part confirmed. */
  ghost predicate Lands(s: State, c: nat, i: nat)
    requires IsUploading(s, c) && i in s.calls[c].tasks
  {
    var prog := s.progs[s.calls[c].prog];
    var list, part := s.lists[prog.list], s.calls[c].tasks[i];
    i < |list| && (list[i] == part || (list[i] < 0 && part in prog.confirmed))
  }

  lemma ConfirmIff(prog: Progress, list: seq<int>, i: nat, part: nat)
    requires Conserved(prog, list) && i < |list| && part in prog.asked
    ensures Conserved(prog.(confirmed := prog.confirmed + {part}), list[i := -1])
       <==> list[i] == part || (list[i] < 0 && part in prog.confirmed)
  {
    var prog', list' := prog.(confirmed := prog.confirmed + {part}), list[i := -1];
    if list[i] == part {
      ConfirmOne(prog, list, i);
    } else if list[i] < 0 && part in prog.confirmed {
      assert prog'.confirmed == prog.confirmed;
      forall y <- prog.asked ensures y in prog'.confirmed || y in list' {
        if y !in prog'.confirmed {
          var j :| 0 <= j < |list| && list[j] == y;
          assert list'[j] == y;
        }
      }
    } else if list[i] >= 0 {
      assert list[i] in prog.asked && list[i] !in prog'.confirmed && list[i] !in list';
    } else {
      var j :| 0 <= j < |list| && list[j] == part;
      assert list'[j] == part && part in prog'.confirmed;
    }
  }

  /** The parts in flight, and those a loop has yet to look at, were asked for. */
  ghost predicate AskedFor(s: State) {
    forall c <- s.calls :: s.calls[c].Uploading? ==> CallAsked(s, s.calls[c])
  }

  ghost predicate CallAsked(s: State, call: Call)
    requires call.Uploading?
  {
    && call.prog < |s.progs| && call.list < |s.lists|
    && (forall e <- s.lists[call.list] :: e >= 0 ==> e in s.progs[call.prog].asked)
    && (forall i <- call.tasks :: call.tasks[i] in s.progs[call.prog].asked)
  }

  /** Confirming a part conserves every progress, and the process lives, iff the confirmation lands. */
  lemma SentConservesIff(s: State, c: nat, i: nat)
    requires ProgsRight(s) && AskedFor(s) && Enabled(s, Sent(c, i))
    ensures ProgsRight(Apply(s, Sent(c, i))) && !Apply(s, Sent(c, i)).crashed <==> Lands(s, c, i)
  {
    var call := s.calls[c];
    var prog := s.progs[call.prog];
    assert CallAsked(s, call);
    ProgConserved(s, call.prog);
    if i < |s.lists[prog.list]| {
      ConfirmIff(prog, s.lists[prog.list], i, call.tasks[i]);
    }
    hide Conserved;
    var t := Apply(s, Sent(c, i));
    if Lands(s, c, i) {
      var prog' := prog.(confirmed := prog.confirmed + {call.tasks[i]});
      ProgsStayRight(s, call.prog, prog', t.lists);
      ProgsOnly(s.(progs := t.progs, lists := t.lists), t);
    } else if ProgsRight(t) && !t.crashed {
      ProgConserved(t, call.prog);
    }
  }

  lemma OthersConserve(s: State, step: Step)
    requires ProgsRight(s) && Enabled(s, step) && !step.Sent?
    ensures ProgsRight(Apply(s, step)) && !Apply(s, step).crashed
  {
    hide Conserved;
    var t := Apply(s, step);
    match step
    case Precreate(_, answer) =>
      FreshConserved(s, answer);
      ProgsOnly(NewProgress(s, answer), t);
    case Restart(_, answer) =>
      FreshConserved(s, answer);
      ProgsOnly(NewProgress(s, answer), t);
    case GiveUp(c) =>
      var p := s.calls[c].prog;
      var prog := s.progs[p];
      ProgConserved(s, p);
      FilterConserves(prog, s.lists[prog.list]);
      SameParts(prog, |s.lists|, Pending(s.lists[prog.list]));
      ListWithin(prog, s.lists[prog.list]);
      ProgsStayRight(s, p, prog.(list := |s.lists|), t.lists);
      ProgsOnly(s.(progs := t.progs, lists := t.lists), t);
    case _ => ProgsOnly(s, t);
  }

  lemma ListWithin(prog: Progress, list: seq<int>)
    requires Conserved(prog, list)
    ensures prog.confirmed <= prog.asked
    ensures forall e <- list :: e >= 0 ==> e in prog.asked
  {
  }

  lemma AskedKeeps(s: State, step: Step)
    requires ProgsRight(s) && AskedFor(s) && Enabled(s, step)
    ensures AskedFor(Apply(s, step))
  {
    hide ProgsRight, Conserved, Pending;
    var t := Apply(s, step);
    forall d <- t.calls | t.calls[d].Uploading? ensures CallAsked(t, t.calls[d]) {
      if d in s.calls && s.calls[d].Uploading? {
        assert CallAsked(s, s.calls[d]);
      }
      if step.Take? && d == step.c {
        ProgConserved(s, s.cache.value);
        ListWithin(s.progs[s.cache.value], s.lists[s.progs[s.cache.value].list]);
      }
    }
  }

  lemma {:induction false} ConservedUpTo(states: seq<State>, steps: seq<Step>, n: nat)
    requires IsRun(states, steps) && n < |states|
    requires forall k | 0 <= k < n && steps[k].Sent? :: Lands(states[k], steps[k].c, steps[k].i)
    ensures forall k | 0 <= k <= n :: ProgsRight(states[k]) && AskedFor(states[k]) && !states[k].crashed
  {
    hide ProgsRight, AskedFor, Apply, Lands;
    if n == 0 {
      InitConserved();
    } else {
      var m := n - 1;
      assert Enabled(states[m], steps[m]) && states[n] == Apply(states[m], steps[m]);
      ConservedUpTo(states, steps, m);
      AskedKeeps(states[m], steps[m]);
      if steps[m].Sent? {
        SentConservesIff(states[m], steps[m].c, steps[m].i);
      } else {
        OthersConserve(states[m], steps[m]);
      }
    }
  }

  lemma InitConserved()
    ensures ProgsRight(INIT) && AskedFor(INIT)
  {
  }

  /** In any run at all, shared progress or not: no part is ever lost and the process never crashes,
      that is, in every state every part asked for is confirmed or pending, and not both, iff every
      confirmation lands. */
  lemma NothingLostIff(states: seq<State>, steps: seq<Step>)
    requires IsRun(states, steps)
    ensures (forall i | 0 <= i < |states| :: ProgsRight(states[i]) && !states[i].crashed)
       <==> forall k | 0 <= k < |steps| && steps[k].Sent? :: Lands(states[k], steps[k].c, steps[k].i)
  {
    hide ProgsRight, Apply, Lands;
    if forall k | 0 <= k < |steps| && steps[k].Sent? :: Lands(states[k], steps[k].c, steps[k].i) {
      ConservedUpTo(states, steps, |steps|);
    } else {
      var n := FirstAstray(states, steps, |steps|);
      ConservedUpTo(states, steps, n);
      SentConservesIff(states[n], steps[n].c, steps[n].i);
      assert states[n + 1] == Apply(states[n], steps[n]);
      assert !(ProgsRight(states[n + 1]) && !states[n + 1].crashed);
    }
  }

  lemma {:induction false} FirstAstray(states: seq<State>, steps: seq<Step>, below: nat) returns (n: nat)
    requires IsRun(states, steps) && below <= |steps|
    requires exists k :: 0 <= k < below && steps[k].Sent? && !Lands(states[k], steps[k].c, steps[k].i)
    ensures n < |steps| && steps[n].Sent? && !Lands(states[n], steps[n].c, steps[n].i)
    ensures forall k | 0 <= k < n && steps[k].Sent? :: Lands(states[k], steps[k].c, steps[k].i)
  {
    hide Lands, Apply;
    if exists k :: 0 <= k < below - 1 && steps[k].Sent? && !Lands(states[k], steps[k].c, steps[k].i) {
      n := FirstAstray(states, steps, below - 1);
    } else {
      n := below - 1;
    }
  }

  /** While no progress has two owners every confirmation lands. */
  lemma OwnerLands(s: State, c: nat, i: nat)
    requires Inv(s) && Enabled(s, Sent(c, i))
    ensures Lands(s, c, i)
  {
    hide ProgsRight, Conserved;
    CallAt(s, c);
  }

  // ---------- Without an expiry ----------

  /** No call has seen its uploadid expire. */
  ghost predicate Calm(s: State) {
    forall c <- s.calls ::
      !s.calls[c].Restarting? && s.calls[c].pass == 1 && (s.calls[c].Uploading? ==> s.calls[c].err != Expired)
  }

  lemma CalmStep(s: State, step: Step)
    requires Calm(s) && Enabled(s, step) && !(step.Failed? && step.cause == Expired)
    ensures Calm(Apply(s, step)) && !SavesInUse(s, step)
  {
  }

  /** Without an expired uploadid at most one call ever works on a progress. */
  lemma {:induction false} NoExpiryNoSharing(states: seq<State>, steps: seq<Step>, i: nat)
    requires IsRun(states, steps) && i < |states|
    requires forall j | 0 <= j < |steps| :: !(steps[j].Failed? && steps[j].cause == Expired)
    ensures Inv(states[i]) && Calm(states[i]) && Unowned(states[i])
  {
    hide Inv, Unowned, Calm, Enabled, Apply;
    if i == 0 {
      InitCalm();
    } else {
      var m := i - 1;
      assert Enabled(states[m], steps[m]) && states[i] == Apply(states[m], steps[m]);
      NoExpiryNoSharing(states, steps, m);
      StepKeeps(states[m], steps[m]);
      CalmStep(states[m], steps[m]);
      WindowOpensIff(states[m], steps[m]);
    }
  }

  lemma InitCalm()
    ensures Inv(INIT) && Calm(INIT) && Unowned(INIT)
  {
  }
}
