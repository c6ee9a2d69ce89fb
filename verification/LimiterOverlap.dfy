/** Aliyundrive Open driver: the registry when Init and Drop overlap, even on one driver.

    Each step below is one action that a thread takes on its own: a call into the registry, which is
    locked, or one access to a driver's limiter field, which is not.  Init acquires the global limiter,
    stores it, frees what the field holds, and either clears the field or acquires and stores the
    user's limiter; Drop frees what the field holds and clears it. */
module LimiterOverlap {
  import opened LimiterRegistry

  /** `fields` is the limiter of every driver whose field is not nil; `hands` the limiter that a thread
      has acquired and not stored yet. */
  datatype Memory = Memory(table: Table, fields: map<nat, nat>, hands: map<nat, nat>)

  const EMPTY := Memory(Table(map[], []), map[], map[])

  datatype Action =
    | Acquire(thread: nat, user: UserId)
    | Store(thread: nat, d: nat)
    | Free(d: nat)
    | Clear(d: nat)

  ghost predicate Sound(m: Memory) {
    && WellFormed(m.table)
    && (forall d <- m.fields :: m.fields[d] < |m.table.usedBy|)
    && (forall t <- m.hands :: m.hands[t] < |m.table.usedBy|)
  }

  predicate Can(m: Memory, a: Action) {
    match a
    case Acquire(t, _) => WellFormed(m.table) && t !in m.hands
    case Store(t, _) => t in m.hands
    case Free(d) => d in m.fields ==> m.fields[d] < |m.table.usedBy|
    case Clear(_) => true
  }

  function Do(m: Memory, a: Action): Memory
    requires Can(m, a)
  {
    match a
    case Acquire(t, user) =>
      var counted := Count(m.table, user);
      m.(table := CleanUp(counted), hands := m.hands[t := counted.limiters[user]])
    case Store(t, d) => m.(fields := m.fields[d := m.hands[t]], hands := m.hands - {t})
    case Free(d) => if d in m.fields then m.(table := Release(m.table, m.fields[d])) else m
    case Clear(d) => m.(fields := m.fields - {d})
  }

  ghost predicate IsHistory(states: seq<Memory>, actions: seq<Action>) {
    && |states| == |actions| + 1 && states[0] == EMPTY
    && forall i | 0 <= i < |actions| :: Can(states[i], actions[i]) && states[i + 1] == Do(states[i], actions[i])
  }

  // ---------- Counting ----------

  /** Where a limiter is kept. */
  ghost function KeptIn(places: map<nat, nat>, id: nat): set<nat> {
    set p | p in places && places[p] == id
  }

  ghost function Uses(m: Memory, id: nat): int {
    if id < |m.table.usedBy| then m.table.usedBy[id] else 0
  }

  /** By how much a limiter is counted beyond the fields and threads that have it. */
  ghost function Balance(m: Memory, id: nat): int {
    Uses(m, id) - |KeptIn(m.fields, id)| - |KeptIn(m.hands, id)|
  }

  lemma KeptLess(places: map<nat, nat>, p: nat, id: nat)
    ensures |KeptIn(places - {p}, id)| == |KeptIn(places, id)| - (if p in places && places[p] == id then 1 else 0)
  {
    if p in places && places[p] == id {
      assert KeptIn(places, id) == KeptIn(places - {p}, id) + {p};
    } else {
      assert KeptIn(places, id) == KeptIn(places - {p}, id);
    }
  }

  lemma KeptMore(places: map<nat, nat>, p: nat, q: nat, id: nat)
    ensures |KeptIn(places[p := q], id)| == |KeptIn(places - {p}, id)| + (if q == id then 1 else 0)
  {
    KeptLess(places[p := q], p, id);
    assert places[p := q] - {p} == places - {p};
  }

  /** The action makes a field forget this limiter. */
  predicate Overwrites(m: Memory, a: Action, id: nat) {
    (a.Store? || a.Clear?) && a.d in m.fields && m.fields[a.d] == id
  }

  /** The action frees this limiter. */
  predicate Frees(m: Memory, a: Action, id: nat) {
    a.Free? && a.d in m.fields && m.fields[a.d] == id
  }

  lemma ActionBalance(m: Memory, a: Action, id: nat)
    requires Sound(m) && Can(m, a)
    ensures Sound(Do(m, a))
    ensures Balance(Do(m, a), id)
         == Balance(m, id) + (if Overwrites(m, a, id) then 1 else 0) - (if Frees(m, a, id) then 1 else 0)
  {
    hide KeptIn;
    match a
    case Acquire(t, user) =>
      KeptMore(m.hands, t, Count(m.table, user).limiters[user], id);
      KeptLess(m.hands, t, id);
    case Store(t, d) =>
      KeptLess(m.hands, t, id);
      KeptMore(m.fields, d, m.hands[t], id);
      KeptLess(m.fields, d, id);
    case Free(_) =>
    case Clear(d) => KeptLess(m.fields, d, id);
  }

  function Forgotten(states: seq<Memory>, actions: seq<Action>, i: nat, id: nat): nat
    requires i <= |actions| && i <= |states|
  {
    if i == 0 then 0
    else Forgotten(states, actions, i - 1, id) + if Overwrites(states[i - 1], actions[i - 1], id) then 1 else 0
  }

  function Freed(states: seq<Memory>, actions: seq<Action>, i: nat, id: nat): nat
    requires i <= |actions| && i <= |states|
  {
    if i == 0 then 0
    else Freed(states, actions, i - 1, id) + if Frees(states[i - 1], actions[i - 1], id) then 1 else 0
  }

  /** However Init and Drop of any number of drivers overlap: a limiter is counted by the fields and
      threads that have it, plus the times a field was made to forget it, minus the times it was freed.
      The count is right iff it was freed exactly as often as it was forgotten. */
  lemma {:induction false} CountIsBalanced(states: seq<Memory>, actions: seq<Action>, i: nat, id: nat)
    requires IsHistory(states, actions) && i < |states|
    ensures Sound(states[i])
    ensures Uses(states[i], id)
         == |KeptIn(states[i].fields, id)| + |KeptIn(states[i].hands, id)|
            + Forgotten(states, actions, i, id) - Freed(states, actions, i, id)
    ensures Balance(states[i], id) == 0 <==> Forgotten(states, actions, i, id) == Freed(states, actions, i, id)
  {
    hide Can, Do, Overwrites, Frees, KeptIn;
    if i == 0 {
      NothingKept(id);
    } else {
      CountIsBalanced(states, actions, i - 1, id);
      assert Can(states[i - 1], actions[i - 1]) && states[i] == Do(states[i - 1], actions[i - 1]);
      ActionBalance(states[i - 1], actions[i - 1], id);
    }
  }

  lemma NothingKept(id: nat)
    ensures KeptIn(EMPTY.fields, id) == {} && KeptIn(EMPTY.hands, id) == {}
  {
  }

  // ---------- The global limiter ----------

  /** No action removes or replaces the global limiter, and all that acquire it get that one. */
  lemma GlobalRemains(m: Memory, a: Action)
    requires Can(m, a)
    ensures GLOBAL in m.table.limiters ==>
              GLOBAL in Do(m, a).table.limiters && Do(m, a).table.limiters[GLOBAL] == m.table.limiters[GLOBAL]
    ensures a.Acquire? && a.user == GLOBAL ==>
              GLOBAL in Do(m, a).table.limiters && a.thread in Do(m, a).hands &&
              Do(m, a).hands[a.thread] == Do(m, a).table.limiters[GLOBAL]
  {
  }

  lemma {:induction false} GlobalSince(states: seq<Memory>, actions: seq<Action>, i: nat, j: nat)
    requires IsHistory(states, actions) && i <= j < |states| && GLOBAL in states[i].table.limiters
    ensures GLOBAL in states[j].table.limiters && states[j].table.limiters[GLOBAL] == states[i].table.limiters[GLOBAL]
    decreases j
  {
    hide Can, Do;
    if i < j {
      GlobalSince(states, actions, i, j - 1);
      assert Can(states[j - 1], actions[j - 1]) && states[j] == Do(states[j - 1], actions[j - 1]);
      GlobalRemains(states[j - 1], actions[j - 1]);
    }
  }

  /** However Init and Drop overlap, and however often the counts go wrong: all that ever acquire the
      global limiter get the same one. */
  lemma OneGlobalLimiter(states: seq<Memory>, actions: seq<Action>, i: nat, j: nat)
    requires IsHistory(states, actions) && i <= j < |actions|
    requires actions[i].Acquire? && actions[i].user == GLOBAL && actions[j].Acquire? && actions[j].user == GLOBAL
    ensures actions[i].thread in states[i + 1].hands && actions[j].thread in states[j + 1].hands
    ensures states[i + 1].hands[actions[i].thread] == states[j + 1].hands[actions[j].thread]
  {
    hide Can, Do;
    assert Can(states[i], actions[i]) && states[i + 1] == Do(states[i], actions[i]);
    assert Can(states[j], actions[j]) && states[j + 1] == Do(states[j], actions[j]);
    GlobalRemains(states[i], actions[i]);
    GlobalRemains(states[j], actions[j]);
    GlobalSince(states, actions, i + 1, j + 1);
  }

  // ---------- Two overlapping Drops ----------

  const BOTH := Memory(Table(map["u" := 0], [2]), map[1 := 0, 2 := 0], map[])
  const FREED_TWICE := Memory(Table(map["u" := 0], [0]), map[2 := 0], map[])

  ghost predicate EndsIn(states: seq<Memory>, actions: seq<Action>, m: Memory) {
    IsHistory(states, actions) && states[|states| - 1] == m
  }

  /** Some history ends in this state. */
  ghost predicate Reachable(m: Memory) {
    exists states, actions :: EndsIn(states, actions, m)
  }

  lemma Next(m: Memory, a: Action)
    requires Reachable(m) && Can(m, a)
    ensures Reachable(Do(m, a))
  {
    var states, actions :| EndsIn(states, actions, m);
    hide Can, Do;
    assert EndsIn(states + [Do(m, a)], actions + [a], Do(m, a));
  }

  lemma Together()
    ensures Reachable(BOTH)
  {
    var a := Do(EMPTY, Acquire(0, "u"));
    var b := Do(a, Store(0, 1));
    var c := Do(b, Acquire(0, "u"));
    assert a == Memory(Table(map["u" := 0], [1]), map[], map[0 := 0]);
    assert b == Memory(Table(map["u" := 0], [1]), map[1 := 0], map[]);
    assert [1][0 := 2] == [2];
    assert c == Memory(Table(map["u" := 0], [2]), map[1 := 0], map[0 := 0]);
    assert Do(c, Store(0, 2)) == BOTH;
    assert EndsIn([EMPTY], [], EMPTY);
    hide Reachable, Do;
    Next(EMPTY, Acquire(0, "u"));
    Next(a, Store(0, 1));
    Next(b, Acquire(0, "u"));
    Next(c, Store(0, 2));
  }

  lemma DroppedTwice()
    ensures Reachable(FREED_TWICE)
  {
    Together();
    var a := Do(BOTH, Free(1));
    var b := Do(a, Free(1));
    var c := Do(b, Clear(1));
    assert [2][0 := 1] == [1] && [1][0 := 0] == [0];
    assert a == Memory(Table(map["u" := 0], [1]), map[1 := 0, 2 := 0], map[]);
    assert b == Memory(Table(map["u" := 0], [0]), map[1 := 0, 2 := 0], map[]);
    assert c == FREED_TWICE && Do(c, Clear(1)) == FREED_TWICE;
    hide Reachable, Do;
    Next(BOTH, Free(1));
    Next(a, Free(1));
    Next(b, Clear(1));
    Next(c, Clear(1));
  }

  /** Two drivers share a limiter.  When one is dropped twice at the same time, both Drops free it before
      either clears the field, and the next acquisition forgets it although the other driver holds it. */
  lemma HeldButForgotten()
    ensures exists m :: Reachable(m) && 2 in m.fields && m.fields[2] == 0 && 0 !in m.table.limiters.Values
  {
    DroppedTwice();
    hide Reachable;
    Next(FREED_TWICE, Acquire(0, "v"));
    var m := Do(FREED_TWICE, Acquire(0, "v"));
    Apart();
    var counted := Count(FREED_TWICE.table, "v");
    assert counted == Table(map["u" := 0, "v" := 1], [0, 1]);
    assert m.table.limiters == map["v" := 1];
  }

  lemma Apart()
    ensures "u" != "v" && "u" != GLOBAL
  {
    assert "u"[0] != "v"[0];
  }
}
