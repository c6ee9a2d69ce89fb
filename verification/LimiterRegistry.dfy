/** Aliyundrive Open driver: one shared limiter per user, counted by its holders. */
module LimiterRegistry {
  import opened Results

  type UserId = string

  /** The user id of the global limiter, used before the user is known. */
  const GLOBAL: UserId := ""

  /** The registry: which limiter serves a user, and how many holders each limiter ever made
      has.  Limiters are numbered in the order they were made. */
  datatype Table = Table(limiters: map<UserId, nat>, usedBy: seq<int>)

  predicate WellFormed(t: Table) {
    forall u <- t.limiters :: t.limiters[u] < |t.usedBy|
  }

  /** One more holder for the user's limiter, which is made if there is none. */
  function Count(t: Table, user: UserId): (r: Table)
    requires WellFormed(t)
    ensures WellFormed(r) && user in r.limiters
  {
    if user in t.limiters then
      var id := t.limiters[user];
      t.(usedBy := t.usedBy[id := t.usedBy[id] + 1])
    else Table(t.limiters[user := |t.usedBy|], t.usedBy + [1])
  }

  /** Whether the clean-up keeps a user's limiter. */
  predicate Stays(t: Table, user: UserId)
    requires WellFormed(t) && user in t.limiters
  {
    user == GLOBAL || t.usedBy[t.limiters[user]] > 0
  }

  /** Limiters that nobody holds are forgotten, except the global one. */
  function CleanUp(t: Table): (r: Table)
    requires WellFormed(t)
    ensures WellFormed(r)
  {
    t.(limiters := map u | u in t.limiters && Stays(t, u) :: t.limiters[u])
  }

  function Release(t: Table, id: nat): Table
    requires id < |t.usedBy|
  {
    t.(usedBy := t.usedBy[id := t.usedBy[id] - 1])
  }

  /** The registry as the program keeps it, changed only under its lock. */
  class Registry {
    var limiters: map<UserId, nat>
    var usedBy: seq<int>

    function Contents(): Table
      reads this
    {
      Table(limiters, usedBy)
    }

    constructor ()
      ensures Contents() == Table(map[], [])
    {
      limiters, usedBy := map[], [];
    }

    /** Counts a new holder, then forgets the limiters that nobody holds. */
    method GetLimiterForUser(user: UserId) returns (lim: nat)
      requires WellFormed(Contents())
      modifies this
      ensures Contents() == CleanUp(Count(old(Contents()), user))
      ensures lim == Count(old(Contents()), user).limiters[user]
    {
      if user in limiters {
        lim := limiters[user];
        usedBy := usedBy[lim := usedBy[lim] + 1];
      } else {
        lim := |usedBy|;
        usedBy := usedBy + [1];
        limiters := limiters[user := lim];
      }
      Forget();
    }

    /** Drops the limiters that nobody holds, except the global one. */
    method Forget()
      requires WellFormed(Contents())
      modifies this
      ensures Contents() == CleanUp(old(Contents()))
    {
      ghost var all := Contents();
      var left := limiters.Keys;
      while left != {}
        invariant usedBy == all.usedBy && left <= all.limiters.Keys
        invariant limiters == map u | u in all.limiters && (u in left || Stays(all, u)) :: all.limiters[u]
        decreases |left|
      {
        var u :| u in left;
        left := left - {u};
        if usedBy[limiters[u]] <= 0 && u != GLOBAL {
          limiters := limiters - {u};
        }
      }
    }

    /** A holder lets go; a nil limiter is ignored. */
    method Free(lim: Option<nat>)
      requires lim.Some? ==> lim.value < |usedBy|
      modifies this
      ensures Contents() == if lim.None? then old(Contents()) else Release(old(Contents()), lim.value)
    {
      if lim.None? {
        return;
      }
      usedBy := usedBy[lim.value := usedBy[lim.value] - 1];
    }
  }

  // ---------- Drivers that start, fail and stop ----------

  /** A driver that is not idle: it asked who its user is, holding the global limiter; it let
      the global limiter go and knows its user; or it is ready and holds its user's limiter. */
  datatype Driver = Starting(lim: nat) | Switching(user: UserId) | Ready(user: UserId, lim: nat)

  datatype System = System(table: Table, drivers: map<nat, Driver>)

  const INIT := System(Table(map[], []), map[])

  datatype Step =
    | InitBegin(d: nat)
    | InitFails(d: nat)
    | InitKnowsUser(d: nat, user: UserId)
    | InitEnd(d: nat)
    | Drop(d: nat)

  function Held(driver: Driver): Option<nat> {
    if driver.Switching? then None else Some(driver.lim)
  }

  predicate Enabled(s: System, step: Step) {
    && WellFormed(s.table)
    && match step
       case InitBegin(d) => d in s.drivers ==> s.drivers[d].Ready?
       case InitFails(d) => d in s.drivers && s.drivers[d].Starting? && s.drivers[d].lim < |s.table.usedBy|
       case InitKnowsUser(d, _) => d in s.drivers && s.drivers[d].Starting? && s.drivers[d].lim < |s.table.usedBy|
       case InitEnd(d) => d in s.drivers && s.drivers[d].Switching?
       case Drop(d) => d in s.drivers ==> s.drivers[d].Ready? && s.drivers[d].lim < |s.table.usedBy|
  }

  function Acquire(s: System, user: UserId): (r: (Table, nat))
    requires WellFormed(s.table)
  {
    var counted := Count(s.table, user);
    (CleanUp(counted), counted.limiters[user])
  }

  function Apply(s: System, step: Step): System
    requires Enabled(s, step)
  {
    match step
    case InitBegin(d) =>
      var (table, lim) := Acquire(s, GLOBAL);
      System(table, s.drivers[d := Starting(lim)])
    case InitFails(d) => System(Release(s.table, s.drivers[d].lim), s.drivers - {d})
    case InitKnowsUser(d, user) => System(Release(s.table, s.drivers[d].lim), s.drivers[d := Switching(user)])
    case InitEnd(d) =>
      var user := s.drivers[d].user;
      var (table, lim) := Acquire(s, user);
      System(table, s.drivers[d := Ready(user, lim)])
    case Drop(d) =>
      if d in s.drivers then System(Release(s.table, s.drivers[d].lim), s.drivers - {d}) else s
  }

  /** The drivers that hold a limiter. */
  ghost function Holders(drivers: map<nat, Driver>, id: nat): set<nat> {
    set d | d in drivers && Held(drivers[d]) == Some(id)
  }

  // ---------- The invariant ----------

  /** Every limiter is counted exactly by its holders. */
  ghost predicate Counted(s: System) {
    && WellFormed(s.table)
    && (forall d <- s.drivers :: Held(s.drivers[d]).Some? ==> s.drivers[d].lim < |s.table.usedBy|)
    && forall id | 0 <= id < |s.table.usedBy| :: s.table.usedBy[id] == |Holders(s.drivers, id)|
  }

  /** Every limiter that is held is the one the registry has for its user. */
  ghost predicate Registered(s: System) {
    && (forall u, v | u in s.table.limiters && v in s.table.limiters && u != v ::
          s.table.limiters[u] != s.table.limiters[v])
    && forall d <- s.drivers ::
         match s.drivers[d]
         case Starting(lim) => GLOBAL in s.table.limiters && s.table.limiters[GLOBAL] == lim
         case Ready(user, lim) => user in s.table.limiters && s.table.limiters[user] == lim
         case Switching(_) => true
  }

  ghost predicate Inv(s: System) {
    Counted(s) && Registered(s)
  }

  /** Only held limiters and the global one are in the registry. */
  ghost predicate Tidy(s: System) {
    forall u <- s.table.limiters :: u == GLOBAL || Holders(s.drivers, s.table.limiters[u]) != {}
  }

  // ---------- Counting holders ----------

  lemma TakeOut(drivers: map<nat, Driver>, d: nat, id: nat)
    requires d in drivers
    ensures |Holders(drivers, id)| == |Holders(drivers - {d}, id)| + if Held(drivers[d]) == Some(id) then 1 else 0
  {
    assert Holders(drivers, id) == Holders(drivers - {d}, id) + if Held(drivers[d]) == Some(id) then {d} else {};
  }

  lemma PutIn(drivers: map<nat, Driver>, d: nat, driver: Driver, id: nat)
    ensures |Holders(drivers[d := driver], id)|
         == |Holders(drivers - {d}, id)| + if Held(driver) == Some(id) then 1 else 0
  {
    TakeOut(drivers[d := driver], d, id);
    assert drivers[d := driver] - {d} == drivers - {d};
  }

  /** A driver that holds nothing does not count. */
  lemma NotHolding(drivers: map<nat, Driver>, d: nat, id: nat)
    requires d in drivers ==> Held(drivers[d]).None?
    ensures |Holders(drivers, id)| == |Holders(drivers - {d}, id)|
  {
    if d in drivers {
      TakeOut(drivers, d, id);
    } else {
      assert drivers - {d} == drivers;
    }
  }

  // ---------- One step at a time ----------

  /** Counting one more holder of the limiter that `Count` finds or makes. */
  lemma CountKeeps(s: System, d: nat, user: UserId, driver: Driver)
    requires Inv(s) && (d in s.drivers ==> Held(s.drivers[d]).None?)
    requires Held(driver) == Some(Count(s.table, user).limiters[user])
    requires (driver.Starting? && user == GLOBAL) || (driver.Ready? && driver.user == user)
    ensures Inv(System(Count(s.table, user), s.drivers[d := driver]))
  {
    var t := Count(s.table, user);
    var s' := System(t, s.drivers[d := driver]);
    forall id | 0 <= id < |t.usedBy| ensures t.usedBy[id] == |Holders(s'.drivers, id)| {
      PutIn(s.drivers, d, driver, id);
      NotHolding(s.drivers, d, id);
      if id == |s.table.usedBy| {
        assert Holders(s.drivers, id) == {};
      }
    }
  }

  /** Forgetting what nobody holds. */
  lemma CleanUpKeeps(s: System)
    requires Inv(s)
    ensures Inv(System(CleanUp(s.table), s.drivers)) && Tidy(System(CleanUp(s.table), s.drivers))
  {
    var s' := System(CleanUp(s.table), s.drivers);
    forall d <- s.drivers | Held(s.drivers[d]).Some? ensures s.table.usedBy[s.drivers[d].lim] > 0 {
      assert d in Holders(s.drivers, s.drivers[d].lim);
    }
    forall u <- s'.table.limiters ensures u == GLOBAL || Holders(s.drivers, s'.table.limiters[u]) != {} {
      assert Stays(s.table, u);
    }
  }

  lemma ReleaseKeeps(s: System, d: nat, drivers: map<nat, Driver>)
    requires Inv(s) && d in s.drivers && Held(s.drivers[d]).Some?
    requires drivers == s.drivers - {d} || exists user :: drivers == s.drivers[d := Switching(user)]
    ensures Inv(System(Release(s.table, s.drivers[d].lim), drivers))
  {
    var t := Release(s.table, s.drivers[d].lim);
    forall id | 0 <= id < |t.usedBy| ensures t.usedBy[id] == |Holders(drivers, id)| {
      TakeOut(s.drivers, d, id);
      NotHolding(drivers, d, id);
      assert drivers - {d} == s.drivers - {d};
    }
  }

  /** Every step keeps the invariant, and every acquisition leaves the registry tidy; the one
      exception is a driver that starts again while it is still ready. */
  lemma StepKeeps(s: System, step: Step)
    requires Inv(s) && Enabled(s, step) && (step.InitBegin? ==> step.d !in s.drivers)
    ensures Inv(Apply(s, step))
    ensures step.InitBegin? || step.InitEnd? ==> Tidy(Apply(s, step))
  {
    match step
    case InitBegin(d) =>
      var driver := Starting(Count(s.table, GLOBAL).limiters[GLOBAL]);
      CountKeeps(s, d, GLOBAL, driver);
      CleanUpKeeps(System(Count(s.table, GLOBAL), s.drivers[d := driver]));
    case InitEnd(d) =>
      var user := s.drivers[d].user;
      var driver := Ready(user, Count(s.table, user).limiters[user]);
      CountKeeps(s, d, user, driver);
      CleanUpKeeps(System(Count(s.table, user), s.drivers[d := driver]));
    case InitFails(d) => ReleaseKeeps(s, d, s.drivers - {d});
    case InitKnowsUser(d, user) => ReleaseKeeps(s, d, s.drivers[d := Switching(user)]);
    case Drop(d) =>
      if d in s.drivers {
        ReleaseKeeps(s, d, s.drivers - {d});
      }
  }

  // ---------- Whole runs ----------

  ghost predicate IsRun(states: seq<System>, steps: seq<Step>) {
    && |states| == |steps| + 1 && states[0] == INIT
    && forall i | 0 <= i < |steps| :: Enabled(states[i], steps[i]) && states[i + 1] == Apply(states[i], steps[i])
  }

  /** No driver is started again before it is dropped. */
  ghost predicate StartsOnce(states: seq<System>, steps: seq<Step>)
    requires IsRun(states, steps)
  {
    forall i | 0 <= i < |steps| && steps[i].InitBegin? :: steps[i].d !in states[i].drivers
  }

  lemma {:induction false} AlwaysKept(states: seq<System>, steps: seq<Step>, i: nat)
    requires IsRun(states, steps) && StartsOnce(states, steps) && i < |states|
    ensures Inv(states[i])
  {
    if i > 0 {
      AlwaysKept(states, steps, i - 1);
      StepKeeps(states[i - 1], steps[i - 1]);
    }
  }

  /** In every interleaving of starts, failed starts and stops of any number of drivers: a
      limiter is counted exactly by its holders; a starting driver holds the limiter the registry
      has as the global one, and a ready driver the one it has for its user, so two drivers of one
      user hold the same one and drivers of different users different ones; and after an
      acquisition only held limiters and the global one are left. */
  lemma RegistryRight(states: seq<System>, steps: seq<Step>, i: nat)
    requires IsRun(states, steps) && StartsOnce(states, steps) && i < |states|
    ensures forall id | 0 <= id < |states[i].table.usedBy| ::
              states[i].table.usedBy[id] == |Holders(states[i].drivers, id)|
    ensures forall d, e | d in states[i].drivers && e in states[i].drivers &&
                          states[i].drivers[d].Ready? && states[i].drivers[e].Ready? ::
              states[i].drivers[d].user == states[i].drivers[e].user <==>
              states[i].drivers[d].lim == states[i].drivers[e].lim
    ensures forall d | d in states[i].drivers && states[i].drivers[d].Ready? ::
              states[i].drivers[d].user in states[i].table.limiters &&
              states[i].table.limiters[states[i].drivers[d].user] == states[i].drivers[d].lim
    ensures forall d | d in states[i].drivers && states[i].drivers[d].Starting? ::
              GLOBAL in states[i].table.limiters && states[i].table.limiters[GLOBAL] == states[i].drivers[d].lim
    ensures i > 0 && (steps[i - 1].InitBegin? || steps[i - 1].InitEnd?) ==> Tidy(states[i])
  {
    AlwaysKept(states, steps, i);
    if i > 0 {
      AlwaysKept(states, steps, i - 1);
      StepKeeps(states[i - 1], steps[i - 1]);
    }
  }

  /** Starting a driver keeps the count right iff the driver was idle: a driver started again
      while ready leaves its old limiter counted once too often. */
  lemma StartKeepsIff(s: System, d: nat)
    requires Inv(s) && Enabled(s, InitBegin(d))
    ensures Inv(Apply(s, InitBegin(d))) <==> d !in s.drivers
  {
    if d !in s.drivers {
      StepKeeps(s, InitBegin(d));
    } else {
      var was := s.drivers[d].lim;
      var t := Count(s.table, GLOBAL);
      var lim := t.limiters[GLOBAL];
      var s' := Apply(s, InitBegin(d));
      TakeOut(s.drivers, d, was);
      PutIn(s.drivers, d, Starting(lim), was);
      assert s'.table.usedBy[was] == |Holders(s'.drivers, was)| + 1;
    }
  }

  // ---------- Any run: how far a count is off ----------

  /** The step starts a driver that still holds this limiter. */
  predicate Leaks(s: System, step: Step, id: nat) {
    step.InitBegin? && step.d in s.drivers && Held(s.drivers[step.d]) == Some(id)
  }

  /** How often that happened in the first `i` steps. */
  function Leaked(states: seq<System>, steps: seq<Step>, i: nat, id: nat): nat
    requires i <= |steps| && i <= |states|
  {
    if i == 0 then 0
    else Leaked(states, steps, i - 1, id) + if Leaks(states[i - 1], steps[i - 1], id) then 1 else 0
  }

  /** Every limiter held has been made. */
  ghost predicate Made(s: System) {
    && WellFormed(s.table)
    && forall d <- s.drivers :: Held(s.drivers[d]).Some? ==> s.drivers[d].lim < |s.table.usedBy|
  }

  /** How often a limiter is counted beyond its holders; a limiter not made yet is not counted. */
  ghost function Excess(s: System, id: nat): int {
    (if id < |s.table.usedBy| then s.table.usedBy[id] else 0) - |Holders(s.drivers, id)|
  }

  /** One acquisition: the excess grows by one for a limiter that its driver held before. */
  lemma AcquireExcess(s: System, d: nat, user: UserId, driver: Driver, id: nat)
    requires Made(s) && Held(driver) == Some(Count(s.table, user).limiters[user])
    ensures var t := System(CleanUp(Count(s.table, user)), s.drivers[d := driver]);
            && Made(t)
            && Excess(t, id) == Excess(s, id) + if d in s.drivers && Held(s.drivers[d]) == Some(id) then 1 else 0
  {
    PutIn(s.drivers, d, driver, id);
    if d in s.drivers {
      TakeOut(s.drivers, d, id);
    } else {
      assert s.drivers - {d} == s.drivers;
    }
  }

  lemma ReleaseExcess(s: System, d: nat, drivers: map<nat, Driver>, id: nat)
    requires Made(s) && d in s.drivers && Held(s.drivers[d]).Some?
    requires drivers == s.drivers - {d} || exists user :: drivers == s.drivers[d := Switching(user)]
    ensures var t := System(Release(s.table, s.drivers[d].lim), drivers);
            Made(t) && Excess(t, id) == Excess(s, id)
  {
    TakeOut(s.drivers, d, id);
    NotHolding(drivers, d, id);
    assert drivers - {d} == s.drivers - {d};
  }

  lemma StepExcess(s: System, step: Step, id: nat)
    requires Made(s) && Enabled(s, step)
    ensures Made(Apply(s, step))
    ensures Excess(Apply(s, step), id) == Excess(s, id) + if Leaks(s, step, id) then 1 else 0
  {
    hide Excess, Count, CleanUp, Release;
    match step
    case InitBegin(d) => AcquireExcess(s, d, GLOBAL, Starting(Count(s.table, GLOBAL).limiters[GLOBAL]), id);
    case InitEnd(d) =>
      var user := s.drivers[d].user;
      AcquireExcess(s, d, user, Ready(user, Count(s.table, user).limiters[user]), id);
    case InitFails(d) => ReleaseExcess(s, d, s.drivers - {d}, id);
    case InitKnowsUser(d, user) => ReleaseExcess(s, d, s.drivers[d := Switching(user)], id);
    case Drop(d) =>
      if d in s.drivers {
        ReleaseExcess(s, d, s.drivers - {d}, id);
      }
  }

  /** In any run at all, drivers started while ready included: a limiter is counted by its holders and
      once more for every time a driver that held it was started again. */
  lemma {:induction false} ExcessIsLeaked(states: seq<System>, steps: seq<Step>, i: nat, id: nat)
    requires IsRun(states, steps) && i < |states|
    ensures Made(states[i]) && Excess(states[i], id) == Leaked(states, steps, i, id)
  {
    hide Enabled, Apply, Leaks;
    if i > 0 {
      ExcessIsLeaked(states, steps, i - 1, id);
      assert Enabled(states[i - 1], steps[i - 1]) && states[i] == Apply(states[i - 1], steps[i - 1]);
      StepExcess(states[i - 1], steps[i - 1], id);
    }
  }

  lemma {:induction false} LeakedGrows(states: seq<System>, steps: seq<Step>, j: nat, i: nat, id: nat)
    requires j <= i <= |steps| && i <= |states|
    ensures Leaked(states, steps, j, id) <= Leaked(states, steps, i, id)
    decreases i
  {
    if j < i {
      LeakedGrows(states, steps, j, i - 1, id);
    }
  }

  /** A step forgets no limiter that is counted more often than it is held. */
  lemma StepRemembers(s: System, step: Step, user: UserId)
    requires Made(s) && Enabled(s, step) && user in s.table.limiters
    requires Excess(Apply(s, step), s.table.limiters[user]) > 0
    ensures user in Apply(s, step).table.limiters
    ensures Apply(s, step).table.limiters[user] == s.table.limiters[user]
  {
    var id := s.table.limiters[user];
    var t := Apply(s, step);
    assert t.table.usedBy[id] > |Holders(t.drivers, id)|;
  }

  /** For good: once a driver that held a limiter was started again, in every later state of the run the
      limiter is counted more often than it is held, and a limiter registered then stays registered,
      held or not. */
  lemma {:induction false} CountedForGood(states: seq<System>, steps: seq<Step>, j: nat, i: nat, id: nat)
    requires IsRun(states, steps) && j < i < |states| && Leaks(states[j], steps[j], id)
    ensures id < |states[i].table.usedBy| && states[i].table.usedBy[id] > |Holders(states[i].drivers, id)|
    ensures forall user | user in states[j + 1].table.limiters && states[j + 1].table.limiters[user] == id ::
              user in states[i].table.limiters && states[i].table.limiters[user] == id
    decreases i
  {
    ExcessIsLeaked(states, steps, i, id);
    LeakedGrows(states, steps, j + 1, i, id);
    ExcessIsLeaked(states, steps, i - 1, id);
    if j + 1 < i {
      CountedForGood(states, steps, j, i - 1, id);
      assert Enabled(states[i - 1], steps[i - 1]) && states[i] == Apply(states[i - 1], steps[i - 1]);
      forall user | user in states[j + 1].table.limiters && states[j + 1].table.limiters[user] == id
        ensures user in states[i].table.limiters && states[i].table.limiters[user] == id
      {
        StepRemembers(states[i - 1], steps[i - 1], user);
      }
    }
  }

  // ---------- The global limiter ----------

  /** No step removes or replaces the global limiter, held or not. */
  lemma GlobalStays(s: System, step: Step)
    requires Enabled(s, step)
    ensures GLOBAL in s.table.limiters ==>
              GLOBAL in Apply(s, step).table.limiters &&
              Apply(s, step).table.limiters[GLOBAL] == s.table.limiters[GLOBAL]
    ensures step.InitBegin? ==>
              GLOBAL in Apply(s, step).table.limiters &&
              Apply(s, step).drivers[step.d] == Starting(Apply(s, step).table.limiters[GLOBAL])
  {
  }

  lemma {:induction false} GlobalFrom(states: seq<System>, steps: seq<Step>, i: nat, j: nat)
    requires IsRun(states, steps) && i <= j < |states| && GLOBAL in states[i].table.limiters
    ensures GLOBAL in states[j].table.limiters && states[j].table.limiters[GLOBAL] == states[i].table.limiters[GLOBAL]
    decreases j
  {
    hide Enabled, Apply;
    if i < j {
      GlobalFrom(states, steps, i, j - 1);
      assert Enabled(states[j - 1], steps[j - 1]) && states[j] == Apply(states[j - 1], steps[j - 1]);
      GlobalStays(states[j - 1], steps[j - 1]);
    }
  }

  /** In any run at all: the initial requests of all drivers that ever start go through one and the same
      limiter, however many of them come and go in between. */
  lemma OneGlobal(states: seq<System>, steps: seq<Step>, i: nat, j: nat)
    requires IsRun(states, steps) && i <= j < |steps| && steps[i].InitBegin? && steps[j].InitBegin?
    ensures exists lim: nat ::
              && steps[i].d in states[i + 1].drivers && states[i + 1].drivers[steps[i].d] == Starting(lim)
              && steps[j].d in states[j + 1].drivers && states[j + 1].drivers[steps[j].d] == Starting(lim)
  {
    StartedIn(states, steps, i);
    StartedIn(states, steps, j);
    hide Enabled, Apply;
    GlobalFrom(states, steps, i + 1, j + 1);
  }

  lemma StartedIn(states: seq<System>, steps: seq<Step>, i: nat)
    requires IsRun(states, steps) && i < |steps| && steps[i].InitBegin?
    ensures GLOBAL in states[i + 1].table.limiters && steps[i].d in states[i + 1].drivers
    ensures states[i + 1].drivers[steps[i].d] == Starting(states[i + 1].table.limiters[GLOBAL])
  {
    GlobalStays(states[i], steps[i]);
  }

  // ---------- What becomes of one driver ----------

  /** Step `k` is the last of the first `i` steps that concerns the driver. */
  ghost predicate LastOf(steps: seq<Step>, d: nat, k: nat, i: nat)
    requires i <= |steps|
  {
    k < i && steps[k].d == d && forall j | k < j < i :: steps[j].d != d
  }

  /** What a step makes of its own driver; it does nothing to the others. */
  lemma StepMakes(s: System, step: Step, d: nat)
    requires Enabled(s, step)
    ensures var t := Apply(s, step);
            if step.d != d then
              (d in t.drivers <==> d in s.drivers) && (d in s.drivers ==> t.drivers[d] == s.drivers[d])
            else
              match step
              case InitBegin(_) => d in t.drivers && t.drivers[d].Starting?
              case InitKnowsUser(_, user) => d in t.drivers && t.drivers[d] == Switching(user)
              case InitEnd(_) => d in t.drivers && t.drivers[d].Ready? && t.drivers[d].user == s.drivers[d].user
              case InitFails(_) => d !in t.drivers
              case Drop(_) => d !in t.drivers
  {
  }

  /** In any run: a driver that no step concerned is idle; any other is starting, switching to its user, ready,
      or idle again, as its last step says, and a ready one holds the limiter of the user it learnt last. */
  lemma {:induction false} LastStepDecides(states: seq<System>, steps: seq<Step>, d: nat, i: nat)
    requires IsRun(states, steps) && i < |states|
    ensures (forall k | 0 <= k < i :: steps[k].d != d) ==> d !in states[i].drivers
    ensures forall k: nat | LastOf(steps, d, k, i) ::
              match steps[k]
              case InitBegin(_) => d in states[i].drivers && states[i].drivers[d].Starting?
              case InitKnowsUser(_, user) => d in states[i].drivers && states[i].drivers[d] == Switching(user)
              case InitEnd(_) =>
                && d in states[i].drivers && states[i].drivers[d].Ready?
                && forall j: nat | LastOf(steps, d, j, k) :: steps[j] == InitKnowsUser(d, states[i].drivers[d].user)
              case InitFails(_) => d !in states[i].drivers
              case Drop(_) => d !in states[i].drivers
  {
    if i > 0 {
      var s, step := states[i - 1], steps[i - 1];
      LastStepDecides(states, steps, d, i - 1);
      assert Enabled(s, step) && states[i] == Apply(s, step);
      StepMakes(s, step, d);
      if step.InitEnd? {
        EndsASwitch(s, step);
      }
      hide Enabled, Apply;
      forall k: nat | LastOf(steps, d, k, i) && k < i - 1 ensures LastOf(steps, d, k, i - 1) && step.d != d {
      }
    }
  }

  lemma EndsASwitch(s: System, step: Step)
    requires Enabled(s, step) && step.InitEnd?
    ensures step.d in s.drivers && s.drivers[step.d].Switching?
  {
  }

  /** In every state of every run no driver is stuck: an idle driver can start, a starting one can fail or
      learn its user, a switching one can become ready, a ready one can be dropped or started again; and
      these are all the steps there are, besides dropping an idle driver. */
  lemma WhatCanHappen(states: seq<System>, steps: seq<Step>, i: nat, d: nat, user: UserId)
    requires IsRun(states, steps) && i < |states|
    ensures var s := states[i];
            var starting := d in s.drivers && s.drivers[d].Starting?;
            var switching := d in s.drivers && s.drivers[d].Switching?;
            && (Enabled(s, InitBegin(d)) <==> !starting && !switching)
            && (Enabled(s, Drop(d)) <==> !starting && !switching)
            && (Enabled(s, InitFails(d)) <==> starting)
            && (Enabled(s, InitKnowsUser(d, user)) <==> starting)
            && (Enabled(s, InitEnd(d)) <==> switching)
  {
    ExcessIsLeaked(states, steps, i, 0);
  }
}
