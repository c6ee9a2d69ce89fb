/** 123 Open driver: the token channel that limits how often an API is called.

    `Require` puts a token into a channel of capacity `qps` and blocks while it is full;
    `Release` takes one out, but only a second later.  With `qps` 0 there is no limit.  A request acquires one token per
    attempt and releases all of them when it returns. */
module TokenRate {

  /** Time in nanoseconds. */
  const SECOND: nat := 1_000_000_000

  /** `used` counts the tokens in the channel, `held` the tokens of each request that has not
      returned, `due` the times from which the delayed releases may fire, in order; `log`
      records when each token was acquired. */
  datatype State = State(now: nat, used: nat, held: multiset<nat>, due: seq<nat>, log: seq<nat>)

  const INIT := State(0, 0, multiset{}, [], [])

  datatype Step =
    | Tick(t: nat)        // time passes
    | Acquire(c: nat)     // Require: request c gets a token
    | Return(c: nat)      // request c returns: its deferred releases start their timers
    | Fire(i: nat)        // the i-th pending timer takes a token out

  predicate Enabled(s: State, step: Step, qps: nat) {
    match step
    case Tick(t) => s.now <= t
    case Acquire(_) => qps == 0 || s.used < qps
    case Return(_) => true
    case Fire(i) => i < |s.due| && s.due[i] <= s.now && s.used > 0
  }

  function Apply(s: State, step: Step, qps: nat): State
    requires Enabled(s, step, qps)
  {
    match step
    case Tick(t) => s.(now := t)
    case Acquire(c) =>
      if qps == 0 then s.(log := s.log + [s.now])
      else s.(used := s.used + 1, held := s.held + multiset{c}, log := s.log + [s.now])
    case Return(c) => s.(held := s.held[c := 0], due := s.due + seq(s.held[c], _ => s.now + SECOND))
    case Fire(i) => s.(used := s.used - 1, due := s.due[..i] + s.due[i + 1..])
  }

  ghost predicate IsRun(states: seq<State>, steps: seq<Step>, qps: nat) {
    && |states| == |steps| + 1 && states[0] == INIT
    && forall i | 0 <= i < |steps| ::
         Enabled(states[i], steps[i], qps) && states[i + 1] == Apply(states[i], steps[i], qps)
  }

  // ---------- What every step keeps ----------

  function Max(a: nat, b: nat): nat { if a < b then b else a }

  /** Every token in the channel is held by a request or waits for its timer. */
  ghost predicate Accounted(s: State, qps: nat) {
    s.used == |s.held| + |s.due| && s.used <= |s.log| && s.used <= qps
  }

  ghost predicate Ordered(s: State) {
    && (forall i, j | 0 <= i <= j < |s.log| :: s.log[i] <= s.log[j] <= s.now)
    && (forall i, j | 0 <= i <= j < |s.due| :: s.due[i] <= s.due[j] <= s.now + SECOND)
  }

  /** Of the tokens taken out so far there are no more than acquisitions at least a second old;
      and the j-th timer still pending will not change that when it fires. */
  ghost predicate Delayed(s: State) {
    && s.used <= |s.log| && |s.due| <= s.used
    && var out := |s.log| - s.used;
       && (out > 0 ==> s.log[out - 1] + SECOND <= s.now)
       && forall j | 0 <= j < |s.due| :: s.log[out + j] + SECOND <= Max(s.now, s.due[j])
  }

  /** Any `qps + 1` acquisitions in a row span at least a second. */
  ghost predicate Spaced(s: State, qps: nat) {
    forall i | 0 <= i < |s.log| - qps :: s.log[i] + SECOND <= s.log[i + qps]
  }

  ghost predicate Inv(s: State, qps: nat) {
    Accounted(s, qps) && Ordered(s) && Delayed(s) && Spaced(s, qps)
  }

  lemma HeldCount(held: multiset<nat>, c: nat)
    ensures |held| == held[c] + |held[c := 0]|
  {
    assert held == held[c := 0] + multiset{}[c := held[c]];
  }

  lemma SameLog(s: State, t: State, qps: nat)
    requires Spaced(s, qps) && s.log == t.log
    ensures Spaced(t, qps)
  {
  }

  lemma FireKeepsOrder(s: State, i: nat, qps: nat)
    requires Inv(s, qps) && Enabled(s, Fire(i), qps)
    ensures Ordered(Apply(s, Fire(i), qps)) && Accounted(Apply(s, Fire(i), qps), qps)
  {
  }

  lemma FireKeepsDelay(s: State, i: nat, qps: nat)
    requires Ordered(s) && Delayed(s) && Enabled(s, Fire(i), qps)
    ensures Delayed(Apply(s, Fire(i), qps))
  {
    var s' := Apply(s, Fire(i), qps);
    var out := |s.log| - s.used;
    assert s.log[out] + SECOND <= Max(s.now, s.due[0]) && s.due[0] <= s.due[i];
    forall j | 0 <= j < |s'.due| ensures s'.log[out + 1 + j] + SECOND <= Max(s'.now, s'.due[j]) {
      assert s.log[out + (j + 1)] + SECOND <= Max(s.now, s.due[j + 1]);
      if j < i {
        assert s.due[j + 1] <= s.due[i] <= s.now;
      } else {
        assert s'.due[j] == s.due[j + 1];
      }
    }
  }

  lemma FireKeeps(s: State, i: nat, qps: nat)
    requires Inv(s, qps) && Enabled(s, Fire(i), qps)
    ensures Inv(Apply(s, Fire(i), qps), qps)
  {
    hide Ordered, Delayed, Spaced, Accounted;
    FireKeepsOrder(s, i, qps);
    FireKeepsDelay(s, i, qps);
    SameLog(s, Apply(s, Fire(i), qps), qps);
  }

  lemma ReturnKeeps(s: State, c: nat, qps: nat)
    requires Inv(s, qps)
    ensures Inv(Apply(s, Return(c), qps), qps)
  {
    var s' := Apply(s, Return(c), qps);
    HeldCount(s.held, c);
    var out := |s.log| - s.used;
    forall j | 0 <= j < |s'.due| ensures s'.log[out + j] + SECOND <= Max(s'.now, s'.due[j]) {
      if j >= |s.due| {
        assert s'.due[j] == s.now + SECOND;
      }
    }
  }

  lemma AcquireKeeps(s: State, c: nat, qps: nat)
    requires Inv(s, qps) && Enabled(s, Acquire(c), qps) && qps > 0
    ensures Inv(Apply(s, Acquire(c), qps), qps)
  {
    var s' := Apply(s, Acquire(c), qps);
    var n, out := |s.log|, |s.log| - s.used;
    assert |s'.held| == |s.held| + 1;
    forall i | 0 <= i < |s'.log| - qps ensures s'.log[i] + SECOND <= s'.log[i + qps] {
      if i + qps == n {
        // the channel is not full, so more than n - qps tokens have been taken out
        assert i <= out - 1;
        assert s.log[i] <= s.log[out - 1];
      }
    }
  }

  lemma StepKeeps(s: State, step: Step, qps: nat)
    requires Inv(s, qps) && Enabled(s, step, qps) && qps > 0
    ensures Inv(Apply(s, step, qps), qps)
  {
    match step
    case Tick(_) =>
    case Acquire(c) => AcquireKeeps(s, c, qps);
    case Return(c) => ReturnKeeps(s, c, qps);
    case Fire(i) => FireKeeps(s, i, qps);
  }

  lemma {:induction false} AlwaysKept(states: seq<State>, steps: seq<Step>, qps: nat, i: nat)
    requires IsRun(states, steps, qps) && qps > 0 && i < |states|
    ensures Inv(states[i], qps)
  {
    if i > 0 {
      AlwaysKept(states, steps, qps, i - 1);
      StepKeeps(states[i - 1], steps[i - 1], qps);
    }
  }

  // ---------- The rate bound ----------

  /** The acquisitions from time `a` to time `b`. */
  ghost function InWindow(s: State, a: nat, b: nat): set<nat> {
    set i: nat | i < |s.log| && a <= s.log[i] <= b
  }

  /** In every run, whatever the interleaving of requests, retries and delayed releases, no
      window shorter than a second contains more than `qps` acquisitions. */
  lemma RateBound(states: seq<State>, steps: seq<Step>, qps: nat, i: nat, a: nat, b: nat)
    requires IsRun(states, steps, qps) && qps > 0 && i < |states| && b < a + SECOND
    ensures |InWindow(states[i], a, b)| <= qps
  {
    AlwaysKept(states, steps, qps, i);
    var s := states[i];
    var w := InWindow(s, a, b);
    if w != {} {
      var first := Least(w);
      forall k <- w ensures k < first + qps {
        assert first + qps < |s.log| ==> s.log[first] + SECOND <= s.log[first + qps];
      }
      RangeSize(w, first, qps);
    }
  }

  lemma {:induction false} Least(w: set<nat>) returns (m: nat)
    requires w != {}
    ensures m in w && forall k <- w :: m <= k
  {
    var x :| x in w;
    var rest := w - {x};
    m := x;
    if rest != {} {
      var l := Least(rest);
      m := if x < l then x else l;
    }
    forall k <- w ensures m <= k {
      assert k == x || k in rest;
    }
  }

  lemma {:induction false} RangeSize(w: set<nat>, first: nat, n: nat)
    requires forall k <- w :: first <= k < first + n
    ensures |w| <= n
  {
    if n == 0 {
      assert w == {};
    } else {
      RangeSize(w - {first + n - 1}, first, n - 1);
    }
  }

  /** A due timer never blocks: there is always a token for it to take out. */
  lemma TimersNeverBlock(states: seq<State>, steps: seq<Step>, qps: nat, n: nat, i: nat)
    requires IsRun(states, steps, qps) && qps > 0 && n < |states|
    requires i < |states[n].due| && states[n].due[i] <= states[n].now
    ensures Enabled(states[n], Fire(i), qps)
  {
    AlwaysKept(states, steps, qps, n);
  }

  /** A request keeps the tokens of all its attempts until it returns, so it never makes more
      than `qps` attempts: a request that holds `qps` tokens shuts out every further attempt,
      its own included. */
  lemma AttemptsAtMostQps(states: seq<State>, steps: seq<Step>, qps: nat, n: nat, c: nat)
    requires IsRun(states, steps, qps) && qps > 0 && n < |states|
    ensures states[n].held[c] <= qps
    ensures states[n].held[c] == qps ==> forall d :: !Enabled(states[n], Acquire(d), qps)
  {
    AlwaysKept(states, steps, qps, n);
    HeldCount(states[n].held, c);
  }

  // ---------- What the state remembers of a run ----------

  /** How many of the first `i` steps acquire a token. */
  function Acquisitions(steps: seq<Step>, i: nat): nat
    requires i <= |steps|
  {
    if i == 0 then 0 else Acquisitions(steps, i - 1) + if steps[i - 1].Acquire? then 1 else 0
  }

  /** How many of them request `c` has made since it last returned. */
  function Attempts(steps: seq<Step>, c: nat, i: nat): nat
    requires i <= |steps|
  {
    if i == 0 || steps[i - 1] == Return(c) then 0
    else Attempts(steps, c, i - 1) + if steps[i - 1] == Acquire(c) then 1 else 0
  }

  lemma StepHolds(s: State, step: Step, qps: nat, c: nat)
    requires Enabled(s, step, qps)
    ensures |Apply(s, step, qps).log| == |s.log| + if step.Acquire? then 1 else 0
    ensures qps > 0 ==>
              Apply(s, step, qps).held[c]
              == if step == Return(c) then 0 else s.held[c] + if step == Acquire(c) then 1 else 0
  {
  }

  /** Every acquisition is logged, whatever the limit.  Under a limit a request holds one token for each of
      its attempts since it last returned, and no others. */
  lemma {:induction false} HeldIsAttempts(states: seq<State>, steps: seq<Step>, qps: nat, i: nat, c: nat)
    requires IsRun(states, steps, qps) && i < |states|
    ensures |states[i].log| == Acquisitions(steps, i)
    ensures qps > 0 ==> states[i].held[c] == Attempts(steps, c, i)
  {
    hide Enabled, Apply;
    if i > 0 {
      HeldIsAttempts(states, steps, qps, i - 1, c);
      assert Enabled(states[i - 1], steps[i - 1], qps) && states[i] == Apply(states[i - 1], steps[i - 1], qps);
      StepHolds(states[i - 1], steps[i - 1], qps, c);
    }
  }

  /** With a limit of 0 there is no limit: no token is ever put in, nothing waits for a timer, and every
      request can always go ahead. */
  lemma {:induction false} ZeroIsUnlimited(states: seq<State>, steps: seq<Step>, i: nat)
    requires IsRun(states, steps, 0) && i < |states|
    ensures states[i].used == 0 && states[i].held == multiset{} && states[i].due == []
    ensures forall c :: Enabled(states[i], Acquire(c), 0)
  {
    if i > 0 {
      ZeroIsUnlimited(states, steps, i - 1);
    }
  }

  // ---------- The bound is sharp ----------

  ghost predicate Reached(states: seq<State>, steps: seq<Step>, qps: nat, s: State) {
    IsRun(states, steps, qps) && states[|states| - 1] == s
  }

  /** Some run ends in this state. */
  ghost predicate Reachable(s: State, qps: nat) {
    exists states, steps :: Reached(states, steps, qps, s)
  }

  lemma OneMore(s: State, step: Step, qps: nat)
    requires Reachable(s, qps) && Enabled(s, step, qps)
    ensures Reachable(Apply(s, step, qps), qps)
  {
    var states, steps :| Reached(states, steps, qps, s);
    var t := Apply(s, step, qps);
    assert Reached(states + [t], steps + [step], qps, t);
  }

  /** `n` acquisitions in a row while there is room for them. */
  lemma {:induction false} AcquireMany(s: State, qps: nat, n: nat) returns (t: State)
    requires Reachable(s, qps) && qps > 0 && s.used + n <= qps
    ensures Reachable(t, qps) && t.now == s.now && t.used == s.used + n && t.due == s.due
    ensures t.held == s.held + multiset{}[0 := n] && t.log == s.log + seq(n, _ => s.now)
  {
    if n == 0 {
      t := s;
    } else {
      var m := AcquireMany(s, qps, n - 1);
      OneMore(m, Acquire(0), qps);
      t := Apply(m, Acquire(0), qps);
    }
  }

  /** `n` timers that are due fire. */
  lemma {:induction false} FireMany(s: State, qps: nat, n: nat) returns (t: State)
    requires Reachable(s, qps) && n <= |s.due| <= s.used && forall d <- s.due :: d <= s.now
    ensures Reachable(t, qps) && t.now == s.now && t.used == s.used - n && t.log == s.log
    decreases n
  {
    if n == 0 {
      t := s;
    } else {
      assert s.due[0] in s.due;
      OneMore(s, Fire(0), qps);
      var m := Apply(s, Fire(0), qps);
      assert m.due == s.due[1..] && forall d <- m.due :: d in s.due;
      t := FireMany(m, qps, n - 1);
    }
  }

  /** For every limit the bound is sharp: some run makes twice as many acquisitions as the limit in a
      window of exactly one second. */
  lemma FullSecondHoldsTwice(qps: nat)
    requires qps > 0
    ensures exists states, steps ::
              IsRun(states, steps, qps) && |InWindow(states[|states| - 1], 0, SECOND)| == 2 * qps
  {
    assert Reached([INIT], [], qps, INIT);
    var full := AcquireMany(INIT, qps, qps);
    OneMore(full, Return(0), qps);
    var returned := Apply(full, Return(0), qps);
    OneMore(returned, Tick(SECOND), qps);
    var later := Apply(returned, Tick(SECOND), qps);
    var empty := FireMany(later, qps, qps);
    var again := AcquireMany(empty, qps, qps);
    AllInWindow(again);
    var states, steps :| Reached(states, steps, qps, again);
  }

  lemma AllInWindow(s: State)
    requires forall t <- s.log :: t <= SECOND
    ensures |InWindow(s, 0, SECOND)| == |s.log|
  {
    assert forall k: nat | k < |s.log| :: s.log[k] in s.log;
    CountUp(InWindow(s, 0, SECOND), |s.log|);
  }

  lemma {:induction false} CountUp(w: set<nat>, n: nat)
    requires forall k: nat :: k in w <==> k < n
    ensures |w| == n
  {
    if n > 0 {
      CountUp(w - {n - 1}, n - 1);
    } else {
      assert w == {};
    }
  }
}
