/** The login limiter: failures per key within a sliding window, and a lockout once there are too
    many. Keys (user and address) are independent; times are ticks of a monotonic clock. */
module LoginLimiter {
  import opened Sequences

  type Time = int

  /** The source reads these from the environment and clamps them from below. */
  datatype Config = Config(window: int, lockout: int, maxAttempts: nat) {
    predicate Valid() { window >= 60 && lockout >= 60 && maxAttempts >= 3 }

    function Pause(): int { if window <= lockout then window else lockout }
  }

  /** What is stored under one key. */
  datatype KeyState = KeyState(attempts: seq<Time>, lockedUntil: Option<Time>)

  function Recent(now: Time, window: int): Time -> bool { (ts: Time) => now - ts <= window }

  /** Seconds to wait when the key is locked at `now`. */
  function RetryAfter(s: KeyState, now: Time): Option<int> {
    if s.lockedUntil.Some? && s.lockedUntil.value > now
    then Some(if s.lockedUntil.value - now > 1 then s.lockedUntil.value - now else 1)
    else None
  }

  function AfterCheck(s: KeyState, now: Time): KeyState {
    if RetryAfter(s, now).Some? then s else s.(lockedUntil := None)
  }

  function AfterFailure(cfg: Config, s: KeyState, now: Time): KeyState {
    var attempts := Filter(s.attempts, Recent(now, cfg.window)) + [now];
    if |attempts| >= cfg.maxAttempts then KeyState([], Some(now + cfg.lockout))
    else s.(attempts := attempts)
  }

  /** A login that passed the check at one instant and was registered as failed at another. */
  datatype Failure = Failure(checkedAt: Time, registeredAt: Time)

  function Next(cfg: Config, s: KeyState, f: Failure): KeyState {
    AfterFailure(cfg, AfterCheck(s, f.checkedAt), f.registeredAt)
  }

  /** A run of failures of one key, none cleared in between: each passes the check, and each is
      registered before the next is checked. */
  ghost predicate Accepted(cfg: Config, s: KeyState, run: seq<Failure>)
    decreases |run|
  {
    run == [] ||
    (&& RetryAfter(s, run[0].checkedAt).None?
     && run[0].checkedAt <= run[0].registeredAt
     && (|run| > 1 ==> run[0].registeredAt <= run[1].checkedAt)
     && Accepted(cfg, Next(cfg, s, run[0]), run[1..]))
  }

  // ----- the lockout -----

  /** Among logins checked at these times, one gets past the check. */
  ghost predicate SomePasses(s: KeyState, checks: seq<Time>)
    decreases |checks|
  {
    checks != [] && (RetryAfter(s, checks[0]).None? || SomePasses(AfterCheck(s, checks[0]), checks[1..]))
  }

  /** However often it is tried, a locked key lets a login through if and only if it is tried at the
      end of the lockout or later: refused logins neither prolong nor shorten it. */
  lemma {:induction false} LockoutIsExact(s: KeyState, checks: seq<Time>)
    requires s.lockedUntil.Some?
    ensures SomePasses(s, checks) <==> exists t :: t in checks && t >= s.lockedUntil.value
    decreases |checks|
  {
    if checks != [] {
      var first, rest := checks[0], checks[1..];
      assert checks == [first] + rest;
      assert forall t :: t in checks <==> t == first || t in rest;
      if first < s.lockedUntil.value {
        assert AfterCheck(s, first) == s;
        LockoutIsExact(s, rest);
      } else {
        assert first in checks && RetryAfter(s, first).None?;
      }
    }
  }

  /** The failure that reaches the limit locks the key for exactly the lockout time. */
  lemma LimitLocksOut(cfg: Config, s: KeyState, now: Time, checks: seq<Time>)
    requires |Filter(s.attempts, Recent(now, cfg.window))| + 1 >= cfg.maxAttempts
    ensures SomePasses(AfterFailure(cfg, s, now), checks) <==> exists t :: t in checks && t >= now + cfg.lockout
  {
    LockoutIsExact(AfterFailure(cfg, s, now), checks);
  }

  // ----- the bound -----

  ghost function CountFrom(attempts: seq<Time>, first: Time): nat {
    if attempts == [] then 0
    else CountFrom(attempts[1..], first) + if attempts[0] >= first then 1 else 0
  }

  lemma {:induction false} CountFromAppend(a: seq<Time>, b: seq<Time>, first: Time)
    ensures CountFrom(a + b, first) == CountFrom(a, first) + CountFrom(b, first)
    ensures CountFrom(a, first) <= |a|
  {
    if a == [] {
      assert a + b == b;
    } else {
      assert (a + b)[1..] == a[1..] + b;
      CountFromAppend(a[1..], b, first);
    }
  }

  /** Failures since `first` survive the filter as long as `first` is inside the window. */
  lemma {:induction false} CountFromRecent(attempts: seq<Time>, first: Time, now: Time, window: int)
    requires now - first <= window
    ensures CountFrom(Filter(attempts, Recent(now, window)), first) == CountFrom(attempts, first)
  {
    if attempts != [] {
      CountFromRecent(attempts[1..], first, now, window);
      if Recent(now, window)(attempts[0]) {
        CountFromAppend([attempts[0]], Filter(attempts[1..], Recent(now, window)), first);
      }
    }
  }

  /** With `k` failures registered from `first` to `last`: the key is locked until well after
      `first`, or enough time has passed, or all of them are still remembered. */
  ghost predicate SlowedDown(cfg: Config, s: KeyState, first: Time, last: Time, k: nat) {
    || (s.lockedUntil.Some? && s.lockedUntil.value >= first + cfg.lockout)
    || last - first >= cfg.Pause()
    || (CountFrom(s.attempts, first) >= k && |s.attempts| < cfg.maxAttempts)
  }

  lemma FailureKeepsSlowedDown(cfg: Config, s: KeyState, first: Time, last: Time, k: nat, f: Failure)
    requires cfg.Valid() && first <= last <= f.checkedAt <= f.registeredAt
    requires SlowedDown(cfg, s, first, last, k) && RetryAfter(s, f.checkedAt).None?
    ensures SlowedDown(cfg, Next(cfg, s, f), first, f.registeredAt, k + 1)
  {
    var now := f.registeredAt;
    if now - first < cfg.Pause() {
      CountFromRecent(s.attempts, first, now, cfg.window);
      CountFromAppend(Filter(s.attempts, Recent(now, cfg.window)), [now], first);
    }
  }

  lemma FirstFailureIsRemembered(cfg: Config, s: KeyState, f: Failure)
    requires cfg.Valid()
    ensures SlowedDown(cfg, Next(cfg, s, f), f.registeredAt, f.registeredAt, 1)
  {
    CountFromAppend(Filter(s.attempts, Recent(f.registeredAt, cfg.window)), [f.registeredAt], f.registeredAt);
  }

  lemma {:induction false} SlowedDownAlong(cfg: Config, s: KeyState, run: seq<Failure>, first: Time, last: Time, k: nat)
    requires cfg.Valid() && Accepted(cfg, s, run) && first <= last
    requires SlowedDown(cfg, s, first, last, k)
    requires run != [] && last <= run[0].checkedAt && k + |run| > cfg.maxAttempts
    ensures run[|run| - 1].registeredAt - first >= cfg.Pause()
    decreases |run|
  {
    var f := run[0];
    FailureKeepsSlowedDown(cfg, s, first, last, k, f);
    CountFromAppend(s.attempts, [], first);
    if |run| > 1 {
      SlowedDownAlong(cfg, Next(cfg, s, f), run[1..], first, f.registeredAt, k + 1);
    }
  }

  /** One more failure than the limit takes at least the window or the lockout, whichever is
      shorter, from any state the key may be in. */
  lemma TooManyFailuresTakeTime(cfg: Config, s: KeyState, run: seq<Failure>)
    requires cfg.Valid() && Accepted(cfg, s, run) && |run| == cfg.maxAttempts + 1
    ensures run[cfg.maxAttempts].registeredAt - run[0].registeredAt >= cfg.Pause()
  {
    FirstFailureIsRemembered(cfg, s, run[0]);
    SlowedDownAlong(cfg, Next(cfg, s, run[0]), run[1..], run[0].registeredAt, run[0].registeredAt, 1);
  }

  lemma {:induction false} AcceptedPrefix(cfg: Config, s: KeyState, run: seq<Failure>, n: nat)
    requires Accepted(cfg, s, run) && n <= |run|
    ensures Accepted(cfg, s, run[..n])
    decreases |run|
  {
    if n > 0 {
      AcceptedPrefix(cfg, Next(cfg, s, run[0]), run[1..], n - 1);
      assert run[..n][1..] == run[1..][..n - 1];
    }
  }

  /** The state in which the run's part from `n` on is accepted. */
  lemma {:induction false} AcceptedSuffix(cfg: Config, s: KeyState, run: seq<Failure>, n: nat) returns (t: KeyState)
    requires Accepted(cfg, s, run) && n <= |run|
    ensures Accepted(cfg, t, run[n..])
    decreases |run|
  {
    if n == 0 {
      t := s;
    } else {
      t := AcceptedSuffix(cfg, Next(cfg, s, run[0]), run[1..], n - 1);
      assert run[1..][n - 1..] == run[n..];
    }
  }

  /** The rate over whole runs: more than `q` times the limit takes at least `q` pauses. */
  lemma {:induction false} FailureRateIsBounded(cfg: Config, s: KeyState, run: seq<Failure>, q: nat)
    requires cfg.Valid() && Accepted(cfg, s, run) && |run| == q * cfg.maxAttempts + 1
    ensures run[|run| - 1].registeredAt - run[0].registeredAt >= q * cfg.Pause()
    decreases q
  {
    if q > 0 {
      var m := cfg.maxAttempts;
      assert |run| == (q - 1) * m + m + 1;
      AcceptedPrefix(cfg, s, run, m + 1);
      TooManyFailuresTakeTime(cfg, s, run[..m + 1]);
      var t := AcceptedSuffix(cfg, s, run, m);
      FailureRateIsBounded(cfg, t, run[m..], q - 1);
      assert q * cfg.Pause() == (q - 1) * cfg.Pause() + cfg.Pause();
    }
  }

  /** The limit itself is reachable at once: that many failures may fall on one instant. */
  lemma LimitCanBeReachedAtOnce(cfg: Config, now: Time)
    requires cfg.Valid()
    ensures exists run :: |run| == cfg.maxAttempts && Accepted(cfg, KeyState([], None), run) &&
              forall i :: 0 <= i < |run| ==> run[i] == Failure(now, now)
  {
    var run := seq(cfg.maxAttempts, i => Failure(now, now));
    BurstAccepted(cfg, KeyState([], None), now, run);
  }

  lemma {:induction false} BurstAccepted(cfg: Config, s: KeyState, now: Time, run: seq<Failure>)
    requires cfg.Valid() && s.lockedUntil.None? && |s.attempts| + |run| <= cfg.maxAttempts
    requires forall i :: 0 <= i < |run| ==> run[i] == Failure(now, now)
    requires forall ts :: ts in s.attempts ==> ts == now
    ensures Accepted(cfg, s, run)
    decreases |run|
  {
    if |run| > 1 {
      FilterAll(s.attempts, Recent(now, cfg.window));
      BurstAccepted(cfg, Next(cfg, s, run[0]), now, run[1..]);
    }
  }

  // ----- the limiter: two dictionaries under one lock -----

  class Limiter {
    var attempts: map<string, seq<Time>>
    var lockedUntil: map<string, Time>

    constructor ()
      ensures forall key :: StateOf(key) == KeyState([], None)
    {
      attempts, lockedUntil := map[], map[];
    }

    function StateOf(key: string): KeyState
      reads this
    {
      KeyState(if key in attempts then attempts[key] else [],
               if key in lockedUntil then Some(lockedUntil[key]) else None)
    }

    method Check(key: string, now: Time) returns (retryAfter: Option<int>)
      modifies this
      ensures retryAfter == RetryAfter(old(StateOf(key)), now)
      ensures StateOf(key) == AfterCheck(old(StateOf(key)), now)
      ensures forall other :: other != key ==> StateOf(other) == old(StateOf(other))
    {
      if key in lockedUntil {
        if lockedUntil[key] > now {
          var wait := lockedUntil[key] - now;
          return Some(if wait > 1 then wait else 1);
        }
        lockedUntil := lockedUntil - {key};
      }
      return None;
    }

    method RegisterFailure(cfg: Config, key: string, now: Time)
      modifies this
      ensures StateOf(key) == AfterFailure(cfg, old(StateOf(key)), now)
      ensures forall other :: other != key ==> StateOf(other) == old(StateOf(other))
    {
      var previous := if key in attempts then attempts[key] else [];
      var kept := Filter(previous, Recent(now, cfg.window)) + [now];
      attempts := attempts[key := kept];
      if |kept| >= cfg.maxAttempts {
        lockedUntil := lockedUntil[key := now + cfg.lockout];
        attempts := attempts[key := []];
      }
    }

    method ClearFailures(key: string)
      modifies this
      ensures StateOf(key) == KeyState([], None)
      ensures forall other :: other != key ==> StateOf(other) == old(StateOf(other))
    {
      attempts := attempts - {key};
      lockedUntil := lockedUntil - {key};
    }
  }
}
