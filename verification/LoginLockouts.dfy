/** The login limiter told on the times alone: which failure locks the key, and which runs of failures
    get past the checks. */
module LoginLockouts {
  import opened Sequences
  import opened LoginLimiter

  const EMPTY: KeyState := KeyState([], None)

  /** The state after a run of failures. */
  ghost function After(cfg: Config, s: KeyState, run: seq<Failure>): KeyState
    decreases |run|
  {
    if run == [] then s else After(cfg, Next(cfg, s, run[0]), run[1..])
  }

  /** Each failure is registered after its check, and before the next check. */
  ghost predicate InOrder(run: seq<Failure>) {
    && (forall i :: 0 <= i < |run| ==> run[i].checkedAt <= run[i].registeredAt)
    && (forall i, j :: 0 <= i < j < |run| ==> run[i].registeredAt <= run[j].checkedAt)
  }

  /** Failure `n` locks the key: it is the last of as many failures as are allowed, the first of them is
      not longer ago than the window, and none of the others has locked the key already. */
  ghost predicate Locks(cfg: Config, run: seq<Failure>, n: nat)
    requires n < |run|
  {
    && n + 1 >= cfg.maxAttempts
    && (n + 1 - cfg.maxAttempts < n ==>
          run[n].registeredAt - run[n + 1 - cfg.maxAttempts].registeredAt <= cfg.window)
    && (forall i :: 0 <= i < n && n + 1 - cfg.maxAttempts <= i ==> !Locks(cfg, run, i))
  }

  /** Every check comes at the end of every lockout before it, or later. */
  ghost predicate OutsideLockouts(cfg: Config, run: seq<Failure>) {
    forall m, n :: 0 <= m < n < |run| && Locks(cfg, run, m) ==> run[n].checkedAt >= run[m].registeredAt + cfg.lockout
  }

  lemma {:induction false} LocksPrefix(cfg: Config, run: seq<Failure>, k: nat, n: nat)
    requires n < k <= |run|
    ensures Locks(cfg, run[..k], n) <==> Locks(cfg, run, n)
    decreases n
  {
    forall i | 0 <= i < n ensures Locks(cfg, run[..k], i) <==> Locks(cfg, run, i) {
      LocksPrefix(cfg, run, k, i);
    }
  }

  function Times(run: seq<Failure>): (times: seq<Time>)
    ensures |times| == |run| && forall i :: 0 <= i < |run| ==> times[i] == run[i].registeredAt
  {
    seq(|run|, i requires 0 <= i < |run| => run[i].registeredAt)
  }

  // ----- what is remembered -----

  /** A lockout since then has wiped the failure, or it is longer ago than the window. */
  ghost predicate Forgotten(cfg: Config, run: seq<Failure>, i: nat)
    requires i < |run|
  {
    || (exists m :: i <= m < |run| && Locks(cfg, run, m))
    || run[|run| - 1].registeredAt - run[i].registeredAt > cfg.window
  }

  /** The failures from `k` on are remembered; those before are forgotten. */
  ghost predicate Remembers(cfg: Config, run: seq<Failure>, s: KeyState, k: nat) {
    && k <= |run| && |run| - k < cfg.maxAttempts && InOrder(run)
    && s.attempts == Times(run)[k..]
    && (forall i :: k <= i < |run| ==> !Locks(cfg, run, i))
    && (forall i :: 0 <= i < k ==> Forgotten(cfg, run, i))
  }

  /** The lockout in force is the one of the last failure that locked. */
  ghost predicate LockedByLast(cfg: Config, run: seq<Failure>, s: KeyState) {
    s.lockedUntil ==
      if run != [] && Locks(cfg, run, |run| - 1) then Some(run[|run| - 1].registeredAt + cfg.lockout) else None
  }

  /** On ascending times, what is inside the window is a suffix. */
  lemma {:induction false} RecentSuffix(times: seq<Time>, now: Time, window: int) returns (k: nat)
    requires forall i, j :: 0 <= i < j < |times| ==> times[i] <= times[j]
    ensures k <= |times| && Filter(times, Recent(now, window)) == times[k..]
    ensures forall i :: 0 <= i < k ==> now - times[i] > window
    ensures forall i :: k <= i < |times| ==> now - times[i] <= window
  {
    if times == [] {
      k := 0;
    } else if now - times[0] <= window {
      k := 0;
      FilterAll(times, Recent(now, window));
    } else {
      var k' := RecentSuffix(times[1..], now, window);
      k := k' + 1;
      assert times[1..][k'..] == times[k..];
      forall i | 0 <= i < k ensures now - times[i] > window {
        assert i > 0 ==> times[i] == times[1..][i - 1];
      }
    }
  }

  // ----- one more failure -----

  lemma SamePast(cfg: Config, run: seq<Failure>, f: Failure, i: nat)
    requires i < |run|
    ensures (run + [f])[i] == run[i] && (Locks(cfg, run + [f], i) <==> Locks(cfg, run, i))
  {
    assert (run + [f])[..|run|] == run;
    LocksPrefix(cfg, run + [f], |run|, i);
  }

  lemma LocksMeans(cfg: Config, run: seq<Failure>, n: nat, m: nat)
    requires cfg.Valid() && n < |run| && Locks(cfg, run, n)
    ensures n + 1 >= cfg.maxAttempts
    ensures run[n].registeredAt - run[n + 1 - cfg.maxAttempts].registeredAt <= cfg.window
    ensures n + 1 - cfg.maxAttempts <= m < n ==> !Locks(cfg, run, m)
  {
  }

  lemma NotForgotten(cfg: Config, run: seq<Failure>, f: Failure, i: nat)
    requires cfg.Valid() && i < |run| && Forgotten(cfg, run, i) && InOrder(run + [f])
    ensures (exists m :: i <= m < |run| && Locks(cfg, run, m)) || f.registeredAt - run[i].registeredAt > cfg.window
  {
    var longer, n := run + [f], |run|;
    assert longer[n] == f && longer[n - 1] == run[n - 1];
    assert longer[n - 1].registeredAt <= longer[n].checkedAt <= longer[n].registeredAt;
    if m :| i <= m < n && Locks(cfg, run, m) {
      assert Locks(cfg, run, m);
    }
  }

  /** A failure that locks finds the others it counts still remembered. */
  lemma LockingIsFull(cfg: Config, run: seq<Failure>, s: KeyState, k: nat, f: Failure, k': nat)
    requires cfg.Valid() && Remembers(cfg, run, s, k) && InOrder(run + [f]) && Locks(cfg, run + [f], |run|)
    requires k <= k' <= |run|
    requires forall i :: k <= i < k' ==> f.registeredAt - run[i].registeredAt > cfg.window
    ensures |run| - k' + 1 >= cfg.maxAttempts
  {
    LocksMeans(cfg, run + [f], |run|, 0);
    var first := |run| + 1 - cfg.maxAttempts;
    SamePast(cfg, run, f, first);
    if first < k {
      NotForgotten(cfg, run, f, first);
      var m :| first <= m < |run| && Locks(cfg, run, m);
      LocksMeans(cfg, run + [f], |run|, m);
      SamePast(cfg, run, f, m);
    }
  }

  lemma FullLocks(cfg: Config, run: seq<Failure>, s: KeyState, k: nat, f: Failure, k': nat)
    requires cfg.Valid() && Remembers(cfg, run, s, k)
    requires k <= k' <= |run| && |run| - k' + 1 >= cfg.maxAttempts
    requires forall i :: k' <= i < |run| ==> f.registeredAt - run[i].registeredAt <= cfg.window
    ensures Locks(cfg, run + [f], |run|)
  {
    assert k' == k == |run| + 1 - cfg.maxAttempts;
    SamePast(cfg, run, f, k);
    forall i | k <= i < |run| ensures !Locks(cfg, run + [f], i) {
      SamePast(cfg, run, f, i);
    }
  }

  lemma StaysForgotten(cfg: Config, run: seq<Failure>, f: Failure, i: nat)
    requires i < |run| && InOrder(run + [f])
    requires Forgotten(cfg, run, i) || f.registeredAt - run[i].registeredAt > cfg.window
    ensures Forgotten(cfg, run + [f], i)
  {
    var longer, n := run + [f], |run|;
    assert longer[..n] == run && longer[n] == f && longer[i] == run[i] && longer[n - 1] == run[n - 1];
    if m :| i <= m < n && Locks(cfg, run, m) {
      LocksPrefix(cfg, longer, n, m);
      assert Locks(cfg, longer, m);
    } else {
      assert longer[n - 1].registeredAt <= longer[n].checkedAt <= longer[n].registeredAt;
    }
  }

  lemma RemembersMore(cfg: Config, run: seq<Failure>, s: KeyState, k: nat, f: Failure, k': nat)
    requires cfg.Valid() && Remembers(cfg, run, s, k) && InOrder(run + [f])
    requires k <= k' <= |run| && |run| - k' + 1 < cfg.maxAttempts && !Locks(cfg, run + [f], |run|)
    requires forall i :: k <= i < k' ==> f.registeredAt - run[i].registeredAt > cfg.window
    ensures Remembers(cfg, run + [f], KeyState(Times(run)[k'..] + [f.registeredAt], None), k')
  {
    var longer, n := run + [f], |run|;
    assert longer[..n] == run;
    assert Times(longer)[k'..] == Times(run)[k'..] + [f.registeredAt];
    forall i | k' <= i < |longer| ensures !Locks(cfg, longer, i) {
      if i < n {
        LocksPrefix(cfg, longer, n, i);
      }
    }
    forall i | 0 <= i < k' ensures Forgotten(cfg, longer, i) {
      StaysForgotten(cfg, run, f, i);
    }
  }

  /** What is still inside the window when a failure is registered. */
  lemma RecentFrom(run: seq<Failure>, k: nat, now: Time, window: int) returns (k': nat)
    requires InOrder(run) && k <= |run|
    ensures k <= k' <= |run| && Filter(Times(run)[k..], Recent(now, window)) == Times(run)[k'..]
    ensures forall i :: k <= i < k' ==> now - run[i].registeredAt > window
    ensures forall i :: k' <= i < |run| ==> now - run[i].registeredAt <= window
  {
    var times := Times(run)[k..];
    forall i, j | 0 <= i < j < |times| ensures times[i] <= times[j] {
      assert run[k + i].registeredAt <= run[k + j].checkedAt <= run[k + j].registeredAt;
    }
    var d := RecentSuffix(times, now, window);
    k' := k + d;
    assert times[d..] == Times(run)[k'..];
    assert forall i :: k <= i < |run| ==> times[i - k] == run[i].registeredAt;
  }

  lemma NextRemembers(cfg: Config, run: seq<Failure>, s: KeyState, k: nat, f: Failure) returns (k': nat)
    requires cfg.Valid() && Remembers(cfg, run, s, k) && InOrder(run + [f]) && RetryAfter(s, f.checkedAt).None?
    ensures Remembers(cfg, run + [f], Next(cfg, s, f), k') && LockedByLast(cfg, run + [f], Next(cfg, s, f))
  {
    var longer := run + [f];
    k' := RecentFrom(run, k, f.registeredAt, cfg.window);
    if |run| - k' + 1 >= cfg.maxAttempts {
      FullLocks(cfg, run, s, k, f, k');
      k' := |longer|;
      RemembersNothing(cfg, longer);
    } else {
      if Locks(cfg, longer, |run|) {
        LockingIsFull(cfg, run, s, k, f, k');
      }
      RemembersMore(cfg, run, s, k, f, k');
    }
  }

  lemma RemembersNothing(cfg: Config, run: seq<Failure>)
    requires cfg.Valid() && InOrder(run) && run != [] && Locks(cfg, run, |run| - 1)
    ensures forall until :: Remembers(cfg, run, KeyState([], until), |run|)
  {
    assert Times(run)[|run|..] == [];
    assert forall i :: 0 <= i < |run| ==> Forgotten(cfg, run, i);
  }

  // ----- whole runs -----

  lemma {:induction false} AfterSnoc(cfg: Config, s: KeyState, run: seq<Failure>, f: Failure)
    ensures After(cfg, s, run + [f]) == Next(cfg, After(cfg, s, run), f)
    decreases |run|
  {
    if run == [] {
      assert (run + [f])[1..] == [];
    } else {
      assert (run + [f])[1..] == run[1..] + [f];
      AfterSnoc(cfg, Next(cfg, s, run[0]), run[1..], f);
    }
  }

  lemma {:induction false} AcceptedSnoc(cfg: Config, s: KeyState, run: seq<Failure>, f: Failure)
    ensures Accepted(cfg, s, run + [f]) <==>
            && Accepted(cfg, s, run) && RetryAfter(After(cfg, s, run), f.checkedAt).None?
            && f.checkedAt <= f.registeredAt && (run != [] ==> run[|run| - 1].registeredAt <= f.checkedAt)
    decreases |run|
  {
    var longer := run + [f];
    if run == [] {
      assert longer[1..] == [];
    } else {
      assert longer[1..] == run[1..] + [f];
      AcceptedSnoc(cfg, Next(cfg, s, run[0]), run[1..], f);
    }
  }

  lemma InOrderSnoc(run: seq<Failure>, f: Failure)
    ensures InOrder(run + [f]) <==>
            InOrder(run) && f.checkedAt <= f.registeredAt && (run != [] ==> run[|run| - 1].registeredAt <= f.checkedAt)
  {
    var longer := run + [f];
    assert longer[|run|] == f && forall i :: 0 <= i < |run| ==> longer[i] == run[i];
    if run != [] && InOrder(run) && run[|run| - 1].registeredAt <= f.checkedAt {
      forall i | 0 <= i < |run| ensures run[i].registeredAt <= f.checkedAt {
        assert i < |run| - 1 ==> run[i].registeredAt <= run[|run| - 1].checkedAt;
      }
    }
  }

  /** The check at `time` comes at the end of every lockout of the run, or later. */
  ghost predicate Outside(cfg: Config, run: seq<Failure>, time: Time) {
    forall m :: 0 <= m < |run| && Locks(cfg, run, m) ==> time >= run[m].registeredAt + cfg.lockout
  }

  lemma OutsideGrows(cfg: Config, run: seq<Failure>, f: Failure)
    ensures OutsideLockouts(cfg, run + [f]) <==> OutsideLockouts(cfg, run) && Outside(cfg, run, f.checkedAt)
  {
    var longer, n := run + [f], |run|;
    forall m | 0 <= m < n ensures longer[m] == run[m] && (Locks(cfg, longer, m) <==> Locks(cfg, run, m)) {
      SamePast(cfg, run, f, m);
    }
    assert longer[n] == f;
    if OutsideLockouts(cfg, longer) {
      forall l, m | 0 <= l < m < n && Locks(cfg, run, l)
        ensures run[m].checkedAt >= run[l].registeredAt + cfg.lockout
      {
        assert longer[m].checkedAt >= longer[l].registeredAt + cfg.lockout;
      }
      forall m | 0 <= m < n && Locks(cfg, run, m) ensures f.checkedAt >= run[m].registeredAt + cfg.lockout {
        assert longer[n].checkedAt >= longer[m].registeredAt + cfg.lockout;
      }
    }
  }

  /** Only the last failure can still have the key locked. */
  lemma PassesIffOutside(cfg: Config, run: seq<Failure>, f: Failure, s: KeyState)
    requires InOrder(run + [f]) && LockedByLast(cfg, run, s) && OutsideLockouts(cfg, run)
    ensures RetryAfter(s, f.checkedAt).None? <==> Outside(cfg, run, f.checkedAt)
  {
    InOrderSnoc(run, f);
    if run != [] {
      var last := |run| - 1;
      if RetryAfter(s, f.checkedAt).None? {
        forall m | 0 <= m < |run| && Locks(cfg, run, m) ensures f.checkedAt >= run[m].registeredAt + cfg.lockout {
          if m < last {
            assert run[last].checkedAt >= run[m].registeredAt + cfg.lockout;
            assert run[last].checkedAt <= run[last].registeredAt;
          }
        }
      }
    }
  }

  /** Which runs of failures get past the checks of a key without a past: those in order in which every
      check lies outside every lockout. What locks is told by the times alone. */
  lemma {:induction false} AcceptedIff(cfg: Config, run: seq<Failure>) returns (k: nat)
    requires cfg.Valid()
    ensures Accepted(cfg, EMPTY, run) <==> InOrder(run) && OutsideLockouts(cfg, run)
    ensures Accepted(cfg, EMPTY, run) ==>
      Remembers(cfg, run, After(cfg, EMPTY, run), k) && LockedByLast(cfg, run, After(cfg, EMPTY, run))
    decreases |run|
  {
    k := 0;
    if run != [] {
      var init, f := run[..|run| - 1], run[|run| - 1];
      var s := After(cfg, EMPTY, init);
      assert run == init + [f];
      var before := AcceptedIff(cfg, init);
      AcceptedSnoc(cfg, EMPTY, init, f);
      AfterSnoc(cfg, EMPTY, init, f);
      InOrderSnoc(init, f);
      OutsideGrows(cfg, init, f);
      if InOrder(run) {
        if Accepted(cfg, EMPTY, init) {
          PassesIffOutside(cfg, init, f, s);
          if RetryAfter(s, f.checkedAt).None? {
            k := NextRemembers(cfg, init, s, before, f);
          }
        }
      }
    }
  }

  /** Right after a failure the key is locked if and only if that failure locks it by its times. */
  lemma FailureLocksIff(cfg: Config, run: seq<Failure>, f: Failure)
    requires cfg.Valid() && Accepted(cfg, EMPTY, run + [f])
    ensures RetryAfter(After(cfg, EMPTY, run + [f]), f.registeredAt).Some? <==> Locks(cfg, run + [f], |run|)
  {
    var k := AcceptedIff(cfg, run + [f]);
  }

  /** Failures spread so thin that no `maxAttempts` of them in a row fit into the window are never
      stopped, however many there are. */
  lemma SparseFailuresPass(cfg: Config, run: seq<Failure>)
    requires cfg.Valid() && InOrder(run)
    requires forall n :: cfg.maxAttempts <= n + 1 && n < |run| ==>
      run[n].registeredAt - run[n + 1 - cfg.maxAttempts].registeredAt > cfg.window
    ensures Accepted(cfg, EMPTY, run)
  {
    assert forall n :: 0 <= n < |run| ==> !Locks(cfg, run, n);
    var k := AcceptedIff(cfg, run);
  }

  /** A refused login is told to come back exactly when the lockout ends. */
  lemma WaitIsExact(s: KeyState, now: Time, sooner: nat)
    requires RetryAfter(s, now).Some?
    ensures var wait := RetryAfter(s, now).value;
      && wait >= 1 && RetryAfter(s, now + wait).None?
      && (sooner < wait ==> RetryAfter(s, now + sooner).Some?)
  {
  }
}
