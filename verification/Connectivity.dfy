/** The connectivity monitor: polls of VMs are debounced, so that a VM is reported offline only
    after enough consecutive failures and online again only after enough consecutive successes. */
module Connectivity {
  import opened Sequences

  /** Confirmation thresholds; the source never goes below two failures and one success. */
  datatype Thresholds = Thresholds(offline: nat, online: nat) {
    predicate Valid() { offline >= 2 && online >= 1 }

    function For(value: bool): nat { if value then online else offline }
  }

  /** What is remembered of one VM. */
  datatype VmState = VmState(reported: Option<bool>, failures: nat, successes: nat) {
    function Streak(value: bool): nat { if value then successes else failures }
  }

  const UNSEEN: VmState := VmState(None, 0, 0)

  /** One poll of one VM. */
  function Observe(th: Thresholds, s: VmState, online: bool): VmState {
    var successes := if online then s.successes + 1 else 0;
    var failures := if online then 0 else s.failures + 1;
    var reported :=
      if s.reported.None? then Some(online)
      else if s.reported.value then
        if !online && failures >= th.offline then Some(false) else s.reported
      else if online && successes >= th.online then Some(true)
      else s.reported;
    VmState(reported, failures, successes)
  }

  /** Whether a poll changes the reported state of a VM already known. */
  predicate Flips(th: Thresholds, s: VmState, online: bool) {
    s.reported.Some? && Observe(th, s, online).reported != s.reported
  }

  ghost function After(th: Thresholds, s: VmState, polls: seq<bool>): VmState {
    if polls == [] then s
    else Observe(th, After(th, s, polls[..|polls| - 1]), polls[|polls| - 1])
  }

  /** The values newly reported along the polls, one for each flip. */
  ghost function FlipsAlong(th: Thresholds, s: VmState, polls: seq<bool>): seq<bool> {
    if polls == [] then []
    else
      var n := |polls| - 1;
      var before := FlipsAlong(th, s, polls[..n]);
      if Flips(th, After(th, s, polls[..n]), polls[n]) then before + [polls[n]] else before
  }

  /** Length of the longest suffix in which every poll has this value. */
  ghost function SuffixLength(polls: seq<bool>, value: bool): nat {
    if polls == [] || polls[|polls| - 1] != value then 0
    else SuffixLength(polls[..|polls| - 1], value) + 1
  }

  lemma {:induction false} SuffixLengthIsMaximal(polls: seq<bool>, value: bool)
    ensures var n := SuffixLength(polls, value);
      && n <= |polls|
      && (forall k :: |polls| - n <= k < |polls| ==> polls[k] == value)
      && (n < |polls| ==> polls[|polls| - n - 1] != value)
  {
    if polls != [] && polls[|polls| - 1] == value {
      SuffixLengthIsMaximal(polls[..|polls| - 1], value);
    }
  }

  /** The two counters are the lengths of the maximal constant suffixes of the poll history. */
  lemma {:induction false} StreaksAreSuffixes(th: Thresholds, polls: seq<bool>)
    ensures After(th, UNSEEN, polls).failures == SuffixLength(polls, false)
    ensures After(th, UNSEEN, polls).successes == SuffixLength(polls, true)
    ensures After(th, UNSEEN, polls).reported.Some? <==> polls != []
  {
    if polls != [] {
      StreaksAreSuffixes(th, polls[..|polls| - 1]);
    }
  }

  /** A contrary streak never reaches its threshold without the flip happening. */
  lemma {:induction false} ContraryStreakIsShort(th: Thresholds, polls: seq<bool>)
    requires th.Valid() && polls != []
    ensures var s := After(th, UNSEEN, polls);
      s.reported.Some? && s.Streak(!s.reported.value) < th.For(!s.reported.value)
  {
  }

  /** A flip is reported exactly when the contrary suffix of the history reaches its threshold. */
  lemma FlipExactlyAtThreshold(th: Thresholds, polls: seq<bool>, online: bool)
    requires th.Valid() && polls != []
    ensures var s := After(th, UNSEEN, polls);
      s.reported.Some? &&
      (Flips(th, s, online) <==>
       online != s.reported.value && SuffixLength(polls + [online], online) == th.For(online))
  {
    assert (polls + [online])[..|polls|] == polls;
    StreaksAreSuffixes(th, polls);
    ContraryStreakIsShort(th, polls);
  }

  /** `value` was confirmed after the first `j` polls: by the very first poll or by a streak. */
  ghost predicate ConfirmedAt(th: Thresholds, polls: seq<bool>, j: nat, value: bool)
    requires 1 <= j <= |polls|
  {
    (j == 1 && polls[0] == value) || SuffixLength(polls[..j], value) >= th.For(value)
  }

  ghost predicate UncontestedSince(th: Thresholds, polls: seq<bool>, j: nat, value: bool)
    requires j <= |polls|
  {
    forall i {:trigger polls[..i]} :: j < i <= |polls| ==> SuffixLength(polls[..i], !value) < th.For(!value)
  }

  /** The reported state, said without the machine: the value that was confirmed last. */
  lemma {:induction false} ReportedIsLastConfirmed(th: Thresholds, polls: seq<bool>, value: bool)
    requires th.Valid() && polls != []
    ensures After(th, UNSEEN, polls).reported == Some(value) <==>
            exists j :: 1 <= j <= |polls| && ConfirmedAt(th, polls, j, value) && UncontestedSince(th, polls, j, value)
  {
    var n := |polls| - 1;
    var init := polls[..n];
    StreaksAreSuffixes(th, polls);
    assert polls[..|polls|] == polls;
    if n == 0 {
      assert init == [];
      assert polls[0] == value ==> ConfirmedAt(th, polls, 1, value) && UncontestedSince(th, polls, 1, value);
      assert polls[0] != value ==> SuffixLength(polls, value) == 0;
    } else {
      StreaksAreSuffixes(th, init);
      ContraryStreakIsShort(th, polls);
      ReportedIsLastConfirmed(th, init, value);
      if After(th, UNSEEN, polls).reported == Some(value) {
        ConfirmationExists(th, polls, value);
      }
      if j :| 1 <= j <= |polls| && ConfirmedAt(th, polls, j, value) && UncontestedSince(th, polls, j, value) {
        ConfirmationSuffices(th, polls, value, j);
      }
    }
  }

  lemma ConfirmationExists(th: Thresholds, polls: seq<bool>, value: bool)
    requires th.Valid() && |polls| > 1
    requires After(th, UNSEEN, polls).reported == Some(value)
    requires var init := polls[..|polls| - 1];
      After(th, UNSEEN, init).reported == Some(value) ==>
      exists j :: 1 <= j <= |init| && ConfirmedAt(th, init, j, value) && UncontestedSince(th, init, j, value)
    ensures exists j :: 1 <= j <= |polls| && ConfirmedAt(th, polls, j, value) && UncontestedSince(th, polls, j, value)
  {
    var init := polls[..|polls| - 1];
    StreaksAreSuffixes(th, polls);
    StreaksAreSuffixes(th, init);
    ContraryStreakIsShort(th, polls);
    assert polls[..|polls|] == polls;
    if After(th, UNSEEN, init).reported == Some(value) {
      var j :| 1 <= j <= |init| && ConfirmedAt(th, init, j, value) && UncontestedSince(th, init, j, value);
      assert init[..j] == polls[..j];
      forall i | j < i <= |polls| ensures SuffixLength(polls[..i], !value) < th.For(!value) {
        if i <= |init| { assert init[..i] == polls[..i]; }
      }
      assert ConfirmedAt(th, polls, j, value) && UncontestedSince(th, polls, j, value);
    } else {
      assert ConfirmedAt(th, polls, |polls|, value) && UncontestedSince(th, polls, |polls|, value);
    }
  }

  lemma {:induction false} ConfirmationSuffices(th: Thresholds, polls: seq<bool>, value: bool, j: nat)
    requires th.Valid() && 1 <= j <= |polls|
    requires ConfirmedAt(th, polls, j, value) && UncontestedSince(th, polls, j, value)
    ensures After(th, UNSEEN, polls).reported == Some(value)
  {
    var n := |polls| - 1;
    var init := polls[..n];
    StreaksAreSuffixes(th, polls);
    StreaksAreSuffixes(th, init);
    assert polls[..|polls|] == polls;
    if j == |polls| {
      ContraryStreakIsShort(th, polls);
    } else {
      assert init[..j] == polls[..j];
      forall i | j < i <= |init| ensures SuffixLength(init[..i], !value) < th.For(!value) {
        assert init[..i] == polls[..i];
      }
      ConfirmationSuffices(th, init, value, j);
    }
  }

  // ----- the flip budget -----

  ghost function CountOf(values: seq<bool>, value: bool): nat {
    if values == [] then 0
    else CountOf(values[..|values| - 1], value) + if values[|values| - 1] == value then 1 else 0
  }

  /** The thresholds of the flips, added up. */
  ghost function Cost(th: Thresholds, flips: seq<bool>): nat {
    if flips == [] then 0 else Cost(th, flips[..|flips| - 1]) + th.For(flips[|flips| - 1])
  }

  lemma {:induction false} CostByKind(th: Thresholds, flips: seq<bool>)
    ensures Cost(th, flips) == CountOf(flips, false) * th.offline + CountOf(flips, true) * th.online
  {
    if flips != [] {
      CostByKind(th, flips[..|flips| - 1]);
    }
  }

  lemma {:induction false} FlipsArePaidFor(th: Thresholds, polls: seq<bool>)
    requires th.Valid() && polls != []
    ensures var s := After(th, UNSEEN, polls);
      s.reported.Some? && Cost(th, FlipsAlong(th, UNSEEN, polls)) + s.Streak(!s.reported.value) <= |polls|
  {
    var n := |polls| - 1;
    var init := polls[..n];
    ContraryStreakIsShort(th, polls);
    if n == 0 {
      assert init == [];
    } else {
      FlipsArePaidFor(th, init);
      var before, flips := FlipsAlong(th, UNSEEN, init), FlipsAlong(th, UNSEEN, polls);
      if Flips(th, After(th, UNSEEN, init), polls[n]) {
        assert flips[..|before|] == before;
        ContraryStreakIsShort(th, init);
      }
    }
  }

  /** Each reported flip costs as many polls as its threshold: over any history the flips to
      offline and to online, weighted so, fit into the number of polls. */
  lemma FlipBudget(th: Thresholds, polls: seq<bool>)
    requires th.Valid()
    ensures var flips := FlipsAlong(th, UNSEEN, polls);
      CountOf(flips, false) * th.offline + CountOf(flips, true) * th.online <= |polls|
  {
    if polls != [] {
      FlipsArePaidFor(th, polls);
    }
    CostByKind(th, FlipsAlong(th, UNSEEN, polls));
  }

  // ----- the monitor: three dictionaries, updated item by item -----

  datatype Item = Item(vmId: string, online: bool)

  datatype Transition = Transition(vmId: string, previous: bool, current: bool)

  /** The polls of one VM in a list of items; items without an id count for nobody. */
  ghost function PollsOf(items: seq<Item>, vm: string): seq<bool> {
    if items == [] then []
    else
      var last := items[|items| - 1];
      var before := PollsOf(items[..|items| - 1], vm);
      if vm != "" && last.vmId == vm then before + [last.online] else before
  }

  ghost function FlipsOf(transitions: seq<Transition>, vm: string): seq<bool> {
    if transitions == [] then []
    else
      var last := transitions[|transitions| - 1];
      var before := FlipsOf(transitions[..|transitions| - 1], vm);
      if last.vmId == vm then before + [last.current] else before
  }

  class Monitor {
    var online: map<string, bool>
    var failureStreak: map<string, nat>
    var successStreak: map<string, nat>

    constructor ()
      ensures forall vm :: StateOf(vm) == UNSEEN
    {
      online, failureStreak, successStreak := map[], map[], map[];
    }

    function StateOf(vm: string): VmState
      reads this
    {
      VmState(if vm in online then Some(online[vm]) else None,
              if vm in failureStreak then failureStreak[vm] else 0,
              if vm in successStreak then successStreak[vm] else 0)
    }

    /** The body of the loop for one item with an id. */
    method RecordOne(th: Thresholds, vm: string, current: bool) returns (transition: Option<Transition>)
      modifies this
      ensures StateOf(vm) == Observe(th, old(StateOf(vm)), current)
      ensures forall other :: other != vm ==> StateOf(other) == old(StateOf(other))
      ensures transition == if Flips(th, old(StateOf(vm)), current) then Some(Transition(vm, !current, current))
        else None
    {
      var previous := if vm in online then Some(online[vm]) else None;
      transition := None;
      if current {
        successStreak := successStreak[vm := (if vm in successStreak then successStreak[vm] else 0) + 1];
        failureStreak := failureStreak[vm := 0];
      } else {
        successStreak := successStreak[vm := 0];
        failureStreak := failureStreak[vm := (if vm in failureStreak then failureStreak[vm] else 0) + 1];
      }
      if previous.None? {
        online := online[vm := current];
      } else if previous.value {
        if !current && failureStreak[vm] >= th.offline {
          online := online[vm := false];
          transition := Some(Transition(vm, previous.value, false));
        }
      } else if current && successStreak[vm] >= th.online {
        online := online[vm := true];
        transition := Some(Transition(vm, previous.value, true));
      }
    }

    /** One refresh: every VM moves along its own polls, and the transitions recorded for it are
        exactly its flips, in order. */
    method Record(th: Thresholds, items: seq<Item>) returns (transitions: seq<Transition>)
      modifies this
      ensures forall vm :: StateOf(vm) == After(th, old(StateOf(vm)), PollsOf(items, vm))
      ensures forall vm :: vm != "" ==>
                FlipsOf(transitions, vm) == FlipsAlong(th, old(StateOf(vm)), PollsOf(items, vm))
    {
      transitions := [];
      for i := 0 to |items|
        invariant forall vm :: Follows(th, old(StateOf(vm)), StateOf(vm), items[..i], transitions, vm)
      {
        var vmId := items[i].vmId;
        label before:
        ghost var noted := Noted(th, StateOf(vmId), items[i], transitions);
        forall vm
          ensures Follows(th, old(StateOf(vm)), Seen(th, StateOf(vm), items[i], vm), items[..i + 1], noted, vm)
        {
          FollowsSnoc(th, old(StateOf(vm)), StateOf(vm), StateOf(vmId), items, i, transitions, vm);
        }
        if vmId == "" {
          continue;
        }
        var transition := RecordOne(th, vmId, items[i].online);
        if transition.Some? {
          transitions := transitions + [transition.value];
        }
        assert transitions == noted;
        assert forall vm :: StateOf(vm) == Seen(th, old@before(StateOf(vm)), items[i], vm);
      }
      assert items[..|items|] == items;
      assert forall vm :: Follows(th, old(StateOf(vm)), StateOf(vm), items, transitions, vm);
    }
  }

  /** One VM moved along its polls, and its transitions are its flips. */
  ghost predicate Follows(th: Thresholds, start: VmState, now: VmState, items: seq<Item>, transitions: seq<Transition>,
                          vm: string) {
    && now == After(th, start, PollsOf(items, vm))
    && (vm != "" ==> FlipsOf(transitions, vm) == FlipsAlong(th, start, PollsOf(items, vm)))
  }

  ghost function Seen(th: Thresholds, now: VmState, item: Item, vm: string): VmState {
    if vm != "" && item.vmId == vm then Observe(th, now, item.online) else now
  }

  ghost function Noted(th: Thresholds, now: VmState, item: Item, transitions: seq<Transition>): seq<Transition> {
    if item.vmId != "" && Flips(th, now, item.online)
    then transitions + [Transition(item.vmId, !item.online, item.online)] else transitions
  }

  /** One more item, seen from one VM; `other` is the state of the VM the item is about. */
  lemma FollowsSnoc(th: Thresholds, start: VmState, now: VmState, other: VmState,
                    items: seq<Item>, i: nat, transitions: seq<Transition>, vm: string)
    requires i < |items| && Follows(th, start, now, items[..i], transitions, vm)
    requires items[i].vmId == vm ==> other == now
    ensures Follows(th, start, Seen(th, now, items[i], vm), items[..i + 1], Noted(th, other, items[i], transitions), vm)
  {
    ItemsSnoc(items, i);
    TransitionsSnoc(transitions, Transition(items[i].vmId, !items[i].online, items[i].online));
    PollSnoc(th, start, PollsOf(items[..i], vm), items[i].online);
  }

  /** One more poll. */
  lemma PollSnoc(th: Thresholds, start: VmState, polls: seq<bool>, online: bool)
    ensures After(th, start, polls + [online]) == Observe(th, After(th, start, polls), online)
    ensures FlipsAlong(th, start, polls + [online]) ==
      if Flips(th, After(th, start, polls), online) then FlipsAlong(th, start, polls) + [online]
      else FlipsAlong(th, start, polls)
  {
    assert (polls + [online])[..|polls|] == polls;
  }

  lemma ItemsSnoc(items: seq<Item>, i: nat)
    requires i < |items|
    ensures forall vm :: PollsOf(items[..i + 1], vm) ==
                         if vm != "" && items[i].vmId == vm then PollsOf(items[..i], vm) + [items[i].online]
                           else PollsOf(items[..i], vm)
  {
    assert items[..i + 1][..i] == items[..i];
  }

  lemma TransitionsSnoc(transitions: seq<Transition>, t: Transition)
    ensures forall vm :: FlipsOf(transitions + [t], vm) ==
                         if t.vmId == vm then FlipsOf(transitions, vm) + [t.current] else FlipsOf(transitions, vm)
  {
  }
}
