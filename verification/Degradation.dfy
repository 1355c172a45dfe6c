/** When the backend works on in spite of unhealthy database pools, and since when. */
module Degradation {
  import opened Common

  /** The setters, with the time at which each runs. */
  datatype Call =
    | SetGraceful(enabled: bool, time: int)
    | SetManual(enabled: bool, time: int)

  /** The switches as a value; a zero `since` is the zero time. */
  datatype Mode = Mode(graceful: bool, manual: bool, since: int)

  const OFF := Mode(false, false, 0)

  function Set(m: Mode, call: Call): Mode {
    match call
    case SetGraceful(enabled, time) =>
      m.(graceful := enabled, since := if !enabled then 0 else if m.graceful then m.since else time)
    case SetManual(enabled, time) =>
      if !enabled then m.(manual := false)
      else m.(manual := true, graceful := true, since := if m.since == 0 then time else m.since)
  }

  function After(calls: seq<Call>): Mode {
    if calls == [] then OFF else Set(After(calls[..|calls| - 1]), calls[|calls| - 1])
  }

  /** Switched on by the last call, other than one that ends manual degradation. */
  predicate On(calls: seq<Call>) {
    calls != [] &&
    var last := calls[|calls| - 1];
    if last.SetManual? && !last.enabled then On(calls[..|calls| - 1]) else last.enabled
  }

  /** Call number `i` turned degradation on, and it has stayed on since. */
  ghost predicate TurnedOnBy(calls: seq<Call>, i: nat) {
    && i < |calls|
    && !On(calls[..i])
    && forall j :: i < j <= |calls| ==> On(calls[..j])
  }

  /** In every run the time is set exactly while degradation is on, and is that of the last change from off to on. */
  lemma {:induction false} SinceIsTheLastSwitchOn(calls: seq<Call>)
    requires forall i :: 0 <= i < |calls| ==> calls[i].time > 0
    ensures After(calls).graceful == On(calls)
    ensures After(calls).since != 0 <==> On(calls)
    ensures On(calls) ==> exists i: nat :: TurnedOnBy(calls, i) && calls[i].time == After(calls).since
    decreases |calls|
  {
    if calls == [] {
    } else {
      var n := |calls| - 1;
      var init := calls[..n];
      SinceIsTheLastSwitchOn(init);
      assert calls[..n + 1] == calls;
      assert forall j :: 0 <= j <= n ==> init[..j] == calls[..j];
      if On(calls) {
        if On(init) {
          var i: nat :| TurnedOnBy(init, i) && init[i].time == After(init).since;
          assert TurnedOnBy(calls, i);
        } else {
          assert TurnedOnBy(calls, n);
        }
      }
    }
  }

  /** The last call of the manual setter switched it on. */
  ghost predicate LastManualIsOn(calls: seq<Call>) {
    exists i: nat :: i < |calls| && calls[i].SetManual? && calls[i].enabled && NoManualAfter(calls, i)
  }

  ghost predicate NoManualAfter(calls: seq<Call>, i: nat) {
    forall j :: i < j < |calls| ==> !calls[j].SetManual?
  }

  lemma {:induction false} ManualIsTheLastManualCall(calls: seq<Call>)
    ensures After(calls).manual <==> LastManualIsOn(calls)
    decreases |calls|
  {
    if calls == [] {
      assert !After(calls).manual;
    } else {
      var n := |calls| - 1;
      var init := calls[..n];
      ManualIsTheLastManualCall(init);
      if calls[n].SetManual? {
        assert NoManualAfter(calls, n);
        if LastManualIsOn(calls) {
          var i: nat :| i < |calls| && calls[i].SetManual? && calls[i].enabled && NoManualAfter(calls, i);
          assert i == n;
        }
      } else {
        if LastManualIsOn(init) {
          var i: nat :| i < n && init[i].SetManual? && init[i].enabled && NoManualAfter(init, i);
          assert calls[i] == init[i] && NoManualAfter(calls, i);
        }
        if LastManualIsOn(calls) {
          var i: nat :| i < |calls| && calls[i].SetManual? && calls[i].enabled && NoManualAfter(calls, i);
          assert i < n && init[i] == calls[i];
          assert NoManualAfter(init, i);
        }
      }
    }
  }

  /**
   Degradation is in use with no time set exactly when the last manual call switched it on and the
   last call of all is a graceful switch-off.
   */
  lemma UseWithoutTimeIff(calls: seq<Call>)
    requires forall i :: 0 <= i < |calls| ==> calls[i].time > 0
    ensures var m := After(calls);
      (m.graceful || m.manual) && m.since == 0 <==>
        LastManualIsOn(calls) && calls[|calls| - 1].SetGraceful? && !calls[|calls| - 1].enabled
  {
    SinceIsTheLastSwitchOn(calls);
    ManualIsTheLastManualCall(calls);
    if LastManualIsOn(calls) {
      var i: nat :| i < |calls| && calls[i].SetManual? && calls[i].enabled && NoManualAfter(calls, i);
      var n := |calls| - 1;
      assert calls[n].SetManual? ==> i == n;
      assert On(calls) <==> calls[n].enabled;
    }
  }

  datatype PoolState = Unknown | Healthy | Unhealthy | Closed

  datatype Pool = Pool(state: PoolState, failing: bool)

  predicate IsHealthy(pools: map<string, Pool>, name: string) {
    name in pools && !pools[name].failing && pools[name].state.Healthy?
  }

  datatype Verdict =
    | Operates
    | Unavailable
    | PoolsUnavailable(degraded: seq<string>)
    | RegionUnavailable(region: string, healthy: seq<string>)

  class Switches {
    var gracefulDegradation: bool
    var manuallyEnabledDegradation: bool
    var degradedSince: int
    /** The registry's pools; None is a backend without a registry. */
    var registry: Option<map<string, Pool>>

    ghost function Value(): Mode
      reads this
    {
      Mode(gracefulDegradation, manuallyEnabledDegradation, degradedSince)
    }

    constructor (registry: Option<map<string, Pool>>)
      ensures Value() == OFF && this.registry == registry
    {
      gracefulDegradation, manuallyEnabledDegradation, degradedSince := false, false, 0;
      this.registry := registry;
    }

    method SetGracefulDegradation(enabled: bool, now: int)
      modifies this`gracefulDegradation, this`degradedSince
      ensures Value() == Set(old(Value()), SetGraceful(enabled, now))
    {
      if enabled && !gracefulDegradation {
        degradedSince := now;
      } else if !enabled {
        degradedSince := 0;
      }
      gracefulDegradation := enabled;
    }

    method SetManuallyEnabledDegradation(enabled: bool, now: int)
      modifies this`gracefulDegradation, this`manuallyEnabledDegradation, this`degradedSince
      ensures Value() == Set(old(Value()), SetManual(enabled, now))
    {
      manuallyEnabledDegradation := enabled;
      if enabled {
        gracefulDegradation := true;
        if degradedSince == 0 {
          degradedSince := now;
        }
      }
    }

    /** The names of the pools, in no particular order. */
    method ListConnections(pools: map<string, Pool>) returns (names: seq<string>)
      ensures Distinct(names) && |names| == |pools| && forall n :: n in names <==> n in pools
    {
      names := [];
      var left := pools.Keys;
      while left != {}
        invariant left <= pools.Keys && Distinct(names) && |names| + |left| == |pools|
        invariant forall n :: n in names <==> n in pools && n !in left
        decreases left
      {
        var n :| n in left;
        names := names + [n];
        left := left - {n};
      }
    }

    method IsPoolHealthy(region: string) returns (healthy: bool)
      ensures healthy <==> registry.Some? && IsHealthy(registry.value, region)
      ensures healthy <==>
        registry.Some? && region in registry.value && registry.value[region] == Pool(Healthy, false)
    {
      if registry.None? || region !in registry.value {
        return false;
      }
      var pool := registry.value[region];
      healthy := !pool.failing && pool.state == Healthy;
    }

    method AreAllPoolsHealthy() returns (healthy: bool)
      ensures healthy <==>
        registry.Some? && registry.value != map[] && forall n :: n in registry.value ==> IsHealthy(registry.value, n)
    {
      if registry.None? {
        return false;
      }
      var names := ListConnections(registry.value);
      for i := 0 to |names|
        invariant forall j :: 0 <= j < i ==> IsHealthy(registry.value, names[j])
      {
        assert names[i] in names;
        var one := IsPoolHealthy(names[i]);
        if !one {
          return false;
        }
      }
      healthy := |names| > 0;
      assert forall n :: n in names ==> IsHealthy(registry.value, n);
    }

    method GetDegradationStatus() returns (isDegraded: bool, degraded: seq<string>, healthy: seq<string>)
      ensures registry.None? ==> isDegraded && degraded == [] && healthy == []
      ensures registry.Some? ==> (isDegraded <==> degraded != [])
      ensures registry.Some? ==> Distinct(degraded + healthy)
      ensures registry.Some? ==> forall n :: n in degraded <==> n in registry.value && !IsHealthy(registry.value, n)
      ensures registry.Some? ==> forall n :: n in healthy <==> n in registry.value && IsHealthy(registry.value, n)
    {
      isDegraded, degraded, healthy := registry.None?, [], [];
      if registry.None? {
        return;
      }
      var names := ListConnections(registry.value);
      for i := 0 to |names|
        invariant isDegraded <==> degraded != []
        invariant forall n :: n in degraded <==> n in names[..i] && !IsHealthy(registry.value, n)
        invariant forall n :: n in healthy <==> n in names[..i] && IsHealthy(registry.value, n)
        invariant Distinct(degraded) && Distinct(healthy)
      {
        assert names[..i + 1] == names[..i] + [names[i]] && names[i] !in names[..i];
        var one := IsPoolHealthy(names[i]);
        if one {
          healthy := healthy + [names[i]];
        } else {
          degraded := degraded + [names[i]];
          isDegraded := true;
        }
      }
      assert names[..|names|] == names;
      Apart(degraded, healthy);
    }

    /** The backend operates exactly if it has a registry, and no pool is degraded or the named region's is healthy. */
    method CanOperate(region: string) returns (ok: bool, verdict: Verdict)
      ensures ok <==>
        registry.Some? &&
          ((forall n :: n in registry.value ==> IsHealthy(registry.value, n)) ||
           (region != "" && IsHealthy(registry.value, region)))
      ensures ok <==> verdict.Operates?
      ensures verdict.Unavailable? <==> registry.None?
      ensures verdict.RegionUnavailable? ==>
        verdict.region == region && verdict.healthy != [] &&
        forall n :: n in verdict.healthy <==> n in registry.value && IsHealthy(registry.value, n)
      ensures verdict.PoolsUnavailable? ==>
        (forall n :: n in verdict.degraded <==> n in registry.value) &&
        forall n :: n in registry.value ==> !IsHealthy(registry.value, n)
    {
      var all := AreAllPoolsHealthy();
      if all {
        return true, Operates;
      }
      var isDegraded, degraded, healthy := GetDegradationStatus();
      if !isDegraded {
        assert forall n :: n in registry.value ==> n !in degraded;
        return true, Operates;
      }
      if region != "" {
        var one := IsPoolHealthy(region);
        if one {
          return true, Operates;
        }
      }
      assert degraded != [] ==> degraded[0] in degraded;
      ok, verdict := false, Unavailable;
      if |degraded| > 0 {
        verdict := PoolsUnavailable(degraded);
      }
      if |healthy| > 0 {
        verdict := RegionUnavailable(region, healthy);
      } else {
        assert forall n :: n !in healthy;
      }
    }
  }

  lemma Apart(a: seq<string>, b: seq<string>)
    requires Distinct(a) && Distinct(b) && forall n :: !(n in a && n in b)
    ensures Distinct(a + b)
  {
    forall i, j | 0 <= i < j < |a + b| ensures (a + b)[i] != (a + b)[j] {
      if i < |a| && |a| <= j {
        assert a[i] in a && b[j - |a|] in b;
      }
    }
  }
}
