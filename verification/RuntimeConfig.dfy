// Hot parameter updates: the overrides of config.go behind the whitelist and safe ranges of
// handleRuntimeParams in api/server.go, their only writer.
module RuntimeConfig {
  predicate IsWhitelistedParam(key: string) {
    key in {"trigger_bps", "cooldown_sec", "max_gas_usd_per_trade", "daily_budget_usd",
            "twap_slice_count", "twap_window_sec", "min_net_edge_usd", "max_gas_gwei"}
  }

  predicate IsParamInSafeRange(key: string, v: real) {
    match key
    case "trigger_bps" => 1.0 <= v <= 500.0
    case "cooldown_sec" => 1.0 <= v <= 3600.0
    case "max_gas_usd_per_trade" => 0.1 <= v <= 50.0
    case "daily_budget_usd" => 1.0 <= v <= 20000.0
    case "twap_slice_count" => 1.0 <= v <= 10.0
    case "twap_window_sec" => 10.0 <= v <= 300.0
    case "min_net_edge_usd" => 0.0 <= v <= 100.0
    case "max_gas_gwei" => 1.0 <= v <= 500.0
    case _ => false
  }

  // int64(x): truncation toward zero.
  function Truncate(x: real): int {
    if x >= 0.0 then x.Floor else -((-x).Floor)
  }

  function GetFloat(overrides: map<string, real>, key: string, fallback: real): real {
    if key in overrides then overrides[key] else fallback
  }

  // The window the aggregator hands to GetTWAP.
  function TwapWindow(overrides: map<string, real>, configured: int): int {
    Truncate(GetFloat(overrides, "twap_window_sec", configured as real))
  }

  // The slice count of executeTWAP: an override counts only if slicing is on in the configuration.
  function SliceCount(overrides: map<string, real>, configured: int): int {
    if configured > 1 then Truncate(GetFloat(overrides, "twap_slice_count", configured as real)) else 1
  }

  class Config {
    var overrides: map<string, real>

    ghost predicate Valid()
      reads this
    {
      forall k :: k in overrides ==> IsWhitelistedParam(k) && IsParamInSafeRange(k, overrides[k])
    }

    constructor ()
      ensures Valid() && overrides == map[]
    {
      overrides := map[];
    }

    // An authorised POST with a reason given.
    method HandleRuntimeParam(key: string, value: real) returns (accepted: bool)
      requires Valid()
      modifies this
      ensures Valid()
      ensures accepted <==> IsWhitelistedParam(key) && IsParamInSafeRange(key, value)
      ensures overrides == if accepted then old(overrides)[key := value] else old(overrides)
    {
      if !IsWhitelistedParam(key) {
        return false;
      }
      if !IsParamInSafeRange(key, value) {
        return false;
      }
      overrides := overrides[key := value];
      return true;
    }
  }

  // The whitelist is exactly the parameters that have a safe value, and these are the ranges.
  const RANGES: map<string, (real, real)> := map[
    "trigger_bps" := (1.0, 500.0), "cooldown_sec" := (1.0, 3600.0), "max_gas_usd_per_trade" := (0.1, 50.0),
    "daily_budget_usd" := (1.0, 20000.0), "twap_slice_count" := (1.0, 10.0), "twap_window_sec" := (10.0, 300.0),
    "min_net_edge_usd" := (0.0, 100.0), "max_gas_gwei" := (1.0, 500.0)]

  lemma SafeExactlyWhen(key: string, v: real)
    ensures IsParamInSafeRange(key, v) <==> key in RANGES && RANGES[key].0 <= v <= RANGES[key].1
    ensures IsWhitelistedParam(key) <==> key in RANGES
    ensures IsWhitelistedParam(key) <==> exists w :: IsParamInSafeRange(key, w)
  {
    if key in RANGES {
      assert IsParamInSafeRange(key, RANGES[key].0);
    }
  }

  // Truncation goes to the integer next to x on the side of zero.
  lemma TruncateIs(x: real)
    ensures x >= 0.0 ==> Truncate(x) as real <= x < Truncate(x) as real + 1.0
    ensures x <= 0.0 ==> Truncate(x) as real - 1.0 < x <= Truncate(x) as real
  {
  }

  // The window is the override in whole seconds, or the configured one. The slice count likewise, but
  // only where slicing is configured.
  lemma WindowAndSlicesAre(overrides: map<string, real>, window: int, slices: int)
    ensures "twap_window_sec" !in overrides ==> TwapWindow(overrides, window) == window
    ensures "twap_window_sec" in overrides && overrides["twap_window_sec"] >= 0.0 ==>
      var w := TwapWindow(overrides, window); w as real <= overrides["twap_window_sec"] < w as real + 1.0
    ensures slices <= 1 ==> SliceCount(overrides, slices) == 1
    ensures slices > 1 && "twap_slice_count" !in overrides ==> SliceCount(overrides, slices) == slices
    ensures slices > 1 && "twap_slice_count" in overrides && overrides["twap_slice_count"] >= 0.0 ==>
      var n := SliceCount(overrides, slices); n as real <= overrides["twap_slice_count"] < n as real + 1.0
  {
  }

  // With every override in its safe range, the window handed to GetTWAP is at most 300 seconds
  // and the slice count at most 10, unless the configured fallback itself is larger.
  lemma SafeOverridesBound(overrides: map<string, real>, window: int, slices: int)
    requires forall k :: k in overrides ==> IsParamInSafeRange(k, overrides[k])
    ensures TwapWindow(overrides, window) <= 300
         || ("twap_window_sec" !in overrides && TwapWindow(overrides, window) == window)
    ensures 1 <= SliceCount(overrides, slices) <= 10
         || ("twap_slice_count" !in overrides && SliceCount(overrides, slices) == slices)
  {
  }
}
