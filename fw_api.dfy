/**
 * The firewall monitor's use of the Windows Filtering Platform entry
 * points: checking that enough of them are loaded (`fw_load_funcs`),
 * choosing the `FwpmNetEventSubscribeN` entry point for the API level in
 * `fw_api` (`fw_monitor_subscribe`), and releasing the engine and event
 * handles (`fw_monitor_stop`). The entry points themselves are native; the
 * model sees only whether each is present and what it returns.
 */
module FwApi {
  import opened Common

  /** `fw_funcs[]`, the dynamically loaded entry points, in table order. */
  const FW_FUNCS: seq<string> := [
    "FWOpenPolicyStore", "FWClosePolicyStore", "FWEnumFirewallRules",
    "FWFreeFirewallRules", "FWStatusMessageFromStatusCode",
    "FwpmNetEventSubscribe0", "FwpmNetEventSubscribe1", "FwpmNetEventSubscribe2",
    "FwpmNetEventSubscribe3", "FwpmNetEventSubscribe4",
    "FwpmNetEventUnsubscribe0", "FwpmFreeMemory0", "FwpmEngineClose0",
    "FwpmEngineOpen0", "FwpmEngineSetOption0", "FwpmLayerGetById0",
    "FwpmFilterGetById0", "FwpmCalloutCreateEnumHandle0", "FwpmCalloutEnum0",
    "FwpmCalloutDestroyEnumHandle0", "FwpmNetEventCreateEnumHandle0",
    "FwpmNetEventDestroyEnumHandle0", "FwpmNetEventEnum0", "FwpmNetEventEnum1",
    "FwpmNetEventEnum2", "FwpmNetEventEnum3", "FwpmNetEventEnum4",
    "FwpmNetEventEnum5", "GetSystemTimePreciseAsFileTime"]

  /** Where `FwpmNetEventSubscribe0` sits in the table; level `N` follows at `+ N`. */
  const SUBSCRIBE_0: nat := 5
  const UNSUBSCRIBE_0: nat := 10
  const ENGINE_CLOSE_0: nat := 12

  /** All but the 4 + 5 entry points the monitor can do without. */
  const FUNCTIONS_NEEDED: nat := |FW_FUNCS| - (4 + 5)

  const FW_API_LOW: int := 0
  const FW_API_HIGH: int := 4

  const ERROR_SUCCESS: int := 0
  const ERROR_INVALID_DATA: int := 13
  const ERROR_BAD_COMMAND: int := 22
  /** `FW_FUNC_ERROR`, which is `ERROR_FUNCTION_FAILED`. */
  const FW_FUNC_ERROR: int := 1627

  /** The table has 29 entries, so 20 are needed, and the named slots hold what they say. */
  lemma TableLayout()
    ensures |FW_FUNCS| == 29 && FUNCTIONS_NEEDED == 20
    ensures forall n | 0 <= n <= 4 :: FW_FUNCS[SUBSCRIBE_0 + n] == "FwpmNetEventSubscribe" + [DecDigit(n)]
    ensures FW_FUNCS[UNSUBSCRIBE_0] == "FwpmNetEventUnsubscribe0"
    ensures FW_FUNCS[ENGINE_CLOSE_0] == "FwpmEngineClose0"
  {
  }

  /** How many entries of a table are loaded. */
  function CountTrue(s: seq<bool>): (r: nat)
    ensures r <= |s|
  {
    if s == [] then 0 else CountTrue(s[..|s| - 1]) + if s[|s| - 1] then 1 else 0
  }

  /** Nothing is loaded exactly when the count is 0. */
  lemma {:induction false} CountTrueZero(s: seq<bool>)
    ensures CountTrue(s) == 0 <==> forall i | 0 <= i < |s| :: !s[i]
  {
    if s != [] {
      CountTrueZero(s[..|s| - 1]);
      if CountTrue(s) == 0 {
        assert forall i | 0 <= i < |s| - 1 :: s[i] == s[..|s| - 1][i];
      }
    }
  }

  /** Everything is loaded exactly when the count is the table size. */
  lemma {:induction false} CountTrueFull(s: seq<bool>)
    ensures CountTrue(s) == |s| <==> forall i | 0 <= i < |s| :: s[i]
  {
    if s != [] {
      CountTrueFull(s[..|s| - 1]);
      if CountTrue(s) == |s| {
        assert forall i | 0 <= i < |s| - 1 :: s[i] == s[..|s| - 1][i];
      }
    }
  }

  /** A table handle: `None` is `INVALID_HANDLE_VALUE`. */
  type Handle = Option<nat>

  /** The native calls `fw_monitor_stop` can make. */
  datatype NativeCall =
    | CloseHandle(h: nat)
    | Unsubscribe(engine: nat, event: nat)
    | EngineClose(engine: nat)

  /** The module state the three routines share. */
  class FwState {
    /** Which entries of `fw_funcs[]` have a non-NULL address. */
    var loaded: seq<bool>
    var errno: int
    var engine: Handle
    var event: Handle
    /** The native calls made so far, oldest first. */
    var calls: seq<NativeCall>

    ghost predicate Valid()
      reads this
    {
      |loaded| == |FW_FUNCS|
    }

    constructor ()
      ensures Valid() && CountTrue(loaded) == 0 && engine.None? && event.None? && calls == []
    {
      loaded := seq(|FW_FUNCS|, _ => false);
      CountTrueZero(seq(|FW_FUNCS|, _ => false));
      errno := ERROR_SUCCESS;
      engine, event := None, None;
      calls := [];
    }

    /** The counting loop of `fw_load_funcs`. */
    method CountLoaded() returns (num: nat)
      ensures num == CountTrue(loaded)
    {
      num := 0;
      var i := 0;
      while i < |loaded|
        invariant 0 <= i <= |loaded| && num == CountTrue(loaded[..i])
      {
        assert loaded[..i + 1][..i] == loaded[..i];
        if loaded[i] {
          num := num + 1;
        }
        i := i + 1;
      }
      assert loaded[..i] == loaded;
    }

    /**
     * `fw_load_funcs`: with at least `FUNCTIONS_NEEDED` entries loaded it
     * succeeds at once; with none loaded it runs the loader, which loads
     * the entries `loaderLoads` marks; it fails with `FW_FUNC_ERROR` when
     * the count is still short. A partly loaded table is never reloaded.
     */
    method LoadFuncs(loaderLoads: seq<bool>) returns (ok: bool)
      requires Valid() && |loaderLoads| == |FW_FUNCS|
      modifies this
      ensures Valid() && engine == old(engine) && event == old(event) && calls == old(calls)
      ensures old(CountTrue(loaded)) == 0 ==> loaded == loaderLoads
      ensures old(CountTrue(loaded)) != 0 ==> loaded == old(loaded)
      ensures ok <==> CountTrue(loaded) >= FUNCTIONS_NEEDED
      ensures ok ==> errno == old(errno)
      ensures !ok ==> errno == FW_FUNC_ERROR
    {
      var num := CountLoaded();
      if num >= FUNCTIONS_NEEDED {
        return true;
      }
      if num == 0 {
        loaded := loaderLoads;
        num := CountLoaded();
      }
      if num < FUNCTIONS_NEEDED {
        errno := FW_FUNC_ERROR;
        return false;
      }
      return true;
    }

    /** Which subscribe entry points are present, by API level. */
    function SubscribePresent(): (p: seq<bool>)
      requires Valid()
      reads this
      ensures |p| == 5 && forall n | 0 <= n < 5 :: p[n] == loaded[SUBSCRIBE_0 + n]
    {
      loaded[SUBSCRIBE_0..SUBSCRIBE_0 + 5]
    }

    /**
     * `fw_monitor_subscribe` with `fw_api == level`; `result(N)` is what
     * `FwpmNetEventSubscribeN` returns and `handle` the event handle a
     * successful call hands back. Sets `fw_errno`, and the handle on success.
     */
    method MonitorSubscribe(level: int, result: nat -> int, handle: nat) returns (ok: bool)
      requires Valid()
      modifies this
      ensures Valid() && loaded == old(loaded) && engine == old(engine) && calls == old(calls)
      ensures ok == Subscribe(level, old(SubscribePresent()), result).ok
      ensures errno == Subscribe(level, old(SubscribePresent()), result).errno
      ensures event == if Subscribe(level, old(SubscribePresent()), result).ok then Some(handle) else old(event)
    {
      var r := Subscribe(level, SubscribePresent(), result);
      ok, errno := r.ok, r.errno;
      if r.ok {
        event := Some(handle);
      }
    }

    /**
     * `fw_monitor_stop(force)`: closes or unsubscribes and closes the
     * handles that are valid, then marks both invalid.
     */
    method MonitorStop(force: bool)
      requires Valid()
      modifies this
      ensures Valid() && loaded == old(loaded) && errno == old(errno)
      ensures engine.None? && event.None?
      ensures calls == old(calls) + StopCalls(force, old(engine), old(event), loaded[UNSUBSCRIBE_0], loaded[ENGINE_CLOSE_0])
    {
      var made: seq<NativeCall> := [];
      if force {
        if event.Some? {
          made := made + [CloseHandle(event.value)];
        }
        if engine.Some? {
          made := made + [CloseHandle(engine.value)];
        }
      } else {
        if engine.Some? && event.Some? && loaded[UNSUBSCRIBE_0] {
          made := made + [Unsubscribe(engine.value, event.value)];
        }
        if engine.Some? && loaded[ENGINE_CLOSE_0] {
          made := made + [EngineClose(engine.value)];
        }
      }
      calls := calls + made;
      event, engine := None, None;
    }
  }

  /** The native calls one `fw_monitor_stop` makes. */
  function StopCalls(force: bool, engine: Handle, event: Handle, unsubscribe: bool, engineClose: bool): seq<NativeCall>
  {
    if force then
      (if event.Some? then [CloseHandle(event.value)] else []) +
      (if engine.Some? then [CloseHandle(engine.value)] else [])
    else
      (if engine.Some? && event.Some? && unsubscribe then [Unsubscribe(engine.value, event.value)] else []) +
      (if engine.Some? && engineClose then [EngineClose(engine.value)] else [])
  }

  /**
   * Stopping twice is stopping once: with both handles invalid, as every
   * stop leaves them, a stop makes no native call. A forced stop only
   * closes handles, an orderly one never does, and no handle is released
   * twice by one stop.
   */
  lemma StopCallsFacts(force: bool, engine: Handle, event: Handle, unsubscribe: bool, engineClose: bool)
    ensures StopCalls(force, None, None, unsubscribe, engineClose) == []
    ensures var c := StopCalls(force, engine, event, unsubscribe, engineClose);
            |c| <= 2 &&
            (forall i | 0 <= i < |c| :: c[i].CloseHandle? <==> force) &&
            (engine.None? ==> forall i | 0 <= i < |c| :: c[i].CloseHandle? && Some(c[i].h) == event)
  {
  }

  // ------------------------------------------------- fw_monitor_subscribe

  datatype SubscribeOutcome = SubscribeOutcome(ok: bool, errno: int, called: seq<nat>)

  /**
   * The `SET_API_CALLBACK(n)` steps from `n` down to 0: at the chosen level
   * a present entry point is called and its success ends the walk; at or
   * below it an absent entry point fails with `ERROR_BAD_COMMAND`.
   */
  function Walk(n: int, level: int, present: seq<bool>, result: nat -> int, errno: int, called: seq<nat>): SubscribeOutcome
    requires -1 <= n <= 4 && |present| == 5
    decreases n + 1
  {
    if n < 0 then SubscribeOutcome(false, errno, called)
    else
      var tried := level == n && present[n];
      var errno' := if tried then result(n) else errno;
      var called' := if tried then called + [n] else called;
      if tried && errno' == ERROR_SUCCESS then SubscribeOutcome(true, errno', called')
      else if level >= n && !present[n] then SubscribeOutcome(false, ERROR_BAD_COMMAND, called')
      else Walk(n - 1, level, present, result, errno', called')
  }

  /** `fw_monitor_subscribe` for `fw_api == level`. */
  function Subscribe(level: int, present: seq<bool>, result: nat -> int): SubscribeOutcome
    requires |present| == 5
  {
    if level < FW_API_LOW || level > FW_API_HIGH then SubscribeOutcome(false, ERROR_INVALID_DATA, [])
    else Walk(4, level, present, result, ERROR_SUCCESS, [])
  }

  /** Every entry point below `n + 1` is present. */
  predicate PresentUpTo(present: seq<bool>, n: int)
    requires |present| == 5 && n <= 4
  {
    forall i | 0 <= i <= n :: present[i]
  }

  /** The decision stated directly, with no walk. */
  function SubscribeSpec(level: int, present: seq<bool>, result: nat -> int): SubscribeOutcome
    requires |present| == 5
  {
    if level < FW_API_LOW || level > FW_API_HIGH then SubscribeOutcome(false, ERROR_INVALID_DATA, [])
    else if !present[level] then SubscribeOutcome(false, ERROR_BAD_COMMAND, [])
    else if result(level) == ERROR_SUCCESS then SubscribeOutcome(true, ERROR_SUCCESS, [level])
    else if PresentUpTo(present, level - 1) then SubscribeOutcome(false, result(level), [level])
    else SubscribeOutcome(false, ERROR_BAD_COMMAND, [level])
  }

  /** Steps above the chosen level do nothing. */
  lemma {:induction false} WalkAbove(n: int, level: int, present: seq<bool>, result: nat -> int, errno: int, called: seq<nat>)
    requires 0 <= level <= n <= 4 && |present| == 5
    ensures Walk(n, level, present, result, errno, called) == Walk(level, level, present, result, errno, called)
    decreases n
  {
    if n > level {
      WalkAbove(n - 1, level, present, result, errno, called);
    }
  }

  /** Steps below the chosen level only look for an absent entry point. */
  lemma {:induction false} WalkBelow(n: int, level: int, present: seq<bool>, result: nat -> int, errno: int, called: seq<nat>)
    requires -1 <= n < level <= 4 && |present| == 5
    ensures Walk(n, level, present, result, errno, called) ==
            if PresentUpTo(present, n) then SubscribeOutcome(false, errno, called)
            else SubscribeOutcome(false, ERROR_BAD_COMMAND, called)
    decreases n + 1
  {
    if n >= 0 {
      WalkBelow(n - 1, level, present, result, errno, called);
      if PresentUpTo(present, n - 1) && present[n] {
        assert PresentUpTo(present, n);
      }
    }
  }

  /** The walk decides exactly what `SubscribeSpec` states. */
  lemma SubscribeMeetsSpec(level: int, present: seq<bool>, result: nat -> int)
    requires |present| == 5
    ensures Subscribe(level, present, result) == SubscribeSpec(level, present, result)
  {
    if FW_API_LOW <= level <= FW_API_HIGH {
      WalkAbove(4, level, present, result, ERROR_SUCCESS, []);
      if present[level] && result(level) != ERROR_SUCCESS {
        WalkBelow(level - 1, level, present, result, result(level), [level]);
      }
    }
  }

  /**
   * The subscribe rules: an illegal level calls nothing; only the entry
   * point for exactly `level` is ever called; success holds iff it is
   * present and returns `ERROR_SUCCESS`; an absent one fails with
   * `ERROR_BAD_COMMAND`; and a failing call's error is replaced by
   * `ERROR_BAD_COMMAND` when a lower level's entry point is absent.
   */
  lemma SubscribeRules(level: int, present: seq<bool>, result: nat -> int)
    requires |present| == 5
    ensures var r := Subscribe(level, present, result);
      && ((level < FW_API_LOW || level > FW_API_HIGH) ==> r == SubscribeOutcome(false, ERROR_INVALID_DATA, []))
      && (r.called == [] || r.called == [level])
      && (r.ok <==> FW_API_LOW <= level <= FW_API_HIGH && present[level] && result(level) == ERROR_SUCCESS)
      && (FW_API_LOW <= level <= FW_API_HIGH && !present[level] ==> !r.ok && r.errno == ERROR_BAD_COMMAND && r.called == [])
      && (FW_API_LOW <= level <= FW_API_HIGH && present[level] && result(level) != ERROR_SUCCESS ==>
            r.called == [level] &&
            (r.errno == ERROR_BAD_COMMAND <==> result(level) == ERROR_BAD_COMMAND || exists i | 0 <= i < level :: !present[i]))
  {
    SubscribeMeetsSpec(level, present, result);
  }

  /** The code never steps down: with the chosen level absent, a present lower level is not tried. */
  lemma NoFallback(present: seq<bool>, result: nat -> int)
    requires |present| == 5 && !present[3] && present[2] && result(2) == ERROR_SUCCESS
    ensures !Subscribe(3, present, result).ok && Subscribe(3, present, result).called == []
  {
    SubscribeMeetsSpec(3, present, result);
  }
}
