/** Mirroring an app's settings into the parameter store, through the host's parameter setter and its change hook. */
module Settings {
  import opened Chars

  /** Parameters before the first setting. */
  const BASE: nat := 12

  /** One call of the parameter setter that took effect: plug-in index and value. */
  datatype Call = Call(param: nat, value: int)

  /** The app's `apply_value` hook, if it has one: what a setting holds after a value is applied to it. */
  datatype Hook = NoHook | Hook(apply: (nat, int) -> int)
  {
    function After(s: nat, before: int, value: int): int {
      match this
      case NoHook => before
      case Hook(f) => f(s, value)
    }
  }

  class App {
    /** The parameter store, plug-in relative. */
    var v: seq<int>
    var settings: seq<int>
    var alive: bool
    /** Whether the app is the algorithm the host runs. */
    var registered: bool
    /** Width of the common parameters the firmware puts first. */
    var parameterOffset: nat
    /** The setter's log. */
    var calls: seq<Call>

    const hook: Hook

    ghost predicate Valid()
      reads this
    {
      |v| == BASE + |settings| && |v| < TWO_31 && parameterOffset < TWO_32
    }

    constructor (store: seq<int>, values: seq<int>, offset: nat, applyValue: Hook)
      requires |store| == BASE + |values| && |store| < TWO_31 && offset < TWO_32
      ensures Valid() && v == store && settings == values && parameterOffset == offset && hook == applyValue
      ensures !alive && !registered && calls == []
    {
      v, settings, parameterOffset, hook := store, values, offset, applyValue;
      alive, registered, calls := false, false, [];
    }

    /** `NT_algorithmIndex` */
    function AlgorithmIndex(): int
      reads this
    {
      if registered then 0 else -1
    }

    /** `parameterChanged`: re-applies a stored setting to the app. */
    method ParameterChanged(idx: int)
      requires Valid()
      modifies this`settings
      ensures Valid()
      ensures settings == if alive && BASE <= idx < |v| then old(settings)[idx - BASE := hook.After(idx - BASE, old(settings)[idx - BASE], v[idx])] else old(settings)
      ensures alive && BASE <= idx < |v| ==>
        match hook
        case NoHook => settings == old(settings)
        case Hook(apply) => settings == old(settings)[idx - BASE := apply(idx - BASE, v[idx])]
    {
      if !alive || idx < 0 || idx < BASE {
        return;
      }
      var s := idx - BASE;
      if s >= |settings| {
        return;
      }
      if hook.NoHook? {
        return;
      }
      settings := settings[s := hook.apply(s, v[idx])];
    }

    /** `NT_setParameterFromUi` */
    method SetParameterFromUi(algorithmIndex: int, parameter: nat, value: int)
      requires Valid() && parameter < TWO_32
      modifies this`v, this`settings, this`calls
      ensures Valid()
      ensures var idx := ToInt32(parameter - parameterOffset);
        if algorithmIndex == 0 && registered && 0 <= idx < |old(v)| then
          && v == old(v)[idx := value]
          && calls == old(calls) + [Call(idx, value)]
          && settings == if alive && idx >= BASE then old(settings)[idx - BASE := hook.After(idx - BASE, old(settings)[idx - BASE], value)] else old(settings)
        else v == old(v) && calls == old(calls) && settings == old(settings)
    {
      if algorithmIndex != 0 || !registered {
        return;
      }
      var paramIdx := ToInt32(parameter - parameterOffset);
      if paramIdx < 0 || paramIdx >= |v| {
        return;
      }
      v := v[paramIdx := value];
      calls := calls + [Call(paramIdx, value)];
      ParameterChanged(paramIdx);
    }

    /** `push_settings_to_params` */
    method PushSettings()
      requires Valid()
      modifies this`v, this`settings, this`calls
      ensures Valid()
      ensures if alive && registered then
          && v == PushedStore(old(v), old(settings), |old(settings)|)
          && settings == PushedSettings(old(v), old(settings), hook, |old(settings)|)
          && calls == old(calls) + PushCalls(old(v), old(settings), |old(settings)|)
        else v == old(v) && settings == old(settings) && calls == old(calls)
    {
      if !alive {
        return;
      }
      var idx := AlgorithmIndex();
      if idx < 0 {
        return;
      }
      var n := |settings|;
      ghost var v0, s0 := v, settings;
      assert old(calls) + [] == old(calls);
      for s := 0 to n
        invariant Valid() && |settings| == n
        invariant v == PushedStore(v0, s0, s) && settings == PushedSettings(v0, s0, hook, s)
        invariant calls == old(calls) + PushCalls(v0, s0, s)
      {
        PushedSoFar(v0, s0, hook, s);
        var value := settings[s];
        if v[BASE + s] != ToInt16(value) {
          OffsetCancels(BASE + s, parameterOffset);
          SetParameterFromUi(idx, (BASE + s + parameterOffset) % TWO_32, ToInt16(value));
        }
      }
    }
  }

  /** The offset added for the push is the one the setter takes off, whatever its size. */
  lemma OffsetCancels(param: nat, offset: nat)
    requires param < TWO_31
    ensures ToInt32((param + offset) % TWO_32 - offset) == param
  {
    var p := (param + offset) % TWO_32;
    assert (param + offset) == TWO_32 * ((param + offset) / TWO_32) + p;
    var n := p - offset;
    assert n == param - TWO_32 * ((param + offset) / TWO_32);
    SameResidue(n, param, (param + offset) / TWO_32);
  }

  lemma SameResidue(n: int, m: int, k: int)
    requires n == m - TWO_32 * k && 0 <= m < TWO_31
    ensures ToInt32(n) == m
  {
    assert n + TWO_31 == (m + TWO_31) + TWO_32 * (0 - k);
  }

  // ---- What the loop has done after s settings --------------------------------------------------

  /** A setting the store does not show. */
  predicate Diverged(v: seq<int>, settings: seq<int>, s: nat)
    requires |v| == BASE + |settings| && s < |settings|
  {
    v[BASE + s] != ToInt16(settings[s])
  }

  function PushedStore(v: seq<int>, settings: seq<int>, s: nat): (r: seq<int>)
    requires |v| == BASE + |settings| && s <= |settings|
    ensures |r| == |v|
  {
    if s == 0 then v
    else if Diverged(v, settings, s - 1) then PushedStore(v, settings, s - 1)[BASE + s - 1 := ToInt16(settings[s - 1])]
    else PushedStore(v, settings, s - 1)
  }

  function PushedSettings(v: seq<int>, settings: seq<int>, hook: Hook, s: nat): (r: seq<int>)
    requires |v| == BASE + |settings| && s <= |settings|
    ensures |r| == |settings|
  {
    if s == 0 then settings
    else if Diverged(v, settings, s - 1) then
      PushedSettings(v, settings, hook, s - 1)[s - 1 := hook.After(s - 1, settings[s - 1], ToInt16(settings[s - 1]))]
    else PushedSettings(v, settings, hook, s - 1)
  }

  function PushCalls(v: seq<int>, settings: seq<int>, s: nat): seq<Call>
    requires |v| == BASE + |settings| && s <= |settings|
  {
    if s == 0 then []
    else if Diverged(v, settings, s - 1) then PushCalls(v, settings, s - 1) + [Call(BASE + s - 1, ToInt16(settings[s - 1]))]
    else PushCalls(v, settings, s - 1)
  }

  /** After s settings: theirs are in the store, nothing else has changed there, and a setting holds what applying its
      pushed value gives if it had diverged, and is untouched otherwise. */
  lemma {:induction false} PushedSoFar(v: seq<int>, settings: seq<int>, hook: Hook, s: nat)
    requires |v| == BASE + |settings| && s <= |settings|
    ensures forall p :: 0 <= p < |v| ==>
      (PushedStore(v, settings, s)[p] == if BASE <= p < BASE + s then ToInt16(settings[p - BASE]) else v[p])
    ensures forall k :: 0 <= k < |settings| ==>
      (PushedSettings(v, settings, hook, s)[k]
       == if k < s && Diverged(v, settings, k) then hook.After(k, settings[k], ToInt16(settings[k])) else settings[k])
    decreases s
  {
    hide ToInt16;
    if s > 0 {
      PushedSoFar(v, settings, hook, s - 1);
    }
  }

  /** The setter is called exactly for the settings that had diverged, once each and in order. */
  lemma {:induction false} CallsAreDiverged(v: seq<int>, settings: seq<int>, s: nat)
    requires |v| == BASE + |settings| && s <= |settings|
    ensures forall c :: c in PushCalls(v, settings, s) <==>
      BASE <= c.param < BASE + s && v[c.param] != ToInt16(settings[c.param - BASE]) && c.value == ToInt16(settings[c.param - BASE])
    ensures forall i, j :: 0 <= i < j < |PushCalls(v, settings, s)| ==>
      PushCalls(v, settings, s)[i].param < PushCalls(v, settings, s)[j].param
    decreases s
  {
    if s > 0 {
      hide ToInt16;
      CallsAreDiverged(v, settings, s - 1);
      var before := PushCalls(v, settings, s - 1);
      assert forall i :: 0 <= i < |before| ==> before[i] in before;
    }
  }

  /** A push that has been made is visible: the store shows each setting, everything before the settings is as it was. */
  lemma PushMirrorsSettings(v: seq<int>, settings: seq<int>)
    requires |v| == BASE + |settings|
    ensures var r := PushedStore(v, settings, |settings|);
      r[..BASE] == v[..BASE] && forall s :: 0 <= s < |settings| ==> r[BASE + s] == ToInt16(settings[s])
  {
    hide ToInt16, PushedStore;
    PushedSoFar(v, settings, NoHook, |settings|);
  }

  lemma QuietIff(v: seq<int>, settings: seq<int>)
    requires |v| == BASE + |settings|
    ensures PushCalls(v, settings, |settings|) == [] <==> forall s :: 0 <= s < |settings| ==> !Diverged(v, settings, s)
  {
    hide ToInt16, PushCalls;
    CallsAreDiverged(v, settings, |settings|);
    var calls := PushCalls(v, settings, |settings|);
    if calls != [] {
      assert calls[0] in calls && Diverged(v, settings, calls[0].param - BASE);
    } else {
      forall s | 0 <= s < |settings| ensures !Diverged(v, settings, s) {
        assert Call(BASE + s, ToInt16(settings[s])) !in calls;
      }
    }
  }

  /** After a push only settings can diverge whose re-applied value came out different. */
  lemma DivergedAfterPush(v: seq<int>, settings: seq<int>, hook: Hook, s: nat)
    requires |v| == BASE + |settings| && s < |settings|
    ensures var n := |settings|;
      Diverged(PushedStore(v, settings, n), PushedSettings(v, settings, hook, n), s) <==>
      Diverged(v, settings, s) && ToInt16(hook.After(s, settings[s], ToInt16(settings[s]))) != ToInt16(settings[s])
  {
    hide ToInt16, PushedStore, PushedSettings;
    PushedSoFar(v, settings, hook, |settings|);
  }

  /** A second push makes no calls exactly when each diverged setting kept its value, as 16 bits, when it was re-applied. */
  lemma SecondPushIsQuiet(v: seq<int>, settings: seq<int>, hook: Hook)
    requires |v| == BASE + |settings|
    ensures var n := |settings|;
      PushCalls(PushedStore(v, settings, n), PushedSettings(v, settings, hook, n), n) == [] <==>
      forall s :: 0 <= s < n && Diverged(v, settings, s) ==> ToInt16(hook.After(s, settings[s], ToInt16(settings[s]))) == ToInt16(settings[s])
  {
    hide PushCalls, PushedStore, PushedSettings, ToInt16, Diverged;
    var n := |settings|;
    QuietIff(PushedStore(v, settings, n), PushedSettings(v, settings, hook, n));
    forall s | 0 <= s < n
      ensures Diverged(PushedStore(v, settings, n), PushedSettings(v, settings, hook, n), s) <==>
              Diverged(v, settings, s) && ToInt16(hook.After(s, settings[s], ToInt16(settings[s]))) != ToInt16(settings[s])
    {
      DivergedAfterPush(v, settings, hook, s);
    }
  }

  /** Where re-applying a 16-bit value in range leaves it, two pushes in a row leave the settings as they were and the
      second makes no calls. */
  method PushTwice(app: App) returns (ghost first: seq<Call>)
    requires app.Valid() && app.alive && app.registered
    requires forall s :: 0 <= s < |app.settings| ==>
      ToInt16(app.settings[s]) == app.settings[s] && app.hook.After(s, app.settings[s], app.settings[s]) == app.settings[s]
    modifies app
    ensures app.settings == old(app.settings)
    ensures app.v == old(app.v)[..BASE] + old(app.settings)
    ensures app.calls == old(app.calls) + first
    ensures forall c :: c in first ==> BASE <= c.param < |old(app.v)| && c.value == old(app.settings)[c.param - BASE]
                                       && c.value != old(app.v)[c.param]
  {
    hide PushCalls, PushedStore, PushedSettings;
    ghost var v, settings := app.v, app.settings;
    first := PushCalls(v, settings, |settings|);
    PushedSoFar(v, settings, app.hook, |settings|);
    CallsAreDiverged(v, settings, |settings|);
    SecondPushIsQuiet(v, settings, app.hook);
    app.PushSettings();
    assert app.settings == settings;
    assert app.v == v[..BASE] + settings;
    PushedSoFar(app.v, app.settings, app.hook, |settings|);
    app.PushSettings();
    assert old(app.calls) + first + [] == old(app.calls) + first;
    assert app.v == v[..BASE] + settings;
    assert app.settings == settings;
  }
}
