/**
 * The mixer's control state and procedures: one pass of the mixing loop
 * (controls, network input, resolver, change detection, send order, mode
 * changes, network output, housekeeping), the mode action and keyer
 * upload, reconciliation with the processor, source supervision and the
 * link-failure back-off, the processor conform script, and the menu
 * handlers that change the processor or the mixer state.
 */
module MixController {
  import opened FadeMath
  import opened TVOneCodes
  import opened TVOneDevice
  import opened MenuRules
  import Settings

  /** The processor firmware version that has output additive mixing. */
  const AdditiveFirmware: int := 423

  const ConformAttempts: int := 3
  const ConformBackoffMs: int := 500

  const AdditiveRegister: Register := Register(0, WindowA, AdditiveMixing)
  const KeyerEnableRegister: Register := Register(0, WindowA, KeyerEnable)

  function FadeRegister(window: int): Register { Register(0, window, WindowsMaxFadeLevel) }
  function SourceRegister(window: int): Register { Register(0, window, WindowsWindowSource) }

  /** A log that extends one that extends `a` extends `a`. */
  lemma PrefixChain<T>(a: seq<T>, b: seq<T>, c: seq<T>)
    requires |a| <= |b| && b[..|a|] == a && |b| <= |c| && c[..|b|] == b
    ensures |a| <= |c| && c[..|a|] == a
  {
    assert c[..|a|] == c[..|b|][..|a|];
  }

  predicate Holds(registers: map<Register, int>, g: Register, v: int)
  {
    g in registers && registers[g] == v
  }

  datatype SourceView = Live | Hold | Logo
  datatype SourcesSeen = NotRead | Seen(left: SourceView, right: SourceView)

  /** Status messages posted for the operator. */
  datatype Notice =
    | Sources(seen: SourcesSeen)
    | ResettingLink
    | MixModeSent(ok: bool, mixMode: int)
    | HDCPSent(ok: bool, on: bool)
    | EDIDSent(ok: bool, passthrough: bool)
    | AspectSent(ok: bool, aspect: int)
    | ResolutionSent(ok: bool, resolution: int, edidSlot: int)

  /** Values sent to the network. */
  datatype NetOut = OscOut(xFade: real, fadeUp: real) | ArtNetOut(xFadeDMX: int, fadeUpDMX: int) | DmxOut(xFadeDMX: int, fadeUpDMX: int)

  /** What one pass of the loop did, in order: a mode action or a fade level sent to a window. */
  datatype MixEvent = ModeAction | FadePush(window: int, percent: int)

  /** What the network delivered this pass. */
  datatype Inbound = Inbound(oscNew: bool, osc: OscReading, dmxXFade: int, dmxFadeUp: int)

  // ---------------------------------------------------------------------
  // Keyer upload

  const KeyerCodes: seq<int> := [KeyerMinY, KeyerMaxY, KeyerMinU, KeyerMaxU, KeyerMinV, KeyerMaxV]

  /** The six writes that upload a keyer set, in parameter order. */
  function KeyerScript(params: seq<int>): (script: seq<Request>)
    requires |params| == Settings.KeyerParamCount
    ensures |script| == Settings.KeyerParamCount
    ensures forall i :: 0 <= i < |script| ==> script[i] == Write(Setting(0, WindowA, KeyerCodes[i], params[i]))
  {
    seq(6, i requires 0 <= i < 6 => Write(Setting(0, WindowA, KeyerCodes[i], params[i])))
  }

  /** Every keyer range opened fully: each lower bound 0, each upper bound 255. */
  const OpenRanges: seq<int> := [0, 255, 0, 255, 0, 255]

  predicate KeyerHolds(registers: map<Register, int>, params: seq<int>)
    requires |params| == Settings.KeyerParamCount
  {
    forall i :: 0 <= i < Settings.KeyerParamCount ==> Holds(registers, Register(0, WindowA, KeyerCodes[i]), params[i])
  }

  /** A complete keyer upload leaves every keyer register holding its parameter. */
  lemma KeyerUploadHolds(registers: map<Register, int>, params: seq<int>)
    requires |params| == Settings.KeyerParamCount
    ensures KeyerHolds(ApplyAll(registers, KeyerScript(params)), params)
  {
    var script := KeyerScript(params);
    forall i | 0 <= i < Settings.KeyerParamCount
      ensures Holds(ApplyAll(registers, script), Register(0, WindowA, KeyerCodes[i]), params[i])
    {
      ApplyAllLastWins(registers, script, i);
    }
  }

  // ---------------------------------------------------------------------
  // Mode action and reconciliation

  /** The processor's additive flag wanted for a mix mode. */
  function WantAdditive(mixMode: int): (on: int)
    ensures on == 1 <==> mixMode == MixAdditive
    ensures on == 0 || on == 1
  {
    if mixMode == MixAdditive then 1 else 0
  }

  /** The processor's keyer flag wanted for a mix mode. */
  function WantKeyer(mixMode: int): (on: int)
    ensures on == 1 <==> mixMode >= MixKey
    ensures on == 0 || on == 1
  {
    if mixMode >= MixKey then 1 else 0
  }

  /** A mix mode's two flags are never both on. */
  lemma FlagsExclusive(mixMode: int)
    ensures WantAdditive(mixMode) + WantKeyer(mixMode) <= 1
    ensures mixMode == MixBlend ==> WantAdditive(mixMode) == 0 && WantKeyer(mixMode) == 0
  {
  }

  /**
   * What an acknowledged mode action guarantees about the processor:
   * Blend and key modes have additive mixing off (where the firmware has
   * it), Additive has it on with B at its fade level, and key modes have
   * the keyer enabled.
   */
  predicate ModeApplied(registers: map<Register, int>, mixMode: int, version: int, fadeB: int)
  {
    (version == AdditiveFirmware && mixMode != MixAdditive && (mixMode == MixBlend || mixMode >= MixKey) ==> Holds(registers, AdditiveRegister, 0))
    && (mixMode == MixAdditive ==> Holds(registers, FadeRegister(WindowB), fadeB) && (version == AdditiveFirmware ==> Holds(registers, AdditiveRegister, 1)))
    && (mixMode >= MixKey ==> Holds(registers, KeyerEnableRegister, 1))
  }

  /**
   * The processor already matches the mixer: its mode flags are the wanted
   * ones (the additive flag only on the firmware that has it) and both fade
   * levels are the current percentages.
   */
  predicate InDesiredState(registers: map<Register, int>, mixMode: int, version: int, fadeA: int, fadeB: int): (matches: bool)
    ensures matches ==> FadeRegister(WindowA) in registers && registers[FadeRegister(WindowA)] == fadeA
    ensures matches ==> FadeRegister(WindowB) in registers && registers[FadeRegister(WindowB)] == fadeB
    ensures matches ==> KeyerEnableRegister in registers && registers[KeyerEnableRegister] == WantKeyer(mixMode)
  {
    (version == AdditiveFirmware ==> Holds(registers, AdditiveRegister, WantAdditive(mixMode)))
    && Holds(registers, KeyerEnableRegister, WantKeyer(mixMode))
    && Holds(registers, FadeRegister(WindowA), fadeA)
    && Holds(registers, FadeRegister(WindowB), fadeB)
  }

  // ---------------------------------------------------------------------
  // Link failure back-off

  /**
   * The command-period changes after the n-th consecutive failed source
   * check: lengthen by 200 ms at 5, reset at 6, lengthen by 1500 ms at
   * every multiple of 15 and reset one failure later (including the very
   * first failure).
   */
  function FailureRequests(n: int): (r: seq<Request>)
    ensures |r| <= 1
  {
    (if n == 5 then [PeriodsIncreased(200)] else [])
    + (if n == 6 then [PeriodsReset] else [])
    + (if n % 15 == 0 then [PeriodsIncreased(1500)] else [])
    + (if n % 15 == 1 then [PeriodsReset] else [])
  }

  /** The period changes of a source check: reset on success, the back-off step on failure. */
  function PeriodRequests(ok: bool, n: int): seq<Request>
  {
    if ok then [PeriodsReset] else FailureRequests(n)
  }

  /** The period changes over a run of k consecutive failures, the first of them the n-th. */
  function FailureRun(n: int, k: nat): seq<Request>
    decreases k
  {
    if k == 0 then [] else FailureRequests(n) + FailureRun(n + 1, k - 1)
  }

  predicate NoStackedIncreases(log: seq<Request>)
  {
    forall i :: 0 <= i < |log| - 1 && log[i].PeriodsIncreased? ==> log[i + 1] == PeriodsReset
  }

  /** Right after any lengthening, the next failure resets the periods. */
  lemma IncreaseThenReset(n: int)
    requires n >= 1
    ensures |FailureRequests(n)| == 1 && FailureRequests(n)[0].PeriodsIncreased? ==> FailureRequests(n + 1) == [PeriodsReset]
  {
  }

  /** The first failure after a success resets the periods. */
  lemma FirstFailureResets()
    ensures FailureRequests(1) == [PeriodsReset]
  {
  }

  /**
   * However long the link keeps failing, the periods are never lengthened
   * twice without a reset in between.
   */
  lemma {:induction false} FailureRunNeverStacks(n: int, k: nat)
    requires n >= 1
    ensures NoStackedIncreases(FailureRun(n, k))
    ensures k >= 1 && n % 15 == 1 ==> FailureRun(n, k)[0] == PeriodsReset
    decreases k
  {
    if k > 0 {
      FailureRunNeverStacks(n + 1, k - 1);
      var head := FailureRequests(n);
      var tail := FailureRun(n + 1, k - 1);
      assert FailureRun(n, k) == head + tail;
      if |head| == 1 && head[0].PeriodsIncreased? && k - 1 >= 1 {
        IncreaseThenReset(n);
        assert tail == FailureRequests(n + 1) + FailureRun(n + 2, k - 2);
        assert tail[0] == PeriodsReset;
      }
      forall i | 0 <= i < |head + tail| - 1 && (head + tail)[i].PeriodsIncreased?
        ensures (head + tail)[i + 1] == PeriodsReset
      {
        if i >= |head| {
          assert (head + tail)[i] == tail[i - |head|];
          assert (head + tail)[i + 1] == tail[i + 1 - |head|];
        }
      }
    }
  }

  /** "Resetting link" is posted exactly at every fifteenth consecutive failure. */
  function LinkNotices(ok: bool, n: int): (r: seq<Notice>)
    ensures r == [ResettingLink] <==> !ok && n % 15 == 0
    ensures r == [] <==> ok || n % 15 != 0
  {
    if !ok && n % 15 == 0 then [ResettingLink] else []
  }

  /** The detection report: live input, held last frame, or the logo when no input was ever seen. */
  function View(live: bool, latched: bool): (v: SourceView)
    ensures v == Hold ==> !live && latched
    ensures v == Live <==> live
  {
    if live then Live else if latched then Hold else Logo
  }

  // ---------------------------------------------------------------------
  // Conform script

  const Off: int := 0
  const On: int := 1

  /** The processor set-up sent by the conform action, in order. */
  const ConformScript: seq<Request> := [
    Write(Setting(0, WindowA, FunctionMode, 2)),
    Write(Setting(0, WindowA, OutputsOutputEnable, On)),
    Write(Setting(0, WindowA, OutputsLockMethod, Off)),
    Write(Setting(0, WindowA, WindowsEnable, On)),
    Write(Setting(0, WindowB, WindowsEnable, On)),
    Write(Setting(0, WindowA, WindowsLayerPriority, 0)),
    Write(Setting(0, WindowB, WindowsLayerPriority, 1)),
    Write(Setting(0, WindowA, WindowsWindowSource, SourceRGB2)),
    Write(Setting(0, WindowB, WindowsWindowSource, SourceRGB1)),
    Write(Setting(0, WindowA, WindowsZoomLevel, 100)),
    Write(Setting(0, WindowB, WindowsZoomLevel, 100)),
    Write(Setting(0, WindowA, WindowsShrinkEnable, Off)),
    Write(Setting(0, WindowB, WindowsShrinkEnable, Off)),
    Write(Setting(SourceRGB1, WindowA, SourceAspectCorrect, AspectFit)),
    Write(Setting(SourceRGB2, WindowA, SourceAspectCorrect, AspectFit)),
    Write(Setting(SourceSIS1, WindowA, SourceTestCard, 1)),
    Write(Setting(SourceSIS1, WindowA, SourceAspectCorrect, Aspect1to1)),
    Write(Setting(SourceSIS2, WindowA, SourceTestCard, 1)),
    Write(Setting(SourceSIS2, WindowA, SourceAspectCorrect, Aspect1to1)),
    Write(Setting(SourceRGB1, WindowA, SourceOnSourceLoss, 1)),
    Write(Setting(SourceRGB2, WindowA, SourceOnSourceLoss, 1)),
    ResolutionSet(ResolutionVGA, 5),
    Write(Setting(0, WindowA, WindowsMaxFadeLevel, 50)),
    Write(Setting(0, WindowB, WindowsMaxFadeLevel, 100)),
    HDCPSet(false)
  ]

  /** Save to preset 1 and to the power-on state; each write's outcome is ignored. */
  const PresetStores: seq<Request> := [
    Write(Setting(0, WindowA, FunctionPreset, 1)),
    Write(Setting(0, WindowA, FunctionPresetStore, 1)),
    Write(Setting(0, WindowA, FunctionPowerOnPresetStore, 1))
  ]

  /** The requests of failed attempts, each followed by a 500 ms lengthening of the command periods. */
  function FailedAttempts(attempts: seq<seq<Request>>): seq<Request>
    decreases |attempts|
  {
    if |attempts| == 0 then []
    else FailedAttempts(attempts[..|attempts| - 1]) + attempts[|attempts| - 1] + [PeriodsIncreased(ConformBackoffMs)]
  }

  /** The requests of all attempts: when the last one succeeded, no lengthening follows it. */
  function AttemptLog(attempts: seq<seq<Request>>, lastOk: bool): seq<Request>
  {
    if |attempts| == 0 then []
    else if lastOk then FailedAttempts(attempts[..|attempts| - 1]) + attempts[|attempts| - 1]
    else FailedAttempts(attempts)
  }

  /** Everything the conform action sends, given its attempts and outcome. */
  function ConformLog(attempts: seq<seq<Request>>, ok: bool): seq<Request>
  {
    AttemptLog(attempts, ok) + (if ok then PresetStores else []) + [PeriodsReset]
  }

  lemma ConformScriptActions()
    ensures forall i :: 0 <= i < |ConformScript| ==> Action(ConformScript[i])
  {
  }

  /**
   * The conform action's log always ends with a period reset, and the
   * presets are stored only after a fully acknowledged attempt.
   */
  lemma ConformLogShape(attempts: seq<seq<Request>>, ok: bool)
    ensures var log := ConformLog(attempts, ok);
      |log| >= 1 && log[|log| - 1] == PeriodsReset
    ensures ok ==> ConformLog(attempts, ok)[|AttemptLog(attempts, ok)|..] == PresetStores + [PeriodsReset]
    ensures !ok ==> ConformLog(attempts, ok)[|AttemptLog(attempts, ok)|..] == [PeriodsReset]
  {
  }

  // ---------------------------------------------------------------------
  // One pass of the loop

  /** The control values after network input: a new OSC message or the DMX input replaces the local ones. */
  function NetworkControls(commsMode: int, inbound: Inbound, local: Controls): (c: Controls)
    requires 0 <= inbound.dmxXFade <= 255 && 0 <= inbound.dmxFadeUp <= 255
    ensures commsMode != CommsOSC && commsMode != CommsDMXIn ==> c == local
    ensures commsMode == CommsOSC && !inbound.oscNew ==> c == local
    ensures commsMode == CommsDMXIn ==> c == DmxIn(inbound.dmxXFade, inbound.dmxFadeUp)
  {
    if commsMode == CommsOSC && inbound.oscNew then OscIn(inbound.osc, local)
    else if commsMode == CommsDMXIn then DmxIn(inbound.dmxXFade, inbound.dmxFadeUp)
    else local
  }

  /** The fade levels sent in one pass: the window with the higher new level first. */
  function Pushes(aChanged: bool, bChanged: bool, newA: int, newB: int): (e: seq<MixEvent>)
    ensures ModeAction !in e
  {
    (if aChanged && newA >= newB then [FadePush(WindowA, newA)] else [])
    + (if bChanged then [FadePush(WindowB, newB)] else [])
    + (if aChanged && newA < newB then [FadePush(WindowA, newA)] else [])
  }

  /** The processor writes fade pushes make: each window's fade level, in push order. */
  function FadeWrites(pushes: seq<MixEvent>): (w: seq<Request>)
    requires ModeAction !in pushes
    ensures |w| == |pushes|
    ensures forall k :: 0 <= k < |pushes| ==> w[k].Write? && w[k].setting.Target() == FadeRegister(pushes[k].window) && w[k].setting.payload == pushes[k].percent
  {
    seq(|pushes|, k requires 0 <= k < |pushes| => Write(Setting(0, pushes[k].window, WindowsMaxFadeLevel, pushes[k].percent)))
  }

  /**
   * The events of one pass, in order: a mode change leaving Additive acts
   * first, then the changed fade levels, and any other mode change acts
   * last.
   */
  function CycleEvents(modeChanged: bool, leavingAdditive: bool, aChanged: bool, bChanged: bool, newA: int, newB: int): seq<MixEvent>
  {
    (if modeChanged && leavingAdditive then [ModeAction] else [])
    + Pushes(aChanged, bChanged, newA, newB)
    + (if modeChanged && !leavingAdditive then [ModeAction] else [])
  }

  /** The mode action happens once in a pass exactly when the mode changed. */
  lemma CycleModeActionOnce(modeChanged: bool, leavingAdditive: bool, aChanged: bool, bChanged: bool, newA: int, newB: int)
    ensures multiset(CycleEvents(modeChanged, leavingAdditive, aChanged, bChanged, newA, newB))[ModeAction] == (if modeChanged then 1 else 0)
  {
    var pushes := Pushes(aChanged, bChanged, newA, newB);
    var pre: seq<MixEvent> := if modeChanged && leavingAdditive then [ModeAction] else [];
    var post: seq<MixEvent> := if modeChanged && !leavingAdditive then [ModeAction] else [];
    assert multiset(pushes)[ModeAction] == 0 by {
      assert ModeAction !in pushes;
    }
    assert multiset(pre)[ModeAction] + multiset(post)[ModeAction] == (if modeChanged then 1 else 0);
    CountOfThree(pre, pushes, post, ModeAction);
  }

  lemma CountOfThree(pre: seq<MixEvent>, mid: seq<MixEvent>, post: seq<MixEvent>, x: MixEvent)
    ensures multiset(pre + mid + post)[x] == multiset(pre)[x] + multiset(mid)[x] + multiset(post)[x]
  {
    assert multiset(pre + mid + post) == multiset(pre) + multiset(mid) + multiset(post);
  }

  /** A changed mode is actioned before the fade levels when leaving Additive, after them otherwise. */
  lemma CycleModeActionPlace(leavingAdditive: bool, aChanged: bool, bChanged: bool, newA: int, newB: int)
    ensures var e := CycleEvents(true, leavingAdditive, aChanged, bChanged, newA, newB);
      var pushes := Pushes(aChanged, bChanged, newA, newB);
      (leavingAdditive ==> e == [ModeAction] + pushes) && (!leavingAdditive ==> e == pushes + [ModeAction])
  {
  }

  /** Each window is sent at most once per pass, with its new level, and only when it changed. */
  lemma PushesOnce(aChanged: bool, bChanged: bool, newA: int, newB: int)
    ensures var e := Pushes(aChanged, bChanged, newA, newB);
      forall i, j :: 0 <= i < j < |e| ==> e[i].window != e[j].window
    ensures var e := Pushes(aChanged, bChanged, newA, newB);
      (FadePush(WindowA, newA) in e <==> aChanged) && (FadePush(WindowB, newB) in e <==> bChanged)
    ensures var e := Pushes(aChanged, bChanged, newA, newB);
      forall i :: 0 <= i < |e| ==> e[i] == FadePush(WindowA, newA) || e[i] == FadePush(WindowB, newB)
  {
  }

  /** When both windows change, A is sent before B exactly when its new level is at least B's. */
  lemma PushesHigherFirst(newA: int, newB: int)
    ensures var e := Pushes(true, true, newA, newB);
      |e| == 2
      && (newA >= newB ==> e == [FadePush(WindowA, newA), FadePush(WindowB, newB)])
      && (newA < newB ==> e == [FadePush(WindowB, newB), FadePush(WindowA, newA)])
  {
  }

  class Controller {
    const device: Processor
    const settings: Settings.SettingsStore

    var mixMode: int
    var mixModeOld: int
    var fadeCurve: real
    /** The selected entry of the mix-mode menu: 0 is the blend/crossfade entry, k >= 1 the k-th keyer set. */
    var mixMenuSelected: int

    var fadeAPercent: int
    var fadeBPercent: int
    var oldFadeAPercent: int
    var oldFadeBPercent: int

    var tapLeftWasFirstPressed: bool
    /** The keyer set last uploaded to the processor, -1 for none. */
    var keyerParamsSet: int

    var rgb1Stable: bool
    var rgb2Stable: bool
    var notOKCounter: int

    var commsMode: int
    var rj45Mode: int

    var edidPassthrough: bool
    var aspectHandling: int
    var hdcpState: int
    var currentHDCP: int
    var edidState: int
    var currentEDID: int
    var aspectState: int
    var keyActionCount: int
    var keyState: int

    var notices: seq<Notice>
    var outbox: seq<NetOut>
    ghost var trace: seq<MixEvent>

    /** The key mode's menu entry names an existing keyer set. */
    predicate KeySelectionValid()
      reads this, settings
    {
      mixMode >= MixKey ==> 0 <= mixMenuSelected - MixKeyStartIndex < |settings.keyerParamSets|
    }

    constructor (device: Processor, settings: Settings.SettingsStore)
      ensures this.device == device && this.settings == settings
      ensures mixMode == MixBlend && mixModeOld == MixBlend && fadeCurve == 0.0 && mixMenuSelected == 0
      ensures fadeAPercent == 0 && fadeBPercent == 0 && oldFadeAPercent == 0 && oldFadeBPercent == 0
      ensures !tapLeftWasFirstPressed && keyerParamsSet == -1 && !rgb1Stable && !rgb2Stable && notOKCounter == 0
      ensures commsMode == CommsNone && rj45Mode == -1
      ensures !edidPassthrough && aspectHandling == AspectFit
      ensures notices == [] && outbox == [] && trace == []
    {
      this.device := device;
      this.settings := settings;
      mixMode := MixBlend;
      mixModeOld := MixBlend;
      fadeCurve := 0.0;
      mixMenuSelected := 0;
      fadeAPercent := 0;
      fadeBPercent := 0;
      oldFadeAPercent := 0;
      oldFadeBPercent := 0;
      tapLeftWasFirstPressed := false;
      keyerParamsSet := -1;
      rgb1Stable := false;
      rgb2Stable := false;
      notOKCounter := 0;
      commsMode := CommsNone;
      rj45Mode := -1;
      edidPassthrough := false;
      aspectHandling := AspectFit;
      hdcpState := 0;
      currentHDCP := 0;
      edidState := 0;
      currentEDID := 0;
      aspectState := 0;
      keyActionCount := 0;
      keyState := 0;
      notices := [];
      outbox := [];
      trace := [];
    }

    /**
     * Upload keyer set `index` unless it is the one last uploaded. The
     * record of the last upload is updated even when the upload failed.
     */
    method SetKeyParamsTo(index: int) returns (ok: bool)
      requires settings.Valid() && 0 <= index < |settings.keyerParamSets|
      modifies this`keyerParamsSet, device`registers, device`requests
      ensures keyerParamsSet == index
      ensures old(keyerParamsSet) == index ==> ok && device.requests == old(device.requests) && device.registers == old(device.registers)
      ensures |device.requests| >= |old(device.requests)| && device.requests[..|old(device.requests)|] == old(device.requests)
      ensures old(keyerParamsSet) != index ==>
        ChainSent(device.requests[|old(device.requests)|..], KeyerScript(settings.keyerParamSets[index]), ok)
      ensures old(keyerParamsSet) != index && ok ==>
        device.registers == ApplyAll(old(device.registers), KeyerScript(settings.keyerParamSets[index]))
        && KeyerHolds(device.registers, settings.keyerParamSets[index])
    {
      if index != keyerParamsSet {
        var params := settings.KeyerParamSet(index);
        ok := device.CommandChain(KeyerScript(params));
        if ok {
          KeyerUploadHolds(old(device.registers), params);
        }
        keyerParamsSet := index;
      } else {
        ok := true;
      }
    }

    /**
     * Put the processor into the current mix mode. The keyer is switched
     * off first for Blend and Additive, whatever its outcome; the mode is
     * recorded as actioned even when a command failed.
     */
    method ActionMixMode() returns (ok: bool)
      requires settings.Valid() && KeySelectionValid()
      modifies this`mixModeOld, this`keyerParamsSet, this`notices, this`trace, device`registers, device`requests
      ensures mixModeOld == mixMode
      ensures notices == old(notices) + [MixModeSent(ok, mixMode)]
      ensures trace == old(trace) + [ModeAction]
      ensures |device.requests| > |old(device.requests)| && device.requests[..|old(device.requests)|] == old(device.requests)
      ensures mixMode < MixKey ==> device.requests[|old(device.requests)|] == Write(Setting(0, WindowA, KeyerEnable, 0))
      ensures ok ==> ModeApplied(device.registers, mixMode, device.version, fadeBPercent)
      ensures mixMode >= MixKey && ok && old(keyerParamsSet) != mixMenuSelected - MixKeyStartIndex ==>
        KeyerHolds(device.registers, settings.keyerParamSets[mixMenuSelected - MixKeyStartIndex])
      ensures keyerParamsSet == old(keyerParamsSet) || (mixMode >= MixKey && keyerParamsSet == mixMenuSelected - MixKeyStartIndex)
    {
      ok := true;
      if mixMode < MixKey {
        var _ := device.Command(0, WindowA, KeyerEnable, 0);
        if mixMode == MixBlend {
          if device.version == AdditiveFirmware {
            ok := device.Command(0, WindowA, AdditiveMixing, 0);
          }
        }
        if mixMode == MixAdditive {
          ok := device.Command(0, WindowB, WindowsMaxFadeLevel, fadeBPercent);
          if device.version == AdditiveFirmware && ok {
            ok := device.Command(0, WindowA, AdditiveMixing, 1);
          }
        }
      } else {
        ok := ActionKeyMode();
      }
      mixModeOld := mixMode;
      notices := notices + [MixModeSent(ok, mixMode)];
      trace := trace + [ModeAction];
    }

    /** The key-mode half of the mode action: additive mixing off, the keyer set uploaded, the keyer on. */
    method ActionKeyMode() returns (ok: bool)
      requires settings.Valid() && mixMode >= MixKey && KeySelectionValid()
      modifies this`keyerParamsSet, device`registers, device`requests
      ensures |device.requests| > |old(device.requests)| && device.requests[..|old(device.requests)|] == old(device.requests)
      ensures ok ==> Holds(device.registers, KeyerEnableRegister, 1)
      ensures ok && device.version == AdditiveFirmware ==> Holds(device.registers, AdditiveRegister, 0)
      ensures ok && old(keyerParamsSet) != mixMenuSelected - MixKeyStartIndex ==>
        KeyerHolds(device.registers, settings.keyerParamSets[mixMenuSelected - MixKeyStartIndex])
      ensures keyerParamsSet == old(keyerParamsSet) || keyerParamsSet == mixMenuSelected - MixKeyStartIndex
    {
      var index := mixMenuSelected - MixKeyStartIndex;
      ok := true;
      if device.version == AdditiveFirmware {
        ok := device.Command(0, WindowA, AdditiveMixing, 0);
      }
      ghost var additiveSet := device.registers;
      if ok {
        ok := SetKeyParamsTo(index);
        if ok && device.version == AdditiveFirmware && old(keyerParamsSet) != index {
          ApplyAllUntouchedKeyer(additiveSet, settings.keyerParamSets[index]);
        }
      }
      ghost var uploaded := device.registers;
      if ok {
        ok := device.Command(0, WindowA, KeyerEnable, 1);
        assert KeyerEnableRegister != AdditiveRegister;
        assert forall i :: 0 <= i < Settings.KeyerParamCount ==> Register(0, WindowA, KeyerCodes[i]) != KeyerEnableRegister;
      } else {
        var _ := 0;
      }
      if ok {
        assert device.registers == uploaded[KeyerEnableRegister := 1];
      }
    }

    /** The mode flags wanted for the current mix mode are those the processor holds. */
    predicate FlagsMatch(registers: map<Register, int>)
      reads this, device
    {
      (device.version == AdditiveFirmware ==> Holds(registers, AdditiveRegister, WantAdditive(mixMode)))
      && Holds(registers, KeyerEnableRegister, WantKeyer(mixMode))
    }

    /** Read back the mode flags; a mode action is needed when either differs from the mode's. */
    method ReadModeFlags() returns (ok: bool, needsAction: bool)
      modifies device`requests
      ensures ok ==> (needsAction <==> !FlagsMatch(device.registers))
      ensures |device.requests| > |old(device.requests)| && device.requests[..|old(device.requests)|] == old(device.requests)
      ensures forall i :: |old(device.requests)| <= i < |device.requests| ==> device.requests[i].Read?
    {
      ok := true;
      needsAction := false;
      var payload := 0;
      if device.version == AdditiveFirmware {
        payload := -1;
        ok, payload := device.ReadCommand(0, WindowA, AdditiveMixing, payload);
        if payload != WantAdditive(mixMode) {
          needsAction := true;
        }
      }
      payload := -1;
      if ok {
        ok, payload := device.ReadCommand(0, WindowA, KeyerEnable, payload);
      }
      if payload != WantKeyer(mixMode) {
        needsAction := true;
      }
    }

    /** Read back one window's fade level and rewrite it when it differs from the mixer's. */
    method ReconcileFade(window: int, percent: int) returns (ok: bool)
      modifies device`registers, device`requests
      ensures ok ==> Holds(device.registers, FadeRegister(window), percent)
      ensures device.registers == old(device.registers) || device.registers == old(device.registers)[FadeRegister(window) := percent]
      ensures Holds(old(device.registers), FadeRegister(window), percent) ==>
        device.registers == old(device.registers) && device.requests == old(device.requests) + [Read(FadeRegister(window))]
      ensures |device.requests| > |old(device.requests)| && device.requests[..|old(device.requests)|] == old(device.requests)
    {
      var payload := -1;
      ok, payload := device.ReadCommand(0, window, WindowsMaxFadeLevel, payload);
      if ok && payload != percent {
        ok := device.Command(0, window, WindowsMaxFadeLevel, percent);
      }
    }

    /**
     * Read back the mode flags and both fade levels and re-send what
     * differs: the mode action when a flag differs and every read succeeded,
     * a fade level when its read-back differs.
     */
    method CheckMixStatus() returns (ok: bool, ghost flagsRead: bool)
      requires settings.Valid() && KeySelectionValid()
      modifies this`mixModeOld, this`keyerParamsSet, this`notices, this`trace, device`registers, device`requests
      ensures ok ==> flagsRead
      ensures ok ==> Holds(device.registers, FadeRegister(WindowA), fadeAPercent) && Holds(device.registers, FadeRegister(WindowB), fadeBPercent)
      ensures trace == old(trace) + (if flagsRead && !old(FlagsMatch(device.registers)) then [ModeAction] else [])
      ensures flagsRead && !old(FlagsMatch(device.registers)) ==> mixModeOld == mixMode && |notices| == |old(notices)| + 1
      ensures !(flagsRead && !old(FlagsMatch(device.registers))) ==> mixModeOld == old(mixModeOld) && notices == old(notices)
      ensures old(FlagsMatch(device.registers)) ==> trace == old(trace) && mixModeOld == old(mixModeOld)
      ensures |device.requests| >= |old(device.requests)| && device.requests[..|old(device.requests)|] == old(device.requests)
      ensures old(InDesiredState(device.registers, mixMode, device.version, fadeAPercent, fadeBPercent)) ==>
        device.registers == old(device.registers)
        && (forall i :: |old(device.requests)| <= i < |device.requests| ==> device.requests[i].Read?)
        && mixModeOld == old(mixModeOld) && notices == old(notices) && trace == old(trace)
      ensures mixModeOld == old(mixModeOld) || mixModeOld == mixMode
    {
      ghost var desired := InDesiredState(device.registers, mixMode, device.version, fadeAPercent, fadeBPercent);
      ghost var before := device.requests;
      var needsAction;
      ok, needsAction := ReadModeFlags();
      flagsRead := ok;
      ghost var afterFlags := device.requests;
      if ok && needsAction {
        var _ := ActionMixMode();
      }
      ghost var beforeFades := device.requests;
      if ok {
        ok := ReconcileFade(WindowA, fadeAPercent);
      }
      ghost var afterA := device.requests;
      if ok {
        ok := ReconcileFade(WindowB, fadeBPercent);
        assert FadeRegister(WindowA) != FadeRegister(WindowB);
      }
      PrefixChain(before, afterFlags, beforeFades);
      PrefixChain(before, beforeFades, afterA);
      PrefixChain(before, afterA, device.requests);
      if desired {
        assert device.requests[..|afterFlags|] == afterFlags;
        assert device.requests[..|afterA|] == afterA;
      }
    }

    /** Read the two inputs' stability and the two windows' sources, stopping at the first failed read. */
    method ReadSources() returns (ok: bool, rgb1: bool, rgb2: bool, sourceA: int, sourceB: int)
      modifies device`requests
      ensures ok ==> Holds(device.registers, SourceRegister(WindowA), sourceA) && Holds(device.registers, SourceRegister(WindowB), sourceB)
      ensures ok ==> rgb1 == Holds(device.registers, Register(SourceRGB1, WindowA, SourceSourceStable), 1)
      ensures ok ==> rgb2 == Holds(device.registers, Register(SourceRGB2, WindowA, SourceSourceStable), 1)
      ensures |device.requests| > |old(device.requests)| && device.requests[..|old(device.requests)|] == old(device.requests)
    {
      var payload := 0;
      ok, payload := device.ReadCommand(SourceRGB1, WindowA, SourceSourceStable, payload);
      rgb1 := payload == 1;
      if ok {
        ok, payload := device.ReadCommand(SourceRGB2, WindowA, SourceSourceStable, payload);
      }
      rgb2 := payload == 1;
      if ok {
        ok, payload := device.ReadCommand(0, WindowA, WindowsWindowSource, payload);
      }
      sourceA := payload;
      if ok {
        ok, payload := device.ReadCommand(0, WindowB, WindowsWindowSource, payload);
      }
      sourceB := payload;
    }

    /**
     * Route one window: to its DVI input when the input is live, otherwise
     * to the internal test source, in each case only if it shows something
     * else.
     */
    method RouteInput(window: int, input: int, live: bool, current: int) returns (ok: bool)
      modifies device`registers, device`requests
      ensures var wanted := if live then input else SourceSIS2;
        (current == wanted ==> ok && device.requests == old(device.requests) && device.registers == old(device.registers))
        && (current != wanted ==> device.requests == old(device.requests) + [Write(Setting(0, window, WindowsWindowSource, wanted))])
        && (device.registers == old(device.registers) || device.registers == old(device.registers)[SourceRegister(window) := wanted])
      ensures ok && live && Holds(old(device.registers), SourceRegister(window), current) ==> Holds(device.registers, SourceRegister(window), input)
    {
      ok := true;
      if live && current != input {
        ok := device.Command(0, window, WindowsWindowSource, input);
      }
      if !live && current != SourceSIS2 {
        ok := device.Command(0, window, WindowsWindowSource, SourceSIS2);
      }
    }

    /**
     * After a source check: a success clears the failure count and resets
     * the command periods; a failure counts and applies the back-off step.
     */
    method LinkBackoff(ok: bool)
      modifies this`notOKCounter, this`notices, device`requests
      ensures notOKCounter == if ok then 0 else old(notOKCounter) + 1
      ensures device.requests == old(device.requests) + PeriodRequests(ok, notOKCounter)
      ensures notices == old(notices) + LinkNotices(ok, notOKCounter)
    {
      if ok {
        notOKCounter := 0;
        device.ResetCommandPeriods();
      } else {
        notOKCounter := notOKCounter + 1;
        if notOKCounter == 5 {
          device.IncreaseCommandPeriods(200);
        }
        if notOKCounter == 6 {
          device.ResetCommandPeriods();
        }
        if notOKCounter % 15 == 0 {
          notices := notices + [ResettingLink];
          device.IncreaseCommandPeriods(1500);
        }
        if notOKCounter % 15 == 1 {
          device.ResetCommandPeriods();
        }
      }
    }

    /**
     * Route each window whose input has not yet been latched, window B
     * (input 1) first; an input is latched once it is live and its window
     * was switched to it. Stops at the first failure.
     */
    method RouteUnlatched(rgb1: bool, rgb2: bool, sourceA: int, sourceB: int) returns (ok: bool)
      requires Holds(device.registers, SourceRegister(WindowA), sourceA) && Holds(device.registers, SourceRegister(WindowB), sourceB)
      modifies this`rgb1Stable, this`rgb2Stable, device`registers, device`requests
      ensures old(rgb1Stable) ==> rgb1Stable
      ensures old(rgb2Stable) ==> rgb2Stable
      ensures rgb1Stable && !old(rgb1Stable) ==> rgb1 && Holds(device.registers, SourceRegister(WindowB), SourceRGB1)
      ensures rgb2Stable && !old(rgb2Stable) ==> rgb2 && ok && Holds(device.registers, SourceRegister(WindowA), SourceRGB2)
      ensures |device.requests| >= |old(device.requests)| && device.requests[..|old(device.requests)|] == old(device.requests)
    {
      ok := true;
      if !rgb1Stable {
        ok := RouteInput(WindowB, SourceRGB1, rgb1, sourceB);
        if ok && rgb1 {
          rgb1Stable := true;
        }
      }
      if ok && !rgb2Stable {
        assert SourceRegister(WindowA) != SourceRegister(WindowB);
        ok := RouteInput(WindowA, SourceRGB2, rgb2, sourceA);
        if ok && rgb2 {
          rgb2Stable := true;
        }
      }
    }

    /**
     * Supervise the two DVI inputs. Until an input has been seen live, its
     * window shows the internal test source; the first time it is live and
     * its window is switched to it, the input is latched as stable for
     * good (the processor then holds its last frame). Then apply the
     * link-failure back-off.
     */
    method HandleSources() returns (ok: bool)
      modifies this`rgb1Stable, this`rgb2Stable, this`notOKCounter, this`notices, device`registers, device`requests
      ensures old(rgb1Stable) ==> rgb1Stable
      ensures old(rgb2Stable) ==> rgb2Stable
      ensures rgb1Stable && !old(rgb1Stable) ==> Holds(device.registers, SourceRegister(WindowB), SourceRGB1)
      ensures rgb2Stable && !old(rgb2Stable) ==> ok && Holds(device.registers, SourceRegister(WindowA), SourceRGB2)
      ensures notOKCounter == if ok then 0 else old(notOKCounter) + 1
      ensures |device.requests| >= |old(device.requests)| && device.requests[..|old(device.requests)|] == old(device.requests)
      ensures var tail := PeriodRequests(ok, notOKCounter);
        |device.requests| >= |tail| && device.requests[|device.requests| - |tail|..] == tail
      ensures |notices| >= |old(notices)| + 1 && notices[..|old(notices)|] == old(notices)
      ensures notices[|old(notices)|].Sources? && notices[|old(notices)| + 1..] == LinkNotices(ok, notOKCounter)
    {
      var rgb1, rgb2, sourceA, sourceB;
      ok, rgb1, rgb2, sourceA, sourceB := ReadSources();

      var seen := if ok then Seen(View(rgb2, rgb2Stable), View(rgb1, rgb1Stable)) else NotRead;
      notices := notices + [Sources(seen)];
      ghost var reported := notices;

      if ok {
        ok := RouteUnlatched(rgb1, rgb2, sourceA, sourceB);
      }
      ghost var routed := device.requests;
      LinkBackoff(ok);
      assert device.requests == routed + PeriodRequests(ok, notOKCounter);
      assert notices == reported + LinkNotices(ok, notOKCounter);
    }

    /**
     * Send the conform script, up to three times, lengthening the command
     * periods after each failed attempt; on success store the state as
     * preset 1 and as the power-on state; finally reset the periods.
     */
    method ConformProcessor() returns (ok: bool, ghost attempts: seq<seq<Request>>)
      modifies device`registers, device`requests
      ensures 1 <= |attempts| <= ConformAttempts
      ensures forall i :: 0 <= i < |attempts| - 1 ==> ChainSent(attempts[i], ConformScript, false)
      ensures ChainSent(attempts[|attempts| - 1], ConformScript, ok)
      ensures !ok ==> |attempts| == ConformAttempts
      ensures device.requests == old(device.requests) + ConformLog(attempts, ok)
    {
      ConformScriptActions();
      ok, attempts := ChainWithRetries(ConformScript);
      ghost var tried := device.requests;
      if ok {
        var _ := device.Command(0, WindowA, FunctionPreset, 1);
        var _ := device.Command(0, WindowA, FunctionPresetStore, 1);
        var _ := device.Command(0, WindowA, FunctionPowerOnPresetStore, 1);
      }
      assert device.requests == tried + (if ok then PresetStores else []);
      device.ResetCommandPeriods();
    }

    /** The conform loop: a chain sent up to three times, each failure followed by a 500 ms lengthening. */
    method ChainWithRetries(script: seq<Request>) returns (ok: bool, ghost attempts: seq<seq<Request>>)
      requires forall i :: 0 <= i < |script| ==> Action(script[i])
      modifies device`registers, device`requests
      ensures 1 <= |attempts| <= ConformAttempts
      ensures forall i :: 0 <= i < |attempts| - 1 ==> ChainSent(attempts[i], script, false)
      ensures ChainSent(attempts[|attempts| - 1], script, ok)
      ensures !ok ==> |attempts| == ConformAttempts
      ensures device.requests == old(device.requests) + AttemptLog(attempts, ok)
    {
      var i := 0;
      ok := false;
      attempts := [];
      while i < ConformAttempts
        invariant 0 <= i <= ConformAttempts
        invariant |attempts| == i
        invariant forall j :: 0 <= j < |attempts| ==> ChainSent(attempts[j], script, false)
        invariant device.requests == old(device.requests) + FailedAttempts(attempts)
      {
        ghost var before := device.requests;
        ok := device.CommandChain(script);
        ghost var sent := device.requests[|before|..];
        assert device.requests == before + sent;
        assert (attempts + [sent])[..|attempts|] == attempts;
        attempts := attempts + [sent];
        if ok {
          break;
        }
        device.IncreaseCommandPeriods(ConformBackoffMs);
        i := i + 1;
      }
    }

    /**
     * The control surface and network input of one pass: the tap buttons
     * and faders give the controls, which a new OSC message or the DMX
     * input then replaces; in DMX-out mode the controls are sent every pass.
     */
    method ReadControls(tapLeft: bool, tapRight: bool, xFadeAIN: real, fadeUpAIN: real, inbound: Inbound) returns (c: Controls)
      requires 0 <= inbound.dmxXFade <= 255 && 0 <= inbound.dmxFadeUp <= 255
      modifies this`tapLeftWasFirstPressed, this`outbox
      ensures var t := TapXFade(tapLeft, tapRight, old(tapLeftWasFirstPressed), xFadeAIN);
        tapLeftWasFirstPressed == t.leftWasFirstPressed
        && c == NetworkControls(commsMode, inbound, Controls(t.xFade, FadeUpFrom(fadeUpAIN)))
      ensures outbox == old(outbox) + (if commsMode == CommsDMXOut then [DmxOut(DmxOutValue(c.xFade), DmxOutValue(c.fadeUp))] else [])
    {
      var t := TapXFade(tapLeft, tapRight, tapLeftWasFirstPressed, xFadeAIN);
      tapLeftWasFirstPressed := t.leftWasFirstPressed;
      c := NetworkControls(commsMode, inbound, Controls(t.xFade, FadeUpFrom(fadeUpAIN)));
      if commsMode == CommsDMXOut {
        outbox := outbox + [DmxOut(DmxOutValue(c.xFade), DmxOutValue(c.fadeUp))];
      }
    }

    /** Send one window's fade level. */
    method SendFade(window: int, percent: int)
      modifies this`trace, device`registers, device`requests
      ensures trace == old(trace) + [FadePush(window, percent)]
      ensures device.requests == old(device.requests) + [Write(Setting(0, window, WindowsMaxFadeLevel, percent))]
    {
      var _ := device.Command(0, window, WindowsMaxFadeLevel, percent);
      trace := trace + [FadePush(window, percent)];
    }

    /**
     * Commit and send the changed fade levels, the window with the higher
     * new level first; each commit keeps the level it replaces.
     */
    method PushChanged(aChanged: bool, bChanged: bool, newA: int, newB: int)
      modifies this`fadeAPercent, this`fadeBPercent, this`oldFadeAPercent, this`oldFadeBPercent, this`trace, device`registers, device`requests
      ensures aChanged ==> fadeAPercent == newA && oldFadeAPercent == old(fadeAPercent)
      ensures !aChanged ==> fadeAPercent == old(fadeAPercent) && oldFadeAPercent == old(oldFadeAPercent)
      ensures bChanged ==> fadeBPercent == newB && oldFadeBPercent == old(fadeBPercent)
      ensures !bChanged ==> fadeBPercent == old(fadeBPercent) && oldFadeBPercent == old(oldFadeBPercent)
      ensures trace == old(trace) + Pushes(aChanged, bChanged, newA, newB)
      ensures device.requests == old(device.requests) + FadeWrites(Pushes(aChanged, bChanged, newA, newB))
    {
      if aChanged && newA >= newB {
        oldFadeAPercent := fadeAPercent;
        fadeAPercent := newA;
        SendFade(WindowA, fadeAPercent);
      }
      if bChanged {
        oldFadeBPercent := fadeBPercent;
        fadeBPercent := newB;
        SendFade(WindowB, fadeBPercent);
      }
      if aChanged && newA < newB {
        oldFadeAPercent := fadeAPercent;
        fadeAPercent := newA;
        SendFade(WindowA, fadeAPercent);
      }
    }

    /**
     * The mode action of a pass, guarded as the loop guards it: only a
     * changed mode is actioned, and before the fades only when leaving
     * Additive.
     */
    method ActionModeChange(beforeFades: bool)
      requires settings.Valid() && KeySelectionValid()
      modifies this`mixModeOld, this`keyerParamsSet, this`notices, this`trace, device`registers, device`requests
      ensures var acts := old(mixModeOld) != mixMode && (!beforeFades || old(mixModeOld) == MixAdditive);
        trace == old(trace) + (if acts then [ModeAction] else [])
        && mixModeOld == (if acts then mixMode else old(mixModeOld))
    {
      if mixMode != mixModeOld && (!beforeFades || mixModeOld == MixAdditive) {
        var _ := ActionMixMode();
      }
    }

    /**
     * Commit and send the changed window levels, and action a mode change:
     * before the fades when leaving Additive, after them otherwise.
     */
    method SendPercents(p: Percents) returns (updateFade: bool)
      requires settings.Valid() && KeySelectionValid()
      modifies this`fadeAPercent, this`fadeBPercent, this`oldFadeAPercent, this`oldFadeBPercent
      modifies this`mixModeOld, this`keyerParamsSet, this`notices, this`trace, device`registers, device`requests
      ensures var aChanged := FadeChanged(old(oldFadeAPercent), old(fadeAPercent), p.a);
        var bChanged := FadeChanged(old(oldFadeBPercent), old(fadeBPercent), p.b);
        (aChanged ==> fadeAPercent == p.a && oldFadeAPercent == old(fadeAPercent))
        && (!aChanged ==> fadeAPercent == old(fadeAPercent) && oldFadeAPercent == old(oldFadeAPercent))
        && (bChanged ==> fadeBPercent == p.b && oldFadeBPercent == old(fadeBPercent))
        && (!bChanged ==> fadeBPercent == old(fadeBPercent) && oldFadeBPercent == old(oldFadeBPercent))
        && updateFade == (aChanged || bChanged)
        && trace == old(trace) + CycleEvents(mixMode != old(mixModeOld), old(mixModeOld) == MixAdditive, aChanged, bChanged, p.a, p.b)
      ensures mixModeOld == mixMode
    {
      var aChanged := FadeChanged(oldFadeAPercent, fadeAPercent, p.a);
      var bChanged := FadeChanged(oldFadeBPercent, fadeBPercent, p.b);
      ActionModeChange(true);
      ghost var t0 := trace;
      PushChanged(aChanged, bChanged, p.a, p.b);
      updateFade := aChanged || bChanged;
      ghost var t1 := trace;
      ActionModeChange(false);
      ghost var pushes := Pushes(aChanged, bChanged, p.a, p.b);
      assert trace == old(trace) + (t0[|old(trace)|..] + pushes + trace[|t1|..]);
    }

    /** Send the controls to the network after a pass that changed a fade level. */
    method NetworkOut(updateFade: bool, c: Controls)
      modifies this`outbox
      ensures outbox == old(outbox) + (if !updateFade then []
        else if commsMode == CommsOSC then [OscOut(c.xFade, c.fadeUp)]
        else if commsMode == CommsArtNet then [ArtNetOut(DmxOutValue(c.xFade), DmxOutValue(c.fadeUp))]
        else if commsMode == CommsDMXOut then [DmxOut(DmxOutValue(c.xFade), DmxOutValue(c.fadeUp))]
        else [])
    {
      if commsMode == CommsOSC && updateFade {
        outbox := outbox + [OscOut(c.xFade, c.fadeUp)];
      }
      if commsMode == CommsArtNet && updateFade {
        outbox := outbox + [ArtNetOut(DmxOutValue(c.xFade), DmxOutValue(c.fadeUp))];
      }
      if commsMode == CommsDMXOut && updateFade {
        outbox := outbox + [DmxOut(DmxOutValue(c.xFade), DmxOutValue(c.fadeUp))];
      }
    }

    /** Controls and network input, resolve and send, network output. */
    method MixPass(tapLeft: bool, tapRight: bool, xFadeAIN: real, fadeUpAIN: real, inbound: Inbound)
      requires settings.Valid() && KeySelectionValid()
      requires 0 <= inbound.dmxXFade <= 255 && 0 <= inbound.dmxFadeUp <= 255
      requires var t := TapXFade(tapLeft, tapRight, tapLeftWasFirstPressed, xFadeAIN);
        var n := NetworkControls(commsMode, inbound, Controls(t.xFade, FadeUpFrom(fadeUpAIN)));
        LevelsDefined(mixMode, n.xFade, n.fadeUp)
      modifies this`tapLeftWasFirstPressed, this`fadeAPercent, this`fadeBPercent, this`oldFadeAPercent, this`oldFadeBPercent
      modifies this`mixModeOld, this`keyerParamsSet, this`notices, this`trace, this`outbox, device`registers, device`requests
      ensures mixModeOld == mixMode
    {
      var c := ReadControls(tapLeft, tapRight, xFadeAIN, fadeUpAIN, inbound);
      var updateFade := SendPercents(ResolvePercents(mixMode, c.xFade, c.fadeUp, fadeCurve));
      NetworkOut(updateFade, c);
    }

    /** Once the link has been idle long enough: supervise the sources, then reconcile the mix. */
    method Housekeeping()
      requires settings.Valid() && KeySelectionValid()
      modifies this`mixModeOld, this`keyerParamsSet, this`notices, this`trace, device`registers, device`requests
      modifies this`rgb1Stable, this`rgb2Stable, this`notOKCounter
      ensures old(rgb1Stable) ==> rgb1Stable
      ensures old(rgb2Stable) ==> rgb2Stable
      ensures mixModeOld == old(mixModeOld) || mixModeOld == mixMode
    {
      var _ := HandleSources();
      var _, _ := CheckMixStatus();
    }

    /**
     * One pass of the main loop: the mixing pass and, once the link has
     * been idle long enough, housekeeping. A pass leaves no mode change
     * un-actioned.
     */
    method LoopPass(tapLeft: bool, tapRight: bool, xFadeAIN: real, fadeUpAIN: real, inbound: Inbound, linkIdle: bool)
      requires settings.Valid() && KeySelectionValid()
      requires 0 <= inbound.dmxXFade <= 255 && 0 <= inbound.dmxFadeUp <= 255
      requires var t := TapXFade(tapLeft, tapRight, tapLeftWasFirstPressed, xFadeAIN);
        var n := NetworkControls(commsMode, inbound, Controls(t.xFade, FadeUpFrom(fadeUpAIN)));
        LevelsDefined(mixMode, n.xFade, n.fadeUp)
      modifies this`tapLeftWasFirstPressed, this`fadeAPercent, this`fadeBPercent, this`oldFadeAPercent, this`oldFadeBPercent
      modifies this`mixModeOld, this`keyerParamsSet, this`notices, this`trace, this`outbox, device`registers, device`requests
      modifies this`rgb1Stable, this`rgb2Stable, this`notOKCounter
      ensures mixModeOld == mixMode
      ensures old(rgb1Stable) ==> rgb1Stable
      ensures old(rgb2Stable) ==> rgb2Stable
      ensures !linkIdle ==> rgb1Stable == old(rgb1Stable) && rgb2Stable == old(rgb2Stable) && notOKCounter == old(notOKCounter)
    {
      MixPass(tapLeft, tapRight, xFadeAIN, fadeUpAIN, inbound);
      if linkIdle {
        Housekeeping();
      }
    }

    // -------------------------------------------------------------------
    // Menus

    /** The crossfade menu: the encoder moves the fade curve, which selects Blend or Additive. */
    method AdditiveMenuStep(change: int)
      modifies this`fadeCurve, this`mixMode
      ensures CurveChoice(fadeCurve, mixMode) == FadeCurveStep(old(fadeCurve), change)
      ensures InUnit(fadeCurve)
    {
      var r := FadeCurveStep(fadeCurve, change);
      fadeCurve := r.fadeCurve;
      mixMode := r.mixMode;
    }

    /**
     * Choose an entry of the mix-mode menu: entry 0 is Blend, entry k >= 1
     * is key mode k + 1 using keyer set k - 1. Choosing the active key mode
     * again opens the keyer editor.
     */
    method SelectMixModeItem(index: int)
      requires settings.Valid() && 0 <= index <= |settings.keyerParamSets|
      modifies this`mixMode, this`mixMenuSelected, this`keyActionCount, this`keyState
      modifies settings`editingKeyerSetIndex, settings`keyerParamSets, device`registers, device`requests
      ensures mixMenuSelected == index
      ensures mixMode == if index == 0 then MixBlend else index + 1
      ensures KeySelectionValid() && settings.Valid()
      ensures mixMode != old(mixModeOld) ==>
        (keyActionCount == old(keyActionCount) && keyState == old(keyState)
         && settings.keyerParamSets == old(settings.keyerParamSets) && device.requests == old(device.requests))
    {
      mixMenuSelected := index;
      mixMode := index;
      if mixMode >= MixKeyStartIndex {
        mixMode := mixMode + 1;
        if mixMode == mixModeOld {
          KeyMenuStep(0, false);
        }
      }
    }

    /**
     * The keyer editor, one encoder event at a time: choose Tweak, Start
     * Over (all ranges opened to 0..255) or Cancel, then edit max Y, min Y,
     * max U, min U, max V, min V in turn, each sent to the processor as it
     * changes, then return.
     */
    method KeyMenuStep(change: int, action: bool)
      requires settings.Valid()
      modifies this`keyActionCount, this`keyState, settings`editingKeyerSetIndex, settings`keyerParamSets, device`registers, device`requests
      ensures settings.Valid() && |settings.keyerParamSets| == old(|settings.keyerParamSets|)
      ensures old(keyActionCount) + (if action then 1 else 0) == 0 ==> keyState == Clamp(old(keyState) + change, 0, 2)
      ensures old(keyActionCount) + (if action then 1 else 0) == 1 && old(keyState) == 2 ==>
        keyActionCount == 0 && keyState == 0 && settings.editingKeyerSetIndex == -1
      ensures old(keyActionCount) + (if action then 1 else 0) == 1 && old(keyState) in {0, 1} ==>
        settings.editingKeyerSetIndex == mixMenuSelected - MixKeyStartIndex && keyActionCount == 2 && keyState == 0
      ensures old(keyActionCount) + (if action then 1 else 0) == 1 && old(keyState) == 0 && settings.EditingInRange() ==>
        var k := settings.editingKeyerSetIndex;
        var value := EditUpper(old(settings.keyerParamSets)[k][Settings.MaxY], change);
        settings.keyerParamSets == old(settings.keyerParamSets)[k := old(settings.keyerParamSets)[k][Settings.MaxY := value]]
        && device.requests == old(device.requests) + [Write(Setting(0, WindowA, KeyerMaxY, value))]
      ensures old(keyActionCount) + (if action then 1 else 0) == 1 && old(keyState) == 1 && settings.EditingInRange() ==>
        var k := settings.editingKeyerSetIndex;
        var value := EditUpper(OpenRanges[Settings.MaxY], change);
        settings.keyerParamSets == old(settings.keyerParamSets)[k := OpenRanges[Settings.MaxY := value]]
        && device.requests == old(device.requests) + KeyerScript(OpenRanges) + [Write(Setting(0, WindowA, KeyerMaxY, value))]
      ensures EditedInRange(keyActionCount)
    {
      if action {
        keyActionCount := keyActionCount + 1;
      }
      if keyActionCount == 0 {
        keyState := Clamp(keyState + change, 0, 2);
      }
      if keyActionCount == 1 {
        if keyState == 0 {
          settings.editingKeyerSetIndex := mixMenuSelected - MixKeyStartIndex;
          keyActionCount := keyActionCount + 1;
        } else if keyState == 1 {
          settings.editingKeyerSetIndex := mixMenuSelected - MixKeyStartIndex;
          StartOver();
          keyActionCount := keyActionCount + 1;
          keyState := 0;
        } else if keyState == 2 {
          settings.editingKeyerSetIndex := -1;
          keyActionCount := 0;
          keyState := 0;
          return;
        }
      }
      EditStep(change);
    }

    /**
     * After an edit step, the parameter just edited is in 0..255 (an upper
     * bound) or in 0..its upper bound (a lower bound).
     */
    predicate EditedInRange(count: int)
      reads this, settings
      requires settings.Valid()
    {
      settings.EditingInRange() ==>
        (count == 2 ==> 0 <= settings.EditingKeyerSetValue(Settings.MaxY) <= KeyerValueMax)
        && (count == 3 && 0 <= settings.EditingKeyerSetValue(Settings.MaxY) ==>
              0 <= settings.EditingKeyerSetValue(Settings.MinY) <= settings.EditingKeyerSetValue(Settings.MaxY))
        && (count == 4 ==> 0 <= settings.EditingKeyerSetValue(Settings.MaxU) <= KeyerValueMax)
        && (count == 5 && 0 <= settings.EditingKeyerSetValue(Settings.MaxU) ==>
              0 <= settings.EditingKeyerSetValue(Settings.MinU) <= settings.EditingKeyerSetValue(Settings.MaxU))
        && (count == 6 ==> 0 <= settings.EditingKeyerSetValue(Settings.MaxV) <= KeyerValueMax)
        && (count == 7 && 0 <= settings.EditingKeyerSetValue(Settings.MaxV) ==>
              0 <= settings.EditingKeyerSetValue(Settings.MinV) <= settings.EditingKeyerSetValue(Settings.MaxV))
    }

    /** Start Over: every range of the edited set opened to 0..255, stored and sent. */
    method StartOver()
      requires settings.Valid()
      modifies settings`keyerParamSets, device`registers, device`requests
      ensures settings.Valid() && |settings.keyerParamSets| == old(|settings.keyerParamSets|)
      ensures settings.EditingInRange() ==>
        settings.keyerParamSets == old(settings.keyerParamSets)[settings.editingKeyerSetIndex := OpenRanges]
      ensures !settings.EditingInRange() ==> settings.keyerParamSets == old(settings.keyerParamSets)
      ensures device.requests == old(device.requests) + KeyerScript(OpenRanges)
    {
      OpenEditedRanges();
      var _ := device.Command(0, WindowA, KeyerMinY, 0);
      var _ := device.Command(0, WindowA, KeyerMaxY, 255);
      var _ := device.Command(0, WindowA, KeyerMinU, 0);
      var _ := device.Command(0, WindowA, KeyerMaxU, 255);
      var _ := device.Command(0, WindowA, KeyerMinV, 0);
      var _ := device.Command(0, WindowA, KeyerMaxV, 255);
    }

    /** Store the open ranges in the set being edited. */
    method OpenEditedRanges()
      requires settings.Valid()
      modifies settings`keyerParamSets
      ensures settings.Valid() && |settings.keyerParamSets| == old(|settings.keyerParamSets|)
      ensures settings.EditingInRange() ==>
        settings.keyerParamSets == old(settings.keyerParamSets)[settings.editingKeyerSetIndex := OpenRanges]
      ensures !settings.EditingInRange() ==> settings.keyerParamSets == old(settings.keyerParamSets)
    {
      settings.SetEditingKeyerSetValue(Settings.MinY, 0);
      settings.SetEditingKeyerSetValue(Settings.MaxY, 255);
      settings.SetEditingKeyerSetValue(Settings.MinU, 0);
      settings.SetEditingKeyerSetValue(Settings.MaxU, 255);
      settings.SetEditingKeyerSetValue(Settings.MinV, 0);
      settings.SetEditingKeyerSetValue(Settings.MaxV, 255);
      if settings.EditingInRange() {
        var k := settings.editingKeyerSetIndex;
        assert |settings.keyerParamSets[k]| == 6;
        assert settings.keyerParamSets[k] == OpenRanges;
      }
    }

    /** The editing steps 2..7 and the return at 8. */
    method EditStep(change: int)
      requires settings.Valid()
      modifies this`keyActionCount, settings`keyerParamSets, device`registers, device`requests
      ensures settings.Valid() && |settings.keyerParamSets| == old(|settings.keyerParamSets|)
      ensures keyActionCount == if old(keyActionCount) == 8 then 0 else old(keyActionCount)
      ensures !(2 <= keyActionCount <= 7) ==> settings.keyerParamSets == old(settings.keyerParamSets) && device.requests == old(device.requests)
      ensures old(keyActionCount) == 2 ==>
        var value := EditUpper(old(settings.EditingKeyerSetValue(Settings.MaxY)), change);
        device.requests == old(device.requests) + [Write(Setting(0, WindowA, KeyerMaxY, value))]
        && (settings.EditingInRange() ==>
              var k := settings.editingKeyerSetIndex;
              settings.keyerParamSets == old(settings.keyerParamSets)[k := old(settings.keyerParamSets)[k][Settings.MaxY := value]])
      ensures EditedInRange(keyActionCount)
    {
      if keyActionCount == 2 {
        EditUpperStep(Settings.MaxY, KeyerMaxY, change);
      } else if keyActionCount == 3 {
        EditLowerStep(Settings.MinY, Settings.MaxY, KeyerMinY, change);
      } else if keyActionCount == 4 {
        EditUpperStep(Settings.MaxU, KeyerMaxU, change);
      } else if keyActionCount == 5 {
        EditLowerStep(Settings.MinU, Settings.MaxU, KeyerMinU, change);
      } else if keyActionCount == 6 {
        EditUpperStep(Settings.MaxV, KeyerMaxV, change);
      } else if keyActionCount == 7 {
        EditLowerStep(Settings.MinV, Settings.MaxV, KeyerMinV, change);
      } else if keyActionCount == 8 {
        keyActionCount := 0;
      }
    }

    /** Move an upper keyer bound by the encoder, store it and send it. */
    method EditUpperStep(parameter: int, code: int, change: int)
      requires settings.Valid() && 0 <= parameter < Settings.KeyerParamCount
      modifies settings`keyerParamSets, device`registers, device`requests
      ensures settings.Valid()
      ensures var value := EditUpper(old(settings.EditingKeyerSetValue(parameter)), change);
        device.requests == old(device.requests) + [Write(Setting(0, WindowA, code, value))]
        && (settings.EditingInRange() ==> settings.EditingKeyerSetValue(parameter) == value)
      ensures settings.EditingInRange() ==>
        var k := settings.editingKeyerSetIndex;
        settings.keyerParamSets == old(settings.keyerParamSets)[k := old(settings.keyerParamSets)[k][parameter := settings.EditingKeyerSetValue(parameter)]]
      ensures forall q :: 0 <= q < Settings.KeyerParamCount && q != parameter ==>
        settings.EditingKeyerSetValue(q) == old(settings.EditingKeyerSetValue(q))
      ensures !settings.EditingInRange() ==> settings.keyerParamSets == old(settings.keyerParamSets)
      ensures |settings.keyerParamSets| == old(|settings.keyerParamSets|)
    {
      var value := EditUpper(settings.EditingKeyerSetValue(parameter), change);
      settings.SetEditingKeyerSetValue(parameter, value);
      var _ := device.Command(0, WindowA, code, value);
    }

    /** Move a lower keyer bound by the encoder, not above its upper bound, store it and send it. */
    method EditLowerStep(parameter: int, upper: int, code: int, change: int)
      requires settings.Valid() && 0 <= parameter < Settings.KeyerParamCount && 0 <= upper < Settings.KeyerParamCount
      requires parameter != upper
      modifies settings`keyerParamSets, device`registers, device`requests
      ensures settings.Valid()
      ensures var value := EditLower(old(settings.EditingKeyerSetValue(parameter)), change, old(settings.EditingKeyerSetValue(upper)));
        device.requests == old(device.requests) + [Write(Setting(0, WindowA, code, value))]
        && (settings.EditingInRange() ==> settings.EditingKeyerSetValue(parameter) == value)
      ensures forall q :: 0 <= q < Settings.KeyerParamCount && q != parameter ==>
        settings.EditingKeyerSetValue(q) == old(settings.EditingKeyerSetValue(q))
      ensures !settings.EditingInRange() ==> settings.keyerParamSets == old(settings.keyerParamSets)
      ensures |settings.keyerParamSets| == old(|settings.keyerParamSets|)
    {
      var value := EditLower(settings.EditingKeyerSetValue(parameter), change, settings.EditingKeyerSetValue(upper));
      settings.SetEditingKeyerSetValue(parameter, value);
      var _ := device.Command(0, WindowA, code, value);
    }

    /**
     * The HDCP menu: a refresh reads the output and both inputs; confirming
     * the first position switches HDCP on when it was off everywhere and off
     * otherwise, then stores the power-on state if that was acknowledged.
     */
    method HDCPMenuStep(change: int, action: bool)
      modifies this`currentHDCP, this`hdcpState, this`notices, device`registers, device`requests
      ensures hdcpState == Clamp(old(hdcpState) + change, 0, 1)
      ensures change != 0 || action ==> currentHDCP == old(currentHDCP)
      ensures action && hdcpState == 0 ==>
        |device.requests| > |old(device.requests)| && device.requests[|old(device.requests)|] == HDCPSet(HDCPTarget(currentHDCP))
        && |notices| == |old(notices)| + 1 && notices[..|old(notices)|] == old(notices)
        && notices[|old(notices)|].HDCPSent? && notices[|old(notices)|].on == HDCPTarget(currentHDCP)
      ensures !(action && hdcpState == 0) ==> notices == old(notices) && device.registers == old(device.registers)
    {
      if change == 0 && !action {
        var _, output := device.ReadCommand(0, WindowA, OutputsHDCPRequired, -1);
        var _, input1 := device.ReadCommand(SourceRGB1, WindowA, SourceHDCPAdvertize, -1);
        var _, input2 := device.ReadCommand(SourceRGB2, WindowA, SourceHDCPAdvertize, -1);
        currentHDCP := ClassifyHDCP(output, input1, input2);
      }
      hdcpState := Clamp(hdcpState + change, 0, 1);
      if action && hdcpState == 0 {
        var on := HDCPTarget(currentHDCP);
        var ok := device.SetHDCPOn(on);
        if ok {
          var _ := device.Command(0, WindowA, FunctionPowerOnPresetStore, 1);
        }
        notices := notices + [HDCPSent(ok, on)];
      }
    }

    /**
     * The EDID menu: a refresh reads both inputs' EDID slots; confirming
     * the first position chooses passthrough when the inputs used an
     * internal EDID, and sets both inputs to the chosen slot.
     */
    method EDIDMenuStep(change: int, action: bool, resolutionSlot: int)
      modifies this`currentEDID, this`edidState, this`edidPassthrough, this`notices, device`registers, device`requests
      ensures edidState == Clamp(old(edidState) + change, 0, 1)
      ensures action && edidState == 0 ==> edidPassthrough == (currentEDID == EDIDInternal)
      ensures action && edidState == 0 ==>
        var slot := EDIDTargetSlot(currentEDID, resolutionSlot);
        |device.requests| > |old(device.requests)| && device.requests[|old(device.requests)|] == Write(Setting(SourceRGB1, WindowA, SourceEDID, slot))
      ensures !(action && edidState == 0) ==> edidPassthrough == old(edidPassthrough) && notices == old(notices) && device.registers == old(device.registers)
    {
      if change == 0 && !action {
        var _, slot1 := device.ReadCommand(SourceRGB1, WindowA, SourceEDID, -1);
        var _, slot2 := device.ReadCommand(SourceRGB2, WindowA, SourceEDID, -1);
        currentEDID := ClassifyEDID(slot1, slot2);
      }
      edidState := Clamp(edidState + change, 0, 1);
      if action && edidState == 0 {
        edidPassthrough := currentEDID == EDIDInternal;
        var slot := if edidPassthrough then EDIDPassthroughSlot else resolutionSlot;
        var ok := device.CommandChain([Write(Setting(SourceRGB1, WindowA, SourceEDID, slot)), Write(Setting(SourceRGB2, WindowA, SourceEDID, slot))]);
        if ok {
          var _ := device.Command(0, WindowA, FunctionPowerOnPresetStore, 1);
        }
        notices := notices + [EDIDSent(ok, edidPassthrough)];
      }
    }

    /**
     * The aspect menu: a refresh places the cursor from both inputs' aspect
     * handling; confirming any position but Cancel sets both inputs to the
     * chosen handling.
     */
    method AspectMenuStep(change: int, action: bool)
      modifies this`aspectState, this`aspectHandling, this`notices, device`registers, device`requests
      ensures 0 <= aspectState <= 3
      ensures change != 0 || action ==> aspectState == Clamp(old(aspectState) + change, 0, 3)
      ensures action && aspectState != 3 ==> aspectHandling == AspectForState(aspectState)
      ensures action && aspectState != 3 ==>
        |device.requests| > |old(device.requests)| && device.requests[|old(device.requests)|] == Write(Setting(SourceRGB1, WindowA, SourceAspectCorrect, aspectHandling))
      ensures !(action && aspectState != 3) ==> aspectHandling == old(aspectHandling) && notices == old(notices) && device.registers == old(device.registers)
    {
      if change == 0 && !action {
        var _, aspect1 := device.ReadCommand(SourceRGB1, WindowA, SourceAspectCorrect, -1);
        var _, aspect2 := device.ReadCommand(SourceRGB2, WindowA, SourceAspectCorrect, -1);
        aspectState := ClassifyAspect(aspect1, aspect2);
      }
      aspectState := Clamp(aspectState + change, 0, 3);
      if action && aspectState != 3 {
        aspectHandling := AspectForState(aspectState);
        var ok := device.CommandChain([Write(Setting(SourceRGB1, WindowA, SourceAspectCorrect, aspectHandling)),
                                       Write(Setting(SourceRGB2, WindowA, SourceAspectCorrect, aspectHandling))]);
        if ok {
          var _ := device.Command(0, WindowA, FunctionPowerOnPresetStore, 1);
        }
        notices := notices + [AspectSent(ok, aspectHandling)];
      }
    }

    /** Choose a resolution: it is sent with the passthrough slot when EDID passthrough is on. */
    method SelectResolution(resolution: int, edidSlot: int)
      modifies this`notices, device`registers, device`requests
      ensures |device.requests| > |old(device.requests)|
      ensures device.requests[|old(device.requests)|] == ResolutionSet(resolution, if edidPassthrough then EDIDPassthroughSlot else edidSlot)
      ensures |notices| == |old(notices)| + 1 && notices[..|old(notices)|] == old(notices)
      ensures notices[|notices| - 1].ResolutionSent? && notices[|notices| - 1].resolution == resolution && notices[|notices| - 1].edidSlot == edidSlot
    {
      var slot := if edidPassthrough then EDIDPassthroughSlot else edidSlot;
      var ok := device.SetResolution(resolution, slot);
      if ok {
        var _ := device.Command(0, WindowA, FunctionPowerOnPresetStore, 1);
      }
      notices := notices + [ResolutionSent(ok, resolution, edidSlot)];
    }

    /** Choose a network mode: the old one is torn down and the new one must suit the RJ45 wiring. */
    method SelectComms(choice: int, ethernetUp: bool)
      modifies this`commsMode
      ensures commsMode == ChooseComms(rj45Mode, choice, ethernetUp)
    {
      commsMode := ChooseComms(rj45Mode, choice, ethernetUp);
    }

    /** The RJ45 switch moved: the network mode is cancelled. */
    method Rj45Changed(rj45Switch: int)
      modifies this`rj45Mode, this`commsMode
      ensures rj45Mode == rj45Switch
      ensures rj45Switch != old(rj45Mode) ==> commsMode == CommsNone
      ensures rj45Switch == old(rj45Mode) ==> commsMode == old(commsMode)
    {
      if rj45Switch != rj45Mode {
        rj45Mode := rj45Switch;
        commsMode := CommsNone;
      }
    }
  }

  lemma ApplyAllUntouchedKeyer(registers: map<Register, int>, params: seq<int>)
    requires |params| == Settings.KeyerParamCount && AdditiveRegister in registers
    ensures ApplyAll(registers, KeyerScript(params))[AdditiveRegister] == registers[AdditiveRegister]
  {
    ApplyAllUntouched(registers, KeyerScript(params), AdditiveRegister);
  }
}
