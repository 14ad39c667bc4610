/**
 * The small decision rules of the mixer's menus and network inputs: the
 * blend/additive fade curve, the read-back classifiers of the
 * troubleshooting menus, the keyer editor's clamps, which network modes the
 * RJ45 socket allows, and how incoming OSC and DMX values replace the
 * control-surface values.
 */
module MenuRules {
  import opened FadeMath

  /**
   * `lo <= v <= hi` enforced by clamping, as the menu handlers do after
   * every change: the upper bound is checked first, so an empty range
   * yields `hi` for a value above it and `lo` otherwise.
   */
  function Clamp(v: int, lo: int, hi: int): (r: int)
    ensures lo <= hi ==> lo <= r <= hi
    ensures lo <= v <= hi ==> r == v
  {
    if v > hi then hi else if v < lo then lo else v
  }

  function Distance(a: int, b: int): nat
  {
    if a >= b then a - b else b - a
  }

  /** A clamped value is the point of the range nearest to the value. */
  lemma ClampNearest(v: int, lo: int, hi: int, w: int)
    requires lo <= w <= hi
    ensures Distance(Clamp(v, lo, hi), v) <= Distance(w, v)
  {
  }

  // ---------------------------------------------------------------------
  // Fade curve (Blend / Additive choice)

  const FadeCurveStepSize: real := 0.05
  const AdditiveThreshold: real := 0.001

  datatype CurveChoice = CurveChoice(fadeCurve: real, mixMode: int)

  /**
   * One encoder movement in the crossfade menu: the curve moves by 0.05 per
   * detent, clamped into 0..1, and any curve above 0.001 selects Additive.
   */
  function FadeCurveStep(fadeCurve: real, change: int): (r: CurveChoice)
    ensures InUnit(r.fadeCurve)
    ensures r.mixMode == MixAdditive <==> r.fadeCurve > AdditiveThreshold
    ensures r.mixMode == MixBlend <==> r.fadeCurve <= AdditiveThreshold
    ensures 0.0 <= fadeCurve + change as real * FadeCurveStepSize <= 1.0 ==>
              r.fadeCurve == fadeCurve + change as real * FadeCurveStepSize
  {
    var moved := fadeCurve + change as real * FadeCurveStepSize;
    var c := if moved > 1.0 then 1.0 else if moved < 0.0 then 0.0 else moved;
    CurveChoice(c, if c > AdditiveThreshold then MixAdditive else MixBlend)
  }

  /** Twenty detents either way reach an end of the curve from anywhere on it. */
  lemma FadeCurveReachesEnds(fadeCurve: real, change: int)
    requires InUnit(fadeCurve)
    ensures change >= 20 ==> FadeCurveStep(fadeCurve, change) == CurveChoice(1.0, MixAdditive)
    ensures change <= -20 ==> FadeCurveStep(fadeCurve, change) == CurveChoice(0.0, MixBlend)
  {
  }

  // ---------------------------------------------------------------------
  // Troubleshooting menus

  const HDCPMixed: int := -1
  const HDCPOff: int := 0
  const HDCPOn: int := 1

  /**
   * HDCP as read back from the output's "required" control and the two
   * inputs' "advertise" controls: off or on when all three agree on 0 or 1,
   * mixed otherwise (including when a read failed and left its -1).
   */
  function ClassifyHDCP(output: int, input1: int, input2: int): (current: int)
    ensures current == HDCPOff <==> output == 0 && input1 == 0 && input2 == 0
    ensures current == HDCPOn <==> output == 1 && input1 == 1 && input2 == 1
    ensures current == HDCPMixed <==> !(output == input1 == input2 && (input2 == 0 || input2 == 1))
  {
    if output == input1 && input1 == input2 && input2 == 0 then HDCPOff
    else if output == input1 && input1 == input2 && input2 == 1 then HDCPOn
    else HDCPMixed
  }

  /** Confirming the HDCP menu turns HDCP on exactly when it was seen off everywhere. */
  function HDCPTarget(current: int): (on: bool)
    ensures on <==> current == HDCPOff
  {
    current == HDCPOff
  }

  /** Confirming flips a uniform HDCP setting, and a mixed one is resolved to off. */
  lemma HDCPToggles(current: int)
    requires current == HDCPOff || current == HDCPOn || current == HDCPMixed
    ensures var v := if HDCPTarget(current) then 1 else 0;
      ClassifyHDCP(v, v, v) == (if current == HDCPOff then HDCPOn else HDCPOff)
  {
  }

  const EDIDPassthroughSlot: int := 7
  const EDIDMixed: int := -1
  const EDIDInternal: int := 0
  const EDIDThrough: int := 1

  /** EDID as read back from both inputs: through when both use slot 7, internal when both agree on another slot. */
  function ClassifyEDID(slot1: int, slot2: int): (current: int)
    ensures current == EDIDThrough <==> slot1 == slot2 == EDIDPassthroughSlot
    ensures current == EDIDInternal <==> slot1 == slot2 != EDIDPassthroughSlot
    ensures current == EDIDMixed <==> slot1 != slot2
  {
    if slot1 == slot2 && slot2 == EDIDPassthroughSlot then EDIDThrough
    else if slot1 == slot2 && slot2 != EDIDPassthroughSlot then EDIDInternal
    else EDIDMixed
  }

  /**
   * The slot both inputs are set to on confirming: passthrough (slot 7)
   * exactly when the current setting was internal, otherwise the selected
   * resolution's own EDID slot.
   */
  function EDIDTargetSlot(current: int, resolutionSlot: int): (slot: int)
    ensures current == EDIDInternal ==> slot == EDIDPassthroughSlot
    ensures current != EDIDInternal ==> slot == resolutionSlot
  {
    if current == EDIDInternal then EDIDPassthroughSlot else resolutionSlot
  }

  /**
   * After both inputs are set, the read-back shows passthrough when it was
   * chosen; internal is shown unless the resolution's own slot happens to
   * be slot 7.
   */
  lemma EDIDToggles(current: int, resolutionSlot: int)
    ensures var s := EDIDTargetSlot(current, resolutionSlot);
      ClassifyEDID(s, s) == (if current == EDIDInternal || resolutionSlot == EDIDPassthroughSlot then EDIDThrough else EDIDInternal)
  {
  }

  const AspectFit: int := 1
  const AspectHFill: int := 2
  const AspectVFill: int := 3
  const Aspect1to1: int := 4

  /** The aspect menu's cursor from the read-back: Fit 0, either Fill 1, 1:1 2, anything else 0. */
  function ClassifyAspect(aspect1: int, aspect2: int): (state: int)
    ensures 0 <= state <= 2
    ensures state == 1 <==> aspect1 == aspect2 && (aspect2 == AspectHFill || aspect2 == AspectVFill)
    ensures state == 2 <==> aspect1 == aspect2 == Aspect1to1
  {
    if aspect1 == aspect2 && aspect2 == AspectFit then 0
    else if aspect1 == aspect2 && aspect2 == AspectHFill then 1
    else if aspect1 == aspect2 && aspect2 == AspectVFill then 1
    else if aspect1 == aspect2 && aspect2 == Aspect1to1 then 2
    else 0
  }

  /** The aspect handling a confirmed cursor position selects (position 3 is Cancel). */
  function AspectForState(state: int): (aspect: int)
    requires 0 <= state <= 2
    ensures aspect in {AspectFit, AspectHFill, Aspect1to1}
  {
    if state == 0 then AspectFit else if state == 1 then AspectHFill else Aspect1to1
  }

  /** Reading back what a confirmed aspect choice sent puts the cursor where it was confirmed. */
  lemma AspectRoundTrip(state: int)
    requires 0 <= state <= 2
    ensures ClassifyAspect(AspectForState(state), AspectForState(state)) == state
  {
  }

  /** The vertical fill mode is never chosen by the menu, only recognised on read-back. */
  lemma AspectVFillNeverSent(state: int)
    requires 0 <= state <= 2
    ensures AspectForState(state) != AspectVFill
    ensures ClassifyAspect(AspectVFill, AspectVFill) == ClassifyAspect(AspectHFill, AspectHFill)
  {
  }

  // ---------------------------------------------------------------------
  // Keyer editor

  const KeyerValueMax: int := 255

  /** Editing an upper bound: the stored value moved by the encoder, kept within 0..255. */
  function EditUpper(stored: int, change: int): (value: int)
    ensures 0 <= value <= KeyerValueMax
  {
    Clamp(stored + change, 0, KeyerValueMax)
  }

  /**
   * Editing a lower bound: the stored value moved by the encoder, at least
   * 0 and then at most the upper bound. The upper-bound test comes second,
   * so an upper bound below 0 (the -1 of "no set being edited") wins.
   */
  function EditLower(stored: int, change: int, upper: int): (value: int)
    ensures value <= upper
    ensures 0 <= upper ==> 0 <= value
    ensures 0 <= stored + change <= upper ==> value == stored + change
  {
    var v := if stored + change < 0 then 0 else stored + change;
    if v > upper then upper else v
  }

  /** An upper edit followed by a lower edit leaves an ordered pair within 0..255. */
  lemma EditedPairOrdered(storedUpper: int, storedLower: int, upperChange: int, lowerChange: int)
    ensures var hi := EditUpper(storedUpper, upperChange);
            var lo := EditLower(storedLower, lowerChange, hi);
            0 <= lo <= hi <= KeyerValueMax
  {
  }

  /** With no valid set being edited the lower edit sends -1 to the processor. */
  lemma EditLowerWithoutSet(stored: int, change: int)
    ensures EditLower(stored, change, -1) == -1
  {
  }

  // ---------------------------------------------------------------------
  // Network modes

  const CommsNone: int := 0
  const CommsOSC: int := 1
  const CommsArtNet: int := 2
  const CommsDMXIn: int := 3
  const CommsDMXOut: int := 4

  const Rj45Ethernet: int := 0
  const Rj45DMX: int := 1

  predicate EthernetMode(m: int) { m == CommsOSC || m == CommsArtNet }
  predicate DMXMode(m: int) { m == CommsDMXIn || m == CommsDMXOut }

  /**
   * The network mode after choosing an entry of the network menu: the old
   * mode is always torn down; a choice the RJ45 socket's wiring cannot
   * carry leaves no mode; a failed Ethernet setup still leaves OSC selected.
   */
  function ChooseComms(rj45Mode: int, choice: int, ethernetUp: bool): (mode: int)
    ensures mode == CommsNone || mode == choice
    ensures rj45Mode == Rj45DMX ==> !EthernetMode(mode)
    ensures rj45Mode == Rj45Ethernet ==> !DMXMode(mode)
    ensures (rj45Mode == Rj45Ethernet && EthernetMode(choice)) || (rj45Mode == Rj45DMX && DMXMode(choice)) ==> mode == choice
  {
    if rj45Mode == Rj45DMX && (choice == CommsOSC || choice == CommsArtNet) then CommsNone
    else if rj45Mode == Rj45Ethernet && (choice == CommsDMXIn || choice == CommsDMXOut) then CommsNone
    else if choice == CommsOSC then CommsOSC
    else if choice == CommsArtNet then CommsArtNet
    else if choice == CommsDMXIn then CommsDMXIn
    else if choice == CommsDMXOut then CommsDMXOut
    else CommsNone
  }

  /** The Ethernet setup result does not decide the mode: OSC stays selected when setup fails. */
  lemma OSCSurvivesEthernetFailure()
    ensures ChooseComms(Rj45Ethernet, CommsOSC, false) == CommsOSC
  {
  }

  // ---------------------------------------------------------------------
  // Network input

  /** The fields of a received OSC message the mixer looks at. */
  datatype OscReading = OscReading(top: string, sub: string, argNum: int, firstTag: char, firstFloat: real)

  datatype Controls = Controls(xFade: real, fadeUp: real)

  /**
   * A received message "/dvimxr/xFade" or "/dvimxr/fadeUp" with exactly one
   * float argument replaces that control; any other message changes nothing.
   * The value is taken as sent, without clamping.
   */
  function OscIn(m: OscReading, c: Controls): (r: Controls)
    ensures r.fadeUp != c.fadeUp ==> m.sub == "fadeUp" && r.fadeUp == m.firstFloat
    ensures r.xFade != c.xFade ==> m.sub == "xFade" && r.xFade == m.firstFloat
    ensures m.top != "dvimxr" || m.argNum != 1 || m.firstTag != 'f' ==> r == c
  {
    if m.top == "dvimxr" then
      if m.sub == "xFade" then
        if m.argNum == 1 && m.firstTag == 'f' then c.(xFade := m.firstFloat) else c
      else if m.sub == "fadeUp" then
        if m.argNum == 1 && m.firstTag == 'f' then c.(fadeUp := m.firstFloat) else c
      else c
    else c
  }

  /** A well-formed message for one control sets it and leaves the other alone. */
  lemma OscInSetsAddressed(v: real, c: Controls)
    ensures OscIn(OscReading("dvimxr", "xFade", 1, 'f', v), c) == Controls(v, c.fadeUp)
    ensures OscIn(OscReading("dvimxr", "fadeUp", 1, 'f', v), c) == Controls(c.xFade, v)
  {
  }

  /** DMX channel values 0..255 become control values 0..1. */
  function DmxIn(xFadeDMX: int, fadeUpDMX: int): (r: Controls)
    requires 0 <= xFadeDMX <= 255 && 0 <= fadeUpDMX <= 255
    ensures InUnit(r.xFade) && InUnit(r.fadeUp)
    ensures r.xFade * 255.0 == xFadeDMX as real && r.fadeUp * 255.0 == fadeUpDMX as real
  {
    Controls(xFadeDMX as real / 255.0, fadeUpDMX as real / 255.0)
  }

  /** A control value as a DMX/ArtNet channel value, truncated. */
  function DmxOutValue(v: real): (d: int)
    ensures InUnit(v) ==> 0 <= d <= 255
  {
    Trunc(v * 255.0)
  }

  /** What comes in on DMX goes back out unchanged. */
  lemma DmxRoundTrip(xFadeDMX: int, fadeUpDMX: int)
    requires 0 <= xFadeDMX <= 255 && 0 <= fadeUpDMX <= 255
    ensures var c := DmxIn(xFadeDMX, fadeUpDMX);
      DmxOutValue(c.xFade) == xFadeDMX && DmxOutValue(c.fadeUp) == fadeUpDMX
  {
  }
}
