/** Applying a configuration to the mouse and taking it back
    (internal/mxmaster/configurator.go). Before anything is changed its current value is pushed on a
    log of clean-ups; Close runs the log backwards. */
module Configurator {
  import opened Common
  import opened Mouse
  import DpiList

  // ---- Settings: None stands for a field left out of the configuration ----

  datatype SmartSetting = SmartSetting(enabled: Option<bool>, threshold: Option<int>, torque: Option<int>)

  datatype WheelSetting = WheelSetting(enabled: Option<bool>, invert: Option<bool>)

  datatype ThumbSetting = ThumbSetting(divert: Option<bool>, invert: Option<bool>)

  /** `buttons` says for every listed control whether its action diverts it. */
  datatype Settings = Settings(smart: SmartSetting, wheel: Option<WheelSetting>, dpi: Option<int>,
                               thumb: Option<ThumbSetting>, buttons: map<word, bool>)

  /** The numeric checks made when a configuration is loaded. */
  predicate Validated(s: Settings) {
    && (s.dpi.Some? ==> 100 <= s.dpi.value <= 8000)
    && (s.smart.threshold.Some? ==> 1 <= s.smart.threshold.value <= 255)
    && (s.smart.torque.Some? ==> 1 <= s.smart.torque.value <= 100)
    && !(s.smart.enabled == Some(false) && s.smart.threshold.Some?)
  }

  predicate SmartConfigured(s: Settings) {
    s.smart.enabled.Some? || s.smart.threshold.Some? || s.smart.torque.Some?
  }

  predicate WheelConfigured(s: Settings) {
    s.wheel.Some? && (s.wheel.value.enabled.Some? || s.wheel.value.invert.Some?)
  }

  predicate ThumbConfigured(s: Settings) {
    s.thumb.Some? && (s.thumb.value.divert.Some? || s.thumb.value.invert.Some?)
  }

  function ResolveSmartShift(enabled: bool, configured: Option<int>, current: byte): Result<(byte, byte), Error> {
    if !enabled then
      if configured.Some? then Err(InvalidConfig) else Ok((FREE_SPIN, 255))
    else
      var threshold := if configured.Some? then configured.value else current;
      if threshold < 1 || threshold > 255 then Err(InvalidConfig) else Ok((RATCHET, threshold))
  }

  // ---- What a successful Apply means, stage by stage ----

  function Or<T>(field: Option<T>, current: T): T {
    if field.Some? then field.value else current
  }

  function ModeAfter(s: Settings, m: State): byte {
    if s.smart.enabled == Some(true) then RATCHET else if s.smart.enabled == Some(false) then FREE_SPIN else m.mode
  }

  function ThresholdAfter(s: Settings, m: State): byte
    requires Validated(s)
  {
    if s.smart.enabled == Some(false) then 255 else Or(s.smart.threshold, m.threshold)
  }

  function TorqueAfter(s: Settings, f: Features, m: State): byte
    requires Validated(s)
  {
    if TorqueSupported(f) then Or(s.smart.torque, m.torque) else m.torque
  }

  function WheelAfter(s: Settings, m: State): WheelMode {
    if s.wheel.None? then m.wheel
    else
      var w := s.wheel.value;
      WheelMode(Or(w.enabled, m.wheel.useHidpp), Or(w.enabled, m.wheel.highResolution), Or(w.invert, m.wheel.invert))
  }

  function DpiAfter(s: Settings, f: Features, m: State): word
    requires Validated(s)
  {
    if s.dpi.Some? && f.dpi.Some? && f.dpi.value != [] then DpiList.Nearest(f.dpi.value, s.dpi.value) else m.dpi
  }

  function DivertAfter(s: Settings, m: State): bool {
    if s.thumb.Some? then Or(s.thumb.value.divert, m.thumbDiverted) else m.thumbDiverted
  }

  function InvertAfter(s: Settings, m: State): bool {
    if s.thumb.Some? then Or(s.thumb.value.invert, m.thumbInverted) else m.thumbInverted
  }

  function ControlsAfter(s: Settings, m: State): map<word, bool> {
    map cid | cid in m.diverted :: if cid in s.buttons then s.buttons[cid] else m.diverted[cid]
  }

  /** The initial state overridden by exactly the fields that are present. */
  function Configured(s: Settings, f: Features, m: State): State
    requires Validated(s)
  {
    State(ModeAfter(s, m), ThresholdAfter(s, m), TorqueAfter(s, f, m),
          WheelAfter(s, m), if WheelConfigured(s) then 0 else m.wheelSpare, DpiAfter(s, f, m),
          DivertAfter(s, m), InvertAfter(s, m), ControlsAfter(s, m))
  }

  /** Why Apply stops when every call to the device goes through. */
  function ExpectedError(s: Settings, f: Features, m: State): Option<Error>
    requires Validated(s)
  {
    if SmartError(s, f, m).Some? then SmartError(s, f, m)
    else if s.wheel.Some? && !f.wheel then Some(NoFeature)
    else if DpiError(s, f).Some? then DpiError(s, f)
    else if s.thumb.Some? && !f.thumb then Some(NoFeature)
    else ButtonError(s, f, m)
  }

  function SmartError(s: Settings, f: Features, m: State): Option<Error> {
    if !SmartConfigured(s) then None
    else if f.smartShift.None? then Some(NoFeature)
    else if !ValidStatus(m) then Some(MalformedStatus)
    else None
  }

  function DpiError(s: Settings, f: Features): Option<Error>
    requires Validated(s)
  {
    if s.dpi.None? then None
    else if f.dpi.None? then Some(NoFeature)
    else if f.dpi.value == [] then Some(NoDpiValues)
    else if DpiList.Nearest(f.dpi.value, s.dpi.value) == 0 then Some(InvalidArgument)
    else None
  }

  function ButtonError(s: Settings, f: Features, m: State): Option<Error> {
    if s.buttons == map[] then None
    else if !f.controls then Some(NoFeature)
    else if s.buttons.Keys <= m.diverted.Keys then None
    else Some(CallFailed)
  }

  // What no Apply may ever change, not even one that fails half-way: the fields left out.

  predicate SmartKept(s: Settings, m: State, m': State) {
    && (s.smart.enabled.None? ==> m'.mode == m.mode)
    && (s.smart.enabled.None? && s.smart.threshold.None? ==> m'.threshold == m.threshold)
    && (s.smart.torque.None? ==> m'.torque == m.torque)
  }

  predicate WheelKept(s: Settings, m: State, m': State) {
    && (!WheelConfigured(s) ==> m'.wheel == m.wheel && m'.wheelSpare == m.wheelSpare)
    && (WheelConfigured(s) && s.wheel.value.enabled.None? ==>
          m'.wheel.useHidpp == m.wheel.useHidpp && m'.wheel.highResolution == m.wheel.highResolution)
    && (WheelConfigured(s) && s.wheel.value.invert.None? ==> m'.wheel.invert == m.wheel.invert)
  }

  predicate ThumbKept(s: Settings, m: State, m': State) {
    && ((s.thumb.None? || s.thumb.value.divert.None?) ==> m'.thumbDiverted == m.thumbDiverted)
    && ((s.thumb.None? || s.thumb.value.invert.None?) ==> m'.thumbInverted == m.thumbInverted)
  }

  predicate ControlsKept(s: Settings, m: State, m': State) {
    && m'.diverted.Keys == m.diverted.Keys
    && (forall cid | cid in m.diverted && cid !in s.buttons :: m'.diverted[cid] == m.diverted[cid])
  }

  /** The controls of `done` are set, the others as they were. */
  predicate ControlsSet(s: Settings, done: set<word>, m: State, m': State) {
    && m' == m.(diverted := m'.diverted)
    && m'.diverted.Keys == m.diverted.Keys
    && forall cid | cid in m.diverted ::
         m'.diverted[cid] == if cid in s.buttons && cid in done then s.buttons[cid] else m.diverted[cid]
  }

  lemma ControlStep(s: Settings, done: set<word>, cid: word, m: State, m1: State, m2: State)
    requires ControlsSet(s, done, m, m1) && cid in s.buttons && cid !in done
    requires m2 == m1 || m2 == WithControl(m1, cid, s.buttons[cid])
    ensures ControlsKept(s, m, m2) && m2 == m.(diverted := m2.diverted)
    ensures m2 == WithControl(m1, cid, s.buttons[cid]) ==> ControlsSet(s, done + {cid}, m, m2)
    ensures cid in m.diverted ==> m1.diverted[cid] == m.diverted[cid]
  {
  }

  predicate OnlyTouches(s: Settings, m: State, m': State) {
    && SmartKept(s, m, m')
    && WheelKept(s, m, m')
    && (s.dpi.None? ==> m'.dpi == m.dpi)
    && ThumbKept(s, m, m')
    && ControlsKept(s, m, m')
  }

  lemma ConfiguredOnlyTouches(s: Settings, f: Features, m: State)
    requires Validated(s)
    ensures OnlyTouches(s, m, Configured(s, f, m))
  {
  }

  // ---- The same field by field ----

  /** Every field that is present has its value, every field left out is as it was, and the spare bits
      of the wheel byte are clear if the wheel was written. */
  predicate SmartFields(s: SmartSetting, f: Features, m: State, m': State) {
    && (s.enabled == Some(true) ==> m'.mode == 2)
    && (s.enabled == Some(false) ==> m'.mode == 1 && m'.threshold == 255)
    && (s.enabled == None ==> m'.mode == m.mode)
    && (s.threshold.Some? ==> m'.threshold == s.threshold.value)
    && (s.threshold == None && s.enabled != Some(false) ==> m'.threshold == m.threshold)
    && m'.torque == if s.torque.Some? && f.smartShift == Some(V2) && f.torqueBit then s.torque.value else m.torque
  }

  predicate WheelFields(s: Option<WheelSetting>, m: State, m': State) {
    if s.Some? && (s.value.enabled.Some? || s.value.invert.Some?) then
      && (s.value.enabled.Some? ==>
            m'.wheel.useHidpp == s.value.enabled.value && m'.wheel.highResolution == s.value.enabled.value)
      && (s.value.enabled.None? ==>
            m'.wheel.useHidpp == m.wheel.useHidpp && m'.wheel.highResolution == m.wheel.highResolution)
      && m'.wheel.invert == (if s.value.invert.Some? then s.value.invert.value else m.wheel.invert)
      && m'.wheelSpare == 0
    else m'.wheel == m.wheel && m'.wheelSpare == m.wheelSpare
  }

  predicate DpiField(s: Option<int>, f: Features, m: State, m': State) {
    if s.None? then m'.dpi == m.dpi
    else
      && f.dpi.Some? && m'.dpi in f.dpi.value && m'.dpi != 0
      && (forall v | v in f.dpi.value ::
            !(m'.dpi < v < 2 * s.value - m'.dpi) && !(2 * s.value - m'.dpi < v < m'.dpi)
            && (v + m'.dpi == 2 * s.value ==> m'.dpi <= v))
  }

  predicate ThumbFields(s: Option<ThumbSetting>, m: State, m': State) {
    && m'.thumbDiverted == (if s.Some? && s.value.divert.Some? then s.value.divert.value else m.thumbDiverted)
    && m'.thumbInverted == (if s.Some? && s.value.invert.Some? then s.value.invert.value else m.thumbInverted)
  }

  predicate ControlFields(buttons: map<word, bool>, m: State, m': State) {
    && m'.diverted.Keys == m.diverted.Keys && buttons.Keys <= m.diverted.Keys
    && forall cid | cid in m.diverted ::
         m'.diverted[cid] == if cid in buttons then buttons[cid] else m.diverted[cid]
  }

  predicate FieldsHold(s: Settings, f: Features, m: State, m': State) {
    && SmartFields(s.smart, f, m, m')
    && WheelFields(s.wheel, m, m')
    && DpiField(s.dpi, f, m, m')
    && ThumbFields(s.thumb, m, m')
    && ControlFields(s.buttons, m, m')
  }

  /** One stage after the other: nothing is changed before everything that comes earlier is as it is
      configured. */
  predicate InOrder(s: Settings, f: Features, m: State, m': State) {
    && (m'.wheel != m.wheel || m'.wheelSpare != m.wheelSpare ==> SmartFields(s.smart, f, m, m'))
    && (m'.dpi != m.dpi ==> SmartFields(s.smart, f, m, m') && WheelFields(s.wheel, m, m'))
    && RestInOrder(s, f, m, m')
    && ((m'.thumbDiverted, m'.thumbInverted) != (m.thumbDiverted, m.thumbInverted) || m'.diverted != m.diverted ==>
          SmartFields(s.smart, f, m, m') && WheelFields(s.wheel, m, m'))
  }

  predicate RestInOrder(s: Settings, f: Features, m: State, m': State) {
    && ((m'.thumbDiverted, m'.thumbInverted) != (m.thumbDiverted, m.thumbInverted) ==> DpiField(s.dpi, f, m, m'))
    && (m'.diverted != m.diverted ==> DpiField(s.dpi, f, m, m') && ThumbFields(s.thumb, m, m'))
  }

  predicate OnlyWheels(m: State, m1: State) {
    m1 == m.(mode := m1.mode, threshold := m1.threshold, torque := m1.torque, wheel := m1.wheel,
             wheelSpare := m1.wheelSpare)
  }

  predicate OnlyRest(m1: State, m2: State) {
    m2 == m1.(dpi := m2.dpi, thumbDiverted := m2.thumbDiverted, thumbInverted := m2.thumbInverted,
              diverted := m2.diverted)
  }

  /** What one stage does, and whether it stopped; `quiet` if no call failed. */
  predicate SmartDone(s: Settings, f: Features, m: State, m': State, error: Option<Error>, quiet: bool)
    requires Validated(s)
  {
    && SmartKept(s, m, m') && m' == m.(mode := m'.mode, threshold := m'.threshold, torque := m'.torque)
    && (error.None? ==>
          && SmartFields(s.smart, f, m, m')
          && m'.mode == ModeAfter(s, m) && m'.threshold == ThresholdAfter(s, m) && m'.torque == TorqueAfter(s, f, m))
    && (quiet ==> error == SmartError(s, f, m))
  }

  predicate WheelDone(s: Settings, f: Features, m: State, m': State, error: Option<Error>, quiet: bool) {
    && WheelKept(s, m, m') && m' == m.(wheel := m'.wheel, wheelSpare := m'.wheelSpare)
    && (error.None? ==>
          && WheelFields(s.wheel, m, m') && m'.wheel == WheelAfter(s, m)
          && m'.wheelSpare == if WheelConfigured(s) then 0 else m.wheelSpare)
    && (quiet ==> error == if s.wheel.Some? && !f.wheel then Some(NoFeature) else None)
  }

  predicate DpiDone(s: Settings, f: Features, m: State, m': State, error: Option<Error>, quiet: bool)
    requires Validated(s)
  {
    && m' == m.(dpi := m'.dpi) && (s.dpi.None? ==> m' == m)
    && (error.None? ==> m'.dpi == DpiAfter(s, f, m) && DpiError(s, f).None? && DpiField(s.dpi, f, m, m'))
    && (quiet ==> error == DpiError(s, f))
  }

  predicate ThumbDone(s: Settings, f: Features, m: State, m': State, error: Option<Error>, quiet: bool) {
    && ThumbKept(s, m, m') && m' == m.(thumbDiverted := m'.thumbDiverted, thumbInverted := m'.thumbInverted)
    && (error.None? ==>
          && ThumbFields(s.thumb, m, m')
          && m'.thumbDiverted == DivertAfter(s, m) && m'.thumbInverted == InvertAfter(s, m))
    && (quiet ==> error == if s.thumb.Some? && !f.thumb then Some(NoFeature) else None)
  }

  predicate ButtonsDone(s: Settings, f: Features, m: State, m': State, error: Option<Error>, quiet: bool) {
    && ControlsKept(s, m, m') && m' == m.(diverted := m'.diverted)
    && (error.None? ==> m'.diverted == ControlsAfter(s, m) && ControlFields(s.buttons, m, m'))
    && (quiet ==> error == ButtonError(s, f, m))
  }

  lemma SmartStops(s: Settings, f: Features, m: State, m1: State, error: Option<Error>, quiet: bool)
    requires Validated(s) && SmartDone(s, f, m, m1, error, quiet) && error.Some?
    ensures WheelsDone(s, f, m, m1, error, quiet)
  {
  }

  lemma WheelsCompose(s: Settings, f: Features, m: State, m1: State, m2: State, error: Option<Error>, quiet: bool)
    requires Validated(s) && SmartDone(s, f, m, m1, None, quiet) && WheelDone(s, f, m1, m2, error, quiet)
    ensures WheelsDone(s, f, m, m2, error, quiet)
  {
  }

  lemma DpiStops(s: Settings, f: Features, m: State, m1: State, error: Option<Error>, quiet: bool)
    requires Validated(s) && DpiDone(s, f, m, m1, error, quiet) && error.Some?
    ensures RestDone(s, f, m, m1, error, quiet)
  {
  }

  lemma ThumbStops(s: Settings, f: Features, m: State, m1: State, m2: State, error: Option<Error>, quiet: bool)
    requires Validated(s) && DpiDone(s, f, m, m1, None, quiet) && ThumbDone(s, f, m1, m2, error, quiet) && error.Some?
    ensures RestDone(s, f, m, m2, error, quiet)
  {
  }

  lemma RestComposes(s: Settings, f: Features, m: State, m1: State, m2: State, m3: State, error: Option<Error>,
                     quiet: bool)
    requires Validated(s) && DpiDone(s, f, m, m1, None, quiet) && ThumbDone(s, f, m1, m2, None, quiet)
    requires ButtonsDone(s, f, m2, m3, error, quiet)
    ensures RestDone(s, f, m, m3, error, quiet)
  {
    RestFields(s, f, m, m1, m2, m3);
    assert ControlsAfter(s, m2) == ControlsAfter(s, m);
    assert ButtonError(s, f, m2) == ButtonError(s, f, m);
  }

  lemma RestFields(s: Settings, f: Features, m: State, m1: State, m2: State, m3: State)
    requires m1 == m.(dpi := m1.dpi) && DpiField(s.dpi, f, m, m1) && ThumbFields(s.thumb, m1, m2)
    requires m2 == m1.(thumbDiverted := m2.thumbDiverted, thumbInverted := m2.thumbInverted)
    requires m3 == m2.(diverted := m3.diverted)
    ensures OnlyRest(m, m3) && DpiField(s.dpi, f, m, m3) && ThumbFields(s.thumb, m, m3) && RestInOrder(s, f, m, m3)
  {
  }

  lemma SmartFieldsOf(s: Settings, f: Features, m: State, m': State)
    requires Validated(s)
    requires m'.mode == ModeAfter(s, m) && m'.threshold == ThresholdAfter(s, m) && m'.torque == TorqueAfter(s, f, m)
    ensures SmartFields(s.smart, f, m, m')
  {
  }

  /** The first two stages together. */
  predicate WheelsDone(s: Settings, f: Features, m: State, m1: State, error: Option<Error>, quiet: bool)
    requires Validated(s)
  {
    && SmartKept(s, m, m1) && WheelKept(s, m, m1) && OnlyWheels(m, m1)
    && (m1.wheel != m.wheel || m1.wheelSpare != m.wheelSpare ==> SmartFields(s.smart, f, m, m1))
    && (error.None? ==>
          && SmartFields(s.smart, f, m, m1) && WheelFields(s.wheel, m, m1)
          && m1.mode == ModeAfter(s, m) && m1.threshold == ThresholdAfter(s, m) && m1.torque == TorqueAfter(s, f, m)
          && m1.wheel == WheelAfter(s, m) && m1.wheelSpare == if WheelConfigured(s) then 0 else m.wheelSpare)
    && (quiet ==> error == if SmartError(s, f, m).Some? then SmartError(s, f, m)
                           else if s.wheel.Some? && !f.wheel then Some(NoFeature) else None)
  }

  /** The other three. */
  predicate RestDone(s: Settings, f: Features, m: State, m': State, error: Option<Error>, quiet: bool)
    requires Validated(s)
  {
    && ThumbKept(s, m, m') && ControlsKept(s, m, m') && OnlyRest(m, m') && RestInOrder(s, f, m, m')
    && (s.dpi.None? ==> m'.dpi == m.dpi)
    && (error.None? ==>
          && m'.dpi == DpiAfter(s, f, m)
          && m'.thumbDiverted == DivertAfter(s, m) && m'.thumbInverted == InvertAfter(s, m)
          && m'.diverted == ControlsAfter(s, m)
          && DpiError(s, f).None? && s.buttons.Keys <= m.diverted.Keys)
    && (quiet ==> error == if DpiError(s, f).Some? then DpiError(s, f)
                           else if s.thumb.Some? && !f.thumb then Some(NoFeature) else ButtonError(s, f, m))
  }

  predicate StagesDone(s: Settings, f: Features, m: State, m': State, error: Option<Error>, quiet: bool)
    requires Validated(s)
  {
    && OnlyTouches(s, m, m') && InOrder(s, f, m, m')
    && (error.None? ==> m' == Configured(s, f, m) && DpiError(s, f).None? && s.buttons.Keys <= m.diverted.Keys)
    && (quiet ==> error == ExpectedError(s, f, m))
  }

  lemma WheelsStop(s: Settings, f: Features, m: State, m1: State, error: Option<Error>, quiet: bool)
    requires Validated(s) && WheelsDone(s, f, m, m1, error, quiet) && error.Some?
    ensures StagesDone(s, f, m, m1, error, quiet)
  {
  }

  lemma StagesCompose(s: Settings, f: Features, m: State, m1: State, m2: State, error: Option<Error>, quiet: bool)
    requires Validated(s) && WheelsDone(s, f, m, m1, None, quiet) && RestDone(s, f, m1, m2, error, quiet)
    ensures StagesDone(s, f, m, m2, error, quiet)
  {
    OrderComposes(s, f, m, m1, m2);
    if error.None? { assert m2 == Configured(s, f, m); }
  }

  lemma OrderComposes(s: Settings, f: Features, m: State, m1: State, m2: State)
    requires OnlyWheels(m, m1) && OnlyRest(m1, m2) && RestInOrder(s, f, m1, m2)
    requires SmartFields(s.smart, f, m, m1) && WheelFields(s.wheel, m, m1)
    ensures InOrder(s, f, m, m2)
  {
  }

  /** What is configured is there: the features, a readable SmartShift state, a usable DPI value and the
      listed controls. */
  predicate Offered(s: Settings, f: Features, m: State) {
    && (s.smart != SmartSetting(None, None, None) ==>
          f.smartShift.Some? && (m.mode == 1 || m.mode == 2) && m.threshold >= 1)
    && (s.wheel.Some? ==> f.wheel)
    && (s.dpi.Some? ==> f.dpi.Some? && f.dpi.value != [])
    && (s.thumb.Some? ==> f.thumb)
    && (s.buttons != map[] ==> f.controls && s.buttons.Keys <= m.diverted.Keys)
  }

  /** A zero in the list of DPI values that is the nearest one cannot be set. */
  predicate ZeroIsNearest(s: Settings, f: Features) {
    s.dpi.Some? && f.dpi.Some? && 0 in f.dpi.value && forall v | v in f.dpi.value :: v == 0 || v >= 2 * s.dpi.value
  }

  lemma ConfiguredFieldsHold(s: Settings, f: Features, m: State)
    requires Validated(s) && DpiError(s, f).None? && s.buttons.Keys <= m.diverted.Keys
    ensures FieldsHold(s, f, m, Configured(s, f, m))
  {
    if s.dpi.Some? {
      DpiList.NothingIsNearer(f.dpi.value, s.dpi.value, DpiList.Nearest(f.dpi.value, s.dpi.value));
    }
  }

  lemma NearestIsZero(values: seq<word>, requested: word)
    requires values != [] && requested > 0
    ensures DpiList.Nearest(values, requested) == 0
            <==> 0 in values && forall v | v in values :: v == 0 || v >= 2 * requested
  {
    DpiList.NothingIsNearer(values, requested, DpiList.Nearest(values, requested));
  }

  /** Without failing calls Apply succeeds exactly when everything configured is there; only a missing
      feature is reported as one. */
  lemma ExpectedErrorMeans(s: Settings, f: Features, m: State)
    requires Validated(s)
    ensures ExpectedError(s, f, m).None? <==> Offered(s, f, m) && !ZeroIsNearest(s, f)
    ensures ExpectedError(s, f, m) == Some(NoFeature) ==>
              || (s.smart != SmartSetting(None, None, None) && f.smartShift.None?)
              || (s.wheel.Some? && !f.wheel) || (s.dpi.Some? && f.dpi.None?)
              || (s.thumb.Some? && !f.thumb) || (s.buttons != map[] && !f.controls)
    ensures var smart := s.smart == SmartSetting(None, None, None)
                         || (f.smartShift.Some? && (m.mode == 1 || m.mode == 2) && m.threshold >= 1);
            var wheel := smart && (s.wheel.Some? ==> f.wheel);
            var dpi := wheel && (s.dpi.Some? ==> f.dpi.Some? && f.dpi.value != []) && !ZeroIsNearest(s, f);
            var thumb := dpi && (s.thumb.Some? ==> f.thumb);
            var e := ExpectedError(s, f, m);
            && (!smart ==> e == Some(if f.smartShift.None? then NoFeature else MalformedStatus))
            && (smart && !wheel ==> e == Some(NoFeature))
            && (wheel && !dpi ==> e == Some(if f.dpi.None? then NoFeature
                                            else if f.dpi.value == [] then NoDpiValues else InvalidArgument))
            && (dpi && !thumb ==> e == Some(NoFeature))
            && (thumb && e.Some? ==> e == Some(if !f.controls then NoFeature else CallFailed))
  {
    if s.dpi.Some? && f.dpi.Some? && f.dpi.value != [] { NearestIsZero(f.dpi.value, s.dpi.value); }
  }

  /** Applying twice is applying once. */
  lemma ConfiguredIdempotent(s: Settings, f: Features, m: State)
    requires Validated(s)
    ensures Configured(s, f, Configured(s, f, m)) == Configured(s, f, m)
  {
    assert ControlsAfter(s, Configured(s, f, m)) == ControlsAfter(s, m);
  }

  // ---- The log ----

  datatype Cleanup =
    | RestoreSmart(status: SmartStatus)
    | RestoreWheel(mode: WheelMode)
    | RestoreThumb(diverted: bool, inverted: bool)
    | RestoreControl(cid: word, diverted: bool)

  /** The stage of Apply that a clean-up belongs to. */
  datatype Stage = SmartStage | WheelStage | ThumbStage | ControlStage

  function StageOf(x: Cleanup): Stage {
    match x
    case RestoreSmart(_) => SmartStage
    case RestoreWheel(_) => WheelStage
    case RestoreThumb(_, _) => ThumbStage
    case RestoreControl(_, _) => ControlStage
  }

  /** What is restored or not by itself: mode and threshold, torque, the wheel bits, the thumb wheel
      flags, and the diversion of every single control. */
  datatype Part = ModePart | TorquePart | WheelPart | ThumbPart | ControlPart(cid: word)

  predicate Concerns(x: Cleanup, part: Part) {
    match part
    case ModePart => x.RestoreSmart?
    case TorquePart => x.RestoreSmart?
    case WheelPart => x.RestoreWheel?
    case ThumbPart => x.RestoreThumb?
    case ControlPart(cid) => x.RestoreControl? && x.cid == cid
  }

  predicate PartSame(part: Part, a: State, b: State) {
    match part
    case ModePart => a.mode == b.mode && a.threshold == b.threshold
    case TorquePart => a.torque == b.torque
    case WheelPart => a.wheel == b.wheel
    case ThumbPart => a.thumbDiverted == b.thumbDiverted && a.thumbInverted == b.thumbInverted
    case ControlPart(cid) =>
      (cid in a.diverted <==> cid in b.diverted) && (cid in a.diverted ==> a.diverted[cid] == b.diverted[cid])
  }

  /** A clean-up whose calls all go through; a torque outside 1..100 cannot be written back. */
  function Undo(x: Cleanup, m: State): State {
    match x
    case RestoreSmart(status) =>
      var m1 := WithSmart(m, status.mode, status.threshold);
      if status.torqueSupported && ValidTorque(status.torque) then m1.(torque := status.torque) else m1
    case RestoreWheel(mode) => WithWheel(m, mode)
    case RestoreThumb(diverted, inverted) => m.(thumbDiverted := diverted, thumbInverted := inverted)
    case RestoreControl(cid, diverted) => WithControl(m, cid, diverted)
  }

  /** Last in, first out. */
  function UndoAll(log: seq<Cleanup>, m: State): State {
    if log == [] then m else UndoAll(log[..|log| - 1], Undo(log[|log| - 1], m))
  }

  /** The settings a user would notice: everything but DPI, which is never restored, and the
      spare bits of the wheel byte. */
  predicate Same(a: State, b: State) {
    && a.mode == b.mode && a.threshold == b.threshold && a.torque == b.torque
    && a.wheel == b.wheel
    && a.thumbDiverted == b.thumbDiverted && a.thumbInverted == b.thumbInverted
    && a.diverted == b.diverted
  }

  lemma SameIsEveryPart(a: State, b: State)
    ensures Same(a, b) <==> forall part :: PartSame(part, a, b)
  {
    if forall part :: PartSame(part, a, b) {
      assert PartSame(ModePart, a, b) && PartSame(TorquePart, a, b);
      assert PartSame(WheelPart, a, b) && PartSame(ThumbPart, a, b);
      forall cid ensures cid in a.diverted <==> cid in b.diverted
        ensures cid in a.diverted ==> a.diverted[cid] == b.diverted[cid]
      {
        assert PartSame(ControlPart(cid), a, b);
      }
      assert a.diverted == b.diverted;
    }
  }

  /** The clean-up records the present value of its part of the state. */
  predicate IsSnapshot(x: Cleanup, m: State, f: Features) {
    match x
    case RestoreSmart(status) =>
      && f.smartShift.Some? && ValidStatus(m)
      && status.mode == m.mode && status.threshold == m.threshold
      && status.torqueSupported == TorqueSupported(f)
      && (f.smartShift == Some(V2) ==> status.torque == m.torque)
    case RestoreWheel(mode) => mode == m.wheel
    case RestoreThumb(diverted, inverted) => diverted == m.thumbDiverted && inverted == m.thumbInverted
    case RestoreControl(cid, diverted) => cid in m.diverted && diverted == m.diverted[cid]
  }

  predicate Logs(log: seq<Cleanup>, part: Part) {
    exists x | x in log :: Concerns(x, part)
  }

  /** The device holds a torque that its own set command accepts. */
  predicate TorqueRestorable(f: Features, m: State) {
    TorqueSupported(f) && ValidTorque(m.torque)
  }

  /** In this part m differs from `original` only if the log can restore it. */
  predicate Covered(log: seq<Cleanup>, part: Part, m: State, original: State, f: Features) {
    && (part.ControlPart? ==> (part.cid in m.diverted <==> part.cid in original.diverted))
    && (PartSame(part, m, original) || (Logs(log, part) && (part.TorquePart? ==> TorqueRestorable(f, original))))
  }

  /** Running the log backwards brings this part of every covered state back, however it drifted
      meanwhile. */
  ghost predicate Restores(log: seq<Cleanup>, part: Part, original: State, f: Features) {
    forall m {:trigger UndoAll(log, m)} ::
      Covered(log, part, m, original, f) ==> PartSame(part, UndoAll(log, m), original)
  }

  /** The parts that a log covers, before and after it grew. */
  predicate LogGrows(log: seq<Cleanup>, log': seq<Cleanup>, smart: bool, wheel: bool, thumb: bool, cids: set<word>) {
    && (Logs(log', ModePart) <==> Logs(log, ModePart) || smart)
    && (Logs(log', TorquePart) <==> Logs(log, TorquePart) || smart)
    && (Logs(log', WheelPart) <==> Logs(log, WheelPart) || wheel)
    && (Logs(log', ThumbPart) <==> Logs(log, ThumbPart) || thumb)
    && (forall cid :: Logs(log', ControlPart(cid)) <==> Logs(log, ControlPart(cid)) || cid in cids)
  }

  lemma LogsSnoc(log: seq<Cleanup>, x: Cleanup, part: Part)
    ensures Logs(log + [x], part) <==> Logs(log, part) || Concerns(x, part)
  {
    assert x in log + [x];
    forall y | y in log ensures y in log + [x] {}
  }

  lemma LogsPush(log: seq<Cleanup>, x: Cleanup)
    ensures LogGrows(log, log + [x], x.RestoreSmart?, x.RestoreWheel?, x.RestoreThumb?,
                     if x.RestoreControl? then {x.cid} else {})
  {
    LogsSnoc(log, x, ModePart);
    LogsSnoc(log, x, TorquePart);
    LogsSnoc(log, x, WheelPart);
    LogsSnoc(log, x, ThumbPart);
    forall cid ensures Logs(log + [x], ControlPart(cid))
        <==> Logs(log, ControlPart(cid)) || Concerns(x, ControlPart(cid)) {
      LogsSnoc(log, x, ControlPart(cid));
    }
  }

  /** Undoing a snapshot of a covered state leaves the rest to the earlier part of the log. */
  lemma UndoCovered(log: seq<Cleanup>, x: Cleanup, part: Part, m: State, d: State, original: State, f: Features)
    requires Covered(log, part, m, original, f) && IsSnapshot(x, m, f)
    requires Covered(log + [x], part, d, original, f)
    ensures Covered(log, part, Undo(x, d), original, f)
  {
    LogsSnoc(log, x, part);
  }

  /** The write-ahead step: pushing a snapshot keeps the log good for the original state. */
  lemma PushKeepsLog(log: seq<Cleanup>, x: Cleanup, part: Part, m: State, original: State, f: Features)
    requires Restores(log, part, original, f) && Covered(log, part, m, original, f) && IsSnapshot(x, m, f)
    ensures Restores(log + [x], part, original, f) && Covered(log + [x], part, m, original, f)
  {
    LogsSnoc(log, x, part);
    assert (log + [x])[..|log|] == log;
    forall d | Covered(log + [x], part, d, original, f) ensures PartSame(part, UndoAll(log + [x], d), original) {
      UndoCovered(log, x, part, m, d, original, f);
      assert UndoAll(log + [x], d) == UndoAll(log, Undo(x, d));
    }
  }

  predicate StageSame(stage: Stage, m: State, m': State) {
    match stage
    case SmartStage => m.mode == m'.mode && m.threshold == m'.threshold && m.torque == m'.torque
    case WheelStage => m.wheel == m'.wheel
    case ThumbStage => m.thumbDiverted == m'.thumbDiverted && m.thumbInverted == m'.thumbInverted
    case ControlStage => m.diverted == m'.diverted
  }

  /** Everything added to the log belongs to one of the stages and is a snapshot of m. */
  predicate Added(log: seq<Cleanup>, log': seq<Cleanup>, stages: set<Stage>, m: State, f: Features) {
    log <= log' && forall x | x in log'[|log|..] :: StageOf(x) in stages && IsSnapshot(x, m, f)
  }

  /** Snapshots of what an earlier stage left alone are snapshots of the earlier state. */
  lemma AddedCompose(log: seq<Cleanup>, log1: seq<Cleanup>, log2: seq<Cleanup>,
                     stages1: set<Stage>, stages2: set<Stage>, m: State, m1: State, f: Features)
    requires Added(log, log1, stages1, m, f) && Added(log1, log2, stages2, m1, f)
    requires forall stage | stage in stages2 :: StageSame(stage, m, m1)
    ensures Added(log, log2, stages1 + stages2, m, f)
  {
    assert log2[|log|..] == log1[|log|..] + log2[|log1|..];
    forall x | x in log2[|log1|..] ensures IsSnapshot(x, m, f) {
      assert StageSame(StageOf(x), m, m1) && IsSnapshot(x, m1, f);
    }
  }

  lemma GrowsCompose(log: seq<Cleanup>, log1: seq<Cleanup>, log2: seq<Cleanup>, s: Settings)
    requires LogGrows(log, log1, SmartConfigured(s), WheelConfigured(s), false, {})
    requires LogGrows(log1, log2, false, false, ThumbConfigured(s), s.buttons.Keys)
    ensures LogGrows(log, log2, SmartConfigured(s), WheelConfigured(s), ThumbConfigured(s), s.buttons.Keys)
  {
  }

  // ---- Exactly when the log restores ----

  /** The parts that the settings mention. */
  predicate Mentions(s: Settings, part: Part) {
    match part
    case ModePart => SmartConfigured(s)
    case TorquePart => SmartConfigured(s)
    case WheelPart => WheelConfigured(s)
    case ThumbPart => ThumbConfigured(s)
    case ControlPart(cid) => cid in s.buttons
  }

  /** The log that a first, successful Apply leaves: a snapshot of the initial state for each
      configured part. */
  ghost predicate LogFor(log: seq<Cleanup>, s: Settings, f: Features, m: State) {
    && (forall x | x in log :: IsSnapshot(x, m, f))
    && (forall part :: Logs(log, part) <==> Mentions(s, part))
  }

  lemma GrownFromNothing(log: seq<Cleanup>, s: Settings, m: State, f: Features)
    requires LogGrows([], log, SmartConfigured(s), WheelConfigured(s), ThumbConfigured(s), s.buttons.Keys)
    requires Added([], log, {SmartStage, WheelStage} + {ThumbStage, ControlStage}, m, f)
    ensures LogFor(log, s, f, m)
  {
    assert log[0..] == log;
    forall part ensures Logs(log, part) <==> Mentions(s, part) {
      assert !Logs([], part);
      match part case ModePart => case TorquePart => case WheelPart => case ThumbPart => case ControlPart(_) =>
    }
  }

  lemma {:induction false} SnapshotsRestore(log: seq<Cleanup>, part: Part, m: State, f: Features)
    requires forall x | x in log :: IsSnapshot(x, m, f)
    ensures Restores(log, part, m, f) && Covered(log, part, m, m, f)
  {
    if log != [] {
      var earlier := log[..|log| - 1];
      SnapshotsRestore(earlier, part, m, f);
      assert log == earlier + [log[|log| - 1]];
      PushKeepsLog(earlier, log[|log| - 1], part, m, m, f);
    }
  }

  lemma {:induction false} TorqueStays(log: seq<Cleanup>, m: State)
    requires forall x | x in log && x.RestoreSmart? :: !(x.status.torqueSupported && ValidTorque(x.status.torque))
    ensures UndoAll(log, m).torque == m.torque
  {
    if log != [] {
      TorqueStays(log[..|log| - 1], Undo(log[|log| - 1], m));
    }
  }

  /** The guard a caller could check: torque is not configured, not supported, or the device's own
      value is one that can be written back. */
  predicate TorqueSafe(s: Settings, f: Features, m: State) {
    s.smart.torque.None? || !TorqueSupported(f) || ValidTorque(m.torque)
  }

  /** Every part but torque comes back in any case, and torque under its guard. */
  predicate Promised(part: Part, s: Settings, f: Features, m: State) {
    part.TorquePart? ==> TorqueSafe(s, f, m)
  }

  lemma ConfiguredIsCovered(log: seq<Cleanup>, part: Part, s: Settings, f: Features, m: State)
    requires Validated(s) && LogFor(log, s, f, m) && Promised(part, s, f, m)
    ensures Covered(log, part, Configured(s, f, m), m, f)
  {
    assert Logs(log, part) <==> Mentions(s, part);
  }

  lemma UnsafeTorqueStays(log: seq<Cleanup>, s: Settings, f: Features, m: State)
    requires Validated(s) && LogFor(log, s, f, m) && !TorqueSafe(s, f, m)
    ensures UndoAll(log, Configured(s, f, m)).torque == s.smart.torque.value != m.torque
  {
    forall x | x in log && x.RestoreSmart? ensures !(x.status.torqueSupported && ValidTorque(x.status.torque)) {
      assert IsSnapshot(x, m, f);
    }
    TorqueStays(log, Configured(s, f, m));
  }

  /** Apply followed by the whole log gives the initial settings back if and only if the torque
      guard holds. */
  lemma RestoredExactlyWhen(log: seq<Cleanup>, s: Settings, f: Features, m: State)
    requires Validated(s) && LogFor(log, s, f, m)
    ensures Same(UndoAll(log, Configured(s, f, m)), m) <==> TorqueSafe(s, f, m)
    ensures forall part | Promised(part, s, f, m) :: PartSame(part, UndoAll(log, Configured(s, f, m)), m)
  {
    var c := Configured(s, f, m);
    forall part | Promised(part, s, f, m) ensures PartSame(part, UndoAll(log, c), m) {
      SnapshotsRestore(log, part, m, f);
      ConfiguredIsCovered(log, part, s, f, m);
    }
    if TorqueSafe(s, f, m) {
      SameIsEveryPart(UndoAll(log, c), m);
    } else {
      UnsafeTorqueStays(log, s, f, m);
    }
  }

  lemma {:induction false} WheelByteAfterUndo(log: seq<Cleanup>, m: State, d: State, f: Features)
    requires forall x | x in log :: IsSnapshot(x, m, f)
    ensures UndoAll(log, d).wheelSpare == if Logs(log, WheelPart) then 0 else d.wheelSpare
  {
    if log != [] {
      var earlier := log[..|log| - 1];
      var x := log[|log| - 1];
      assert log == earlier + [x];
      LogsSnoc(earlier, x, WheelPart);
      WheelByteAfterUndo(earlier, m, Undo(x, d), f);
    }
  }

  /** The full wheel byte comes back if and only if its unused bits were clear. */
  lemma WheelByteRestoredExactlyWhen(log: seq<Cleanup>, s: Settings, f: Features, m: State)
    requires Validated(s) && LogFor(log, s, f, m)
    ensures UndoAll(log, Configured(s, f, m)).wheelSpare == m.wheelSpare <==> (!WheelConfigured(s) || m.wheelSpare == 0)
  {
    assert Logs(log, WheelPart) <==> Mentions(s, WheelPart);
    WheelByteAfterUndo(log, m, Configured(s, f, m), f);
  }

  // ---- What the configurator keeps ----

  ghost predicate AllCovered(log: seq<Cleanup>, m: State, original: State, s: Settings, f: Features) {
    forall part | Promised(part, s, f, original) :: Covered(log, part, m, original, f)
  }

  ghost predicate AllRestored(log: seq<Cleanup>, original: State, s: Settings, f: Features) {
    forall part | Promised(part, s, f, original) :: Restores(log, part, original, f)
  }

  lemma PushKeepsAll(log: seq<Cleanup>, x: Cleanup, m: State, original: State, s: Settings, f: Features)
    requires AllRestored(log, original, s, f) && AllCovered(log, m, original, s, f) && IsSnapshot(x, m, f)
    ensures AllRestored(log + [x], original, s, f) && AllCovered(log + [x], m, original, s, f)
  {
    forall part | Promised(part, s, f, original)
      ensures Restores(log + [x], part, original, f) && Covered(log + [x], part, m, original, f)
    {
      PushKeepsLog(log, x, part, m, original, f);
    }
  }

  /** A write that changes one logged part, if anything, leaves every part covered. */
  lemma WriteKeepsCovered(log: seq<Cleanup>, changed: Part, m: State, m': State, original: State, s: Settings,
                          f: Features)
    requires AllCovered(log, m, original, s, f) && Logs(log, changed)
    requires changed.TorquePart? && Promised(changed, s, f, original) && m' != m ==> TorqueRestorable(f, original)
    requires m'.diverted.Keys == m.diverted.Keys
    requires forall part | part != changed :: PartSame(part, m, m')
    ensures AllCovered(log, m', original, s, f)
  {
    forall part | Promised(part, s, f, original) ensures Covered(log, part, m', original, f) {
      assert Covered(log, part, m, original, f);
      if part != changed { CoveredMoves(log, part, m, m', original, f); }
    }
  }

  lemma CoveredMoves(log: seq<Cleanup>, part: Part, m: State, m': State, original: State, f: Features)
    requires Covered(log, part, m, original, f) && PartSame(part, m, m')
    ensures Covered(log, part, m', original, f)
  {
  }

  // ---- The configurator ----

  /** Every entry of the log can be run on this device. */
  predicate Runnable(log: seq<Cleanup>, f: Features) {
    forall x | x in log && x.RestoreSmart? ::
      f.smartShift.Some? && x.status.mode in {FREE_SPIN, RATCHET} && x.status.threshold >= 1
      && x.status.torqueSupported == TorqueSupported(f)
  }

  class Configurator {
    const device: Device
    const settings: Settings
    var cleanup: seq<Cleanup>

    /** The state of the device when the configurator was made. */
    ghost const original: State

    /** Holds before and after every operation, however many of its calls failed: the log covers
        all that was changed, and running it backwards gives back the original state, its torque
        under the torque guard and everything else in any case, and the device can be reached for it. */
    ghost predicate Valid()
      reads this, device
    {
      && Validated(settings)
      && Runnable(cleanup, device.features)
      && AllRestored(cleanup, original, settings, device.features)
      && AllCovered(cleanup, device.mouse, original, settings, device.features)
      && ReachAll(cleanup, device.mouse)
    }

    constructor (device: Device, settings: Settings)
      requires Validated(settings)
      ensures Valid() && this.device == device && this.settings == settings
      ensures original == device.mouse && cleanup == []
    {
      this.device, this.settings, cleanup := device, settings, [];
      original := device.mouse;
      new;
      forall part ensures Restores([], part, original, device.features)
        ensures Covered([], part, original, original, device.features)
      {
        SnapshotsRestore([], part, original, device.features);
      }
    }

    /** Records the present value of one part before it is changed. */
    method AddCleanup(x: Cleanup)
      requires Valid() && IsSnapshot(x, device.mouse, device.features)
      modifies this`cleanup
      ensures Valid() && cleanup == old(cleanup) + [x]
      ensures LogGrows(old(cleanup), cleanup, x.RestoreSmart?, x.RestoreWheel?, x.RestoreThumb?,
                       if x.RestoreControl? then {x.cid} else {})
    {
      LogsPush(cleanup, x);
      PushKeepsAll(cleanup, x, device.mouse, original, settings, device.features);
      cleanup := cleanup + [x];
    }

    // Every write below demands that the log already covers what it changes.

    method WriteSmart(mode: byte, threshold: byte) returns (error: Option<Error>)
      requires Valid() && Logs(cleanup, ModePart) && Logs(cleanup, TorquePart) && device.features.smartShift.Some?
      requires mode in {FREE_SPIN, RATCHET} && threshold >= 1
      modifies device
      ensures Valid() && old(device.faults) <= device.faults
      ensures device.mouse == old(device.mouse) || device.mouse == WithSmart(old(device.mouse), mode, threshold)
      ensures error.None? ==> device.mouse == WithSmart(old(device.mouse), mode, threshold)
      ensures device.faults == old(device.faults) && ValidStatus(old(device.mouse)) ==> error.None?
    {
      ghost var m := device.mouse;
      error := device.SetStatus(mode, threshold);
      WriteKeepsCovered(cleanup, ModePart, m, device.mouse, original, settings, device.features);
    }

    method WriteThreshold(threshold: byte) returns (error: Option<Error>)
      requires Valid() && Logs(cleanup, ModePart) && Logs(cleanup, TorquePart)
              && device.features.smartShift.Some? && threshold >= 1
      modifies device
      ensures Valid() && old(device.faults) <= device.faults
      ensures device.mouse == old(device.mouse) || device.mouse == WithSmart(old(device.mouse), 0, threshold)
      ensures error.None? ==> device.mouse == WithSmart(old(device.mouse), 0, threshold)
      ensures device.faults == old(device.faults) && ValidStatus(old(device.mouse)) ==> error.None?
    {
      ghost var m := device.mouse;
      error := device.SetThreshold(threshold);
      WriteKeepsCovered(cleanup, ModePart, m, device.mouse, original, settings, device.features);
    }

    /** A device without torque tuning is not an error. */
    method WriteTorque(torque: byte) returns (error: Option<Error>)
      requires Valid() && Logs(cleanup, ModePart) && Logs(cleanup, TorquePart) && device.features.smartShift.Some?
      requires settings.smart.torque == Some(torque)
      modifies device
      ensures Valid() && old(device.faults) <= device.faults
      ensures device.mouse == old(device.mouse)
              || (TorqueSupported(device.features) && device.mouse == old(device.mouse).(torque := torque))
      ensures error.None? ==>
                device.mouse == old(device.mouse).(torque := TorqueAfter(settings, device.features, old(device.mouse)))
      ensures device.faults == old(device.faults) && ValidStatus(old(device.mouse)) ==> error.None?
    {
      ghost var m := device.mouse;
      error := device.SetTorque(torque);
      WriteKeepsCovered(cleanup, TorquePart, m, device.mouse, original, settings, device.features);
      if error == Some(TorqueUnsupported) { error := None; }
    }

    method WriteWheel(mode: WheelMode) returns (error: Option<Error>)
      requires Valid() && Logs(cleanup, WheelPart)
      modifies device
      ensures Valid() && old(device.faults) <= device.faults && (error.None? <==> device.faults == old(device.faults))
      ensures device.mouse == old(device.mouse) || device.mouse == WithWheel(old(device.mouse), mode)
      ensures error.None? ==> device.mouse == WithWheel(old(device.mouse), mode)
    {
      ghost var m := device.mouse;
      error := device.SetMode(mode);
      WriteKeepsCovered(cleanup, WheelPart, m, device.mouse, original, settings, device.features);
    }

    method WriteThumb(diverted: bool, inverted: bool) returns (error: Option<Error>)
      requires Valid() && Logs(cleanup, ThumbPart)
      modifies device
      ensures Valid() && old(device.faults) <= device.faults && (error.None? <==> device.faults == old(device.faults))
      ensures device.mouse == old(device.mouse)
              || device.mouse == old(device.mouse).(thumbDiverted := diverted, thumbInverted := inverted)
      ensures error.None? ==> device.mouse == old(device.mouse).(thumbDiverted := diverted, thumbInverted := inverted)
    {
      ghost var m := device.mouse;
      error := device.SetReporting(diverted, inverted);
      WriteKeepsCovered(cleanup, ThumbPart, m, device.mouse, original, settings, device.features);
    }

    method WriteControl(cid: word, diverted: bool) returns (error: Option<Error>)
      requires Valid() && Logs(cleanup, ControlPart(cid))
      modifies device
      ensures Valid() && old(device.faults) <= device.faults
      ensures device.mouse == old(device.mouse) || device.mouse == WithControl(old(device.mouse), cid, diverted)
      ensures error.None? ==>
                cid in device.mouse.diverted && device.mouse == WithControl(old(device.mouse), cid, diverted)
      ensures device.faults == old(device.faults) ==> (error.None? <==> cid in old(device.mouse).diverted)
      ensures device.faults == old(device.faults) && error.Some? ==> error.value == CallFailed
    {
      ghost var m := device.mouse;
      error := device.SetTemporaryDiversion(cid, diverted);
      WriteKeepsCovered(cleanup, ControlPart(cid), m, device.mouse, original, settings, device.features);
    }

    method ApplySmartShift() returns (error: Option<Error>)
      requires Valid()
      modifies this`cleanup, device
      ensures error.None? ==> LogGrows(old(cleanup), cleanup, SmartConfigured(settings), false, false, {})
      ensures Valid() && old(device.faults) <= device.faults
      ensures Added(old(cleanup), cleanup, {SmartStage}, old(device.mouse), device.features)
      ensures SmartDone(settings, device.features, old(device.mouse), device.mouse, error,
                        device.faults == old(device.faults))
    {
      var setting := settings.smart;
      if setting.enabled.None? && setting.threshold.None? && setting.torque.None? { return None; }
      if device.features.smartShift.None? { return Some(NoFeature); }
      var status := device.GetStatus();
      if status.Err? { return Some(status.error); }
      var mode, threshold := 0, 0;
      if setting.enabled.Some? {
        var resolved := ResolveSmartShift(setting.enabled.value, setting.threshold, status.value.threshold);
        if resolved.Err? { return Some(resolved.error); }
        mode, threshold := resolved.value.0, resolved.value.1;
      } else if setting.threshold.Some? && (setting.threshold.value < 1 || setting.threshold.value > 255) {
        return Some(InvalidConfig);
      }
      AddCleanup(RestoreSmart(status.value));
      error := ChangeSmart(mode, threshold);
      if error.None? { SmartFieldsOf(settings, device.features, old(device.mouse), device.mouse); }
    }

    /** Sets mode and threshold, or the threshold alone with the mode left to the device. */
    method ChangeMode(mode: byte, threshold: byte) returns (error: Option<Error>)
      requires Valid() && Logs(cleanup, ModePart) && Logs(cleanup, TorquePart)
              && device.features.smartShift.Some? && ValidStatus(device.mouse)
      requires settings.smart.enabled.Some? ==>
                 mode == ModeAfter(settings, device.mouse) && threshold == ThresholdAfter(settings, device.mouse)
      modifies device
      ensures Valid() && old(device.faults) <= device.faults && ValidStatus(device.mouse)
      ensures var m, target := old(device.mouse),
                old(device.mouse).(mode := ModeAfter(settings, old(device.mouse)),
                                   threshold := ThresholdAfter(settings, old(device.mouse)));
              && (device.mouse == m || device.mouse == target)
              && (error.None? ==> device.mouse == target)
      ensures device.faults == old(device.faults) ==> error == None
    {
      if settings.smart.enabled.Some? {
        error := WriteSmart(mode, threshold);
      } else if settings.smart.threshold.Some? {
        error := WriteThreshold(settings.smart.threshold.value);
      } else {
        error := None;
      }
    }

    /** The writes of the SmartShift stage, after its snapshot is on the log. */
    method ChangeSmart(mode: byte, threshold: byte) returns (error: Option<Error>)
      requires Valid() && Logs(cleanup, ModePart) && Logs(cleanup, TorquePart)
              && device.features.smartShift.Some? && ValidStatus(device.mouse)
      requires SmartConfigured(settings)
      requires settings.smart.enabled.Some? ==>
                 mode == ModeAfter(settings, device.mouse) && threshold == ThresholdAfter(settings, device.mouse)
      modifies device
      ensures Valid() && SmartKept(settings, old(device.mouse), device.mouse) && old(device.faults) <= device.faults
      ensures var m, m' := old(device.mouse), device.mouse;
              && m' == m.(mode := m'.mode, threshold := m'.threshold, torque := m'.torque)
              && (error.None? ==>
                    && m'.mode == ModeAfter(settings, m) && m'.threshold == ThresholdAfter(settings, m)
                    && m'.torque == TorqueAfter(settings, device.features, m))
      ensures device.faults == old(device.faults) ==> error == None
    {
      error := ChangeMode(mode, threshold);
      if error.Some? { return; }
      if settings.smart.torque.Some? {
        error := WriteTorque(settings.smart.torque.value);
        if error.Some? { return; }
      }
      return None;
    }

    method ApplyWheel() returns (error: Option<Error>)
      requires Valid()
      modifies this`cleanup, device
      ensures error.None? ==> LogGrows(old(cleanup), cleanup, false, WheelConfigured(settings), false, {})
      ensures Valid() && old(device.faults) <= device.faults
      ensures Added(old(cleanup), cleanup, {WheelStage}, old(device.mouse), device.features)
      ensures WheelDone(settings, device.features, old(device.mouse), device.mouse, error,
                        device.faults == old(device.faults))
    {
      if settings.wheel.None? { return None; }
      var setting := settings.wheel.value;
      if !device.features.wheel { return Some(NoFeature); }
      var current := device.GetMode();
      if current.Err? { return Some(current.error); }
      var mode := LogWheel(setting, current.value);
      if setting.enabled.Some? || setting.invert.Some? {
        error := WriteWheel(mode);
        if error.Some? { return; }
      }
      return None;
    }

    /** Pushes one snapshot if anything is configured, and computes the mode to set. */
    method LogWheel(setting: WheelSetting, current: WheelMode) returns (mode: WheelMode)
      requires Valid() && settings.wheel == Some(setting) && current == device.mouse.wheel
      modifies this`cleanup
      ensures LogGrows(old(cleanup), cleanup, false, WheelConfigured(settings), false, {})
      ensures Valid() && mode == WheelAfter(settings, device.mouse)
      ensures cleanup == old(cleanup) + if WheelConfigured(settings) then [RestoreWheel(current)] else []
    {
      mode := current;
      if setting.enabled.Some? {
        AddCleanup(RestoreWheel(mode));
        mode := mode.(useHidpp := setting.enabled.value, highResolution := setting.enabled.value);
      }
      if setting.invert.Some? {
        if setting.enabled.None? { AddCleanup(RestoreWheel(mode)); }
        mode := mode.(invert := setting.invert.value);
      }
    }

    method ApplyDpi() returns (error: Option<Error>)
      requires Valid()
      modifies this`cleanup, device
      ensures Valid() && old(device.faults) <= device.faults
      ensures cleanup == old(cleanup)
      ensures DpiDone(settings, device.features, old(device.mouse), device.mouse, error,
                      device.faults == old(device.faults))
    {
      if settings.dpi.None? { return None; }
      if device.features.dpi.None? { return Some(NoFeature); }
      error := device.SetNearest(settings.dpi.value);
      if error.None? {
        var values := device.features.dpi.value;
        DpiList.NothingIsNearer(values, settings.dpi.value, DpiList.Nearest(values, settings.dpi.value));
      }
    }

    method ApplyThumbWheel() returns (error: Option<Error>)
      requires Valid()
      modifies this`cleanup, device
      ensures error.None? ==> LogGrows(old(cleanup), cleanup, false, false, ThumbConfigured(settings), {})
      ensures Valid() && old(device.faults) <= device.faults
      ensures Added(old(cleanup), cleanup, {ThumbStage}, old(device.mouse), device.features)
      ensures ThumbDone(settings, device.features, old(device.mouse), device.mouse, error,
                        device.faults == old(device.faults))
    {
      if settings.thumb.None? { return None; }
      var setting := settings.thumb.value;
      if !device.features.thumb { return Some(NoFeature); }
      var status := device.ThumbStatus();
      if status.Err? { return Some(status.error); }
      var reporting := LogThumb(setting, status.value);
      if setting.divert.Some? || setting.invert.Some? {
        error := WriteThumb(reporting.0, reporting.1);
        if error.Some? { return; }
      }
      return None;
    }

    /** Pushes one snapshot if anything is configured, and computes the flags to set. */
    method LogThumb(setting: ThumbSetting, current: (bool, bool)) returns (reporting: (bool, bool))
      requires Valid() && settings.thumb == Some(setting)
      requires current == (device.mouse.thumbDiverted, device.mouse.thumbInverted)
      modifies this`cleanup
      ensures LogGrows(old(cleanup), cleanup, false, false, ThumbConfigured(settings), {})
      ensures Valid() && reporting == (DivertAfter(settings, device.mouse), InvertAfter(settings, device.mouse))
      ensures cleanup == old(cleanup) + if ThumbConfigured(settings) then [RestoreThumb(current.0, current.1)] else []
    {
      var (diverted, inverted) := current;
      if setting.divert.Some? {
        AddCleanup(RestoreThumb(diverted, inverted));
        diverted := setting.divert.value;
      }
      if setting.invert.Some? {
        if setting.divert.None? { AddCleanup(RestoreThumb(diverted, inverted)); }
        inverted := setting.invert.value;
      }
      reporting := (diverted, inverted);
    }

    method ApplyButtons() returns (error: Option<Error>)
      requires Valid()
      modifies this`cleanup, device
      ensures error.None? ==> LogGrows(old(cleanup), cleanup, false, false, false, settings.buttons.Keys)
      ensures Valid() && old(device.faults) <= device.faults
      ensures Added(old(cleanup), cleanup, {ControlStage}, old(device.mouse), device.features)
      ensures ButtonsDone(settings, device.features, old(device.mouse), device.mouse, error,
                          device.faults == old(device.faults))
    {
      if |settings.buttons| == 0 { return None; }
      if !device.features.controls { return Some(NoFeature); }
      error := ApplyEachButton();
      if error.None? {
        assert device.mouse.diverted == ControlsAfter(settings, old(device.mouse));
      }
    }

    /** The controls in any order: Go iterates over the map of buttons as it likes. */
    method ApplyEachButton() returns (error: Option<Error>)
      requires Valid()
      modifies this`cleanup, device
      ensures error.None? ==> LogGrows(old(cleanup), cleanup, false, false, false, settings.buttons.Keys)
      ensures Valid() && old(device.faults) <= device.faults
      ensures Added(old(cleanup), cleanup, {ControlStage}, old(device.mouse), device.features)
      ensures ControlsKept(settings, old(device.mouse), device.mouse)
      ensures device.mouse == old(device.mouse).(diverted := device.mouse.diverted)
      ensures error.None? ==> settings.buttons.Keys <= old(device.mouse).diverted.Keys
                              && ControlsSet(settings, settings.buttons.Keys, old(device.mouse), device.mouse)
      ensures device.faults == old(device.faults) && error.Some? ==> error.value == CallFailed
      ensures device.faults == old(device.faults) && settings.buttons.Keys <= old(device.mouse).diverted.Keys ==>
                error.None?
    {
      ghost var m := device.mouse;
      ghost var done: set<word> := {};
      var cids := settings.buttons.Keys;
      while cids != {}
        invariant cids <= settings.buttons.Keys && done == settings.buttons.Keys - cids && done <= m.diverted.Keys
        invariant Valid() && old(device.faults) <= device.faults
        invariant Added(old(cleanup), cleanup, {ControlStage}, m, device.features)
        invariant LogGrows(old(cleanup), cleanup, false, false, false, done)
        invariant ControlsSet(settings, done, m, device.mouse)
        decreases |cids|
      {
        var cid :| cid in cids;
        error := ApplyButton(cid, m, done);
        if error.Some? { return; }
        cids, done := cids - {cid}, done + {cid};
      }
      return None;
    }

    method ApplyButton(cid: word, ghost m: State, ghost done: set<word>) returns (error: Option<Error>)
      requires Valid() && cid in settings.buttons && cid !in done && ControlsSet(settings, done, m, device.mouse)
      modifies this`cleanup, device
      ensures Valid() && old(device.faults) <= device.faults
      ensures Added(old(cleanup), cleanup, {ControlStage}, m, device.features)
      ensures ControlsKept(settings, m, device.mouse) && device.mouse == m.(diverted := device.mouse.diverted)
      ensures error.None? ==> cid in m.diverted && ControlsSet(settings, done + {cid}, m, device.mouse)
                              && LogGrows(old(cleanup), cleanup, false, false, false, {cid})
      ensures device.faults == old(device.faults) && error.Some? ==> error.value == CallFailed
      ensures device.faults == old(device.faults) && cid in m.diverted ==> error.None?
    {
      ghost var m1 := device.mouse;
      var original := device.Reporting(cid);
      if original.Err? { return Some(original.error); }
      AddCleanup(RestoreControl(cid, original.value));
      error := WriteControl(cid, settings.buttons[cid]);
      ControlStep(settings, done, cid, m, m1, device.mouse);
    }

    /** Applies the settings in order and stops at the first error. After a success every field that is
        present has its value and every other one is as it was. */
    method Apply() returns (error: Option<Error>)
      requires Valid()
      modifies this`cleanup, device
      ensures error.None? ==> FieldsHold(settings, device.features, old(device.mouse), device.mouse)
      ensures InOrder(settings, device.features, old(device.mouse), device.mouse)
      ensures device.faults == old(device.faults) ==>
                (error.None? <==> Offered(settings, device.features, old(device.mouse))
                                  && !ZeroIsNearest(settings, device.features))
      ensures Valid() && old(device.faults) <= device.faults
      ensures OnlyTouches(settings, old(device.mouse), device.mouse)
      ensures error.None? ==> device.mouse == Configured(settings, device.features, old(device.mouse))
      ensures device.faults == old(device.faults) ==>
                error == ExpectedError(settings, device.features, old(device.mouse))
      ensures error.None? && old(cleanup) == [] ==>
                LogFor(cleanup, settings, device.features, old(device.mouse))
    {
      ExpectedErrorMeans(settings, device.features, device.mouse);
      error := ApplyStages();
      if error.None? { ConfiguredFieldsHold(settings, device.features, old(device.mouse)); }
      if error.None? && old(cleanup) == [] {
        GrownFromNothing(cleanup, settings, old(device.mouse), device.features);
      }
    }

    method ApplyStages() returns (error: Option<Error>)
      requires Valid()
      modifies this`cleanup, device
      ensures Valid() && old(device.faults) <= device.faults
      ensures StagesDone(settings, device.features, old(device.mouse), device.mouse, error,
                         device.faults == old(device.faults))
      ensures error.None? ==>
                && Added(old(cleanup), cleanup, {SmartStage, WheelStage} + {ThumbStage, ControlStage},
                         old(device.mouse), device.features)
                && LogGrows(old(cleanup), cleanup, SmartConfigured(settings), WheelConfigured(settings),
                            ThumbConfigured(settings), settings.buttons.Keys)
    {
      ghost var m0, faults0 := device.mouse, device.faults;
      error := ApplyWheels();
      if error.Some? {
        WheelsStop(settings, device.features, m0, device.mouse, error, device.faults == faults0);
        return;
      }
      ghost var log, m := cleanup, device.mouse;
      error := ApplyRest();
      StagesCompose(settings, device.features, m0, m, device.mouse, error, device.faults == faults0);
      if error.None? {
        AddedCompose(old(cleanup), log, cleanup, {SmartStage, WheelStage}, {ThumbStage, ControlStage},
                     old(device.mouse), m, device.features);
        GrowsCompose(old(cleanup), log, cleanup, settings);
      }
    }

    /** The first two stages of Apply. */
    method ApplyWheels() returns (error: Option<Error>)
      requires Valid()
      modifies this`cleanup, device
      ensures Valid() && old(device.faults) <= device.faults
      ensures WheelsDone(settings, device.features, old(device.mouse), device.mouse, error,
                         device.faults == old(device.faults))
      ensures error.None? ==>
                && Added(old(cleanup), cleanup, {SmartStage, WheelStage}, old(device.mouse), device.features)
                && LogGrows(old(cleanup), cleanup, SmartConfigured(settings), WheelConfigured(settings), false, {})
    {
      ghost var m0, faults0 := device.mouse, device.faults;
      error := ApplySmartShift();
      if error.Some? {
        SmartStops(settings, device.features, m0, device.mouse, error, device.faults == faults0);
        return;
      }
      ghost var log, m := cleanup, device.mouse;
      error := ApplyWheel();
      WheelsCompose(settings, device.features, m0, m, device.mouse, error, device.faults == faults0);
      AddedCompose(old(cleanup), log, cleanup, {SmartStage}, {WheelStage}, old(device.mouse), m, device.features);
    }

    /** The other three. */
    method ApplyRest() returns (error: Option<Error>)
      requires Valid()
      modifies this`cleanup, device
      ensures Valid() && old(device.faults) <= device.faults
      ensures RestDone(settings, device.features, old(device.mouse), device.mouse, error,
                       device.faults == old(device.faults))
      ensures error.None? ==>
                && Added(old(cleanup), cleanup, {ThumbStage, ControlStage}, old(device.mouse), device.features)
                && LogGrows(old(cleanup), cleanup, false, false, ThumbConfigured(settings), settings.buttons.Keys)
    {
      ghost var m0, faults0 := device.mouse, device.faults;
      error := ApplyDpi();
      if error.Some? {
        DpiStops(settings, device.features, m0, device.mouse, error, device.faults == faults0);
        return;
      }
      ghost var m1 := device.mouse;
      error := ApplyThumbWheel();
      if error.Some? {
        ThumbStops(settings, device.features, m0, m1, device.mouse, error, device.faults == faults0);
        return;
      }
      ghost var log, m := cleanup, device.mouse;
      error := ApplyButtons();
      RestComposes(settings, device.features, m0, m1, m, device.mouse, error, device.faults == faults0);
      AddedCompose(old(cleanup), log, cleanup, {ThumbStage}, {ControlStage}, old(device.mouse), m, device.features);
    }

    // ---- Close ----

    /** One clean-up and its fall-back: a wheel, thumb wheel or control that cannot be restored is
        at least handed back to the firmware. Returns the parts whose calls reported an error. */
    method RunCleanup(x: Cleanup) returns (failed: set<Part>)
      requires Runnable([x], device.features)
      modifies device
      ensures CleanedUp(x, failed, old(device.mouse), device.mouse, device.faults - old(device.faults))
      ensures HandedBack(x, failed, old(device.mouse), device.mouse, device.faults - old(device.faults))
      ensures failed != {} && device.faults == old(device.faults) + 1 ==>
                match x
                case RestoreSmart(_) => true
                case RestoreWheel(mode) => device.mouse.wheel == WheelMode(false, false, mode.invert)
                case RestoreThumb(_, inverted) => !device.mouse.thumbDiverted && device.mouse.thumbInverted == inverted
                case RestoreControl(cid, _) => cid in device.mouse.diverted ==> !device.mouse.diverted[cid]
    {
      assert x in [x];
      match x
      case RestoreSmart(status) => failed := RunSmartCleanup(status);
      case RestoreWheel(mode) => failed := RunWheelCleanup(mode);
      case RestoreThumb(diverted, inverted) => failed := RunThumbCleanup(diverted, inverted);
      case RestoreControl(cid, diverted) => failed := RunControlCleanup(cid, diverted);
    }

    /** Mode and threshold first, then torque whether or not that went through. */
    method RunSmartCleanup(status: SmartStatus) returns (failed: set<Part>)
      requires Runnable([RestoreSmart(status)], device.features)
      modifies device
      ensures CleanedUp(RestoreSmart(status), failed, old(device.mouse), device.mouse,
                device.faults - old(device.faults))
    {
      assert RestoreSmart(status) in [RestoreSmart(status)];
      ghost var m, faults := device.mouse, device.faults;
      var error := device.SetStatus(status.mode, status.threshold);
      ghost var m1, faults1 := device.mouse, device.faults;
      failed := if error.Some? then {ModePart} else {};
      if status.torqueSupported {
        error := device.SetTorque(status.torque);
        if error.Some? { failed := failed + {TorquePart}; }
      }
      SmartCleaned(status, failed, m, m1, device.mouse, faults1 - faults, device.faults - faults1);
    }

    method RunWheelCleanup(mode: WheelMode) returns (failed: set<Part>)
      modifies device
      ensures CleanedUp(RestoreWheel(mode), failed, old(device.mouse), device.mouse, device.faults - old(device.faults))
      ensures HandedBack(RestoreWheel(mode), failed, old(device.mouse), device.mouse,
                device.faults - old(device.faults))
    {
      ghost var m, faults := device.mouse, device.faults;
      failed := {};
      var error := device.SetMode(mode);
      if error.Some? {
        failed := {WheelPart};
        error := device.SetMode(mode.(useHidpp := false, highResolution := false));
      }
      CleanedOrNot(RestoreWheel(mode), WheelPart, failed, m, device.mouse, device.faults - faults);
    }

    method RunThumbCleanup(diverted: bool, inverted: bool) returns (failed: set<Part>)
      modifies device
      ensures var x, faults := RestoreThumb(diverted, inverted), device.faults - old(device.faults);
              && CleanedUp(x, failed, old(device.mouse), device.mouse, faults)
              && HandedBack(x, failed, old(device.mouse), device.mouse, faults)
    {
      ghost var m, faults := device.mouse, device.faults;
      failed := {};
      var error := device.SetReporting(diverted, inverted);
      if error.Some? {
        failed := {ThumbPart};
        error := device.SetReporting(false, inverted);
      }
      CleanedOrNot(RestoreThumb(diverted, inverted), ThumbPart, failed, m, device.mouse, device.faults - faults);
    }

    method RunControlCleanup(cid: word, diverted: bool) returns (failed: set<Part>)
      modifies device
      ensures var x, faults := RestoreControl(cid, diverted), device.faults - old(device.faults);
              && CleanedUp(x, failed, old(device.mouse), device.mouse, faults)
              && HandedBack(x, failed, old(device.mouse), device.mouse, faults)
    {
      ghost var m, faults := device.mouse, device.faults;
      failed := {};
      var error := device.SetTemporaryDiversion(cid, diverted);
      if error.Some? {
        failed := {ControlPart(cid)};
        error := device.SetTemporaryDiversion(cid, false);
      }
      CleanedOrNot(RestoreControl(cid, diverted), ControlPart(cid), failed, m, device.mouse, device.faults - faults);
    }

    /** Runs the log backwards once; a clean-up that fails does not stop the others. Returns the
        parts whose clean-up reported an error: all others are back at their original values, the
        calls that failed spoil at most one part each, and when no call fails everything that can
        be written is back and exactly a torque that cannot be written is reported. */
    method Close() returns (failed: set<Part>)
      requires Valid()
      modifies this`cleanup, device
      ensures cleanup == [] && old(device.faults) <= device.faults
      ensures forall part | part !in failed ::
                PartSame(part, device.mouse, UndoAll(old(cleanup), old(device.mouse)))
      ensures forall part | part !in failed && Promised(part, settings, device.features, original) ::
                PartSame(part, device.mouse, original)
      ensures device.faults == old(device.faults) ==>
                && device.mouse == UndoAll(old(cleanup), old(device.mouse))
                && forall part | Promised(part, settings, device.features, original) ::
                     PartSame(part, device.mouse, original)
      ensures |failed - Unwritable(old(cleanup))| <= device.faults - old(device.faults)
      ensures device.faults == old(device.faults) ==> failed == Unwritable(old(cleanup))
    {
      var log := cleanup;
      ghost var m0, faults0 := device.mouse, device.faults;
      cleanup := [];
      failed := RunLog(log);
      Closed(log, m0, device.mouse, failed, device.faults - faults0, original, settings, device.features);
    }

    /** The loop of Close. */
    method RunLog(log: seq<Cleanup>) returns (failed: set<Part>)
      requires Runnable(log, device.features)
      modifies device
      ensures Closing(log, 0, old(device.mouse), device.mouse, failed, device.faults - old(device.faults))
    {
      failed := {};
      ghost var m0, faults0 := device.mouse, device.faults;
      var index := |log|;
      assert log[..index] == log;
      while index > 0
        invariant 0 <= index <= |log|
        invariant Closing(log, index, m0, device.mouse, failed, device.faults - faults0)
      {
        index := index - 1;
        assert log[index] in log;
        ghost var m, faults := device.mouse, device.faults;
        var more := RunCleanup(log[index]);
        ClosingStep(log, index, m0, m, device.mouse, failed, more, faults - faults0, device.faults - faults);
        failed := failed + more;
      }
    }
  }

  /** Halfway through the log: from m0 to m, with these parts and so many calls failed. */
  ghost predicate Closing(log: seq<Cleanup>, index: nat, m0: State, m: State, failed: set<Part>, faults: int)
    requires index <= |log|
  {
    && faults >= 0
    && (forall part | part !in failed :: PartSame(part, UndoAll(log[..index], m), UndoAll(log, m0)))
    && (faults == 0 && ReachAll(log, m0) ==> UndoAll(log[..index], m) == UndoAll(log, m0))
    && (ReachAll(log, m0) ==> |failed - Unwritable(log)| <= faults)
    && (faults == 0 && ReachAll(log, m0) ==> failed == Unwritable(log[index..]))
    && (ValidStatus(m0) ==> ValidStatus(m))
    && m.diverted.Keys == m0.diverted.Keys
  }

  lemma ClosingStep(log: seq<Cleanup>, index: nat, m0: State, m: State, m': State, failed: set<Part>,
                    more: set<Part>, faults: int, moreFaults: int)
    requires index < |log| && Closing(log, index + 1, m0, m, failed, faults)
    requires CleanedUp(log[index], more, m, m', moreFaults)
    ensures Closing(log, index, m0, m', failed + more, faults + moreFaults)
  {
    var x := log[index];
    assert x in log;
    LastUndo(log, index, m, m', more);
    UnwritableCons(log, index);
    CountUnion(failed, more, log, x);
    assert ReachAll(log, m0) ==> Reach(x, m);
    forall part | part !in failed + more
      ensures PartSame(part, UndoAll(log[..index], m'), UndoAll(log, m0))
    {
      assert PartSame(part, UndoAll(log[..index + 1], m), UndoAll(log, m0));
      PartTransitive(part, UndoAll(log[..index], m'), UndoAll(log[..index + 1], m), UndoAll(log, m0));
    }
  }

  lemma UnwritableCons(log: seq<Cleanup>, index: nat)
    requires index < |log|
    ensures Unwritable(log[index..]) == Unwritable(log[index + 1..]) + Excused(log[index])
  {
    assert log[index..] == [log[index]] + log[index + 1..];
  }

  /** The whole log has been run from m0 to m. */
  lemma Closed(log: seq<Cleanup>, m0: State, m: State, failed: set<Part>, faults: int, original: State,
               settings: Settings, f: Features)
    requires Closing(log, 0, m0, m, failed, faults) && ReachAll(log, m0)
    requires AllCovered(log, m0, original, settings, f)
    requires AllRestored(log, original, settings, f)
    ensures forall part | part !in failed :: PartSame(part, m, UndoAll(log, m0))
    ensures forall part | Promised(part, settings, f, original) :: PartSame(part, UndoAll(log, m0), original)
    ensures forall part | part !in failed && Promised(part, settings, f, original) :: PartSame(part, m, original)
    ensures faults == 0 ==> m == UndoAll(log, m0)
    ensures |failed - Unwritable(log)| <= faults
    ensures faults == 0 ==> failed == Unwritable(log)
  {
    assert log[..0] == [] && log[0..] == log;
  }

  lemma PartTransitive(part: Part, a: State, b: State, c: State)
    requires PartSame(part, a, b) && PartSame(part, b, c)
    ensures PartSame(part, a, c)
  {
  }

  /** Clean-ups whose calls get through to the part they concern. */
  predicate ReachAll(log: seq<Cleanup>, m: State) {
    forall x | x in log :: Reach(x, m)
  }

  predicate Reach(x: Cleanup, m: State) {
    match x
    case RestoreSmart(_) => ValidStatus(m)
    case RestoreControl(cid, _) => cid in m.diverted
    case _ => true
  }

  /** Torque, when the recorded value is one that the device does not accept. */
  function Excused(x: Cleanup): set<Part> {
    if x.RestoreSmart? && x.status.torqueSupported && !ValidTorque(x.status.torque) then {TorquePart} else {}
  }

  function Unwritable(log: seq<Cleanup>): set<Part> {
    if exists x | x in log :: TorquePart in Excused(x) then {TorquePart} else {}
  }

  /** Every failed part costs a failed call but for what is excused, which is reported in any case. */
  predicate Accounted(failed: set<Part>, excused: set<Part>, faults: int) {
    |failed - excused| <= faults && (faults == 0 ==> failed == excused)
  }

  /** From m to m' with so many failed calls: every part but the failed ones is undone, failed calls
      account for the failed parts one by one, and without any everything within reach is undone,
      with no report but that of a torque that cannot be written. */
  ghost predicate CleanedUp(x: Cleanup, failed: set<Part>, m: State, m': State, faults: int) {
    && faults >= 0
    && (forall part | part !in failed :: PartSame(part, m', Undo(x, m)))
    && (faults == 0 && Reach(x, m) ==> m' == Undo(x, m))
    && (Reach(x, m) ==> Accounted(failed, Excused(x), faults))
    && (ValidStatus(m) ==> ValidStatus(m'))
    && m'.diverted.Keys == m.diverted.Keys
  }

  /** If nothing but the first call failed, the fall-back has taken effect. */
  predicate HandedBack(x: Cleanup, failed: set<Part>, m: State, m': State, faults: int) {
    failed != {} && faults == 1 && HasFallBack(x, m) ==> m' == FallBack(x, m)
  }

  /** A clean-up and its fall-back write the same part. */
  lemma CleanedOrNot(x: Cleanup, part: Part, failed: set<Part>, m: State, m': State, faults: nat)
    requires !x.RestoreSmart? && Concerns(x, part) && failed in {{}, {part}}
    requires m' == m || m' == Undo(x, m) || m' == FallBack(x, m)
    requires failed == {} ==> m' == Undo(x, m)
    requires failed != {} && Reach(x, m) ==> faults > 0
    ensures CleanedUp(x, failed, m, m', faults)
  {
    CleanedOrNotCounted(part, failed, faults, Reach(x, m));
    forall other | other !in failed ensures PartSame(other, m', Undo(x, m)) {
      if failed != {} { OtherPartsStay(x, part, other, m, m'); }
    }
  }

  lemma CleanedOrNotCounted(part: Part, failed: set<Part>, faults: nat, reach: bool)
    requires failed in {{}, {part}} && (failed != {} && reach ==> faults > 0)
    ensures reach ==> Accounted(failed, {}, faults)
  {
    assert failed - {} == failed;
  }

  lemma OtherPartsStay(x: Cleanup, part: Part, other: Part, m: State, m': State)
    requires !x.RestoreSmart? && Concerns(x, part) && other != part
    requires m' == m || m' == Undo(x, m) || m' == FallBack(x, m)
    ensures PartSame(other, m', Undo(x, m))
  {
  }

  lemma SmartCleaned(status: SmartStatus, failed: set<Part>, m: State, m1: State, m2: State, faults1: nat, faults2: nat)
    requires status.mode in {FREE_SPIN, RATCHET} && status.threshold >= 1 && failed <= {ModePart, TorquePart}
    requires m1 == m || m1 == WithSmart(m, status.mode, status.threshold)
    requires ModePart !in failed ==> m1 == WithSmart(m, status.mode, status.threshold)
    requires ModePart in failed && ValidStatus(m) ==> faults1 > 0
    requires m2 == m1 || (status.torqueSupported && ValidTorque(status.torque) && m2 == m1.(torque := status.torque))
    requires TorquePart !in failed && status.torqueSupported ==>
               ValidTorque(status.torque) && m2 == m1.(torque := status.torque)
    requires TorquePart in failed ==> status.torqueSupported
    requires TorquePart in failed && ValidStatus(m1) && ValidTorque(status.torque) ==> faults2 > 0
    ensures CleanedUp(RestoreSmart(status), failed, m, m2, faults1 + faults2)
  {
    var x := RestoreSmart(status);
    SmartParts(x, failed, m, m1, m2);
    if Reach(x, m) { SmartCounted(failed, Excused(x), faults1, faults2); }
  }

  lemma SmartCounted(failed: set<Part>, excused: set<Part>, faults1: nat, faults2: nat)
    requires excused <= failed <= {ModePart, TorquePart} && excused <= {TorquePart}
    requires ModePart in failed ==> faults1 > 0
    requires TorquePart in failed && TorquePart !in excused ==> faults2 > 0
    ensures Accounted(failed, excused, faults1 + faults2)
  {
    var left := failed - excused;
    if ModePart in left {
      assert left == if TorquePart in left then {ModePart, TorquePart} else {ModePart};
    } else if TorquePart in left {
      assert left == {TorquePart};
    } else {
      assert left == {} && failed == excused;
    }
  }

  lemma SmartParts(x: Cleanup, failed: set<Part>, m: State, m1: State, m2: State)
    requires x.RestoreSmart? && m2 == m1.(torque := m2.torque)
    requires m1 == m || m1 == WithSmart(m, x.status.mode, x.status.threshold)
    requires ModePart !in failed ==> m1 == WithSmart(m, x.status.mode, x.status.threshold)
    requires TorquePart !in failed ==> m2.torque == Undo(x, m).torque
    ensures forall part | part !in failed :: PartSame(part, m2, Undo(x, m))
  {
    forall part | part !in failed ensures PartSame(part, m2, Undo(x, m)) {
      match part case ModePart => case TorquePart => case WheelPart => case ThumbPart => case ControlPart(_) =>
    }
  }

  lemma CountUnion(failed: set<Part>, more: set<Part>, log: seq<Cleanup>, x: Cleanup)
    requires x in log
    ensures |failed + more - Unwritable(log)| <= |failed - Unwritable(log)| + |more - Excused(x)|
  {
    var a, b, both := failed - Unwritable(log), more - Excused(x), failed + more - Unwritable(log);
    assert both <= a + b;
    CountSubset(both, a + b);
    assert |a + b| + |a * b| == |a| + |b|;
  }

  lemma {:induction false} CountSubset(a: set<Part>, b: set<Part>)
    requires a <= b
    ensures |a| <= |b|
  {
    assert b == a + (b - a);
  }

  /** What the log does to one part depends on that part only: a clean-up that went wrong spoils no
      other part. */
  lemma LastUndo(log: seq<Cleanup>, index: nat, m: State, m': State, failed: set<Part>)
    requires index < |log|
    requires forall part | part !in failed :: PartSame(part, m', Undo(log[index], m))
    ensures UndoAll(log[..index + 1], m) == UndoAll(log[..index], Undo(log[index], m))
    ensures forall part | part !in failed ::
              PartSame(part, UndoAll(log[..index], m'), UndoAll(log[..index + 1], m))
  {
    assert log[..index + 1][..index] == log[..index];
    forall part | part !in failed
      ensures PartSame(part, UndoAll(log[..index], m'), UndoAll(log[..index + 1], m))
    {
      UndoAllByPart(log[..index], part, m', Undo(log[index], m));
    }
  }

  lemma UndoByPart(x: Cleanup, part: Part, m: State, m': State)
    requires PartSame(part, m, m')
    ensures PartSame(part, Undo(x, m), Undo(x, m'))
  {
    if part.ControlPart? {
      UndoControl(x, part.cid, m, m');
    }
  }

  lemma UndoControl(x: Cleanup, cid: word, m: State, m': State)
    requires PartSame(ControlPart(cid), m, m')
    ensures PartSame(ControlPart(cid), Undo(x, m), Undo(x, m'))
  {
  }

  lemma {:induction false} UndoAllByPart(log: seq<Cleanup>, part: Part, m: State, m': State)
    requires PartSame(part, m, m')
    ensures PartSame(part, UndoAll(log, m), UndoAll(log, m'))
  {
    if log != [] {
      var x := log[|log| - 1];
      UndoByPart(x, part, m, m');
      UndoAllByPart(log[..|log| - 1], part, Undo(x, m), Undo(x, m'));
    }
  }

  /** What is tried when a clean-up fails: the firmware handles the wheel or control by itself. */
  function FallBack(x: Cleanup, m: State): State {
    match x
    case RestoreSmart(_) => m
    case RestoreWheel(mode) => WithWheel(m, mode.(useHidpp := false, highResolution := false))
    case RestoreThumb(_, inverted) => m.(thumbDiverted := false, thumbInverted := inverted)
    case RestoreControl(cid, _) => WithControl(m, cid, false)
  }

  predicate HasFallBack(x: Cleanup, m: State) {
    match x
    case RestoreSmart(_) => false
    case RestoreControl(cid, _) => cid in m.diverted
    case _ => true
  }

  // ---- A whole life of the configurator ----

  /** However far Apply came, a Close without failing calls gives back every part but torque, and
      torque under its guard. After a successful Apply all settings come back if and only if the torque
      guard holds, a torque that does not is the configured one, and the unused bits of the wheel byte
      come back if and only if the wheel is not configured or they were clear; Close reports an error
      if and only if the smart shift is configured and the device came with a torque that it does not
      accept, whether or not that torque has changed. */
  method ApplyThenClose(device: Device, settings: Settings)
    returns (error: Option<Error>, reported: set<Part>, ghost quiet: bool)
    requires Validated(settings)
    modifies device
    ensures quiet ==>
              && (forall part | part != TorquePart :: PartSame(part, device.mouse, old(device.mouse)))
              && (TorqueSafe(settings, device.features, old(device.mouse)) ==> Same(device.mouse, old(device.mouse)))
    ensures error.None? && quiet ==>
              (Same(device.mouse, old(device.mouse)) <==> TorqueSafe(settings, device.features, old(device.mouse)))
    ensures error.None? && quiet && !TorqueSafe(settings, device.features, old(device.mouse)) ==>
              device.mouse.torque == settings.smart.torque.value
    ensures error.None? && quiet ==>
              (device.mouse.wheelSpare == old(device.mouse).wheelSpare
               <==> !WheelConfigured(settings) || old(device.mouse).wheelSpare == 0)
    ensures error.None? && quiet ==> reported == Reported(settings, device.features, old(device.mouse))
    ensures quiet ==>
              var m, m' := old(device.mouse), device.mouse;
              && m'.mode == m.mode && m'.threshold == m.threshold && m'.wheel == m.wheel && m'.diverted == m.diverted
              && m'.thumbDiverted == m.thumbDiverted && m'.thumbInverted == m.thumbInverted
    ensures error.None? && quiet ==>
              var m, v2 := old(device.mouse), device.features.smartShift == Some(V2) && device.features.torqueBit;
              && (device.mouse.torque == m.torque <==> settings.smart.torque.None? || !v2 || 1 <= m.torque <= 100)
              && (reported != {} <==> settings.smart != SmartSetting(None, None, None) && v2 && !(1 <= m.torque <= 100))
  {
    var c := new Configurator(device, settings);
    error := c.Apply();
    ghost var log, faults := c.cleanup, device.faults;
    reported := c.Close();
    quiet := device.faults == faults;
    if quiet {
      ClosedIsSame(settings, device.features, old(device.mouse), device.mouse);
      PartsAreFields(device.mouse, old(device.mouse));
      if error.None? { AppliedAndUndone(log, settings, device.features, old(device.mouse)); }
    }
  }

  lemma PartsAreFields(a: State, b: State)
    requires forall part | part != TorquePart :: PartSame(part, a, b)
    ensures a.mode == b.mode && a.threshold == b.threshold && a.wheel == b.wheel && a.diverted == b.diverted
    ensures a.thumbDiverted == b.thumbDiverted && a.thumbInverted == b.thumbInverted
  {
    assert PartSame(ModePart, a, b) && PartSame(WheelPart, a, b) && PartSame(ThumbPart, a, b);
    forall cid ensures cid in a.diverted <==> cid in b.diverted
      ensures cid in a.diverted ==> a.diverted[cid] == b.diverted[cid]
    {
      assert PartSame(ControlPart(cid), a, b);
    }
  }

  lemma ClosedIsSame(s: Settings, f: Features, original: State, m: State)
    requires forall part | Promised(part, s, f, original) :: PartSame(part, m, original)
    ensures forall part | part != TorquePart :: PartSame(part, m, original)
    ensures TorqueSafe(s, f, original) ==> Same(m, original)
  {
    forall part | part != TorquePart ensures PartSame(part, m, original) {
      assert Promised(part, s, f, original);
    }
    if TorqueSafe(s, f, original) {
      assert PartSame(TorquePart, m, original);
      SameIsEveryPart(m, original);
    }
  }

  /** What Close reports although no call fails. */
  function Reported(s: Settings, f: Features, m: State): set<Part> {
    if SmartConfigured(s) && TorqueSupported(f) && !ValidTorque(m.torque) then {TorquePart} else {}
  }

  lemma ReportedTorque(log: seq<Cleanup>, s: Settings, f: Features, m: State)
    requires Validated(s) && LogFor(log, s, f, m)
    ensures Unwritable(log) == Reported(s, f, m)
  {
    assert Logs(log, ModePart) <==> Mentions(s, ModePart);
    forall x | x in log && x.RestoreSmart? ensures Excused(x) == Reported(s, f, m) {
      assert IsSnapshot(x, m, f) && Concerns(x, ModePart);
    }
    if SmartConfigured(s) {
      var x :| x in log && Concerns(x, ModePart);
    }
  }

  lemma AppliedAndUndone(log: seq<Cleanup>, s: Settings, f: Features, m: State)
    requires Validated(s) && LogFor(log, s, f, m)
    ensures var m' := UndoAll(log, Configured(s, f, m));
            && (Same(m', m) <==> TorqueSafe(s, f, m))
            && (!TorqueSafe(s, f, m) ==> m'.torque == s.smart.torque.value)
            && (m'.wheelSpare == m.wheelSpare <==> !WheelConfigured(s) || m.wheelSpare == 0)
    ensures Unwritable(log) == Reported(s, f, m)
  {
    RestoredExactlyWhen(log, s, f, m);
    ReportedTorque(log, s, f, m);
    WheelByteRestoredExactlyWhen(log, s, f, m);
    if !TorqueSafe(s, f, m) { UnsafeTorqueStays(log, s, f, m); }
  }

  const TORQUE_ZERO := State(RATCHET, 10, 0, WheelMode(false, false, false), 0, 1000, false, false, map[])

  /** A concrete device whose settings do not come back: torque 0, configured 50. */
  method TorqueZeroIsLost() returns (device: Device, error: Option<Error>, ghost quiet: bool)
    ensures fresh(device)
    ensures error.None? && quiet ==> device.mouse.torque == 50
    ensures error.None? && quiet ==> device.mouse.mode == RATCHET && device.mouse.threshold == 10
  {
    device := new Device(Features(Some(V2), true, false, None, false, false), TORQUE_ZERO);
    var reported;
    error, reported, quiet :=
      ApplyThenClose(device, Settings(SmartSetting(None, None, Some(50)), None, None, None, map[]));
    assert error.None? && quiet ==> PartSame(ModePart, device.mouse, TORQUE_ZERO);
  }

  /** A concrete device whose wheel byte does not come back: an unused bit set, inversion configured. */
  method SpareBitIsLost() returns (device: Device, error: Option<Error>, ghost quiet: bool)
    ensures fresh(device)
    ensures error.None? && quiet ==> device.mouse.wheelSpare != 1
    ensures quiet ==> device.mouse.wheel == WheelMode(false, false, false)
  {
    var wheel := WheelMode(false, false, false);
    var mouse := State(RATCHET, 10, 0, wheel, 1, 1000, false, false, map[]);
    device := new Device(Features(None, false, true, None, false, false), mouse);
    var settings := Settings(SmartSetting(None, None, None), Some(WheelSetting(None, Some(true))), None, None, map[]);
    var reported;
    error, reported, quiet := ApplyThenClose(device, settings);
    assert quiet ==> PartSame(WheelPart, device.mouse, mouse);
  }

  /** A concrete device that is completely restored and yet reports an error: torque 0 as above, and
      nothing configured but the mode. */
  method RestoredYetReported() returns (device: Device, error: Option<Error>, reported: set<Part>, ghost quiet: bool)
    ensures fresh(device)
    ensures quiet ==> Same(device.mouse, TORQUE_ZERO)
    ensures error.None? && quiet ==> reported == {TorquePart}
  {
    device := new Device(Features(Some(V2), true, false, None, false, false), TORQUE_ZERO);
    error, reported, quiet :=
      ApplyThenClose(device, Settings(SmartSetting(Some(false), None, None), None, None, None, map[]));
  }
}
