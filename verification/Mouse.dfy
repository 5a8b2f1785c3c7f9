/** The configurable state of the mouse and the HID++ 2.0 clients that read and write it
    (internal/mxmaster/features.go). Any call may fail, and a failed write may still have taken
    effect. */
module Mouse {
  import opened Common
  import DpiList

  const FREE_SPIN: byte := 1
  const RATCHET: byte := 2

  datatype Version = V1 | V2

  /** What the device offers; a missing feature is a client that was never created. */
  datatype Features = Features(smartShift: Option<Version>, torqueBit: bool, wheel: bool,
                               dpi: Option<seq<word>>, thumb: bool, controls: bool)

  /** Only the enhanced SmartShift feature can advertise torque tuning. */
  predicate TorqueSupported(f: Features) {
    f.smartShift == Some(V2) && f.torqueBit
  }

  datatype WheelMode = WheelMode(useHidpp: bool, highResolution: bool, invert: bool)

  type Spare = x: int | 0 <= x < 0x20

  /** The wheel byte is kept as its three mode bits and the five others; control IDs outside
      `diverted` are unknown to the device. */
  datatype State = State(mode: byte, threshold: byte, torque: byte, wheel: WheelMode, wheelSpare: Spare, dpi: word,
                         thumbDiverted: bool, thumbInverted: bool, diverted: map<word, bool>)

  datatype Error =
    | NoFeature | InvalidConfig | CallFailed | MalformedStatus | InvalidArgument | TorqueUnsupported | NoDpiValues

  // ---- The bytes written, and what the firmware does with them ----

  datatype Command =
    | SetSmartShift(mode: byte, threshold: byte, torque: Option<byte>)
    | SetWheel(bits: byte)
    | SetDpi(value: word)
    | SetThumb(divert: byte, invert: byte)
    | SetControl(cid: word, flags: byte)

  /** Zero is the SmartShift sentinel for "leave it"; a control flag counts only with its valid bit. */
  function Effect(s: State, c: Command): State {
    match c
    case SetSmartShift(mode, threshold, torque) =>
      s.(mode := if mode == 0 then s.mode else mode,
         threshold := if threshold == 0 then s.threshold else threshold,
         torque := if torque.None? || torque.value == 0 then s.torque else torque.value)
    case SetWheel(bits) => s.(wheel := WheelOf(bits), wheelSpare := bits / 8)
    case SetDpi(value) => s.(dpi := value)
    case SetThumb(divert, invert) => s.(thumbDiverted := divert % 2 == 1, thumbInverted := invert % 2 == 1)
    case SetControl(cid, flags) =>
      if cid in s.diverted && (flags / 2) % 2 == 1 then s.(diverted := s.diverted[cid := flags % 2 == 1]) else s
  }

  function WheelByte(m: WheelMode): byte {
    (if m.useHidpp then 1 else 0) + (if m.highResolution then 2 else 0) + if m.invert then 4 else 0
  }

  function WheelOf(value: byte): WheelMode {
    WheelMode(value % 2 == 1, (value / 2) % 2 == 1, (value / 4) % 2 == 1)
  }

  /** The codec reads the three mode bits out of any byte and writes a byte without other bits. */
  lemma WheelCodec(m: WheelMode, spare: Spare)
    ensures WheelOf(WheelByte(m) + 8 * spare) == m
    ensures (WheelByte(m) + 8 * spare) / 8 == spare
  {
  }

  /** Bit 0 hands the wheel to HID++, bit 1 makes it fine and bit 2 turns it round. */
  lemma WheelBits(value: byte, m: WheelMode)
    ensures WheelOf(value).useHidpp <==> (value as bv8) & 1 != 0
    ensures WheelOf(value).highResolution <==> (value as bv8) & 2 != 0
    ensures WheelOf(value).invert <==> (value as bv8) & 4 != 0
    ensures WheelByte(m) == ((if m.useHidpp then 1 else 0) as bv8 | (if m.highResolution then 2 else 0) as bv8
                             | (if m.invert then 4 else 0) as bv8) as int
  {
  }

  datatype SmartStatus = SmartStatus(mode: byte, threshold: byte, torque: byte, torqueSupported: bool)

  predicate ValidStatus(s: State) {
    s.mode in {FREE_SPIN, RATCHET} && s.threshold >= 1
  }

  predicate ValidTorque(torque: int) {
    1 <= torque <= 100
  }

  /** What the clients mean to change, in terms of the state rather than of the bytes. */
  function WithSmart(s: State, mode: byte, threshold: byte): State {
    s.(mode := if mode == 0 then s.mode else mode, threshold := threshold)
  }

  function WithWheel(s: State, mode: WheelMode): State {
    s.(wheel := mode, wheelSpare := 0)
  }

  function WithControl(s: State, cid: word, diverted: bool): State {
    if cid in s.diverted then s.(diverted := s.diverted[cid := diverted]) else s
  }

  class Device {
    const features: Features
    var mouse: State
    ghost var faults: nat

    constructor (features: Features, mouse: State)
      ensures this.features == features && this.mouse == mouse && faults == 0
    {
      this.features, this.mouse, faults := features, mouse, 0;
    }

    /** A call that only reads. */
    method Ask() returns (ok: bool)
      modifies this`faults
      ensures faults == old(faults) + if ok then 0 else 1
    {
      ok := *;
      if !ok { faults := faults + 1; }
    }

    /** A call that writes: on failure the effect may or may not have happened. */
    method Write(c: Command) returns (ok: bool)
      modifies this
      ensures faults == old(faults) + if ok then 0 else 1
      ensures ok ==> mouse == Effect(old(mouse), c)
      ensures mouse == old(mouse) || mouse == Effect(old(mouse), c)
    {
      ok := *;
      var landed: bool := *;
      if ok || landed {
        mouse := Effect(mouse, c);
      }
      if !ok { faults := faults + 1; }
    }

    /** The v2 status takes a second call for the capabilities. */
    method GetStatus() returns (r: Result<SmartStatus, Error>)
      requires features.smartShift.Some?
      modifies this`faults
      ensures faults == old(faults) ==>
                r == if ValidStatus(mouse) then Ok(CurrentStatus()) else Err(MalformedStatus)
      ensures r.Ok? ==> ValidStatus(mouse) && r == Ok(CurrentStatus())
      ensures faults == old(faults) ==> (r.Ok? <==> (mouse.mode == 1 || mouse.mode == 2) && mouse.threshold >= 1)
      ensures r.Ok? ==>
                var v2 := features.smartShift == Some(V2);
                && r.value.mode == mouse.mode && r.value.threshold == mouse.threshold
                && r.value.torque == (if v2 then mouse.torque else 0)
                && r.value.torqueSupported == (v2 && features.torqueBit)
      ensures old(faults) <= faults && (r.Ok? ==> faults == old(faults))
      ensures r != Err(TorqueUnsupported)
    {
      var ok := Ask();
      if !ok { return Err(CallFailed); }
      if mouse.mode !in {FREE_SPIN, RATCHET} || mouse.threshold < 1 { return Err(MalformedStatus); }
      var status := SmartStatus(mouse.mode, mouse.threshold, 0, false);
      if features.smartShift == Some(V2) {
        ok := Ask();
        if !ok { return Err(CallFailed); }
        status := status.(torqueSupported := features.torqueBit, torque := mouse.torque);
      }
      return Ok(status);
    }

    function CurrentStatus(): SmartStatus
      reads this
    {
      if features.smartShift == Some(V2) then
        SmartStatus(mouse.mode, mouse.threshold, mouse.torque, features.torqueBit)
      else SmartStatus(mouse.mode, mouse.threshold, 0, false)
    }

    /** Writes mode (zero keeps it) and threshold; the enhanced feature's third byte repeats the
        torque just read, so torque is preserved on both versions. */
    method SetModeAndThreshold(mode: byte, threshold: byte) returns (error: Option<Error>)
      requires features.smartShift.Some? && threshold >= 1
      modifies this
      ensures mouse == old(mouse) || mouse == WithSmart(old(mouse), mode, threshold)
      ensures error.None? ==> mouse == WithSmart(old(mouse), mode, threshold)
      ensures faults == old(faults) && ValidStatus(old(mouse)) ==> error.None?
      ensures old(faults) <= faults
      ensures error != Some(TorqueUnsupported)
    {
      var torque: Option<byte> := None;
      if features.smartShift == Some(V2) {
        var status := GetStatus();
        if status.Err? { return Some(status.error); }
        torque := Some(status.value.torque);
      }
      var ok := Write(SetSmartShift(mode, threshold, torque));
      return if ok then None else Some(CallFailed);
    }

    method SetStatus(mode: byte, threshold: byte) returns (error: Option<Error>)
      requires features.smartShift.Some?
      modifies this
      ensures old(faults) <= faults && error != Some(TorqueUnsupported)
      ensures mode in {FREE_SPIN, RATCHET} && threshold >= 1 ==>
                && (mouse == old(mouse) || mouse == WithSmart(old(mouse), mode, threshold))
                && (error.None? ==> mouse == WithSmart(old(mouse), mode, threshold))
                && (faults == old(faults) && ValidStatus(old(mouse)) ==> error.None?)
      ensures error.None? ==> mouse == old(mouse).(mode := mode, threshold := threshold) && mode in {1, 2}
      ensures !(mode in {FREE_SPIN, RATCHET} && threshold >= 1) ==>
                error == Some(InvalidArgument) && mouse == old(mouse) && faults == old(faults)
    {
      if mode !in {FREE_SPIN, RATCHET} { return Some(InvalidArgument); }
      if threshold < 1 { return Some(InvalidArgument); }
      error := SetModeAndThreshold(mode, threshold);
    }

    method SetThreshold(threshold: byte) returns (error: Option<Error>)
      requires features.smartShift.Some?
      modifies this
      ensures old(faults) <= faults
      ensures threshold >= 1 ==>
                && (mouse == old(mouse) || mouse == WithSmart(old(mouse), 0, threshold))
                && (error.None? ==> mouse == WithSmart(old(mouse), 0, threshold))
                && (faults == old(faults) && ValidStatus(old(mouse)) ==> error.None?)
      ensures error.None? ==> mouse == old(mouse).(threshold := threshold)
      ensures threshold < 1 ==> error == Some(InvalidArgument) && mouse == old(mouse) && faults == old(faults)
    {
      if threshold < 1 { return Some(InvalidArgument); }
      error := SetModeAndThreshold(0, threshold);
    }

    method SetTorque(torque: byte) returns (error: Option<Error>)
      requires features.smartShift.Some?
      modifies this
      ensures old(faults) <= faults
      ensures mouse == old(mouse)
              || (ValidTorque(torque) && TorqueSupported(features) && mouse == old(mouse).(torque := torque))
      ensures error.None? ==>
                ValidTorque(torque) && TorqueSupported(features) && mouse == old(mouse).(torque := torque)
      ensures error == Some(TorqueUnsupported) ==> !TorqueSupported(features) && mouse == old(mouse)
      ensures error.None? ==> 1 <= torque <= 100 && features.smartShift == Some(V2) && features.torqueBit
                              && mouse.torque == torque && mouse.mode == old(mouse).mode
                              && mouse.threshold == old(mouse).threshold
      ensures faults == old(faults) && ValidStatus(old(mouse))
              && features.smartShift == Some(V2) && features.torqueBit ==>
                (error.None? <==> 1 <= torque <= 100)
      ensures faults == old(faults) && ValidStatus(old(mouse)) ==>
                error == if !ValidTorque(torque) then Some(InvalidArgument)
                         else if TorqueSupported(features) then None else Some(TorqueUnsupported)
    {
      if !ValidTorque(torque) { return Some(InvalidArgument); }
      var status := GetStatus();
      if status.Err? { return Some(status.error); }
      if features.smartShift != Some(V2) || !status.value.torqueSupported { return Some(TorqueUnsupported); }
      var ok := Write(SetSmartShift(0, 0, Some(torque)));
      return if ok then None else Some(CallFailed);
    }

    method GetMode() returns (r: Result<WheelMode, Error>)
      modifies this`faults
      ensures old(faults) <= faults && (r.Ok? <==> faults == old(faults))
      ensures r.Ok? ==> r.value == mouse.wheel
    {
      var ok := Ask();
      WheelCodec(mouse.wheel, mouse.wheelSpare);
      return if ok then Ok(WheelOf(WheelByte(mouse.wheel) + 8 * mouse.wheelSpare)) else Err(CallFailed);
    }

    method SetMode(mode: WheelMode) returns (error: Option<Error>)
      modifies this
      ensures old(faults) <= faults && (error.None? <==> faults == old(faults))
      ensures mouse == old(mouse) || mouse == WithWheel(old(mouse), mode)
      ensures error.None? ==> mouse == WithWheel(old(mouse), mode)
      ensures error.None? ==> mouse == old(mouse).(wheel := mode, wheelSpare := 0)
    {
      WheelCodec(mode, 0);
      var ok := Write(SetWheel(WheelByte(mode)));
      return if ok then None else Some(CallFailed);
    }

    /** Selects the closest supported value; the list itself is read as in DpiList. */
    method SetNearest(requested: word) returns (error: Option<Error>)
      requires features.dpi.Some?
      modifies this
      ensures old(faults) <= faults
      ensures var values := features.dpi.value;
              && (values == [] || DpiList.Nearest(values, requested) == 0 ==> error.Some? && mouse == old(mouse))
              && (values != [] && DpiList.Nearest(values, requested) != 0 ==>
                    && (mouse == old(mouse) || mouse == old(mouse).(dpi := DpiList.Nearest(values, requested)))
                    && (error.None? ==> mouse == old(mouse).(dpi := DpiList.Nearest(values, requested)))
                    && (error.None? <==> faults == old(faults)))
      ensures faults == old(faults) && features.dpi.value == [] ==> error == Some(NoDpiValues)
      ensures faults == old(faults) && features.dpi.value != [] ==>
                (DpiList.Nearest(features.dpi.value, requested) == 0 ==> error == Some(InvalidArgument))
    {
      var ok := Ask();
      if !ok { return Some(CallFailed); }
      var selected := DpiList.NearestDpi(features.dpi.value, requested);
      if selected.None? { return Some(NoDpiValues); }
      if selected.value == 0 { return Some(InvalidArgument); }
      ok := Write(SetDpi(selected.value));
      return if ok then None else Some(CallFailed);
    }

    method ThumbStatus() returns (r: Result<(bool, bool), Error>)
      modifies this`faults
      ensures old(faults) <= faults && (r.Ok? <==> faults == old(faults))
      ensures r.Ok? ==> r.value == (mouse.thumbDiverted, mouse.thumbInverted)
    {
      var ok := Ask();
      return if ok then Ok((mouse.thumbDiverted, mouse.thumbInverted)) else Err(CallFailed);
    }

    method SetReporting(diverted: bool, inverted: bool) returns (error: Option<Error>)
      modifies this
      ensures old(faults) <= faults && (error.None? <==> faults == old(faults))
      ensures mouse == old(mouse) || mouse == old(mouse).(thumbDiverted := diverted, thumbInverted := inverted)
      ensures error.None? ==> mouse == old(mouse).(thumbDiverted := diverted, thumbInverted := inverted)
    {
      var ok := Write(SetThumb(if diverted then 1 else 0, if inverted then 1 else 0));
      return if ok then None else Some(CallFailed);
    }

    /** The device refuses control IDs it does not have. */
    method Reporting(cid: word) returns (r: Result<bool, Error>)
      modifies this`faults
      ensures old(faults) <= faults
      ensures faults == old(faults) ==> (r.Ok? <==> cid in mouse.diverted)
      ensures r.Ok? ==> cid in mouse.diverted && r.value == mouse.diverted[cid] && faults == old(faults)
      ensures r.Err? ==> r.error == CallFailed
    {
      var ok := Ask();
      return if ok && cid in mouse.diverted then Ok(mouse.diverted[cid]) else Err(CallFailed);
    }

    /** A reply that names another control counts as a failed call, although the write has landed. */
    method SetTemporaryDiversion(cid: word, diverted: bool) returns (error: Option<Error>)
      modifies this
      ensures old(faults) <= faults
      ensures mouse == old(mouse) || mouse == WithControl(old(mouse), cid, diverted)
      ensures error.None? ==> cid in mouse.diverted && mouse == WithControl(old(mouse), cid, diverted)
      ensures error.None? ==>
                cid in old(mouse).diverted && mouse == old(mouse).(diverted := old(mouse).diverted[cid := diverted])
      ensures faults == old(faults) ==> (error.None? <==> cid in old(mouse).diverted)
      ensures faults == old(faults) && error.Some? ==> error.value == CallFailed
    {
      var ok := Write(SetControl(cid, if diverted then 3 else 2));
      if !ok || cid !in mouse.diverted { return Some(CallFailed); }
      var echoed: word := *;
      if echoed != cid {
        faults := faults + 1;
        return Some(MalformedStatus);
      }
      return None;
    }
  }
}
