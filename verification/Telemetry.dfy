/** The telemetry module: event descriptors, value formatting, the HAL alarm
    mapper and the dispatcher in front of the T2 backend. */
module Telemetry {
  import opened CText

  type u16 = x: int | 0 <= x < 0x1_0000

  // ------------------------------------------------------------ alarms as the HAL reports them

  datatype StandardAlarm =
    | Lofi | ErrorSymbolPeriod | ErrorFrame | ErrorFramePeriod | ErrorFrameSeconds
    | OamSessionLost | EquipmentFailure | UnknownStandard

  datatype VendorAlarm =
    | Los | DyingGasp | PowerLow | PowerHigh | Temperature | FecThreshold
    | LaserBiasCurrent | SupplyVoltage | UnknownVendor

  datatype AlarmKind = StandardKind | VendorKind | UnknownKind

  /** Only the field selected by the kind is meaningful. */
  datatype AlarmInfo = AlarmInfo(kind: AlarmKind, standard: StandardAlarm, vendor: VendorAlarm, active: bool, llid: u16)

  datatype Cause = Standard(standard: StandardAlarm) | Vendor(vendor: VendorAlarm)

  // ------------------------------------------------------------ event catalogue

  datatype EventId =
    | OnuLos | OnuDownstreamSignalDetected | OnuRegistration | OnuDeregistration
    | IntfLinkUp | IntfLinkDown | PhyStatusUp | PhyStatusDown
    | AlarmEvent(cause: Cause)
    | SystemInitSuccess | SystemInitFailure | SystemShutdown | SystemHalWrongPonMode
    | SystemFactoryReset | SystemOnuReset
    | ErrorHalCallFailed | ErrorEventQueueFull | ErrorStatsCollectionFailed
    | ErrorRbusPublishFailed | ErrorPsmAccessFailed

  datatype Format = NoValue | InterfaceValue | AlarmValue

  predicate KnownCause(c: Cause)
  {
    match c
    case Standard(a) => a != UnknownStandard
    case Vendor(a) => a != UnknownVendor
  }

  function StandardMarker(a: StandardAlarm): string
    requires a != UnknownStandard
  {
    match a
    case Lofi => "EPON_ALARM_STD_LOFI"
    case ErrorSymbolPeriod => "EPON_ALARM_STD_ERROR_SYMBOL_PERIOD"
    case ErrorFrame => "EPON_ALARM_STD_ERROR_FRAME"
    case ErrorFramePeriod => "EPON_ALARM_STD_ERROR_FRAME_PERIOD"
    case ErrorFrameSeconds => "EPON_ALARM_STD_ERROR_FRAME_SECONDS"
    case OamSessionLost => "EPON_ALARM_STD_OAM_SESSION_LOST"
    case EquipmentFailure => "EPON_ALARM_STD_EQUIPMENT_FAILURE"
  }

  function VendorMarker(a: VendorAlarm): string
    requires a != UnknownVendor
  {
    match a
    case Los => "EPON_ALARM_VENDOR_LOS"
    case DyingGasp => "EPON_ALARM_VENDOR_DYING_GASP"
    case PowerLow => "EPON_ALARM_VENDOR_POWER_LOW"
    case PowerHigh => "EPON_ALARM_VENDOR_POWER_HIGH"
    case Temperature => "EPON_ALARM_VENDOR_TEMPERATURE"
    case FecThreshold => "EPON_ALARM_VENDOR_FEC_THRESHOLD"
    case LaserBiasCurrent => "EPON_ALARM_VENDOR_LASER_BIAS_CURRENT"
    case SupplyVoltage => "EPON_ALARM_VENDOR_SUPPLY_VOLTAGE"
  }

  predicate Listed(id: EventId) { id.AlarmEvent? ==> KnownCause(id.cause) }

  /** The T2 marker of an event id; the alarm mapper yields no id outside the table. */
  function Marker(id: EventId): string
    requires Listed(id)
  {
    match id
    case OnuLos => "EPON_ONU_LOS"
    case OnuDownstreamSignalDetected => "EPON_ONU_DOWNSTREAM_SIGNAL_DETECTED"
    case OnuRegistration => "EPON_ONU_REGISTRATION"
    case OnuDeregistration => "EPON_ONU_DEREGISTRATION"
    case IntfLinkUp => "EPON_INTF_LINK_UP"
    case IntfLinkDown => "EPON_INTF_LINK_DOWN"
    case PhyStatusUp => "EPON_PHY_STATUS_UP"
    case PhyStatusDown => "EPON_PHY_STATUS_DOWN"
    case AlarmEvent(Standard(a)) => StandardMarker(a)
    case AlarmEvent(Vendor(a)) => VendorMarker(a)
    case SystemInitSuccess => "EPON_SYSTEM_INIT_SUCCESS"
    case SystemInitFailure => "EPON_SYSTEM_INIT_FAILURE"
    case SystemShutdown => "EPON_SYSTEM_SHUTDOWN"
    case SystemHalWrongPonMode => "EPON_SYSTEM_HAL_WRONG_PON_MODE"
    case SystemFactoryReset => "EPON_SYSTEM_FACTORY_RESET"
    case SystemOnuReset => "EPON_SYSTEM_ONU_RESET"
    case ErrorHalCallFailed => "EPON_ERROR_HAL_CALL_FAILED"
    case ErrorEventQueueFull => "EPON_ERROR_EVENT_QUEUE_FULL"
    case ErrorStatsCollectionFailed => "EPON_ERROR_STATS_COLLECTION_FAILED"
    case ErrorRbusPublishFailed => "EPON_ERROR_RBUS_PUBLISH_FAILED"
    case ErrorPsmAccessFailed => "EPON_ERROR_PSM_ACCESS_FAILED"
  }

  function FormatOf(id: EventId): Format
  {
    match id
    case IntfLinkUp => InterfaceValue
    case IntfLinkDown => InterfaceValue
    case AlarmEvent(_) => AlarmValue
    case _ => NoValue
  }

  // ------------------------------------------------------------ raising

  type PlainId = id: EventId | !id.AlarmEvent? witness OnuLos

  /** What a producer asks for; alarms are reported through their HAL record only.
      Throughout, notApplicable is EPON_LLID_NOT_APPLICABLE. */
  datatype Raise = Simple(id: PlainId) | Interface(id: PlainId, name: string) | Alarm(info: AlarmInfo)

  /** The HAL alarm mapper: an id only for alarms the catalogue lists. */
  function MapAlarm(info: AlarmInfo): Option<EventId>
  {
    match info.kind
    case StandardKind => if info.standard == UnknownStandard then None else Some(AlarmEvent(Standard(info.standard)))
    case VendorKind => if info.vendor == UnknownVendor then None else Some(AlarmEvent(Vendor(info.vendor)))
    case UnknownKind => None
  }

  function AlarmText(raised: bool, llid: u16, notApplicable: u16): string
  {
    (if raised then "RAISED" else "CLEARED") + if llid != notApplicable then ",LLID=" + Decimal(llid) else ""
  }

  const VALUE_SIZE: nat := 256

  /** The formatted value, or nothing when it does not fit the value buffer. */
  function FormatValue(r: Raise, id: EventId, notApplicable: u16): Option<string>
  {
    var text :=
      match FormatOf(id)
      case NoValue => ""
      case InterfaceValue => "Interface=" + if r.Interface? then r.name else "unknown"
      case AlarmValue => if r.Alarm? then AlarmText(r.info.active, r.info.llid, notApplicable) else "CLEARED";
    if |text| < VALUE_SIZE then Some(text) else None
  }

  /** An event without a value is counted, any other is sent as text. */
  datatype Sent = Counted(marker: string) | Text(marker: string, value: string)

  /** What one raise hands to the T2 backend, if anything. */
  function Outgoing(r: Raise, notApplicable: u16): Option<Sent>
  {
    var id := if r.Alarm? then MapAlarm(r.info) else Some(r.id);
    if id.None? then None
    else
      match FormatValue(r, id.value, notApplicable)
      case None => None
      case Some(v) => Some(if v == "" then Counted(Marker(id.value)) else Text(Marker(id.value), v))
  }

  /** The module state: the initialised flag and, beside it, what the backend accepted. */
  class Dispatcher {
    const notApplicable: u16
    var initialized: bool
    var sent: seq<Sent>

    constructor (notApplicable: u16)
      ensures this.notApplicable == notApplicable && !initialized && sent == []
    {
      this.notApplicable := notApplicable;
      initialized, sent := false, [];
    }

    /** Initialisation and clean-up are idempotent and keep what was sent. */
    method SetInitialized(on: bool)
      modifies this`initialized
      ensures initialized == on
    {
      if initialized != on { initialized := on; }
    }

    /** Nothing is sent before initialisation; after it, exactly what the event
        formats to, unless the value does not fit or the backend refuses. */
    method Dispatch(r: Raise, backendOk: bool) returns (ok: bool)
        modifies this`sent
      ensures sent == old(sent) + Delivered(r, initialized && backendOk, notApplicable)
      ensures ok <==> if initialized then backendOk && Outgoing(r, notApplicable).Some?
                      else r.Alarm? ==> MapAlarm(r.info).Some?
    {
      if r.Alarm? && MapAlarm(r.info).None? { return false; }
      if !initialized { return true; }
      var out := Outgoing(r, notApplicable);
      if out.None? || !backendOk { return false; }
      sent := sent + [out.value];
      ok := true;
    }
  }

  function Delivered(r: Raise, accepted: bool, notApplicable: u16): seq<Sent>
  {
    match Outgoing(r, notApplicable)
    case None => []
    case Some(s) => if accepted then [s] else []
  }

  // ------------------------------------------------------------ decoding the markers

  datatype Observed = Observed(cause: Cause, raised: bool, llid: u16)

  function DecodeStandard(m: string): Option<Cause>
  {
    if m == "EPON_ALARM_STD_LOFI" then Some(Standard(Lofi))
    else if m == "EPON_ALARM_STD_ERROR_SYMBOL_PERIOD" then Some(Standard(ErrorSymbolPeriod))
    else if m == "EPON_ALARM_STD_ERROR_FRAME" then Some(Standard(ErrorFrame))
    else if m == "EPON_ALARM_STD_ERROR_FRAME_PERIOD" then Some(Standard(ErrorFramePeriod))
    else if m == "EPON_ALARM_STD_ERROR_FRAME_SECONDS" then Some(Standard(ErrorFrameSeconds))
    else if m == "EPON_ALARM_STD_OAM_SESSION_LOST" then Some(Standard(OamSessionLost))
    else if m == "EPON_ALARM_STD_EQUIPMENT_FAILURE" then Some(Standard(EquipmentFailure))
    else None
  }

  function DecodeVendor(m: string): Option<Cause>
  {
    if m == "EPON_ALARM_VENDOR_LOS" then Some(Vendor(Los))
    else if m == "EPON_ALARM_VENDOR_DYING_GASP" then Some(Vendor(DyingGasp))
    else if m == "EPON_ALARM_VENDOR_POWER_LOW" then Some(Vendor(PowerLow))
    else if m == "EPON_ALARM_VENDOR_POWER_HIGH" then Some(Vendor(PowerHigh))
    else if m == "EPON_ALARM_VENDOR_TEMPERATURE" then Some(Vendor(Temperature))
    else if m == "EPON_ALARM_VENDOR_FEC_THRESHOLD" then Some(Vendor(FecThreshold))
    else if m == "EPON_ALARM_VENDOR_LASER_BIAS_CURRENT" then Some(Vendor(LaserBiasCurrent))
    else if m == "EPON_ALARM_VENDOR_SUPPLY_VOLTAGE" then Some(Vendor(SupplyVoltage))
    else None
  }

  /** The alarm a marker stands for, if any. */
  function DecodeMarker(m: string): Option<Cause>
  {
    if DecodeStandard(m).Some? then DecodeStandard(m) else DecodeVendor(m)
  }

  lemma StandardMarkerDecodes(a: StandardAlarm)
    requires a != UnknownStandard
    ensures DecodeStandard(StandardMarker(a)) == Some(Standard(a))
  {
    match a
    case ErrorFrameSeconds => assert StandardMarker(a)[21] == 'F' != "EPON_ALARM_STD_ERROR_SYMBOL_PERIOD"[21];
    case _ =>
  }

  lemma StandardMarkerShape(m: string)
    requires DecodeStandard(m).Some?
    ensures |m| > 11 && m[5] == 'A' && m[11] == 'S'
  {
    if m == "EPON_ALARM_STD_LOFI" {
    } else if m == "EPON_ALARM_STD_ERROR_SYMBOL_PERIOD" {
    } else if m == "EPON_ALARM_STD_ERROR_FRAME" {
    } else if m == "EPON_ALARM_STD_ERROR_FRAME_PERIOD" {
    } else if m == "EPON_ALARM_STD_ERROR_FRAME_SECONDS" {
    } else if m == "EPON_ALARM_STD_OAM_SESSION_LOST" {
    } else {
      assert m == "EPON_ALARM_STD_EQUIPMENT_FAILURE";
    }
  }

  lemma VendorMarkerDecodes(a: VendorAlarm)
    requires a != UnknownVendor
    ensures DecodeVendor(VendorMarker(a)) == Some(Vendor(a))
    ensures VendorMarker(a)[11] == 'V'
  {
    match a
    case PowerHigh => assert VendorMarker(a)[18] == 'P' != "EPON_ALARM_VENDOR_DYING_GASP"[18];
    case _ =>
  }

  lemma VendorMarkerShape(m: string)
    requires DecodeVendor(m).Some?
    ensures |m| > 5 && m[5] == 'A'
  {
  }

  lemma OtherMarkerShape(id: EventId)
    requires !id.AlarmEvent?
    ensures |Marker(id)| > 5 && Marker(id)[5] != 'A'
  {
  }

  /** The markers are pairwise distinct: each decodes to the alarm it stands for,
      and no other event shares one. */
  lemma MarkerDecodes(id: EventId)
    requires Listed(id)
    ensures DecodeMarker(Marker(id)) == if id.AlarmEvent? then Some(id.cause) else None
  {
    var m := Marker(id);
    if DecodeStandard(m).Some? { StandardMarkerShape(m); }
    if DecodeVendor(m).Some? { VendorMarkerShape(m); }
    match id
    case AlarmEvent(Standard(a)) => StandardMarkerDecodes(a);
    case AlarmEvent(Vendor(a)) => VendorMarkerDecodes(a);
    case _ => OtherMarkerShape(id);
  }

  // ------------------------------------------------------------ decoding the values

  /** The LLID behind the text of a state. */
  function DecodeLlid(raised: bool, digits: string): Option<(bool, nat)>
  {
    if digits == "" || DigitRun(digits) != |digits| then None else Some((raised, ValueOf(digits)))
  }

  const RAISED_FOR: string := "RAISED,LLID="
  const CLEARED_FOR: string := "CLEARED,LLID="

  /** Whether the alarm was raised, and for which LLID, read back from a value. */
  function DecodeText(v: string, notApplicable: u16): Option<(bool, nat)>
  {
    if v == "RAISED" then Some((true, notApplicable))
    else if v == "CLEARED" then Some((false, notApplicable))
    else if RAISED_FOR <= v then DecodeLlid(true, v[|RAISED_FOR|..])
    else if CLEARED_FOR <= v then DecodeLlid(false, v[|CLEARED_FOR|..])
    else None
  }

  /** The digits behind the text of a state are read back. */
  lemma LlidReadsBack(raised: bool, llid: u16, notApplicable: u16)
    ensures DecodeText((if raised then RAISED_FOR else CLEARED_FOR) + Decimal(llid), notApplicable)
         == Some((raised, llid))
  {
    var d := Decimal(llid);
    var head := if raised then RAISED_FOR else CLEARED_FOR;
    var v := head + d;
    assert |"RAISED"| == 6 && |"CLEARED"| == 7 && |head| > 7;
    assert head <= v && v[|head|..] == d && d[..|d|] == d;
    assert CLEARED_FOR[0] != RAISED_FOR[0] && v[0] == head[0];
    DigitRunUnique(d, |d|);
    ValueOfDecimal(llid);
  }

  lemma StateTexts()
    ensures RAISED_FOR == "RAISED" + ",LLID=" && CLEARED_FOR == "CLEARED" + ",LLID="
    ensures |RAISED_FOR| == 12 && |CLEARED_FOR| == 13 && "RAISED" != "CLEARED"
  {
    assert |"RAISED"| == 6 && |"CLEARED"| == 7;
  }

  /** An alarm value always fits the buffer and determines state and LLID. */
  lemma AlarmTextDecodes(raised: bool, llid: u16, notApplicable: u16)
    ensures DecodeText(AlarmText(raised, llid, notApplicable), notApplicable) == Some((raised, llid))
    ensures |AlarmText(raised, llid, notApplicable)| < VALUE_SIZE
  {
    StateTexts();
    if llid != notApplicable {
      Associative(if raised then "RAISED" else "CLEARED", ",LLID=", Decimal(llid));
      LlidReadsBack(raised, llid, notApplicable);
      DecimalFits(llid);
    }
  }

  // ------------------------------------------------------------ decoding a whole trace

  /** The alarm a raise reports, if the catalogue lists it. */
  function ObservedAlarm(r: Raise): Option<Observed>
  {
    if r.Alarm? && MapAlarm(r.info).Some? then
      Some(Observed(MapAlarm(r.info).value.cause, r.info.active, r.info.llid))
    else None
  }

  /** The alarm one backend event reports. */
  function Decode(s: Sent, notApplicable: u16): Option<Observed>
  {
    if s.Counted? || DecodeMarker(s.marker).None? then None
    else
      match DecodeText(s.value, notApplicable)
      case Some((raised, llid)) =>
        if llid < 0x1_0000 then Some(Observed(DecodeMarker(s.marker).value, raised, llid)) else None
      case None => None
  }

  /** Marker and value of one event determine the alarm, its state and its LLID,
      and an event that is no alarm is never mistaken for one. */
  lemma DecodeOutgoing(r: Raise, notApplicable: u16)
    ensures Outgoing(r, notApplicable).Some? ==>
              Decode(Outgoing(r, notApplicable).value, notApplicable) == ObservedAlarm(r)
    ensures ObservedAlarm(r).Some? ==> Outgoing(r, notApplicable).Some?
  {
    if r.Alarm? {
      if MapAlarm(r.info).Some? {
        MarkerDecodes(MapAlarm(r.info).value);
        AlarmTextDecodes(r.info.active, r.info.llid, notApplicable);
        assert AlarmText(r.info.active, r.info.llid, notApplicable) != "";
      }
    } else {
      MarkerDecodes(r.id);
    }
  }

  /** The backend's trace of a sequence of raises, each accepted or refused. */
  function Trace(rs: seq<(Raise, bool)>, notApplicable: u16): seq<Sent>
  {
    if rs == [] then []
    else Trace(rs[..|rs| - 1], notApplicable)
         + Delivered(rs[|rs| - 1].0, rs[|rs| - 1].1, notApplicable)
  }

  function OptionToSeq<T>(o: Option<T>): seq<T> { if o.Some? then [o.value] else [] }

  function DecodeTrace(ss: seq<Sent>, notApplicable: u16): seq<Observed>
  {
    if ss == [] then []
    else DecodeTrace(ss[..|ss| - 1], notApplicable) + OptionToSeq(Decode(ss[|ss| - 1], notApplicable))
  }

  /** The alarm events of the accepted raises, in order. */
  function AlarmsOf(rs: seq<(Raise, bool)>): seq<Observed>
  {
    if rs == [] then []
    else AlarmsOf(rs[..|rs| - 1])
         + if rs[|rs| - 1].1 then OptionToSeq(ObservedAlarm(rs[|rs| - 1].0)) else []
  }

  lemma DecodeTraceSnoc(ss: seq<Sent>, more: seq<Sent>, notApplicable: u16)
    requires |more| <= 1
    ensures DecodeTrace(ss + more, notApplicable) == DecodeTrace(ss, notApplicable) +
              if more == [] then [] else OptionToSeq(Decode(more[0], notApplicable))
  {
    if more == [] {
      assert ss + more == ss;
    } else {
      assert (ss + more)[..|ss|] == ss;
    }
  }

  /** The marker trace of any run determines the sequence of alarm events it reported. */
  lemma {:induction false} TraceDeterminesAlarms(rs: seq<(Raise, bool)>, notApplicable: u16)
    ensures DecodeTrace(Trace(rs, notApplicable), notApplicable) == AlarmsOf(rs)
  {
    if rs != [] {
      var front, last := rs[..|rs| - 1], rs[|rs| - 1];
      TraceDeterminesAlarms(front, notApplicable);
      DecodeOutgoing(last.0, notApplicable);
      DecodeTraceSnoc(Trace(front, notApplicable), Delivered(last.0, last.1, notApplicable), notApplicable);
    }
  }
}
