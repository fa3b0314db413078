/** What the telemetry backend sees of a run: every marker and value it receives, decoded
    from the text alone, against what the events call for. */
module TelemetryTrace {
  import opened CText
  import opened Interfaces
  import opened Telemetry
  import opened Controller
  import opened ControllerRuns
  import opened Pipeline
  import WanManager

  datatype Seen =
    | StatusSeen(status: OnuStatus)
    | LinkSeen(link: LinkStatus, name: string)
    | PhySeen(up: bool)
    | AlarmSeen(alarm: Observed)
    | BusErrorSeen
    | QueueFullSeen

  // ------------------------------------------------------------ decoding what was received

  function SeeCounted(m: string): Option<Seen>
  {
    if m == "EPON_ONU_LOS" then Some(StatusSeen(LossOfSignal))
    else if m == "EPON_ONU_DOWNSTREAM_SIGNAL_DETECTED" then Some(StatusSeen(DownstreamSignalDetected))
    else if m == "EPON_ONU_REGISTRATION" then Some(StatusSeen(Registration))
    else if m == "EPON_ONU_DEREGISTRATION" then Some(StatusSeen(Deregistration))
    else if m == "EPON_PHY_STATUS_UP" then Some(PhySeen(true))
    else if m == "EPON_PHY_STATUS_DOWN" then Some(PhySeen(false))
    else if m == "EPON_ERROR_RBUS_PUBLISH_FAILED" then Some(BusErrorSeen)
    else if m == "EPON_ERROR_EVENT_QUEUE_FULL" then Some(QueueFullSeen)
    else None
  }

  const NAMED: string := "Interface="

  function SeeLink(m: string, value: string): Option<Seen>
  {
    if !(NAMED <= value) then None
    else if m == "EPON_INTF_LINK_UP" then Some(LinkSeen(LinkUp, value[|NAMED|..]))
    else if m == "EPON_INTF_LINK_DOWN" then Some(LinkSeen(LinkDown, value[|NAMED|..]))
    else None
  }

  /** What one backend event says. */
  function See(s: Sent, notApplicable: u16): Option<Seen>
  {
    if s.Counted? then SeeCounted(s.marker)
    else if SeeLink(s.marker, s.value).Some? then SeeLink(s.marker, s.value)
    else
      match Decode(s, notApplicable)
      case None => None
      case Some(alarm) => Some(AlarmSeen(alarm))
  }

  function SeeTrace(ss: seq<Sent>, notApplicable: u16): seq<Seen>
  {
    if ss == [] then []
    else SeeTrace(ss[..|ss| - 1], notApplicable) + OptionToSeq(See(ss[|ss| - 1], notApplicable))
  }

  /** What a raise says once the backend has it. */
  function SeenOf(r: Raise, notApplicable: u16): seq<Seen>
  {
    match Outgoing(r, notApplicable)
    case None => []
    case Some(s) => OptionToSeq(See(s, notApplicable))
  }

  function FlatMap<S, T>(f: S -> seq<T>, xs: seq<S>): seq<T>
  {
    if xs == [] then [] else FlatMap(f, xs[..|xs| - 1]) + f(xs[|xs| - 1])
  }

  lemma {:induction false} FlatMapConcat<S, T>(f: S -> seq<T>, xs: seq<S>, ys: seq<S>)
    ensures FlatMap(f, xs + ys) == FlatMap(f, xs) + FlatMap(f, ys)
  {
    if ys == [] {
      assert xs + ys == xs;
    } else {
      var front, last := ys[..|ys| - 1], ys[|ys| - 1];
      FlatMapConcat(f, xs, front);
      assert (xs + ys)[..|xs + ys| - 1] == xs + front;
      Associative(FlatMap(f, xs), FlatMap(f, front), f(last));
    }
  }

  function Seer(notApplicable: u16): Raise -> seq<Seen>
  {
    r => SeenOf(r, notApplicable)
  }

  function SeenOfAll(rs: seq<Raise>, notApplicable: u16): seq<Seen>
  {
    FlatMap(Seer(notApplicable), rs)
  }

  lemma SeenOfSnoc(xs: seq<Raise>, r: Raise, na: u16)
    ensures SeenOfAll(xs + [r], na) == SeenOfAll(xs, na) + SeenOf(r, na)
  {
    assert (xs + [r])[..|xs|] == xs;
  }

  lemma SeenOfConcat(xs: seq<Raise>, ys: seq<Raise>, na: u16)
    ensures SeenOfAll(xs + ys, na) == SeenOfAll(xs, na) + SeenOfAll(ys, na)
  {
    FlatMapConcat(Seer(na), xs, ys);
  }

  lemma SeenOfOne(r: Raise, na: u16)
    ensures SeenOfAll([r], na) == SeenOf(r, na)
  {
    SeenOfSnoc([], r, na);
    assert [] + [r] == [r];
  }

  // ------------------------------------------------------------ what the catalogue says

  /** An event without a value is sent as its marker. */
  lemma PlainIsCounted(id: PlainId, marker: string, seen: Seen, na: u16)
    requires FormatOf(id) == NoValue && Marker(id) == marker && SeeCounted(marker) == Some(seen)
    ensures SeenOf(Simple(id), na) == [seen]
  {
  }

  lemma StatusMarkersDiffer()
    ensures SeeCounted("EPON_ONU_LOS") == Some(StatusSeen(LossOfSignal))
    ensures SeeCounted("EPON_ONU_DOWNSTREAM_SIGNAL_DETECTED") == Some(StatusSeen(DownstreamSignalDetected))
    ensures SeeCounted("EPON_ONU_REGISTRATION") == Some(StatusSeen(Registration))
    ensures SeeCounted("EPON_ONU_DEREGISTRATION") == Some(StatusSeen(Deregistration))
  {
    assert |"EPON_ONU_LOS"| == 12 && |"EPON_ONU_DOWNSTREAM_SIGNAL_DETECTED"| == 35;
    assert |"EPON_ONU_REGISTRATION"| == 21 && |"EPON_ONU_DEREGISTRATION"| == 23;
  }

  lemma PhyMarkersDiffer()
    ensures SeeCounted("EPON_PHY_STATUS_UP") == Some(PhySeen(true))
    ensures SeeCounted("EPON_PHY_STATUS_DOWN") == Some(PhySeen(false))
  {
    assert "EPON_PHY_STATUS_UP"[5] == 'P' == "EPON_PHY_STATUS_DOWN"[5];
    assert |"EPON_PHY_STATUS_UP"| == 18 && |"EPON_PHY_STATUS_DOWN"| == 20;
    assert "EPON_ONU_LOS"[5] == 'O' == "EPON_ONU_DOWNSTREAM_SIGNAL_DETECTED"[5];
    assert "EPON_ONU_REGISTRATION"[5] == 'O' == "EPON_ONU_DEREGISTRATION"[5];
  }

  lemma ErrorMarkersDiffer()
    ensures SeeCounted("EPON_ERROR_RBUS_PUBLISH_FAILED") == Some(BusErrorSeen)
    ensures SeeCounted("EPON_ERROR_EVENT_QUEUE_FULL") == Some(QueueFullSeen)
  {
    assert "EPON_ERROR_RBUS_PUBLISH_FAILED"[5] == 'E' == "EPON_ERROR_EVENT_QUEUE_FULL"[5];
    assert |"EPON_ERROR_RBUS_PUBLISH_FAILED"| == 30 && |"EPON_ERROR_EVENT_QUEUE_FULL"| == 27;
    assert "EPON_PHY_STATUS_UP"[5] == 'P' == "EPON_PHY_STATUS_DOWN"[5];
    assert "EPON_ONU_LOS"[5] == 'O' == "EPON_ONU_DOWNSTREAM_SIGNAL_DETECTED"[5];
    assert "EPON_ONU_REGISTRATION"[5] == 'O' == "EPON_ONU_DEREGISTRATION"[5];
  }

  /** The markers of the known statuses say which status. */
  lemma StatusSeenIs(s: OnuStatus, na: u16)
    ensures SeenOf(Simple(OnuLos), na) == [StatusSeen(LossOfSignal)]
    ensures SeenOf(Simple(OnuDownstreamSignalDetected), na) == [StatusSeen(DownstreamSignalDetected)]
    ensures SeenOf(Simple(OnuRegistration), na) == [StatusSeen(Registration)]
    ensures SeenOf(Simple(OnuDeregistration), na) == [StatusSeen(Deregistration)]
    ensures SeenOfAll(StatusMarker(s), na) == if s.OtherStatus? then [] else [StatusSeen(s)]
  {
    StatusMarkersDiffer();
    PlainIsCounted(OnuLos, "EPON_ONU_LOS", StatusSeen(LossOfSignal), na);
    PlainIsCounted(OnuDownstreamSignalDetected, "EPON_ONU_DOWNSTREAM_SIGNAL_DETECTED",
                   StatusSeen(DownstreamSignalDetected), na);
    PlainIsCounted(OnuRegistration, "EPON_ONU_REGISTRATION", StatusSeen(Registration), na);
    PlainIsCounted(OnuDeregistration, "EPON_ONU_DEREGISTRATION", StatusSeen(Deregistration), na);
    match s
    case LossOfSignal => SeenOfOne(Simple(OnuLos), na);
    case DownstreamSignalDetected => SeenOfOne(Simple(OnuDownstreamSignalDetected), na);
    case Registration => SeenOfOne(Simple(OnuRegistration), na);
    case Deregistration => SeenOfOne(Simple(OnuDeregistration), na);
    case OtherStatus(_) =>
  }

  /** The markers of the aggregate say whether it is up. */
  lemma PhySeenIs(up: bool, na: u16)
    ensures SeenOf(Simple(if up then PhyStatusUp else PhyStatusDown), na) == [PhySeen(up)]
  {
    PhyMarkersDiffer();
    if up {
      PlainIsCounted(PhyStatusUp, "EPON_PHY_STATUS_UP", PhySeen(true), na);
    } else {
      PlainIsCounted(PhyStatusDown, "EPON_PHY_STATUS_DOWN", PhySeen(false), na);
    }
  }

  /** The two error markers of the daemon say which error. */
  lemma ErrorSeenIs(na: u16)
    ensures SeenOf(Simple(ErrorRbusPublishFailed), na) == [BusErrorSeen]
    ensures SeenOf(Simple(ErrorEventQueueFull), na) == [QueueFullSeen]
  {
    ErrorMarkersDiffer();
    PlainIsCounted(ErrorRbusPublishFailed, "EPON_ERROR_RBUS_PUBLISH_FAILED", BusErrorSeen, na);
    PlainIsCounted(ErrorEventQueueFull, "EPON_ERROR_EVENT_QUEUE_FULL", QueueFullSeen, na);
  }

  /** A link marker carries the interface's name, as long as the value fits its buffer of
      256 characters. */
  lemma LinkSeenIs(link: LinkStatus, name: string, na: u16)
    ensures SeenOf(Interface(if link == LinkUp then IntfLinkUp else IntfLinkDown, name), na) ==
            if |name| + 10 < 256 then [LinkSeen(link, name)] else []
  {
    var value := NAMED + name;
    assert |NAMED| == 10 && value[|NAMED|..] == name;
    assert |"EPON_INTF_LINK_UP"| == 17 && |"EPON_INTF_LINK_DOWN"| == 19;
  }

  /** A catalogued alarm is seen as what the HAL reported; others are not seen. */
  lemma AlarmSeenIs(info: AlarmInfo, na: u16)
    ensures SeenOf(Alarm(info), na) ==
            if info.kind == StandardKind && info.standard != UnknownStandard then
              [AlarmSeen(Observed(Standard(info.standard), info.active, info.llid))]
            else if info.kind == VendorKind && info.vendor != UnknownVendor then
              [AlarmSeen(Observed(Vendor(info.vendor), info.active, info.llid))]
            else []
  {
    DecodeOutgoing(Alarm(info), na);
    if MapAlarm(info).Some? {
      MarkerDecodes(MapAlarm(info).value);
      AlarmIsNoLink(Marker(MapAlarm(info).value));
      AlarmTextDecodes(info.active, info.llid, na);
      assert AlarmText(info.active, info.llid, na) != "";
    }
  }

  lemma AlarmIsNoLink(m: string)
    requires DecodeMarker(m).Some?
    ensures m != "EPON_INTF_LINK_UP" && m != "EPON_INTF_LINK_DOWN"
  {
    if DecodeStandard(m).Some? { StandardMarkerShape(m); } else { VendorMarkerShape(m); }
    assert "EPON_INTF_LINK_UP"[5] == 'I' == "EPON_INTF_LINK_DOWN"[5];
  }

  // ------------------------------------------------------------ what the events call for

  function ErrorUnless(ok: bool): seq<Seen> { if ok then [] else [BusErrorSeen] }

  /** What one event lets the backend see: a known status; for an interface its link status
      and then the aggregate, each after a bus error if its write fails, and a bus error if
      the rows are due and cannot be synchronised; a catalogued alarm. */
  ghost function Expected(a: App, lim: Limits, e: Event, env: Env): seq<Seen>
  {
    match e
    case OnuStatusEvent(s) => if s.OtherStatus? then [] else [StatusSeen(s)]
    case InterfaceEvent(info) =>
      var list := Updated(a.interfaces, lim, info);
      var v, p := env.virtualView, env.phyView;
      var known := WanManager.Known(a.wan.index, v);
      ErrorUnless(known && WanManager.Named(v, info.name) && v.handle && v.writable)
      + (if |info.name| + 10 < 256 then [LinkSeen(info.status, info.name)] else [])
      + ErrorUnless((known || WanManager.Known(a.wan.index, p)) && p.handle && p.writable)
      + [PhySeen(exists i :: 0 <= i < |list| && list[i].status == LinkUp)]
      + ErrorUnless(|list| == a.countCache || (env.rowHandle && env.rowContext))
    case AlarmReport(alarm) =>
      if alarm.kind == StandardKind && alarm.standard != UnknownStandard then
        [AlarmSeen(Observed(Standard(alarm.standard), alarm.active, alarm.llid))]
      else if alarm.kind == VendorKind && alarm.vendor != UnknownVendor then
        [AlarmSeen(Observed(Vendor(alarm.vendor), alarm.active, alarm.llid))]
      else []
    case UnknownEvent => []
  }

  lemma ErrorSeen(ok: bool, na: u16)
    ensures SeenOfAll(IfFailed(ok), na) == ErrorUnless(ok)
  {
    ErrorSeenIs(na);
    SeenOfOne(Simple(ErrorRbusPublishFailed), na);
  }

  /** The raises of one stage. */
  lemma MarkerSeen(ok: bool, r: Raise, na: u16)
    ensures SeenOfAll(IfFailed(ok) + [r], na) == ErrorUnless(ok) + SeenOf(r, na)
  {
    SeenOfConcat(IfFailed(ok), [r], na);
    ErrorSeen(ok, na);
    SeenOfOne(r, na);
  }

  lemma Flat<T>(a: seq<T>, b: seq<T>, c: seq<T>, d: seq<T>, e: seq<T>)
    ensures [] + (a + b) + (c + d) + e == a + b + c + d + e
  {
  }

  lemma StagesSeen(ok1: bool, link: Raise, ok2: bool, phy: Raise, ok3: bool, na: u16)
    ensures SeenOfAll([] + (IfFailed(ok1) + [link]) + (IfFailed(ok2) + [phy]) + IfFailed(ok3), na) ==
            ErrorUnless(ok1) + SeenOf(link, na) + ErrorUnless(ok2) + SeenOf(phy, na) + ErrorUnless(ok3)
  {
    var first, second := IfFailed(ok1) + [link], IfFailed(ok2) + [phy];
    MarkerSeen(ok1, link, na);
    MarkerSeen(ok2, phy, na);
    ErrorSeen(ok3, na);
    ThreeSeen([], first, second, IfFailed(ok3), na);
    Flat(ErrorUnless(ok1), SeenOf(link, na), ErrorUnless(ok2), SeenOf(phy, na), ErrorUnless(ok3));
  }

  lemma ThreeSeen(none: seq<Raise>, a: seq<Raise>, b: seq<Raise>, c: seq<Raise>, na: u16)
    requires none == []
    ensures SeenOfAll(none + a + b + c, na) == [] + SeenOfAll(a, na) + SeenOfAll(b, na) + SeenOfAll(c, na)
  {
    SeenOfConcat(none + a + b, c, na);
    SeenOfConcat(none + a, b, na);
    SeenOfConcat(none, a, na);
  }

  /** The index the aggregate's publication starts from. */
  lemma PhyOutcome(a: App, lim: Limits, info: Info, env: Env)
    ensures var index := WanManager.Discovered(a.wan.index, env.virtualView);
            WanManager.PhyWritten(index, env.phyView) <==>
            && (WanManager.Known(a.wan.index, env.virtualView) || WanManager.Known(a.wan.index, env.phyView))
            && env.phyView.handle && env.phyView.writable
  {
    var index := WanManager.Discovered(a.wan.index, env.virtualView);
    WanManager.IndexIsKnown(a.wan.index, env.virtualView);
    WanManager.IndexIsKnown(index, env.phyView);
    if index > 0 {
      assert WanManager.KnownAs(index, env.phyView, index);
    } else {
      assert a.wan.index == 0;
    }
  }

  /** The raises of an interface event, outcome by outcome. */
  lemma InterfaceRaises(a: App, lim: Limits, info: Info, env: Env)
    ensures var list := Updated(a.interfaces, lim, info);
            var index := WanManager.Discovered(a.wan.index, env.virtualView);
            Raises(a, lim, InterfaceEvent(info), env) ==
            [] + (IfFailed(WanManager.VirtualWritten(a.wan.index, info.name, env.virtualView))
                  + [Interface(if info.status == LinkUp then IntfLinkUp else IntfLinkDown, info.name)])
            + (IfFailed(WanManager.PhyWritten(index, env.phyView))
               + [Simple(if AnyUp(list) then PhyStatusUp else PhyStatusDown)])
            + IfFailed(|list| != a.countCache ==> env.rowHandle && env.rowContext)
  {
    StagedParts(a, lim, info, env);
    RaisesUpTo(0, a, lim, info, env);
    RaisesUpTo(1, a, lim, info, env);
    RaisesUpTo(2, a, lim, info, env);
    RaisesUpTo(3, a, lim, info, env);
  }

  /** What an interface event calls for, by the outcomes of its writes. */
  lemma ExpectedInterface(a: App, lim: Limits, info: Info, env: Env)
    ensures var list := Updated(a.interfaces, lim, info);
            var index := WanManager.Discovered(a.wan.index, env.virtualView);
            Expected(a, lim, InterfaceEvent(info), env) ==
            ErrorUnless(WanManager.VirtualWritten(a.wan.index, info.name, env.virtualView))
            + (if |info.name| + 10 < 256 then [LinkSeen(info.status, info.name)] else [])
            + ErrorUnless(WanManager.PhyWritten(index, env.phyView))
            + [PhySeen(AnyUp(list))]
            + ErrorUnless(|list| != a.countCache ==> env.rowHandle && env.rowContext)
  {
    PhyOutcome(a, lim, info, env);
    WanManager.VirtualEffect(a.wan, info.name, info.status == LinkUp, env.virtualView);
  }

  lemma InterfaceSeen(a: App, lim: Limits, info: Info, env: Env, na: u16)
    ensures SeenOfAll(Raises(a, lim, InterfaceEvent(info), env), na) == Expected(a, lim, InterfaceEvent(info), env)
  {
    var list := Updated(a.interfaces, lim, info);
    var index := WanManager.Discovered(a.wan.index, env.virtualView);
    InterfaceRaises(a, lim, info, env);
    StagesSeen(WanManager.VirtualWritten(a.wan.index, info.name, env.virtualView),
               Interface(if info.status == LinkUp then IntfLinkUp else IntfLinkDown, info.name),
               WanManager.PhyWritten(index, env.phyView),
               Simple(if AnyUp(list) then PhyStatusUp else PhyStatusDown),
               |list| != a.countCache ==> env.rowHandle && env.rowContext, na);
    LinkSeenIs(info.status, info.name, na);
    PhySeenIs(AnyUp(list), na);
    ExpectedInterface(a, lim, info, env);
  }

  lemma StatusEventSeen(a: App, lim: Limits, s: OnuStatus, env: Env, na: u16)
    ensures SeenOfAll(Raises(a, lim, OnuStatusEvent(s), env), na) == Expected(a, lim, OnuStatusEvent(s), env)
  {
    StatusSeenIs(s, na);
  }

  lemma AlarmEventSeen(a: App, lim: Limits, alarm: AlarmInfo, env: Env, na: u16)
    ensures SeenOfAll(Raises(a, lim, AlarmReport(alarm), env), na) == Expected(a, lim, AlarmReport(alarm), env)
  {
    SeenOfOne(Alarm(alarm), na);
    AlarmSeenIs(alarm, na);
  }

  /** Handling an event raises exactly what it calls for. */
  lemma EventSeen(a: App, lim: Limits, e: Event, env: Env, na: u16)
    ensures SeenOfAll(Raises(a, lim, e, env), na) == Expected(a, lim, e, env)
  {
    match e
    case OnuStatusEvent(s) => StatusEventSeen(a, lim, s, env, na);
    case InterfaceEvent(info) => InterfaceSeen(a, lim, info, env, na);
    case AlarmReport(alarm) => AlarmEventSeen(a, lim, alarm, env, na);
    case UnknownEvent =>
  }

  ghost function ExpectedRun(lim: Limits, run: Run): seq<Seen>
  {
    if run == [] then []
    else
      var front, last := run[..|run| - 1], run[|run| - 1];
      ExpectedRun(lim, front) + Expected(Folded(lim, front), lim, last.0, last.1)
  }

  lemma {:induction false} RunSeen(lim: Limits, run: Run, na: u16)
    ensures SeenOfAll(FoldedRaises(lim, run), na) == ExpectedRun(lim, run)
  {
    if run != [] {
      var front, last := run[..|run| - 1], run[|run| - 1];
      RunSeen(lim, front, na);
      EventSeen(Folded(lim, front), lim, last.0, last.1, na);
      SeenOfConcat(FoldedRaises(lim, front), Raises(Folded(lim, front), lim, last.0, last.1), na);
    }
  }

  // ------------------------------------------------------------ with the backend's answers

  /** What answered raises say, each with its answer. */
  function SeenAnswers(rs: seq<(Raise, bool)>, na: u16): seq<(Seen, bool)>
  {
    if rs == [] then []
    else
      var last := rs[|rs| - 1];
      SeenAnswers(rs[..|rs| - 1], na) + WithAnswer(SeenOf(last.0, na), last.1)
  }

  function WithAnswer(seen: seq<Seen>, answer: bool): seq<(Seen, bool)>
  {
    seq(|seen|, i requires 0 <= i < |seen| => (seen[i], answer))
  }

  function WithoutAnswers(seen: seq<(Seen, bool)>): (all: seq<Seen>)
    ensures |all| == |seen|
  {
    seq(|seen|, i requires 0 <= i < |seen| => seen[i].0)
  }

  function AcceptedOnly(seen: seq<(Seen, bool)>): seq<Seen>
  {
    if seen == [] then []
    else AcceptedOnly(seen[..|seen| - 1]) + if seen[|seen| - 1].1 then [seen[|seen| - 1].0] else []
  }

  lemma AcceptedOnlyConcat(xs: seq<(Seen, bool)>, more: seq<Seen>, answer: bool)
    requires |more| <= 1
    ensures AcceptedOnly(xs + WithAnswer(more, answer)) == AcceptedOnly(xs) + if answer then more else []
  {
    if more == [] {
      assert xs + WithAnswer(more, answer) == xs;
    } else {
      assert WithAnswer(more, answer) == [(more[0], answer)];
      assert (xs + [(more[0], answer)])[..|xs|] == xs;
    }
  }

  lemma SeeTraceSnoc(ss: seq<Sent>, more: seq<Sent>, na: u16)
    requires |more| <= 1
    ensures SeeTrace(ss + more, na) == SeeTrace(ss, na) + if more == [] then [] else OptionToSeq(See(more[0], na))
  {
    if more == [] {
      assert ss + more == ss;
    } else {
      assert (ss + more)[..|ss|] == ss;
    }
  }

  lemma WithoutAnswersConcat(xs: seq<(Seen, bool)>, more: seq<Seen>, answer: bool)
    ensures WithoutAnswers(xs + WithAnswer(more, answer)) == WithoutAnswers(xs) + more
  {
  }

  lemma {:induction false} AnswersBelong(rs: seq<(Raise, bool)>, na: u16)
    ensures WithoutAnswers(SeenAnswers(rs, na)) == SeenOfAll(Firsts(rs), na)
  {
    if rs != [] {
      var front, last := rs[..|rs| - 1], rs[|rs| - 1];
      AnswersBelong(front, na);
      WithoutAnswersConcat(SeenAnswers(front, na), SeenOf(last.0, na), last.1);
      assert Firsts(rs)[..|front|] == Firsts(front);
    }
  }

  /** What the backend has of one raise. */
  lemma OneSeen(ss: seq<Sent>, r: Raise, answer: bool, na: u16)
    ensures SeeTrace(ss + Telemetry.Delivered(r, answer, na), na)
         == SeeTrace(ss, na) + if answer then SeenOf(r, na) else []
  {
    SeeTraceSnoc(ss, Telemetry.Delivered(r, answer, na), na);
  }

  /** The decoded trace is what the accepted raises say. */
  lemma {:induction false} TraceSeen(rs: seq<(Raise, bool)>, na: u16)
    ensures SeeTrace(Trace(rs, na), na) == AcceptedOnly(SeenAnswers(rs, na))
  {
    if rs != [] {
      var front, last := rs[..|rs| - 1], rs[|rs| - 1];
      TraceSeen(front, na);
      AcceptedOnlyConcat(SeenAnswers(front, na), SeenOf(last.0, na), last.1);
      OneSeen(Trace(front, na), last.0, last.1, na);
    }
  }

  /** While the telemetry module is initialised: what the events of a run call for, each
      with the backend's answer to it, is what the decoded trace of the run consists of:
      exactly the accepted ones, in order. */
  lemma TraceShowsRun(lim: Limits, run: Run, answers: seq<bool>, na: u16)
    requires |answers| == |FoldedRaises(lim, run)|
    ensures var all := Answered(FoldedRaises(lim, run), answers);
            && WithoutAnswers(SeenAnswers(all, na)) == ExpectedRun(lim, run)
            && SeeTrace(Trace(all, na), na) == AcceptedOnly(SeenAnswers(all, na))
  {
    var all := Answered(FoldedRaises(lim, run), answers);
    TraceSeen(all, na);
    AnswersBelong(all, na);
    assert Firsts(all) == FoldedRaises(lim, run);
    RunSeen(lim, run, na);
  }

  // ------------------------------------------------------------ the statuses, and all threads

  function StatusesSeen(seen: seq<Seen>): seq<OnuStatus>
  {
    if seen == [] then []
    else StatusesSeen(seen[..|seen| - 1]) + if seen[|seen| - 1].StatusSeen? then [seen[|seen| - 1].status] else []
  }

  /** The known statuses a run's events report. */
  function KnownStatuses(run: Run): seq<OnuStatus>
  {
    if run == [] then []
    else
      var e := run[|run| - 1].0;
      KnownStatuses(run[..|run| - 1]) + if e.OnuStatusEvent? && !e.status.OtherStatus? then [e.status] else []
  }

  lemma {:induction false} StatusesSeenConcat(xs: seq<Seen>, ys: seq<Seen>)
    ensures StatusesSeen(xs + ys) == StatusesSeen(xs) + StatusesSeen(ys)
  {
    if ys == [] {
      assert xs + ys == xs;
    } else {
      var front, last := ys[..|ys| - 1], ys[|ys| - 1];
      StatusesSeenConcat(xs, front);
      assert (xs + ys)[..|xs + ys| - 1] == xs + front;
      Associative(StatusesSeen(xs), StatusesSeen(front), if last.StatusSeen? then [last.status] else []);
    }
  }

  lemma {:induction false} NoStatuses(seen: seq<Seen>)
    requires forall i | 0 <= i < |seen| :: !seen[i].StatusSeen?
    ensures StatusesSeen(seen) == []
  {
    if seen != [] { NoStatuses(seen[..|seen| - 1]); }
  }

  lemma ExpectedStatuses(a: App, lim: Limits, e: Event, env: Env)
    ensures StatusesSeen(Expected(a, lim, e, env)) ==
            if e.OnuStatusEvent? && !e.status.OtherStatus? then [e.status] else []
  {
    if e.OnuStatusEvent? {
      if !e.status.OtherStatus? { assert [StatusSeen(e.status)][..0] == []; }
    } else {
      NoStatuses(Expected(a, lim, e, env));
    }
  }

  /** The ONU markers of a run, read back from their text, are exactly the known statuses
      its events report, in order. */
  lemma {:induction false} StatusMarkersOfRun(lim: Limits, run: Run, na: u16)
    ensures StatusesSeen(SeenOfAll(FoldedRaises(lim, run), na)) == KnownStatuses(run)
  {
    RunSeen(lim, run, na);
    if run != [] {
      var front, last := run[..|run| - 1], run[|run| - 1];
      StatusMarkersOfRun(lim, front, na);
      RunSeen(lim, front, na);
      StatusesSeenConcat(ExpectedRun(lim, front), Expected(Folded(lim, front), lim, last.0, last.1));
      ExpectedStatuses(Folded(lim, front), lim, last.0, last.1);
    }
  }

  function WithoutQueueFull(seen: seq<Seen>): seq<Seen>
  {
    if seen == [] then []
    else WithoutQueueFull(seen[..|seen| - 1]) + if seen[|seen| - 1].QueueFullSeen? then [] else [seen[|seen| - 1]]
  }

  lemma {:induction false} WithoutQueueFullConcat(xs: seq<Seen>, ys: seq<Seen>)
    ensures WithoutQueueFull(xs + ys) == WithoutQueueFull(xs) + WithoutQueueFull(ys)
  {
    if ys == [] {
      assert xs + ys == xs;
    } else {
      var front, last := ys[..|ys| - 1], ys[|ys| - 1];
      WithoutQueueFullConcat(xs, front);
      assert (xs + ys)[..|xs + ys| - 1] == xs + front;
      Associative(WithoutQueueFull(xs), WithoutQueueFull(front), if last.QueueFullSeen? then [] else [last]);
    }
  }

  lemma {:induction false} NoQueueFull(seen: seq<Seen>)
    requires QueueFullSeen !in seen
    ensures WithoutQueueFull(seen) == seen
  {
    if seen != [] {
      var front, last := seen[..|seen| - 1], seen[|seen| - 1];
      assert seen == front + [last] && last in seen;
      NoQueueFull(front);
    }
  }

  lemma ExpectedNoQueueFull(a: App, lim: Limits, e: Event, env: Env)
    ensures QueueFullSeen !in Expected(a, lim, e, env)
  {
  }

  /** Handlers never report a full queue. */
  lemma {:induction false} ExpectedHasNoQueueFull(lim: Limits, run: Run)
    ensures WithoutQueueFull(ExpectedRun(lim, run)) == ExpectedRun(lim, run)
  {
    if run != [] {
      var front, last := run[..|run| - 1], run[|run| - 1];
      var more := Expected(Folded(lim, front), lim, last.0, last.1);
      ExpectedHasNoQueueFull(lim, front);
      ExpectedNoQueueFull(Folded(lim, front), lim, last.0, last.1);
      NoQueueFull(more);
      WithoutQueueFullConcat(ExpectedRun(lim, front), more);
    }
  }

  lemma {:induction false} HandlerLogSeen(log: seq<Raise>, na: u16)
    ensures WithoutQueueFull(SeenOfAll(log, na)) == WithoutQueueFull(SeenOfAll(HandlerRaises(log), na))
  {
    if log != [] {
      var front, last := log[..|log| - 1], log[|log| - 1];
      HandlerLogSeen(front, na);
      WithoutQueueFullConcat(SeenOfAll(front, na), SeenOf(last, na));
      if last == Simple(ErrorEventQueueFull) {
        ErrorSeenIs(na);
        assert [QueueFullSeen][..0] == [];
        assert WithoutQueueFull([QueueFullSeen]) == [];
        assert HandlerRaises(log) == HandlerRaises(front);
      } else {
        SeenOfConcat(HandlerRaises(front), [last], na);
        SeenOfOne(last, na);
        WithoutQueueFullConcat(SeenOfAll(HandlerRaises(front), na), SeenOf(last, na));
      }
    }
  }

  /** For every interleaving of callback threads with the loop, everything raised but the
      queue-full markers is what the popped events call for, in order, read back from the
      text of markers and values. */
  lemma SeenAfterAnyInterleaving(c: Config, acts: seq<Act>, s: Sys, na: u16)
    requires Exec(c, INITIAL, acts) == Some(s) && !s.pc.Handling?
    ensures WithoutQueueFull(SeenOfAll(s.log, na)) == ExpectedRun(c.limits, Events(s.popped))
  {
    PipelineRefinesFold(c, acts);
    HandlerLogSeen(s.log, na);
    RunSeen(c.limits, Events(s.popped), na);
    ExpectedHasNoQueueFull(c.limits, Events(s.popped));
  }
}
