/** The driver's state as a value, and what each driver operation does to it: the
    send gate, the LED, calibration and report-type commands, connecting, one step
    of the receive loop and a whole receive session. The class in module Driver
    is proved to change its fields exactly as these functions say. Sockets are
    replaced by `outbox`, the list of byte strings written to the control socket,
    and by the frames given to the receive step. */
module BoardState {
  import opened Bytes
  import opened Calibration
  import opened Events
  import opened Commands

  /** Capacity of the event stack (LifoQueue(maxsize=1024)). */
  const Capacity := 1024

  /** Report types the receive loop reacts to, besides Extension8Bytes. */
  const InputStatus := 20
  const InputReadData := 21

  datatype Status = Disconnected | Connected | Disconnecting

  /** The driver's fields. `events` is the event stack with its top at the end;
      `outbox` holds every byte string sent, oldest first. */
  datatype Snapshot = Snapshot(
    status: Status,
    address: Option<string>,
    calibrationRequested: bool,
    led: bool,
    buttonDown: bool,
    lastEvent: BoardEvent,
    matrix: seq<seq<int>>,
    events: seq<BoardEvent>,
    outbox: seq<seq<byte>>)

  /** What holds of every driver: a 3x4 matrix, at most Capacity events, and the
      remembered event that the constructor set and nothing replaces. */
  predicate WellFormed(s: Snapshot)
  {
    IsMatrix(s.matrix) && |s.events| <= Capacity && s.lastEvent == InitialEvent
  }

  /** No event on the stack reports a release. */
  predicate NoneReleased(events: seq<BoardEvent>)
  {
    forall k :: 0 <= k < |events| ==> !events[k].buttonReleased
  }

  /** Every event on the stack carries the total it was built with: the sum of its
      four weights. */
  predicate TotalsConsistent(events: seq<BoardEvent>)
  {
    forall k :: 0 <= k < |events| ==>
      events[k].totalWeight == events[k].topLeft + events[k].topRight + events[k].bottomLeft + events[k].bottomRight
  }

  /** A new driver: disconnected, every calibration cell at the sentinel, all flags
      down, nothing queued and nothing sent. */
  function Fresh(): (s: Snapshot)
    ensures WellFormed(s) && NoneReleased(s.events) && TotalsConsistent(s.events)
  {
    Snapshot(Disconnected, None, false, false, false, InitialEvent, InitialMatrix(), [], [])
  }

  /** send: writes the output report for payload `p`, but only while connected. */
  function AfterSend(s: Snapshot, p: seq<byte>): Snapshot
  {
    if s.status == Connected then s.(outbox := s.outbox + [OutputBytes(p)]) else s
  }

  /** set_light: sends the LED command and records the requested state either way. */
  function AfterSetLight(s: Snapshot, on: bool): Snapshot
  {
    AfterSend(s, Payload(SetLight(on))).(led := on)
  }

  /** calibrate: sends the calibration read and marks calibration as requested. */
  function AfterCalibrate(s: Snapshot): Snapshot
  {
    AfterSend(s, Payload(RequestCalibration)).(calibrationRequested := true)
  }

  /** set_report_type: sends the reporting-mode command. */
  function AfterSetReportType(s: Snapshot): Snapshot
  {
    AfterSend(s, Payload(SetReportType))
  }

  /** connect, once both sockets are open: nothing for a missing address; otherwise
      connected to it, then calibrate, enable the extension, set the report type. */
  function AfterConnect(s: Snapshot, address: Option<string>): Snapshot
  {
    match address
    case None => s
    case Some(_) =>
      var connected := s.(status := Connected, address := address);
      AfterSetReportType(AfterSend(AfterCalibrate(connected), Payload(EnableExtension)))
  }

  /** put_nowait on the bounded stack: pushes on top, or drops the event when full.
      Nothing already on the stack is removed or replaced, and a stack within
      Capacity stays within it. */
  function Push(stack: seq<BoardEvent>, e: BoardEvent): (r: seq<BoardEvent>)
    ensures stack <= r && |r| <= |stack| + 1
    ensures |stack| <= Capacity ==> |r| <= Capacity
    ensures |r| > |stack| <==> |stack| < Capacity
    ensures |r| > |stack| ==> r[|stack|] == e
  {
    if |stack| < Capacity then stack + [e] else stack
  }

  /** A state and the exception that ended the step, if any. */
  datatype Outcome = Outcome(state: Snapshot, fault: Option<Fault>)

  /** One iteration of the receive loop on a frame returned by recv(25). */
  function AfterReceive(s: Snapshot, frame: seq<byte>): (o: Outcome)
    requires IsMatrix(s.matrix)
    ensures IsMatrix(o.state.matrix)
  {
    match ReportType(frame)
    case Fail(e) => Outcome(s, Some(e))
    case Ok(t) =>
      if t == InputStatus then
        Outcome(AfterSetReportType(s), None)
      else if t == InputReadData then
        if !s.calibrationRequested then Outcome(s, None)
        else if |frame| <= 4 then Outcome(s, Some(MissingByte))
        else
          var length := frame[4] / 16 + 1;
          var parsed := ParseCalibration(s.matrix, Slice(frame, 7, 7 + length));
          var done := parsed.fault.None? && length < 16;
          Outcome(s.(matrix := parsed.matrix,
                     calibrationRequested := if done then false else s.calibrationRequested),
                  parsed.fault)
      else if t == Extension8Bytes then
        var d := DecodeEvent(s.matrix, s.buttonDown, s.lastEvent, Slice(frame, 2, 12));
        match d.event
        case Fail(e) => Outcome(s.(buttonDown := d.buttonDown), Some(e))
        case Ok(ev) => Outcome(s.(buttonDown := d.buttonDown, events := Push(s.events, ev)), None)
      else
        Outcome(s, None)
  }

  /** The receive loop over the frames that arrive while the driver stays connected:
      it stops at the first exception, and otherwise ends disconnected. */
  function AfterSession(s: Snapshot, frames: seq<seq<byte>>): (o: Outcome)
    requires IsMatrix(s.matrix)
    ensures IsMatrix(o.state.matrix)
    decreases |frames|
  {
    if s.status != Connected || |frames| == 0 then Outcome(s.(status := Disconnected), None)
    else
      var o := AfterReceive(s, frames[0]);
      if o.fault.Some? then o else AfterSession(o.state, frames[1..])
  }

  /** Nothing is sent unless connected; when connected exactly one output report is
      appended; no other field changes. */
  lemma SendGate(s: Snapshot, p: seq<byte>)
    ensures AfterSend(s, p).outbox == if s.status == Connected then s.outbox + [OutputBytes(p)] else s.outbox
    ensures AfterSend(s, p).(outbox := s.outbox) == s
  {
  }

  /** set_light sends 52 11 10 or 52 11 00 when connected, and records the LED state
      even when nothing was sent. */
  lemma {:induction false} SetLightEffect(s: Snapshot, on: bool)
    ensures AfterSetLight(s, on).led == on
    ensures AfterSetLight(s, on).outbox ==
      s.outbox + if s.status == Connected then [[0x52, 0x11, if on then 0x10 else 0x00]] else []
    ensures AfterSetLight(s, on).(led := s.led, outbox := s.outbox) == s
  {
    WireBytes();
  }

  /** calibrate sends 52 17 04 A4 00 24 00 18 when connected and marks calibration
      as requested either way. */
  lemma {:induction false} CalibrateEffect(s: Snapshot)
    ensures AfterCalibrate(s).calibrationRequested
    ensures AfterCalibrate(s).outbox ==
      s.outbox + if s.status == Connected then [[0x52, 0x17, 0x04, 0xA4, 0x00, 0x24, 0x00, 0x18]] else []
    ensures AfterCalibrate(s).(calibrationRequested := s.calibrationRequested, outbox := s.outbox) == s
  {
    WireBytes();
  }

  /** set_report_type sends 52 12 04 32 when connected and changes nothing else. */
  lemma {:induction false} SetReportTypeEffect(s: Snapshot)
    ensures AfterSetReportType(s).outbox ==
      s.outbox + if s.status == Connected then [[0x52, 0x12, 0x04, 0x32]] else []
    ensures AfterSetReportType(s).(outbox := s.outbox) == s
  {
    WireBytes();
  }

  /** connect(None) changes nothing; connect(a) leaves the driver connected to `a`
      with calibration requested, having sent, in order, the calibration read, the
      extension enable and the report type. */
  lemma {:induction false} ConnectEffect(s: Snapshot, address: Option<string>)
    ensures address.None? ==> AfterConnect(s, address) == s
    ensures address.Some? ==> AfterConnect(s, address) == s.(
      status := Connected, address := address, calibrationRequested := true,
      outbox := s.outbox + [[0x52, 0x17, 0x04, 0xA4, 0x00, 0x24, 0x00, 0x18],
                            [0x52, 0x16, 0x04, 0xA4, 0x00, 0x40, 0x00],
                            [0x52, 0x12, 0x04, 0x32]])
  {
    WireBytes();
  }

  /** One receive step keeps the driver well formed, never touches the connection
      status, the address, the LED or the remembered event, and either leaves the
      stack as it was or pushes one event that reports no release, and whose total is
      the sum of its weights, onto a stack that was not full. */
  lemma {:induction false} ReceiveKeepsInvariant(s: Snapshot, frame: seq<byte>)
    requires WellFormed(s)
    ensures var o := AfterReceive(s, frame);
      WellFormed(o.state) &&
      o.state.status == s.status && o.state.address == s.address &&
      o.state.led == s.led && o.state.lastEvent == s.lastEvent &&
      (o.state.events == s.events ||
       (|s.events| < Capacity && |o.state.events| == |s.events| + 1 &&
        o.state.events[..|s.events|] == s.events && !o.state.events[|s.events|].buttonReleased &&
        o.state.events[|s.events|].totalWeight ==
          o.state.events[|s.events|].topLeft + o.state.events[|s.events|].topRight +
          o.state.events[|s.events|].bottomLeft + o.state.events[|s.events|].bottomRight))
  {
    if ReportType(frame) == Ok(Extension8Bytes) {
      NeverReleasedFromInitial(s.matrix, s.buttonDown, Slice(frame, 2, 12));
      DecodedWeights(s.matrix, s.buttonDown, s.lastEvent, Slice(frame, 2, 12));
    }
  }

  /** A full stack is left unchanged by every receive step. */
  lemma FullStackUnchanged(s: Snapshot, frame: seq<byte>)
    requires IsMatrix(s.matrix) && |s.events| == Capacity
    ensures AfterReceive(s, frame).state.events == s.events
  {
  }

  /** A status report (type 20, byte 0x20) re-sends the report type and changes
      nothing else. */
  lemma {:induction false} StatusReport(s: Snapshot, frame: seq<byte>)
    requires IsMatrix(s.matrix) && |frame| >= 2 && frame[1] == 0x20
    ensures AfterReceive(s, frame) == Outcome(AfterSetReportType(s), None)
  {
    ReportTypeIs(frame, InputStatus);
  }

  /** A read-data report (type 21, byte 0x21). When calibration is not requested
      it is ignored, whatever its length. While calibration is requested, a frame without byte 4 raises
      before anything changes; a frame that holds the whole payload its header
      announces hands the parser bytes 7 onwards, (d[4] >> 4) + 1 of them, which
      raises for fewer than 8 bytes, and the request is withdrawn after a payload of
      8 to 15 bytes only. Frames shorter than their header announces are the
      subject of TruncatedReadData. */
  lemma {:induction false} ReadDataReport(s: Snapshot, frame: seq<byte>)
    requires IsMatrix(s.matrix) && |frame| >= 2 && frame[1] == 0x21
    requires s.calibrationRequested && |frame| > 4 ==> |frame| >= 8 + frame[4] / 16
    ensures !s.calibrationRequested ==> AfterReceive(s, frame) == Outcome(s, None)
    ensures s.calibrationRequested && |frame| <= 4 ==> AfterReceive(s, frame) == Outcome(s, Some(MissingByte))
    ensures s.calibrationRequested && |frame| > 4 ==>
      var length := frame[4] / 16 + 1;
      var parsed := ParseCalibration(s.matrix, frame[7..7 + length]);
      AfterReceive(s, frame) == Outcome(
        s.(matrix := parsed.matrix, calibrationRequested := !(8 <= length < 16)),
        if length < 8 then Some(MissingByte) else None)
  {
    ReportTypeIs(frame, InputReadData);
    if s.calibrationRequested && |frame| > 4 {
      var length := frame[4] / 16 + 1;
      assert Slice(frame, 7, 7 + length) == frame[7..7 + length];
    }
  }

  /** A read-data report shorter than its header announces, while calibration is
      requested: the parser gets only the bytes from 7 to the end of the frame, and
      the request is withdrawn only when those are at least 8 and the header
      announced fewer than 16. So a 16-byte header on a frame of 15 to 22 bytes
      writes the 34 kg row from what arrived and leaves the request standing. */
  lemma {:induction false} TruncatedReadData(s: Snapshot, frame: seq<byte>)
    requires IsMatrix(s.matrix) && s.calibrationRequested
    requires |frame| > 4 && |frame| < 8 + frame[4] / 16 && frame[1] == 0x21
    ensures var length := frame[4] / 16 + 1;
      var payload := if |frame| <= 7 then [] else frame[7..];
      var parsed := ParseCalibration(s.matrix, payload);
      |payload| < length &&
      AfterReceive(s, frame) == Outcome(
        s.(matrix := parsed.matrix, calibrationRequested := !(8 <= |payload| && length < 16)),
        if |payload| < 8 then Some(MissingByte) else None)
  {
    ReportTypeIs(frame, InputReadData);
    var length := frame[4] / 16 + 1;
    var payload := if |frame| <= 7 then [] else frame[7..];
    assert Slice(frame, 7, 7 + length) == payload;
  }

  /** An extension report (type 32, byte 0x32): bytes 2 to 11, or as many of them as
      arrived, are decoded; the event goes on top of the stack unless the stack is
      full, and the button latch takes the decoder's value even when decoding
      raises. */
  lemma {:induction false} ExtensionReport(s: Snapshot, frame: seq<byte>)
    requires IsMatrix(s.matrix) && |frame| >= 2 && frame[1] == 0x32
    ensures var d := DecodeEvent(s.matrix, s.buttonDown, s.lastEvent, Slice(frame, 2, 12));
      AfterReceive(s, frame) == match d.event
        case Fail(e) => Outcome(s.(buttonDown := d.buttonDown), Some(e))
        case Ok(ev) => Outcome(s.(buttonDown := d.buttonDown,
                                  events := if |s.events| < Capacity then s.events + [ev] else s.events), None)
  {
    ReportTypeIs(frame, Extension8Bytes);
  }

  /** An extension report cut short before its four sensor words raises and pushes
      nothing, but the button latch has already been updated: set when the button
      word arrived and is 8, cleared when it arrived, is not 8 and the remembered
      event was pressed, and otherwise as it was. */
  lemma {:induction false} ShortExtensionReport(s: Snapshot, frame: seq<byte>)
    requires IsMatrix(s.matrix) && 2 <= |frame| < 12 && frame[1] == 0x32
    ensures var pressed := |frame| >= 4 && Word(frame[2], frame[3]) == ButtonDownMask;
      var released := |frame| >= 4 && !pressed && s.lastEvent.buttonPressed;
      AfterReceive(s, frame) ==
        Outcome(s.(buttonDown := if pressed then true else if released then false else s.buttonDown), Some(MissingByte))
    ensures |frame| >= 4 && Word(frame[2], frame[3]) == ButtonDownMask ==>
      AfterReceive(s, frame) == Outcome(s.(buttonDown := true), Some(MissingByte))
  {
    ReportTypeIs(frame, Extension8Bytes);
    var p := Slice(frame, 2, 12);
    assert |p| == |frame| - 2;
    if |frame| >= 4 {
      assert p[0] == frame[2] && p[1] == frame[3];
    }
  }

  /** Any other report type is an acknowledgement and changes nothing; a frame
      whose type cannot be read raises and changes nothing. */
  lemma {:induction false} OtherReport(s: Snapshot, frame: seq<byte>)
    requires IsMatrix(s.matrix)
    requires ReportType(frame).Fail? ||
      ReportType(frame).value !in {InputStatus, InputReadData, Extension8Bytes}
    ensures AfterReceive(s, frame) ==
      Outcome(s, if ReportType(frame).Fail? then Some(ReportType(frame).fault) else None)
  {
  }

  /** A read-data frame as the board sends it: report 0x21, the payload length minus
      one in the high nibble of byte 4, the payload from byte 7, zero padding to 25. */
  function ReadDataFrame(payload: seq<byte>): (f: seq<byte>)
    requires 1 <= |payload| <= 16
    ensures |f| == 25
  {
    [0xA1, 0x21, 0x00, 0x00, (|payload| - 1) * 16, 0x00, 0x00] + payload + seq(18 - |payload|, _ => 0)
  }

  /** The receive step reads back the payload of such a frame. */
  lemma {:induction false} ReadDataFrameParts(payload: seq<byte>)
    requires 1 <= |payload| <= 16
    ensures var f := ReadDataFrame(payload);
      f[1] == 0x21 && f[4] / 16 + 1 == |payload| && f[7..7 + |payload|] == payload
  {
    var f := ReadDataFrame(payload);
    assert f[4] == (|payload| - 1) * 16;
  }

  /** The calibration handshake: while calibration is requested, a read-data report
      carrying the 0 kg and 17 kg rows (16 bytes) and then one carrying the 34 kg row
      (8 bytes) install the whole matrix and withdraw the request. */
  lemma {:induction false} CalibrationHandshake(s: Snapshot, m: seq<seq<int>>)
    requires IsMatrix(s.matrix) && IsMatrix(m) && InWordRange(m) && s.calibrationRequested
    ensures
      assert forall j :: 0 <= j < 4 ==> 0 <= m[0][j] < 0x1_0000 && 0 <= m[1][j] < 0x1_0000 && 0 <= m[2][j] < 0x1_0000;
      var first := AfterReceive(s, ReadDataFrame(RowBytes(m[0]) + RowBytes(m[1])));
      first.fault == None &&
      AfterReceive(first.state, ReadDataFrame(RowBytes(m[2]))) ==
        Outcome(s.(matrix := m, calibrationRequested := false), None)
  {
    assert forall j :: 0 <= j < 4 ==> 0 <= m[0][j] < 0x1_0000 && 0 <= m[1][j] < 0x1_0000 && 0 <= m[2][j] < 0x1_0000;
    var chunk1, chunk2 := RowBytes(m[0]) + RowBytes(m[1]), RowBytes(m[2]);
    var f1, f2 := ReadDataFrame(chunk1), ReadDataFrame(chunk2);
    ReadDataFrameParts(chunk1);
    ReadDataFrameParts(chunk2);
    ReadDataReport(s, f1);
    var first := AfterReceive(s, f1);
    assert first.state == s.(matrix := ParseCalibration(s.matrix, chunk1).matrix);
    ReadDataReport(first.state, f2);
    CalibrationRoundTrip(s.matrix, m);
  }

  /** A whole receive session keeps the driver well formed; events are only ever
      pushed, never removed or replaced, none reports a release and each carries the
      sum of its weights as its total; a session that raises leaves the driver
      connected (the loop dies with the thread), and one that does not ends
      disconnected. */
  lemma {:induction false} SessionKeepsInvariant(s: Snapshot, frames: seq<seq<byte>>)
    requires WellFormed(s) && NoneReleased(s.events) && TotalsConsistent(s.events)
    ensures var o := AfterSession(s, frames);
      WellFormed(o.state) && NoneReleased(o.state.events) && TotalsConsistent(o.state.events) &&
      s.events <= o.state.events &&
      o.state.address == s.address && o.state.led == s.led &&
      (o.fault.None? ==> o.state.status == Disconnected) &&
      (o.fault.Some? ==> s.status == Connected && o.state.status == Connected)
    decreases |frames|
  {
    if s.status != Connected || |frames| == 0 {
    } else {
      var o := AfterReceive(s, frames[0]);
      ReceiveKeepsInvariant(s, frames[0]);
      assert NoneReleased(o.state.events);
      assert TotalsConsistent(o.state.events);
      if o.fault.None? {
        SessionKeepsInvariant(o.state, frames[1..]);
      }
    }
  }
}
