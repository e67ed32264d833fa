/** The Wiiboard driver object. Its fields are updated in place, as the driver
    does: the calibration matrix is a 3x4 array written cell by cell, the event
    stack and the list of sent byte strings are reassigned. Every method is proved
    to change the fields exactly as the matching function of module BoardState
    says, through State(), the fields read as a Snapshot. */
module Driver {
  import opened Bytes
  import opened Calibration
  import opened Events
  import opened Commands
  import opened BoardState

  class Wiiboard {
    var status: Status
    var address: Option<string>
    var calibrationRequested: bool
    var led: bool
    var buttonDown: bool
    /** Set by the constructor to InitialEvent and never replaced. */
    const lastEvent: BoardEvent
    /** Rows 0, 17 and 34 kg; columns top right, bottom right, top left, bottom left. */
    const calibration: array2<int>
    /** The event stack, top at the end. */
    var events: seq<BoardEvent>
    /** Every byte string written to the control socket, oldest first. */
    var outbox: seq<seq<byte>>

    ghost predicate Valid()
      reads this
    {
      calibration.Length0 == 3 && calibration.Length1 == 4 && |events| <= Capacity &&
      lastEvent == InitialEvent
    }

    /** The calibration array as a matrix value. */
    function Matrix(): (m: seq<seq<int>>)
      reads calibration
      requires calibration.Length0 == 3 && calibration.Length1 == 4
      ensures IsMatrix(m)
    {
      [[calibration[0, 0], calibration[0, 1], calibration[0, 2], calibration[0, 3]],
       [calibration[1, 0], calibration[1, 1], calibration[1, 2], calibration[1, 3]],
       [calibration[2, 0], calibration[2, 1], calibration[2, 2], calibration[2, 3]]]
    }

    ghost function State(): (s: Snapshot)
      reads this, calibration
      requires Valid()
      ensures WellFormed(s)
    {
      Snapshot(status, address, calibrationRequested, led, buttonDown, lastEvent, Matrix(), events, outbox)
    }

    /** A new driver: the matrix is filled with the sentinel row by row. */
    constructor ()
      ensures Valid() && fresh(calibration)
      ensures State() == Fresh()
    {
      var cal := new int[3, 4];
      for i := 0 to 3
        invariant forall i', j' :: 0 <= i' < i && 0 <= j' < 4 ==> cal[i', j'] == Sentinel
      {
        for j := 0 to 4
          invariant forall i', j' :: 0 <= i' < i && 0 <= j' < 4 ==> cal[i', j'] == Sentinel
          invariant forall j' :: 0 <= j' < j ==> cal[i, j'] == Sentinel
        {
          cal[i, j] := Sentinel;
        }
      }
      calibration := cal;
      calibrationRequested := false;
      led := false;
      address := None;
      buttonDown := false;
      status := Disconnected;
      lastEvent := InitialEvent;
      events := [];
      outbox := [];
    }

    method IsConnected() returns (r: bool)
      ensures r <==> status == Connected
    {
      r := status == Connected;
    }

    method GetLed() returns (r: bool)
      ensures r == led
    {
      r := led;
    }

    /** get_event hands back the remembered event, which is always the initial one:
        no weight and no button, whatever has been received. */
    method GetEvent() returns (e: BoardEvent)
      requires Valid()
      ensures e == lastEvent == InitialEvent
      ensures e.totalWeight == 0.0 && !e.buttonPressed && !e.buttonReleased
    {
      e := lastEvent;
    }

    method Send(p: seq<byte>)
      requires Valid()
      modifies this`outbox
      ensures Valid() && State() == AfterSend(old(State()), p)
    {
      if status != Connected {
        return;
      }
      outbox := outbox + [OutputBytes(p)];
    }

    method SetLight(on: bool)
      requires Valid()
      modifies this`outbox, this`led
      ensures Valid() && State() == AfterSetLight(old(State()), on)
    {
      Send(Payload(Command.SetLight(on)));
      led := on;
    }

    method Calibrate()
      requires Valid()
      modifies this`outbox, this`calibrationRequested
      ensures Valid() && State() == AfterCalibrate(old(State()))
    {
      Send(Payload(RequestCalibration));
      calibrationRequested := true;
    }

    method SetReportType()
      requires Valid()
      modifies this`outbox
      ensures Valid() && State() == AfterSetReportType(old(State()))
    {
      Send(Payload(Command.SetReportType));
    }

    /** connect, after both sockets have been opened. */
    method Connect(address: Option<string>)
      requires Valid()
      modifies this`status, this`address, this`calibrationRequested, this`outbox
      ensures Valid() && State() == AfterConnect(old(State()), address)
    {
      if address.None? {
        return;
      }
      status := Connected;
      this.address := address;
      Calibrate();
      Send(Payload(EnableExtension));
      SetReportType();
    }

    /** calibration_parser: overwrites matrix cells in place while walking the chunk
        two bytes at a time. */
    method CalibrationParser(b: seq<byte>) returns (fault: Option<Fault>)
      requires Valid()
      modifies calibration
      ensures Valid()
      ensures State() == old(State()).(matrix := ParseCalibration(old(Matrix()), b).matrix)
      ensures fault == ParseCalibration(old(Matrix()), b).fault
    {
      fault := None;
      var index := 0;
      if |b| == 16 {
        for i := 0 to 2
          invariant index == 8 * i
          invariant forall i', j' :: 0 <= i' < i && 0 <= j' < 4 ==>
            calibration[i', j'] == Word(b[8 * i' + 2 * j'], b[8 * i' + 2 * j' + 1])
          invariant forall i', j' :: i <= i' < 3 && 0 <= j' < 4 ==> calibration[i', j'] == old(calibration[i', j'])
        {
          for j := 0 to 4
            invariant index == 8 * i + 2 * j
            invariant forall i', j' :: 0 <= i' < i && 0 <= j' < 4 ==>
              calibration[i', j'] == Word(b[8 * i' + 2 * j'], b[8 * i' + 2 * j' + 1])
            invariant forall j' :: 0 <= j' < j ==> calibration[i, j'] == Word(b[8 * i + 2 * j'], b[8 * i + 2 * j' + 1])
            invariant forall j' :: j <= j' < 4 ==> calibration[i, j'] == old(calibration[i, j'])
            invariant forall i', j' :: i < i' < 3 && 0 <= j' < 4 ==> calibration[i', j'] == old(calibration[i', j'])
          {
            calibration[i, j] := Word(b[index], b[index + 1]);
            index := index + 2;
          }
        }
      } else if |b| < 16 {
        for i := 0 to 4
          invariant index == 2 * i && index <= |b|
          invariant forall j' :: 0 <= j' < i ==> calibration[2, j'] == Word(b[2 * j'], b[2 * j' + 1])
          invariant forall j' :: i <= j' < 4 ==> calibration[2, j'] == old(calibration[2, j'])
          invariant forall i', j' :: 0 <= i' < 2 && 0 <= j' < 4 ==> calibration[i', j'] == old(calibration[i', j'])
        {
          if index + 1 >= |b| {
            fault := Some(MissingByte);
            return;
          }
          calibration[2, i] := Word(b[index], b[index + 1]);
          index := index + 2;
        }
      }
    }

    /** create_board_event: sets the button latch, then reads the four sensor words
        and converts them in the order top left, top right, bottom left, bottom
        right. */
    method CreateBoardEvent(p: seq<byte>) returns (r: Result<BoardEvent>)
      requires Valid()
      modifies this`buttonDown
      ensures Valid()
      ensures Decoded(r, buttonDown) == DecodeEvent(Matrix(), old(buttonDown), lastEvent, p)
      ensures State() == old(State()).(buttonDown := buttonDown)
    {
      if |p| < 2 {
        return Fail(MissingByte);
      }
      var pressed := false;
      var state := Word(p[0], p[1]);
      if state == ButtonDownMask {
        pressed := true;
        if !buttonDown {
          buttonDown := true;
        }
      }
      var released := !pressed && lastEvent.buttonPressed;
      buttonDown := if released then false else buttonDown;
      if |p| < 10 {
        return Fail(MissingByte);
      }
      var rawTR, rawBR := Word(p[2], p[3]), Word(p[4], p[5]);
      var rawTL, rawBL := Word(p[6], p[7]), Word(p[8], p[9]);
      var m := Matrix();
      var topLeft := CalcMass(m, rawTL, TopLeft);
      if topLeft.Fail? {
        return Fail(topLeft.fault);
      }
      var topRight := CalcMass(m, rawTR, TopRight);
      if topRight.Fail? {
        return Fail(topRight.fault);
      }
      var bottomLeft := CalcMass(m, rawBL, BottomLeft);
      if bottomLeft.Fail? {
        return Fail(bottomLeft.fault);
      }
      var bottomRight := CalcMass(m, rawBR, BottomRight);
      if bottomRight.Fail? {
        return Fail(bottomRight.fault);
      }
      r := Ok(NewBoardEvent(topLeft.value, topRight.value, bottomLeft.value, bottomRight.value, pressed, released));
    }

    /** One iteration of the receive loop on a frame returned by recv(25). */
    method ReceiveStep(frame: seq<byte>) returns (fault: Option<Fault>)
      requires Valid()
      modifies this, calibration
      ensures Valid()
      ensures Outcome(State(), fault) == AfterReceive(old(State()), frame)
    {
      fault := None;
      var intype := ReportType(frame);
      if intype.Fail? {
        return Some(intype.fault);
      }
      if intype.value == InputStatus {
        SetReportType();
      } else if intype.value == InputReadData {
        if calibrationRequested {
          if |frame| <= 4 {
            return Some(MissingByte);
          }
          var packetLength := frame[4] / 16 + 1;
          var response := Slice(frame, 7, 7 + packetLength);
          fault := CalibrationParser(response);
          if fault.Some? {
            return;
          }
          if packetLength < 16 {
            calibrationRequested := false;
          }
        }
      } else if intype.value == Extension8Bytes {
        var event := CreateBoardEvent(Slice(frame, 2, 12));
        if event.Fail? {
          return Some(event.fault);
        }
        if |events| < Capacity {
          events := events + [event.value];
        }
      }
    }

    /** receive: runs the loop while connected over the frames that arrive before
        the session is ended from outside, then marks the driver disconnected. An
        exception ends the loop at once and leaves the status as it was. */
    method Receive(frames: seq<seq<byte>>) returns (fault: Option<Fault>)
      requires Valid()
      modifies this, calibration
      ensures Valid()
      ensures Outcome(State(), fault) == AfterSession(old(State()), frames)
    {
      fault := None;
      var i := 0;
      while status == Connected && i < |frames|
        invariant Valid() && 0 <= i <= |frames| && fault == None
        invariant AfterSession(State(), frames[i..]) == AfterSession(old(State()), frames)
      {
        assert frames[i..][0] == frames[i] && frames[i..][1..] == frames[i + 1..];
        fault := ReceiveStep(frames[i]);
        if fault.Some? {
          return;
        }
        i := i + 1;
      }
      status := Disconnected;
    }
  }
}
