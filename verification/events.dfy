/** Board events: the record the driver builds from each extension report, and the
    decoder that reads the button word and the four sensor words of the report's
    10-byte payload and converts the sensors to kilograms. */
module Events {
  import opened Bytes
  import opened Calibration

  /** Calibration columns of the four sensors. */
  const TopRight: nat := 0
  const BottomRight: nat := 1
  const TopLeft: nat := 2
  const BottomLeft: nat := 3

  /** The button word that means "button held down". */
  const ButtonDownMask := 8

  /** One decoded extension report: four weights in kilograms, the button flags,
      and their total, stored as the record is built. */
  datatype BoardEvent = BoardEvent(
    topLeft: real, topRight: real, bottomLeft: real, bottomRight: real,
    buttonPressed: bool, buttonReleased: bool, totalWeight: real)

  /** The record constructor: the total is computed once, from the four weights. */
  function NewBoardEvent(tl: real, tr: real, bl: real, br: real, pressed: bool, released: bool): BoardEvent
  {
    BoardEvent(tl, tr, bl, br, pressed, released, tl + tr + bl + br)
  }

  /** The event a new driver remembers as its last one: no weight, no button. */
  const InitialEvent := NewBoardEvent(0.0, 0.0, 0.0, 0.0, false, false)

  /** What decoding a payload yields: the event or the exception, and the new value
      of the driver's button latch (updated before any sensor is read, so a later
      exception leaves it updated). */
  datatype Decoded = Decoded(event: Result<BoardEvent>, buttonDown: bool)

  /** create_board_event on payload `p` (bytes 2 to 11 of the frame), with calibration
      `m`, button latch `down` and remembered event `last`. */
  function DecodeEvent(m: seq<seq<int>>, down: bool, last: BoardEvent, p: seq<byte>): (d: Decoded)
    requires IsMatrix(m)
    ensures d.event.Fail? ==> (d.event.fault == MissingByte <==> |p| < 10)
    ensures d.event.Fail? && d.event.fault != MissingByte ==> d.event.fault == ZeroDivision
  {
    if |p| < 2 then Decoded(Fail(MissingByte), down)
    else
      var pressed := Word(p[0], p[1]) == ButtonDownMask;
      var released := !pressed && last.buttonPressed;
      var latch := if pressed then true else if released then false else down;
      if |p| < 10 then Decoded(Fail(MissingByte), latch)
      else
        var tl := CalcMass(m, Word(p[6], p[7]), TopLeft);
        var tr := CalcMass(m, Word(p[2], p[3]), TopRight);
        var bl := CalcMass(m, Word(p[8], p[9]), BottomLeft);
        var br := CalcMass(m, Word(p[4], p[5]), BottomRight);
        if tl.Fail? then Decoded(Fail(tl.fault), latch)
        else if tr.Fail? then Decoded(Fail(tr.fault), latch)
        else if bl.Fail? then Decoded(Fail(bl.fault), latch)
        else if br.Fail? then Decoded(Fail(br.fault), latch)
        else Decoded(Ok(NewBoardEvent(tl.value, tr.value, bl.value, br.value, pressed, released)), latch)
  }

  /** Decoding succeeds exactly when the payload holds all ten bytes and each
      sensor converts; the four weights then come from the sensor words in the
      order top right, bottom right, top left, bottom left, each through its own
      column, and the total is their sum. */
  lemma DecodedWeights(m: seq<seq<int>>, down: bool, last: BoardEvent, p: seq<byte>)
    requires IsMatrix(m)
    ensures DecodeEvent(m, down, last, p).event.Ok? <==>
      |p| >= 10 &&
      CalcMass(m, Word(p[2], p[3]), TopRight).Ok? && CalcMass(m, Word(p[4], p[5]), BottomRight).Ok? &&
      CalcMass(m, Word(p[6], p[7]), TopLeft).Ok? && CalcMass(m, Word(p[8], p[9]), BottomLeft).Ok?
    ensures DecodeEvent(m, down, last, p).event.Ok? ==>
      var e := DecodeEvent(m, down, last, p).event.value;
      e.topRight == CalcMass(m, Word(p[2], p[3]), TopRight).value &&
      e.bottomRight == CalcMass(m, Word(p[4], p[5]), BottomRight).value &&
      e.topLeft == CalcMass(m, Word(p[6], p[7]), TopLeft).value &&
      e.bottomLeft == CalcMass(m, Word(p[8], p[9]), BottomLeft).value &&
      e.totalWeight == e.topLeft + e.topRight + e.bottomLeft + e.bottomRight
  {
  }

  /** The button flags: pressed exactly when the button word is 8, released only when
      not pressed and the remembered event was pressed, so never both; the latch
      ends up set after a press and cleared after a release, and is untouched when
      the payload has no button word. */
  lemma DecodedButtons(m: seq<seq<int>>, down: bool, last: BoardEvent, p: seq<byte>)
    requires IsMatrix(m)
    ensures |p| < 2 ==> DecodeEvent(m, down, last, p) == Decoded(Fail(MissingByte), down)
    ensures DecodeEvent(m, down, last, p).event.Ok? ==>
      var e := DecodeEvent(m, down, last, p).event.value;
      (e.buttonPressed <==> Word(p[0], p[1]) == ButtonDownMask) &&
      (e.buttonReleased <==> !e.buttonPressed && last.buttonPressed) &&
      !(e.buttonPressed && e.buttonReleased)
    ensures |p| >= 2 && Word(p[0], p[1]) == ButtonDownMask ==> DecodeEvent(m, down, last, p).buttonDown
    ensures |p| >= 2 && Word(p[0], p[1]) != ButtonDownMask && last.buttonPressed ==> !DecodeEvent(m, down, last, p).buttonDown
  {
  }

  /** With the remembered event still the initial one, nothing is ever reported as
      released and the latch can only be set: it is the old latch or the press. */
  lemma {:induction false} NeverReleasedFromInitial(m: seq<seq<int>>, down: bool, p: seq<byte>)
    requires IsMatrix(m)
    ensures DecodeEvent(m, down, InitialEvent, p).event.Ok? ==> !DecodeEvent(m, down, InitialEvent, p).event.value.buttonReleased
    ensures DecodeEvent(m, down, InitialEvent, p).buttonDown ==
      (down || (|p| >= 2 && Word(p[0], p[1]) == ButtonDownMask))
  {
    assert !InitialEvent.buttonPressed;
  }

  /** A payload whose button word is `button` and whose four sensor words are `raw`
      (top right, bottom right, top left, bottom left). */
  function ExtensionPayload(button: int, raw: seq<int>): (p: seq<byte>)
    requires 0 <= button < 0x1_0000
    requires |raw| == 4 && forall j :: 0 <= j < 4 ==> 0 <= raw[j] < 0x1_0000
    ensures |p| == 10
  {
    WordBytes(button) + WordBytes(raw[0]) + WordBytes(raw[1]) + WordBytes(raw[2]) + WordBytes(raw[3])
  }

  /** The words read back from a payload are the ones it was made from. */
  lemma {:induction false} PayloadWords(button: int, raw: seq<int>)
    requires 0 <= button < 0x1_0000
    requires |raw| == 4 && forall j :: 0 <= j < 4 ==> 0 <= raw[j] < 0x1_0000
    ensures var p := ExtensionPayload(button, raw);
      Word(p[0], p[1]) == button &&
      Word(p[2], p[3]) == raw[0] && Word(p[4], p[5]) == raw[1] &&
      Word(p[6], p[7]) == raw[2] && Word(p[8], p[9]) == raw[3]
  {
    var p := ExtensionPayload(button, raw);
    var w0, w1, w2, w3, w4 := WordBytes(button), WordBytes(raw[0]), WordBytes(raw[1]), WordBytes(raw[2]), WordBytes(raw[3]);
    assert p == w0 + w1 + w2 + w3 + w4;
    assert p[0] == w0[0] && p[1] == w0[1];
    assert p[2] == w1[0] && p[3] == w1[1];
    assert p[4] == w2[0] && p[5] == w2[1];
    assert p[6] == w3[0] && p[7] == w3[1];
    assert p[8] == w4[0] && p[9] == w4[1];
  }

  /** A payload whose sensor words equal the 0 kg references decodes to an event
      with all four weights and the total zero, provided each column's 0 kg
      reference does not exceed its 17 kg reference. */
  lemma {:induction false} ZeroLoadWeighsZero(m: seq<seq<int>>, down: bool, last: BoardEvent, button: int)
    requires IsMatrix(m) && InWordRange(m) && 0 <= button < 0x1_0000
    requires forall j :: 0 <= j < 4 ==> m[0][j] <= m[1][j]
    ensures var d := DecodeEvent(m, down, last, ExtensionPayload(button, m[0]));
      d.event.Ok? &&
      d.event.value.topLeft == 0.0 && d.event.value.topRight == 0.0 &&
      d.event.value.bottomLeft == 0.0 && d.event.value.bottomRight == 0.0 &&
      d.event.value.totalWeight == 0.0
  {
    assert forall j :: 0 <= j < 4 ==> 0 <= m[0][j] < 0x1_0000;
    PayloadWords(button, m[0]);
    var p := ExtensionPayload(button, m[0]);
    AtZeroReference(m, TopLeft);
    AtZeroReference(m, TopRight);
    AtZeroReference(m, BottomLeft);
    AtZeroReference(m, BottomRight);
    DecodeSucceeds(m, down, last, p, 0.0, 0.0, 0.0, 0.0);
  }

  /** When all four sensors convert, decoding yields the event built from the four
      weights and the pressed and released flags, with the latch set by a press and
      cleared by a release. */
  lemma {:induction false} DecodeSucceeds(m: seq<seq<int>>, down: bool, last: BoardEvent, p: seq<byte>,
                                          tl: real, tr: real, bl: real, br: real)
    requires IsMatrix(m) && |p| == 10
    requires CalcMass(m, Word(p[6], p[7]), TopLeft) == Ok(tl)
    requires CalcMass(m, Word(p[2], p[3]), TopRight) == Ok(tr)
    requires CalcMass(m, Word(p[8], p[9]), BottomLeft) == Ok(bl)
    requires CalcMass(m, Word(p[4], p[5]), BottomRight) == Ok(br)
    ensures var pressed := Word(p[0], p[1]) == ButtonDownMask;
      var released := !pressed && last.buttonPressed;
      DecodeEvent(m, down, last, p) ==
        Decoded(Ok(NewBoardEvent(tl, tr, bl, br, pressed, released)), pressed || (!released && down))
  {
  }

  /** On an uncalibrated board any full payload whose four sensor words are zero
      decodes to an empty event; its pressed flag is the button word's test
      against 8, and it is never a release. */
  lemma {:induction false} UncalibratedEmpty(down: bool, p: seq<byte>)
    requires |p| == 10
    requires Word(p[2], p[3]) == 0 && Word(p[4], p[5]) == 0 && Word(p[6], p[7]) == 0 && Word(p[8], p[9]) == 0
    ensures var pressed := Word(p[0], p[1]) == ButtonDownMask;
      DecodeEvent(InitialMatrix(), down, InitialEvent, p) ==
        Decoded(Ok(NewBoardEvent(0.0, 0.0, 0.0, 0.0, pressed, false)), down || pressed)
  {
    SentinelColumn(0, TopLeft);
    SentinelColumn(0, TopRight);
    SentinelColumn(0, BottomLeft);
    SentinelColumn(0, BottomRight);
    DecodeSucceeds(InitialMatrix(), down, InitialEvent, p, 0.0, 0.0, 0.0, 0.0);
    assert !InitialEvent.buttonPressed;
  }

  /** The report built from button word `button` and four zero sensor words decodes,
      on an uncalibrated board, to an empty event pressed exactly when `button` is 8. */
  lemma {:induction false} QuietReport(down: bool, button: int)
    requires 0 <= button < 0x1_0000
    ensures DecodeEvent(InitialMatrix(), down, InitialEvent, ExtensionPayload(button, [0, 0, 0, 0])) ==
      Decoded(Ok(NewBoardEvent(0.0, 0.0, 0.0, 0.0, button == ButtonDownMask, false)), down || button == ButtonDownMask)
  {
    PayloadWords(button, [0, 0, 0, 0]);
    UncalibratedEmpty(down, ExtensionPayload(button, [0, 0, 0, 0]));
  }

  /** The button is level-triggered: holding it for two reports and then letting go
      reports pressed, pressed, not pressed, and never a release, because the
      remembered event is never replaced; the latch stays set. */
  lemma {:induction false} HoldThenRelease()
    ensures var quiet := [0, 0, 0, 0];
      var d1 := DecodeEvent(InitialMatrix(), false, InitialEvent, ExtensionPayload(ButtonDownMask, quiet));
      var d2 := DecodeEvent(InitialMatrix(), d1.buttonDown, InitialEvent, ExtensionPayload(ButtonDownMask, quiet));
      var d3 := DecodeEvent(InitialMatrix(), d2.buttonDown, InitialEvent, ExtensionPayload(0, quiet));
      d1.event.Ok? && d2.event.Ok? && d3.event.Ok? &&
      d1.event.value.buttonPressed && !d1.event.value.buttonReleased &&
      d2.event.value.buttonPressed && !d2.event.value.buttonReleased &&
      !d3.event.value.buttonPressed && !d3.event.value.buttonReleased &&
      d3.buttonDown
  {
    QuietReport(false, ButtonDownMask);
    QuietReport(true, ButtonDownMask);
    QuietReport(true, 0);
  }
}
