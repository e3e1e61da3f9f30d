/**
 * The SSD1306 controller protocol as the driver speaks it: every command
 * byte is its own transfer, preceded by driving DC low; pixel data is one
 * transfer `0x40 ++ buffer` preceded by driving DC high.
 *
 * The functions here say what a sequence of driver steps appends to the
 * bus trace; the methods of Driver.SSD1306 are proved against them.
 */
module Protocol {
  import opened Wrappers
  import opened Transport

  // Command opcodes (SSD1306 datasheet, section 9, command table).
  const SetStartLine: Byte := 0x40
  const SetContrast: Byte := 0x81
  const DisplayOnResumeToRAM: Byte := 0xA4
  const SetDisplayNormal: Byte := 0xA6
  const SetDisplayOff: Byte := 0xAE
  const SetDisplayOn: Byte := 0xAF
  const DeactivateScroll: Byte := 0x2E
  const SetMemoryAddressingMode: Byte := 0x20
  const ColumnAddr: Byte := 0x21
  const PageAddr: Byte := 0x22
  const SetSegmentRemap0: Byte := 0xA0
  const SetMultiplexRatio: Byte := 0xA8
  const ComScanInc: Byte := 0xC0
  const SetDisplayOffset: Byte := 0xD3
  const SetComPins: Byte := 0xDA
  const SetDisplayClock: Byte := 0xD5
  const SetPrechargePeriod: Byte := 0xD9
  const SetVComDeselectLevel: Byte := 0xDB
  const ChargePumpSetting: Byte := 0x8D

  /** The control byte that marks "display data follows". */
  const DataFollows: Byte := 0x40

  /** A trace together with the error an operation returned. */
  datatype Outcome = Outcome(trace: seq<Event>, err: Option<Error>)

  /** No attempt numbered in [lo, hi) fails. */
  ghost predicate NoFaults(failing: set<nat>, lo: nat, hi: nat)
  {
    forall n :: lo <= n < hi ==> n !in failing
  }

  /** `command(b)` on a bus whose trace so far is `t`. */
  function CommandStep(t: seq<Event>, failing: set<nat>, b: Byte): Outcome
  {
    if |t| in failing then Outcome(t + [Pin(DC, Low)], Some(PinError))
    else Outcome(t + [Pin(DC, Low), Tx([b])], if |t| + 1 in failing then Some(TransportError) else None)
  }

  /** `command(b)` for each b of `bs` in turn, ignoring what each returns. */
  function Commands(t: seq<Event>, failing: set<nat>, bs: seq<Byte>): (r: seq<Event>)
    ensures |t| + |bs| <= |r| <= |t| + 2 * |bs|
    ensures r[..|t|] == t
    decreases |bs|
  {
    if bs == [] then t
    else
      var prev := Commands(t, failing, bs[..|bs| - 1]);
      assert prev[..|t|] == t;
      CommandStep(prev, failing, bs[|bs| - 1]).trace
  }

  /** Commanding one more byte extends the trace by one command step. */
  lemma CommandsSnoc(t: seq<Event>, failing: set<nat>, bs: seq<Byte>, b: Byte)
    ensures Commands(t, failing, bs + [b]) == CommandStep(Commands(t, failing, bs), failing, b).trace
  {
    assert (bs + [b])[..|bs|] == bs;
  }

  /** The trace of commands `bs` on a bus on which nothing fails. */
  function Framed(bs: seq<Byte>): (r: seq<Event>)
    ensures |r| == 2 * |bs|
  {
    if bs == [] then [] else Framed(bs[..|bs| - 1]) + [Pin(DC, Low), Tx([bs[|bs| - 1]])]
  }

  /** The bytes carried by the transfers of a trace, in order. */
  function Payload(events: seq<Event>): seq<Byte>
  {
    if events == [] then []
    else Payload(events[..|events| - 1]) + (match events[|events| - 1] case Tx(d) => d case Pin(_, _) => [])
  }

  /** How many times a trace drives DC low, i.e. how many commands it starts. */
  function CountDcLow(events: seq<Event>): nat
  {
    if events == [] then 0
    else CountDcLow(events[..|events| - 1]) + (if events[|events| - 1] == Pin(DC, Low) then 1 else 0)
  }

  /** Every transfer in `events` is a single byte: only commands were sent. */
  ghost predicate OnlyCommandBytes(events: seq<Event>)
  {
    forall i :: 0 <= i < |events| && events[i].Tx? ==> |events[i].data| == 1
  }

  /**
   * The 28 bytes `ssd1306Init` sends, one command each, for a panel
   * `height` pixels tall, with or without an external Vcc supply.
   */
  function InitSequence(height: int, externalVcc: bool): (bs: seq<Byte>)
    ensures |bs| == 28
  {
    [ SetDisplayOff,
      SetDisplayClock, if height == 16 then 0x60 else 0x80,
      SetMultiplexRatio, Truncate(height) - 1,
      SetDisplayOffset, 0x00,
      SetStartLine, 0x00,
      ChargePumpSetting, if externalVcc then 0x10 else 0x14,
      SetMemoryAddressingMode, 0x00,
      SetSegmentRemap0, 0x01,
      ComScanInc,
      SetComPins, if height == 64 then 0x12 else 0x02,
      SetContrast, if height == 64 then (if externalVcc then 0x9F else 0xCF) else 0x8F,
      SetPrechargePeriod, if externalVcc then 0x22 else 0xF1,
      SetVComDeselectLevel, 0x40,
      DisplayOnResumeToRAM,
      SetDisplayNormal,
      DeactivateScroll,
      SetDisplayOn ]
  }

  /** The addressing window `Display` re-sends before every flush. */
  function Window(width: int, pageSize: int): (bs: seq<Byte>)
    ensures |bs| == 6
  {
    [ColumnAddr, 0, Truncate(width) - 1, PageAddr, 0, Truncate(pageSize) - 1]
  }

  /** `Display()` with buffer contents `data`: the window commands, then
      the flush. */
  function DisplayOutcome(t: seq<Event>, failing: set<nat>, width: int, pageSize: int, data: seq<Byte>): (r: Outcome)
    ensures |t| + 7 <= |r.trace| <= |t| + 14
  {
    Flush(Commands(t, failing, Window(width, pageSize)), failing, data)
  }

  /** DC high, then one transfer of 0x40 followed by `data`; the transfer
      is skipped when the pin write fails. */
  function Flush(t: seq<Event>, failing: set<nat>, data: seq<Byte>): (r: Outcome)
    ensures |t| < |r.trace| <= |t| + 2 && r.trace[|t|] == Pin(DC, High)
    ensures r.err == Some(PinError) <==> |t| in failing
    ensures r.err == Some(PinError) <==> |r.trace| == |t| + 1
    ensures r.err != Some(PinError) ==> r.trace[|t| + 1] == Tx([DataFollows] + data)
    ensures r.err != Some(PinError) ==> (r.err == Some(TransportError) <==> |t| + 1 in failing)
  {
    if |t| in failing then Outcome(t + [Pin(DC, High)], Some(PinError))
    else Outcome(t + [Pin(DC, High)] + [Tx([DataFollows] + data)],
                 if |t| + 1 in failing then Some(TransportError) else None)
  }

  /** `SetContrast(c)`: the second command is skipped when the first fails. */
  function ContrastOutcome(t: seq<Event>, failing: set<nat>, c: Byte): (r: Outcome)
    ensures |t| < |r.trace| <= |t| + 4 && r.trace[|t|] == Pin(DC, Low)
    ensures |t| in failing ==> |r.trace| == |t| + 1 && r.err == Some(PinError)
  {
    var first := CommandStep(t, failing, SetContrast);
    if first.err.Some? then first else CommandStep(first.trace, failing, c)
  }

  /** The three reset-line writes of `Reset()`: high, low, high. */
  const ResetEvents: seq<Event> := [Pin(RST, High), Pin(RST, Low), Pin(RST, High)]

  // ---------------------------------------------------------------------
  // Properties of the protocol

  /** One command: DC is driven low, then exactly one one-byte transfer,
      unless the pin write fails, in which case nothing is transferred. */
  lemma CommandShape(t: seq<Event>, failing: set<nat>, b: Byte)
    ensures var o := CommandStep(t, failing, b);
      && o.trace[..|t|] == t
      && o.trace[|t|] == Pin(DC, Low)
      && (o.err == Some(PinError) <==> |o.trace| == |t| + 1)
      && (o.err != Some(PinError) ==> o.trace[|t| + 1..] == [Tx([b])])
      && Payload(o.trace[|t|..]) == (if o.err == Some(PinError) then [] else [b])
  {
    var o := CommandStep(t, failing, b);
    CommandEventsFacts(b);
    if |t| in failing {
      assert o.trace[|t|..] == [Pin(DC, Low)];
    } else {
      assert o.trace[|t|..] == [Pin(DC, Low), Tx([b])];
    }
  }

  /** Payload and command count of the two shapes one command can leave. */
  lemma CommandEventsFacts(b: Byte)
    ensures Payload([Pin(DC, Low)]) == [] && CountDcLow([Pin(DC, Low)]) == 1
    ensures Payload([Pin(DC, Low), Tx([b])]) == [b] && CountDcLow([Pin(DC, Low), Tx([b])]) == 1
  {
    var one: seq<Event> := [Pin(DC, Low)];
    var two: seq<Event> := [Pin(DC, Low), Tx([b])];
    assert one[..0] == [];
    assert Payload(one) == Payload([]) + [];
    assert CountDcLow(one) == CountDcLow([]) + 1;
    assert two[..1] == one;
    assert Payload(two) == Payload(one) + [b];
    assert CountDcLow(two) == CountDcLow(one) + 0;
  }

  lemma PayloadAppend(a: seq<Event>, b: seq<Event>)
    ensures Payload(a + b) == Payload(a) + Payload(b)
    decreases |b|
  {
    if b == [] {
      assert a + b == a;
    } else {
      assert (a + b)[..|a + b| - 1] == a + b[..|b| - 1];
      PayloadAppend(a, b[..|b| - 1]);
    }
  }

  lemma OnlyCommandBytesAppend(a: seq<Event>, b: seq<Event>)
    requires OnlyCommandBytes(a) && OnlyCommandBytes(b)
    ensures OnlyCommandBytes(a + b)
  {
    forall i | 0 <= i < |a + b| && (a + b)[i].Tx?
      ensures |(a + b)[i].data| == 1
    {
      if i >= |a| {
        assert (a + b)[i] == b[i - |a|];
      }
    }
  }

  lemma CountDcLowAppend(a: seq<Event>, b: seq<Event>)
    ensures CountDcLow(a + b) == CountDcLow(a) + CountDcLow(b)
    decreases |b|
  {
    if b == [] {
      assert a + b == a;
    } else {
      assert (a + b)[..|a + b| - 1] == a + b[..|b| - 1];
      CountDcLowAppend(a, b[..|b| - 1]);
    }
  }

  /** On a bus on which nothing fails, commands `bs` leave exactly the
      framed command trace. */
  lemma {:induction false} CommandsNoFaults(t: seq<Event>, failing: set<nat>, bs: seq<Byte>)
    requires NoFaults(failing, |t|, |t| + 2 * |bs|)
    ensures Commands(t, failing, bs) == t + Framed(bs)
    decreases |bs|
  {
    if bs != [] {
      var init := bs[..|bs| - 1];
      CommandsNoFaults(t, failing, init);
      assert |t + Framed(init)| == |t| + 2 * |init|;
    }
  }

  /** The controller receives exactly the bytes `bs`, in order, one per
      transfer, when they are sent as framed commands. */
  lemma {:induction false} FramedPayload(bs: seq<Byte>)
    ensures Payload(Framed(bs)) == bs
    ensures CountDcLow(Framed(bs)) == |bs|
    ensures OnlyCommandBytes(Framed(bs))
    decreases |bs|
  {
    if bs != [] {
      var init := bs[..|bs| - 1];
      FramedPayload(init);
      var tail := [Pin(DC, Low), Tx([bs[|bs| - 1]])];
      PayloadAppend(Framed(init), tail);
      CountDcLowAppend(Framed(init), tail);
      CommandEventsFacts(bs[|bs| - 1]);
      assert init + [bs[|bs| - 1]] == bs;
    }
  }

  /** Errors never stop a command sequence: every one of `bs` is started
      (DC driven low), whichever attempts fail, and only single command
      bytes are transferred. */
  lemma {:induction false} CommandsAttemptAll(t: seq<Event>, failing: set<nat>, bs: seq<Byte>)
    ensures CountDcLow(Commands(t, failing, bs)[|t|..]) == |bs|
    ensures OnlyCommandBytes(Commands(t, failing, bs)[|t|..])
    decreases |bs|
  {
    var r := Commands(t, failing, bs);
    if bs == [] {
      assert r[|t|..] == [];
    } else {
      var prev := Commands(t, failing, bs[..|bs| - 1]);
      CommandsAttemptAll(t, failing, bs[..|bs| - 1]);
      var o := CommandStep(prev, failing, bs[|bs| - 1]);
      var step := o.trace[|prev|..];
      assert r[|t|..] == prev[|t|..] + step;
      CountDcLowAppend(prev[|t|..], step);
      OnlyCommandBytesAppend(prev[|t|..], step);
      CommandEventsFacts(bs[|bs| - 1]);
      if |prev| in failing {
        assert step == [Pin(DC, Low)];
      } else {
        assert step == [Pin(DC, Low), Tx([bs[|bs| - 1]])];
      }
    }
  }

  /** With internal Vcc on the 64-pixel-tall panel the driver is built for,
      initialisation sends exactly this byte string. */
  lemma InitSequenceDefault()
    ensures InitSequence(64, false) ==
      [0xAE, 0xD5, 0x80, 0xA8, 0x3F, 0xD3, 0x00, 0x40, 0x00, 0x8D, 0x14, 0x20, 0x00, 0xA0,
       0x01, 0xC0, 0xDA, 0x12, 0x81, 0xCF, 0xD9, 0xF1, 0xDB, 0x40, 0xA4, 0xA6, 0x2E, 0xAF]
  {
    assert Truncate(64) == 0x40;
  }

  /** On a bus on which nothing fails, initialisation transfers exactly the
      init sequence, one byte per transfer, each after DC is driven low. */
  lemma InitNoFaults(t: seq<Event>, failing: set<nat>, height: int, externalVcc: bool)
    requires NoFaults(failing, |t|, |t| + 56)
    ensures var ext := Commands(t, failing, InitSequence(height, externalVcc))[|t|..];
      && ext == Framed(InitSequence(height, externalVcc))
      && Payload(ext) == InitSequence(height, externalVcc)
  {
    var bs := InitSequence(height, externalVcc);
    CommandsNoFaults(t, failing, bs);
    FramedPayload(bs);
    assert (t + Framed(bs))[|t|..] == Framed(bs);
  }

  /** For the 128x64 panel (page count 8) the window is columns 0..127 and
      pages 0..7; Go's `uint8(n) - 1` wraps, so a width of 256 or 0 gives
      an end column of 0xFF. */
  lemma WindowExamples()
    ensures Window(128, 8) == [0x21, 0x00, 0x7F, 0x22, 0x00, 0x07]
    ensures Window(256, 8)[2] == 0xFF && Window(0, 8)[2] == 0xFF
  {
    assert Truncate(128) == 0x80 && Truncate(8) == 0x08;
    assert Truncate(256) == 0 && Truncate(0) == 0;
  }

  /** On a bus on which nothing fails, `Display` sends the window commands,
      drives DC high and makes one transfer of 0x40 followed by the buffer. */
  lemma DisplayNoFaults(t: seq<Event>, failing: set<nat>, width: int, pageSize: int, data: seq<Byte>)
    requires NoFaults(failing, |t|, |t| + 14)
    ensures DisplayOutcome(t, failing, width, pageSize, data) ==
      Outcome(t + Framed(Window(width, pageSize)) + [Pin(DC, High), Tx([DataFollows] + data)], None)
  {
    CommandsNoFaults(t, failing, Window(width, pageSize));
  }

  /** Two `Display` calls in a row on an unchanged buffer put identical
      events on the bus (when no attempt in between fails). */
  lemma DisplayTwice(t: seq<Event>, failing: set<nat>, width: int, pageSize: int, data: seq<Byte>)
    requires NoFaults(failing, |t|, |t| + 28)
    ensures var t1 := DisplayOutcome(t, failing, width, pageSize, data).trace;
      var t2 := DisplayOutcome(t1, failing, width, pageSize, data).trace;
      |t| <= |t1| <= |t2| && t2[|t1|..] == t1[|t|..]
  {
    var tail := Framed(Window(width, pageSize)) + [Pin(DC, High), Tx([DataFollows] + data)];
    DisplayNoFaults(t, failing, width, pageSize, data);
    var t1 := DisplayOutcome(t, failing, width, pageSize, data).trace;
    assert t1 == t + tail && |tail| == 14;
    DisplayNoFaults(t1, failing, width, pageSize, data);
    var t2 := DisplayOutcome(t1, failing, width, pageSize, data).trace;
    assert t2 == t1 + tail;
    assert t2[|t1|..] == tail == t1[|t|..];
  }

  /** When driving DC high fails, `Display` returns that error and no pixel
      data is transferred: every transfer it made was one command byte. */
  lemma DisplayDcFailure(t: seq<Event>, failing: set<nat>, width: int, pageSize: int, data: seq<Byte>)
    requires |Commands(t, failing, Window(width, pageSize))| in failing
    ensures var o := DisplayOutcome(t, failing, width, pageSize, data);
      o.err == Some(PinError) && |t| <= |o.trace| && OnlyCommandBytes(o.trace[|t|..])
    ensures DisplayOutcome(t, failing, width, pageSize, data).trace
      == Commands(t, failing, Window(width, pageSize)) + [Pin(DC, High)]
  {
    var t1 := Commands(t, failing, Window(width, pageSize));
    CommandsAttemptAll(t, failing, Window(width, pageSize));
    var o := DisplayOutcome(t, failing, width, pageSize, data);
    assert o.trace[|t|..] == t1[|t|..] + [Pin(DC, High)];
  }

  /** `SetContrast` sends 0x81 then the value; if the 0x81 command fails the
      value is never sent. */
  lemma ContrastShape(t: seq<Event>, failing: set<nat>, c: Byte)
    ensures var o := ContrastOutcome(t, failing, c);
      && |t| <= |o.trace|
      && (NoFaults(failing, |t|, |t| + 4) ==> o == Outcome(t + Framed([SetContrast, c]), None))
      && (CommandStep(t, failing, SetContrast).err.Some? ==>
            CountDcLow(o.trace[|t|..]) == 1 &&
            (Payload(o.trace[|t|..]) == [] || Payload(o.trace[|t|..]) == [SetContrast]))
  {
    var o := ContrastOutcome(t, failing, c);
    var first := CommandStep(t, failing, SetContrast);
    CommandShape(t, failing, SetContrast);
    if NoFaults(failing, |t|, |t| + 4) {
      CommandsNoFaults(t, failing, [SetContrast, c]);
      assert [SetContrast, c][..1] == [SetContrast];
      assert [SetContrast][..0] == [];
    }
    if first.err.Some? {
      var ext := o.trace[|t|..];
      CommandEventsFacts(SetContrast);
      if |t| in failing {
        assert ext == [Pin(DC, Low)];
      } else {
        assert ext == [Pin(DC, Low), Tx([SetContrast])];
      }
    }
  }
}
