/** The drivers of the DualShock 3 and 4 and the Wii U Pro controller as objects. */
module GamepadObjects {
  import opened Bytes
  import opened Calibrations
  import opened HidReports
  import opened StatePackets
  import opened Gamepads
  import opened GamepadReports

  // ----- the DualShock drivers -----

  class DualShock4 {
    var pauseHeld: bool
    var playerIndex: byte
    var needSetReport: bool
    /** The static report buffer, one for all objects of the class. */
    const report: array<bv8>
    var log: seq<Output>
    /** The index last set. */
    ghost var index: int32

    ghost predicate Valid()
      reads this, report
    {
      playerIndex == Stored(index) && IsPs4Buffer(report[..])
    }

    ghost function View(): Gamepad
      requires Valid()
      reads this, report
    {
      Gamepad(pauseHeld, needSetReport, index, report[9..12], log)
    }

    constructor (report: array<bv8>)
      requires IsPs4Buffer(report[..])
      ensures Valid() && this.report == report && View() == NEW_GAMEPAD.(colour := report[9..12])
    {
      pauseHeld, playerIndex, needSetReport, log := true, 255, true, [];
      this.report, index := report, -1;
    }

    method SetPlayerIndex(i: int32)
      requires Valid()
      modifies this
      ensures Valid() && View() == old(View()).Indexed(i)
    {
      playerIndex := i % 0x100;
      needSetReport := true;
      index := i;
    }

    /** The colour of the player goes into the shared buffer, and the buffer to the device. */
    method SetReport()
      requires Valid()
      modifies this`log, report
      ensures Valid() && report[9..12] == NextColour(PS4, index, old(report[9..12]))
      ensures log == old(log) + DueReports(PS4, index, old(report[9..12]))
    {
      if playerIndex < 4 {
        var rgb := PlayerColour(playerIndex);
        report[9], report[10], report[11] := rgb[0], rgb[1], rgb[2];
        assert report[9..12] == rgb;
      }
      assert report[..] == Ps4Buffer(report[9..12]);
      log := log + [Output.SetReport(0x11, report[..])];
    }

    /** The end of HandlePacket: the pause edge, then the state. */
    method Forward(d: Decoded)
      requires Valid()
      modifies this`pauseHeld, this`log
      ensures Valid() && View() == old(View()).Forwarded(d)
    {
      if !pauseHeld && d.pause {
        log := log + [PausePressed];
      }
      pauseHeld := d.pause;
      log := log + [InputState(d.state)];
    }

    method HandlePacket(data: Report, size: nat)
      requires Valid()
      modifies this, report
      ensures Valid() && View() == old(View()).Serve(PS4, DecodePs4(data, size))
    {
      if needSetReport {
        SetReport();
      }
      needSetReport := false;
      if size != 79 || data[2] != 0xC0 || data[3] != 0 {
        return;
      }
      Forward(Decoded(data[10] & 0x01 != 0, Ps4State(data)));
    }
  }

  /** The initial bytes with some colour in them. */
  predicate IsPs4Buffer(b: HidBytes) {
    |b| == 79 && b == Ps4Buffer(b[9..12])
  }

  class Playstation3 {
    var pauseHeld: bool
    var ledByte: bv8
    var needSetReport: bool
    var log: seq<Output>
    ghost var index: int32

    ghost predicate Valid()
      reads this
    {
      ledByte == Ps3Led(index)
    }

    ghost function View(): Gamepad
      reads this
    {
      Gamepad(pauseHeld, needSetReport, index, BLACK, log)
    }

    /** On iOS the controller has to be told to start reporting. */
    constructor (ios: bool)
      ensures Valid() && View() == NEW_GAMEPAD.(log := if ios then [PS3_START] else [])
    {
      pauseHeld, ledByte, needSetReport, log := true, 0, true, if ios then [PS3_START] else [];
      index := -1;
    }

    method SetPlayerIndex(i: int32)
      modifies this
      ensures Valid() && View() == old(View()).Indexed(i)
    {
      if i < 0 || i >= 4 {
        ledByte := 0;
      } else {
        ledByte := 1 << (i + 1);
      }
      needSetReport := true;
      index := i;
    }

    /** Byte 11 is written before every use, so the static buffer carries nothing from one call to the next. */
    method SetReport()
      requires Valid()
      modifies this`log
      ensures log == old(log) + DueReports(PS3, index, BLACK)
    {
      var buffer := PS3_REPORT[11 := ledByte];
      log := log + [Output.SetReport(0x01, buffer)];
    }

    /** The end of HandlePacket: the pause edge, then the state. */
    method Forward(d: Decoded)
      requires Valid()
      modifies this`pauseHeld, this`log
      ensures Valid() && View() == old(View()).Forwarded(d)
    {
      if !pauseHeld && d.pause {
        log := log + [PausePressed];
      }
      pauseHeld := d.pause;
      log := log + [InputState(d.state)];
    }

    method HandlePacket(data: Report)
      requires Valid()
      modifies this
      ensures Valid() && View() == old(View()).Serve(PS3, DecodePs3(data))
    {
      if needSetReport {
        SetReport();
        needSetReport := false;
      }
      Forward(Decoded(data[5] & 0x01 != 0, Ps3State(data)));
    }
  }

  const PS3_START := Output.SetReport(0x00, [0x53, 0xF4, 0x42, 0x03, 0x00, 0x00])

  // ----- the Wii U Pro controller -----

  class WiiUPro {
    var pauseHeld: bool
    var playerIndex: byte
    var needSetReport: bool
    var calibration: seq<Calibration>
    var calibrationInitialized: bool
    var log: seq<Output>
    ghost var index: int32
    /** The stick values of all the reports accepted so far. */
    ghost var samples: seq<AxisValues>

    ghost function View(): Gamepad
      reads this
    {
      Gamepad(pauseHeld, needSetReport, index, BLACK, log)
    }

    ghost predicate Valid()
      reads this
    {
      && playerIndex == Stored(index)
      && |calibration| == 4 && (calibrationInitialized <==> samples != [])
      && (samples != [] ==> calibration == CalibrationsAfter(samples))
    }

    /** The calibration that a report is read through; nothing is read through it before the first. */
    ghost function ForDecoding(): (cs: seq<Calibration>)
      requires Valid()
      reads this
      ensures |cs| == 4
    {
      if samples == [] then [FIXED, FIXED, FIXED, FIXED] else calibration
    }

    constructor ()
      ensures Valid() && samples == []
      ensures View() == NEW_GAMEPAD.(log := [Output.SetReport(0x12, [0xA2, 0x15, 0x00, 0x00])])
    {
      pauseHeld, playerIndex, needSetReport := true, 255, true;
      calibration, calibrationInitialized := [FIXED, FIXED, FIXED, FIXED], false;
      log := [Output.SetReport(0x12, [0xA2, 0x15, 0x00, 0x00])];
      index, samples := -1, [];
    }

    method SetPlayerIndex(i: int32)
      requires Valid()
      modifies this
      ensures Valid() && samples == old(samples) && View() == old(View()).Indexed(i)
    {
      playerIndex := i % 0x100;
      needSetReport := true;
      index := i;
    }

    method SetReport()
      requires Valid()
      modifies this`log
      ensures log == old(log) + DueReports(PRO, index, BLACK)
    {
      log := log + [Output.SetReport(0x12, [0xA2, 0x12, 0x00, 0x34])];
      if playerIndex < 4 {
        var leds: bv8 := 1 << (4 + playerIndex);
        log := log + [Output.SetReport(0x11, [0xA2, 0x11, leds])];
      }
    }

    /** The loop over the four axes: place, widen, then read the value through the calibration. */
    method Calibrate(values: AxisValues) returns (axes: seq<Tilt>)
      requires Valid()
      modifies this`calibration, this`calibrationInitialized, this`samples
      ensures Valid() && samples == old(samples) + [values]
      ensures |calibration| == 4 && AllOrdered(calibration) && axes == ProAxes(values, calibration)
    {
      ghost var before, initialized := calibration, calibrationInitialized;
      ghost var after := Recalibrated(before, initialized, values);
      SamplesExtended(samples, values, before, initialized);
      axes := [];
      for i := 0 to 4
        invariant |axes| == i && |calibration| == 4
        invariant calibrationInitialized == initialized && samples == old(samples)
        invariant forall k | 0 <= k < i :: calibration[k] == after[k]
        invariant forall k | i <= k < 4 :: calibration[k] == before[k]
        invariant forall k | 0 <= k < i :: axes[k] == CalculateAxis(values[k], after[k])
      {
        assert after[i].Ordered();
        assert after[i] ==
               (if initialized then before[i] else Around(values[i], 0x80, 0x100)).Widened(values[i]);
        CalibrateAxis(i, values[i]);
        axes := axes + [AxisTilt(values[i], calibration[i])];
      }
      calibrationInitialized := true;
      samples := samples + [values];
      assert calibration == after;
    }

    method CalibrateAxis(i: nat, value: int)
      requires i < 4 == |calibration|
      modifies this`calibration
      ensures calibration == old(calibration)[i :=
                (if calibrationInitialized then old(calibration)[i] else Around(value, 0x80, 0x100)).Widened(value)]
    {
      var c := calibration[i];
      if !calibrationInitialized {
        c := Calibration(value - 0x100, value - 0x80, value + 0x80, value + 0x100);
      }
      c := c.(low := if value < c.low then value else c.low);
      c := c.(high := if c.high < value then value else c.high);
      calibration := calibration[i := c];
    }

    /** The end of HandlePacket: the pause edge, then the state. */
    method Forward(d: Decoded)
      requires Valid()
      modifies this`pauseHeld, this`log
      ensures Valid() && View() == old(View()).Forwarded(d)
    {
      if !pauseHeld && d.pause {
        log := log + [PausePressed];
      }
      pauseHeld := d.pause;
      log := log + [InputState(d.state)];
    }

    /** The button bytes are turned over in place, and the stick values fetched. */
    method Unpack(data: array<bv8>) returns (values: AxisValues)
      requires data.Length == 2048
      modifies data
      ensures values == ProValues(old(data[..]))
      ensures data[12] == old(data[12]) ^ 0xFF && data[13] == old(data[13]) ^ 0xFF && data[14] == old(data[14]) ^ 0xFF
      ensures forall i | 0 <= i < 2048 && !(12 <= i < 15) :: data[i] == old(data[i])
    {
      data[12] := data[12] ^ 0xFF;
      data[13] := data[13] ^ 0xFF;
      data[14] := data[14] ^ 0xFF;
      values := [data[4] as int + 0x100 * data[5] as int, data[8] as int + 0x100 * data[9] as int,
                 data[6] as int + 0x100 * data[7] as int, data[10] as int + 0x100 * data[11] as int];
    }

    /** An accepted report. */
    method Accept(data: array<bv8>)
      requires Valid() && data.Length == 2048
      modifies this`calibration, this`calibrationInitialized, this`samples, this`pauseHeld, this`log, data
      ensures Valid() && AllOrdered(ForDecoding()) && samples == old(samples) + [ProValues(old(data[..]))]
      ensures View() == old(View()).Forwarded(ProDecoded(old(data[..]), ForDecoding()))
      ensures forall i | 0 <= i < 2048 && !(12 <= i < 15) :: data[i] == old(data[i])
    {
      var values := Unpack(data);
      var axes := Calibrate(values);
      Forward(ProInput(data[12], data[13], data[14], axes));
    }

    method HandlePacket(data: array<bv8>, size: nat)
      requires Valid() && data.Length == 2048
      modifies this, data
      ensures Valid() && AllOrdered(ForDecoding())
      ensures samples ==
              if ProAccepts(old(data[..]), size) then old(samples) + [ProValues(old(data[..]))] else old(samples)
      ensures View() == old(View()).Serve(PRO, DecodePro(old(data[..]), size, ForDecoding()))
      ensures !ProAccepts(old(data[..]), size) ==> data[..] == old(data[..])
      ensures forall i | 0 <= i < 2048 && !(12 <= i < 15) :: data[i] == old(data[i])
    {
      if needSetReport {
        SetReport();
      }
      needSetReport := false;
      if size != 23 || data[1] != 0x34 {
        AlwaysOrdered(samples, ForDecoding());
        return;
      }
      Accept(data);
    }
  }

  lemma SamplesExtended(samples: seq<AxisValues>, values: AxisValues, before: seq<Calibration>, initialized: bool)
    requires |before| == 4 && (initialized <==> samples != [])
    requires samples != [] ==> before == CalibrationsAfter(samples)
    ensures CalibrationsAfter(samples + [values]) == Recalibrated(before, initialized, values)
    ensures AllOrdered(CalibrationsAfter(samples + [values]))
  {
    var more := samples + [values];
    assert more[..|samples|] == samples;
    forall k | 0 <= k < 4 ensures CalibrationsAfter(more)[k].Ordered() {
      ProAxesAdapt(more, k);
    }
    assert CalibrationsAfter(more) == Recalibrated(before, initialized, values);
  }
}
