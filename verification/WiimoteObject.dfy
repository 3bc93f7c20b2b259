/** The Wii Remote as the object its drivers update in place, with the handshake as a loop. */
module WiimoteObjects {
  import opened Bytes
  import opened HidReports
  import opened StatePackets
  import opened Calibrations
  import opened ClassicReports
  import opened RemoteStates
  import opened Wiimotes
  import opened WiimoteRuns

  class Wiimote {
    var unid: int32
    var state: set<Flag>
    var leds: bv8
    var handshakeState: nat
    var expansion: Expansion
    var classic: ClassicPad
    var btns: bv16
    /** The output reports handed to the HID manager so far. */
    var sent: seq<Command>
    /** The state packets handed to the backend so far. */
    var states: seq<StatePacket>

    ghost function DeviceView(): Device
      reads this
    {
      Device(unid, state, leds, handshakeState, expansion, sent)
    }

    ghost function View(): Remote
      reads this
    {
      Remote(DeviceView(), btns, classic, states)
    }

    ghost predicate Valid()
      reads this
    {
      handshakeState <= 6 && classic.Valid()
    }

    constructor ()
      ensures Valid() && View() == Constructed()
    {
      unid, state, leds, handshakeState := -1, {CONNECTED}, 0, 0;
      expansion, classic, btns, sent, states := EXP_NONE, ZERO_PAD, 0, [], [];
      new;
      var r := RunHandshake(Event(0xFF, [0, 0, 0, 0]));
    }

    /** wiimote_send behind the connection check that all its callers make. */
    method SendCommand(c: Command)
      modifies this`sent
      ensures DeviceView() == Send(old(DeviceView()), [c])
    {
      if CONNECTED in state {
        sent := sent + [c];
      }
    }

    method SetLeds(mask: bv8)
      modifies this`leds, this`sent
      ensures DeviceView() == WithLeds(old(DeviceView()), mask)
    {
      if CONNECTED !in state {
        return;
      }
      leds := mask & 0xF0;
      SendCommand(LedCommand(leds));
    }

    /** Switch the expansion on and ask what it is. */
    method Identify()
      modifies this`sent
      ensures DeviceView() == Send(old(DeviceView()), IDENTIFY)
    {
      SendCommand(WriteByteCommand([0x04, 0xA4, 0x00, 0xF0], 0x55));
      SendCommand(WriteByteCommand([0x04, 0xA4, 0x00, 0xFB], 0x00));
      SendCommand(ReadCommand([0x04, 0xA4, 0x00, 0xFC], 4));
      assert IDENTIFY == [IDENTIFY[0]] + [IDENTIFY[1]] + [IDENTIFY[2]];
    }

    method LeaveComplete()
      modifies this`state
      ensures DeviceView() == Rehandshake(old(DeviceView()))
    {
      if HANDSHAKE_COMPLETE in state {
        state := state - {HANDSHAKE_COMPLETE};
        state := state + {HANDSHAKE};
      }
    }

    /** One turn of the switch over the handshake states: the call returns r, or the loop goes round again. */
    method Turn(e: HandshakeEvent) returns (returned: bool, r: int)
      modifies this
      ensures btns == old(btns) && states == old(states)
      ensures classic == if ClearsPad(old(DeviceView()), e) then ZERO_PAD else old(classic)
      ensures Turned(old(DeviceView()), e) == if returned then Returns(DeviceView(), r) else Continues(DeviceView())
    {
      match handshakeState {
        case 0 =>
          state := state + {HANDSHAKE};
          SetLeds(0);
          SendCommand(STATUS_REQUEST);
          handshakeState := 1;
          return true, 0;
        case 1 =>
          if e.kind != RPT_CTRL_STATUS {
            return true, 0;
          }
          var attachment := e.Attached();
          if attachment && EXP !in state {
            state := state + {EXP};
            LeaveComplete();
            Identify();
            handshakeState := 4;
            return true, 0;
          } else if !attachment && EXP in state {
            state := state - {EXP};
            expansion := EXP_NONE;
            LeaveComplete();
          }
          if attachment || HANDSHAKE !in state {
            return true, 0;
          }
          handshakeState := 2;
        case 2 =>
          SendCommand(ReportTypeCommand(RPT_BTN));
          handshakeState := 6;
        case 3 =>
          SendCommand(ReportTypeCommand(RPT_BTN_EXP));
          handshakeState := 6;
        case 4 =>
          if e.kind != RPT_READ {
            return true, 0;
          }
          if e.ClassicId() {
            SendCommand(READ_CALIBRATION[0]);
            handshakeState := 5;
            return true, 0;
          }
          handshakeState := 2;
        case 5 =>
          if e.kind != RPT_READ {
            return true, 0;
          }
          classic := ZERO_PAD;
          expansion := EXP_CLASSIC;
          handshakeState := 3;
        case 6 =>
          state := state - {HANDSHAKE};
          state := state + {HANDSHAKE_COMPLETE};
          handshakeState := 1;
          if unid == 0 {
            SetLeds(0x10);
          } else if unid == 1 {
            SetLeds(0x20);
          } else if unid == 2 {
            SetLeds(0x40);
          } else if unid == 3 {
            SetLeds(0x80);
          }
          return true, 1;
        case _ =>
      }
      return false, 0;
    }

    /** The endless loop around the switch, which returns because the state is one of 0 to 6. */
    method RunHandshake(e: HandshakeEvent) returns (r: int)
      requires Valid()
      modifies this
      ensures Valid() && btns == old(btns) && states == old(states)
      ensures DeviceView() == Handshake(old(DeviceView()), e).device && r == Handshake(old(DeviceView()), e).result
      ensures classic == if ClearsPad(old(DeviceView()), e) then ZERO_PAD else old(classic)
    {
      ghost var started := DeviceView();
      while true
        invariant handshakeState <= 6 && btns == old(btns) && states == old(states)
        invariant Handshake(DeviceView(), e).device == Handshake(started, e).device
        invariant Handshake(DeviceView(), e).result == Handshake(started, e).result
        invariant DeviceView() == started || !ClearsPad(DeviceView(), e)
        invariant classic == if ClearsPad(started, e) && DeviceView() != started then ZERO_PAD else old(classic)
        decreases Rank(handshakeState)
      {
        var returned: bool;
        returned, r := Turn(e);
        if returned {
          return;
        }
      }
    }

    method SetPlayerIndex(index: int32)
      requires Valid()
      modifies this
      ensures Valid() && View() == Handled(old(View()), IndexSet(index))
    {
      unid := index;
      if 0 <= index < 4 {
        SetLeds(LedBit(index));
      }
    }

    /** process_axis on one of the four axes, in place. */
    method ProcessAxis(k: nat, raw: int)
      requires k < 4 && classic.Valid()
      modifies this`classic
      ensures classic == old(classic).(axes := old(classic).axes[k := old(classic).axes[k].Process(raw)])
    {
      var axis := classic.axes[k];
      if !axis.initialized {
        axis := axis.(initialized := true, calibration := Calibration(raw - 3, raw - 2, raw + 2, raw + 3));
      }
      var c := axis.calibration;
      c := c.(low := if raw < c.low then raw else c.low);
      c := c.(high := if raw > c.high then raw else c.high);
      axis := axis.(calibration := c);
      axis := axis.(value := AxisTilt(raw, axis.calibration));
      classic := classic.(axes := classic.axes[k := axis]);
    }

    method ClassicControllerEvent(msg: HidBytes)
      requires Valid() && |msg| >= 6
      modifies this`classic
      ensures Valid() && classic == ClassicEvent(old(classic), msg)
    {
      ghost var was := classic;
      classic := classic.(btns := ClassicButtons(msg));
      var raws := ClassicAxes(msg);
      for k := 0 to 4
        invariant classic.btns == ClassicButtons(msg) && |classic.axes| == 4 && classic.Valid()
        invariant forall j | 0 <= j < 4 ::
                    classic.axes[j] == if j < k then was.axes[j].Process(raws[j] as int) else was.axes[j]
      {
        ProcessAxis(k, raws[k] as int);
      }
      assert classic.axes == ClassicEvent(was, msg).axes;
    }

    /** The state of the remote or of its expansion, to the frontend. */
    method ProcessButtons()
      requires Valid()
      modifies this`states
      ensures states == old(states) + [Processed(old(View()))]
    {
      var data := ZERO_STATE;
      if expansion == EXP_NONE {
        data := data.(a := Bit(Held(btns, 0x0002)), b := Bit(Held(btns, 0x0001)),
                      x := Bit(Held(btns, 0x0008)), y := Bit(Held(btns, 0x0004)),
                      leftShoulder := Bit(Held(btns, 0x0010)), rightShoulder := Bit(Held(btns, 0x1000)));
        if Held(btns, 0x0800) {
          data := data.(dpadX := -1.0);
        } else if Held(btns, 0x0400) {
          data := data.(dpadX := 1.0);
        }
        if Held(btns, 0x0200) {
          data := data.(dpadY := -1.0);
        } else if Held(btns, 0x0100) {
          data := data.(dpadY := 1.0);
        }
      } else {
        var axes := classic.axes;
        data := ClassicState(classic.btns, axes[0].value, axes[1].value, axes[2].value, axes[3].value);
      }
      states := states + [data];
    }

    /** The switch on the report type. */
    method UpdateFrom(report: Report)
      requires Valid()
      modifies this
      ensures Valid() && View() == Updated(old(View()), report)
    {
      var msg := report[2..];
      if report[1] == RPT_BTN {
        btns := PressedButtons(msg);
      } else if report[1] == RPT_READ {
        btns := PressedButtons(msg);
        assert msg[5..] == report[7..];
        var r := RunHandshake(Event(RPT_READ, msg[5..]));
      } else if report[1] == RPT_CTRL_STATUS {
        btns := PressedButtons(msg);
        var r := RunHandshake(Event(RPT_CTRL_STATUS, msg));
      } else if report[1] == RPT_BTN_EXP {
        btns := PressedButtons(msg);
        if expansion == EXP_CLASSIC {
          assert msg[2..] == report[4..];
          ClassicControllerEvent(msg[2..]);
        }
      }
    }

    method HandlePacket(report: Report)
      requires Valid()
      modifies this
      ensures Valid() && View() == Handled(old(View()), Received(report))
    {
      UpdateFrom(report);
      ProcessButtons();
    }
  }
}
