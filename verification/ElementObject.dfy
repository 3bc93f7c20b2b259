/** The element objects of a controller, updated in place by the walk over a state packet. */
module ElementObjects {
  import opened Bytes
  import opened Protocol
  import opened StatePackets
  import opened Elements

  /** Bit i of a mask of elements. */
  predicate MaskBit(mask: uint32, i: nat) {
    if i == 0 then mask % 2 == 1 else MaskBit(mask / 2, i - 1)
  }

  /** The bits of a mask add up to it. */
  function BitsValue(mask: uint32, n: nat): nat {
    if n == 0 then 0 else (if MaskBit(mask, 0) then 1 else 0) + 2 * BitsValue(mask / 2, n - 1)
  }

  function Power(n: nat): nat {
    if n == 0 then 1 else 2 * Power(n - 1)
  }

  lemma {:induction false} MaskBitsAddUp(mask: uint32, n: nat)
    requires mask < Power(n)
    ensures BitsValue(mask, n) == mask
    ensures forall i: nat :: MaskBit(mask / 2, i) == MaskBit(mask, i + 1)
  {
    if n > 0 {
      MaskBitsAddUp(mask / 2, n - 1);
    }
  }

  class AxisInput {
    const analog: bool
    var value: real
    /** The values passed to the change handler. */
    var fired: seq<real>

    constructor (analog: bool)
      ensures View() == CENTRE && this.analog == analog
    {
      this.analog, value, fired := analog, 0.0, [];
    }

    ghost function View(): Axis
      reads this
    {
      Axis(value, fired)
    }

    method SetValue(v: real)
      modifies this
      ensures View() == old(View()).Set(v)
    {
      if v != value {
        value := v;
        fired := fired + [value];
      }
    }
  }

  class ButtonInput {
    const analog: bool
    var value: real
    var pressed: bool
    var fired: seq<real>

    constructor (analog: bool)
      ensures View() == REST && this.analog == analog
    {
      this.analog, value, pressed, fired := analog, 0.0, false, [];
    }

    ghost function View(): Button
      reads this
    {
      Button(value, pressed, fired)
    }

    method SetValue(v: real)
      modifies this
      ensures View() == old(View()).Set(v)
    {
      if v != value {
        value := v;
        pressed := v > 0.0001;
        fired := fired + [value];
      }
    }
  }

  class DirectionPad {
    const analog: bool
    const xAxis: AxisInput
    const yAxis: AxisInput
    const up: ButtonInput
    const down: ButtonInput
    const left: ButtonInput
    const right: ButtonInput
    var fired: seq<(real, real)>

    constructor (analog: bool)
      ensures Valid() && View() == NEW_PAD.pad && fresh(Objects()) && AllAnalog(analog)
    {
      this.analog := analog;
      xAxis := new AxisInput(analog);
      yAxis := new AxisInput(analog);
      up := new ButtonInput(analog);
      down := new ButtonInput(analog);
      left := new ButtonInput(analog);
      right := new ButtonInput(analog);
      fired := [];
    }

    /** The flag of the pad is that of all its parts. */
    ghost predicate AllAnalog(flag: bool) {
      && analog == flag && xAxis.analog == flag && yAxis.analog == flag
      && up.analog == flag && down.analog == flag && left.analog == flag && right.analog == flag
    }

    ghost function Objects(): set<object> {
      {this, xAxis, yAxis, up, down, left, right}
    }

    ghost predicate Valid() {
      xAxis != yAxis && up != down && up != left && up != right && down != left && down != right && left != right
    }

    ghost function View(): DPad
      reads Objects()
    {
      DPad(xAxis.View(), yAxis.View(), up.View(), down.View(), left.View(), right.View(), fired)
    }

    method SetValues(vx: real, vy: real)
      requires Valid()
      modifies Objects()
      ensures View() == old(View()).Set(vx, vy)
    {
      if xAxis.value == vx && yAxis.value == vy {
        return;
      }
      SetSplit(xAxis, left, right, vx);
      SetSplit(yAxis, up, down, vy);
      fired := fired + [(vx, vy)];
    }
  }

  /** An axis, and the two buttons that show its value by sign. */
  method SetSplit(axis: AxisInput, negative: ButtonInput, positive: ButtonInput, v: real)
    requires negative != positive
    modifies axis, negative, positive
    ensures axis.View() == old(axis.View()).Set(v)
    ensures negative.View() == old(negative.View()).Set(Below(v))
    ensures positive.View() == old(positive.View()).Set(Above(v))
    ensures axis.value == v && SplitBySign(negative.value, positive.value, v)
  {
    axis.SetValue(v);
    negative.SetValue(if v < 0.0 then -v else 0.0);
    positive.SetValue(if v > 0.0 then v else 0.0);
  }

  datatype ElementObject = ButtonObject(button: ButtonInput) | PadObject(pad: DirectionPad) {
    ghost function Objects(): set<object> {
      match this
      case ButtonObject(b) => {b}
      case PadObject(p) => p.Objects()
    }

    ghost predicate Valid() {
      PadObject? ==> pad.Valid()
    }

    ghost predicate IsAnalog(flag: bool) {
      match this
      case ButtonObject(b) => b.analog == flag
      case PadObject(p) => p.AllAnalog(flag)
    }

    ghost function View(): Element
      reads Objects()
    {
      match this
      case ButtonObject(b) => ButtonElement(b.View())
      case PadObject(p) => PadElement(p.View())
    }

    /** Returns how many values it has taken. */
    method SetValues(packet: seq<real>, at: nat) returns (taken: nat)
      requires Valid() && at + View().Width() <= |packet|
      modifies Objects()
      ensures View() == old(View()).Set(packet, at) && taken == View().Width()
    {
      match this {
        case ButtonObject(b) =>
          b.SetValue(packet[at]);
          return 1;
        case PadObject(p) =>
          p.SetValues(packet[at], packet[at + 1]);
          return 2;
      }
    }
  }

  /** Valid elements that share no objects. */
  ghost predicate Separate(es: seq<ElementObject>) {
    && (forall i | 0 <= i < |es| :: es[i].Valid())
    && (forall i, j | 0 <= i < j < |es| :: es[i].Objects() !! es[j].Objects())
  }

  /** Elements made of some of these objects. */
  ghost predicate Within(es: seq<ElementObject>, repr: set<object>) {
    forall i | 0 <= i < |es| :: es[i].Objects() <= repr
  }

  lemma OneMoreSeparate(es: seq<ElementObject>, repr: set<object>, e: ElementObject)
    requires Separate(es) && Within(es, repr) && e.Valid() && e.Objects() !! repr
    ensures Separate(es + [e]) && Within(es + [e], repr + e.Objects())
  {
  }

  method NewElements(analog: uint32) returns (es: seq<ElementObject>, ghost repr: set<object>)
    ensures Separate(es) && Within(es, repr) && |es| == 15 && fresh(repr)
    ensures forall i | 0 <= i < 15 :: es[i].PadObject? <==> IsPad(i)
    ensures forall i | 0 <= i < 15 :: es[i].View() == if IsPad(i) then NEW_PAD else NEW_BUTTON
    ensures forall i | 0 <= i < 15 :: es[i].IsAnalog(MaskBit(analog, i))
  {
    es, repr := [], {};
    for i := 0 to 15
      invariant |es| == i && Separate(es) && Within(es, repr) && fresh(repr)
      invariant forall j | 0 <= j < i :: es[j].View() == if IsPad(j) then NEW_PAD else NEW_BUTTON
      invariant forall j | 0 <= j < i :: es[j].PadObject? <==> IsPad(j)
      invariant forall j | 0 <= j < i :: es[j].IsAnalog(MaskBit(analog, j))
    {
      var e := NewElement(i == 0 || i == 7 || i == 8, MaskBit(analog, i));
      OneMoreSeparate(es, repr, e);
      es, repr := es + [e], repr + e.Objects();
    }
  }

  method NewElement(isPad: bool, analog: bool) returns (e: ElementObject)
    ensures e.Valid() && fresh(e.Objects()) && e.View() == if isPad then NEW_PAD else NEW_BUTTON
    ensures e.IsAnalog(analog) && (e.PadObject? <==> isPad)
  {
    if isPad {
      var p := new DirectionPad(analog);
      e := PadObject(p);
    } else {
      var b := new ButtonInput(analog);
      e := ButtonObject(b);
    }
  }

  lemma NewController(es: seq<Element>)
    requires |es| == 15 && forall i | 0 <= i < 15 :: es[i] == if IsPad(i) then NEW_PAD else NEW_BUTTON
    ensures es == NEW_CONTROLLER
  {
  }

  /** The mask 0x780 of the extended elements. */
  predicate AnyExtended(present: uint32) {
    exists i | 7 <= i <= 10 :: MaskBit(present, i)
  }

  class GameController {
    const handle: uint32
    const vendor: VendorName
    /** The views the application asks for: the same element objects, in the order of the mask bits. */
    const gamepad: seq<ElementObject>
    const extendedGamepad: Option<seq<ElementObject>>
    var playerIndex: int32
    const elements: seq<ElementObject>
    /** The masks the controller was announced with. */
    ghost const present: uint32
    ghost const analog: uint32
    /** The objects the elements are made of. */
    ghost const repr: set<object>

    ghost predicate Valid() {
      && Separate(elements) && Within(elements, repr) && this !in repr
      && |elements| == 15 && forall i | 0 <= i < 15 :: elements[i].PadObject? <==> IsPad(i)
    }

    ghost function View(): Panel
      requires Valid()
      reads repr
    {
      seq(15, i requires 0 <= i < 15 reads repr => elements[i].View())
    }

    /**
     * controllerForHandle: the elements of a new controller, all at rest, and the views of them; any of bits 7 to
     * 10 gives it the extended one.
     */
    constructor (handle: uint32, vendor: VendorName, present: uint32, analog: uint32)
      ensures Valid() && View() == NEW_CONTROLLER && fresh(repr)
      ensures this.handle == handle && this.vendor == vendor && this.present == present && this.analog == analog
      ensures playerIndex == -1
      ensures forall i | 0 <= i < 15 :: elements[i].IsAnalog(MaskBit(analog, i))
      ensures gamepad == elements[..7]
      ensures extendedGamepad == if AnyExtended(present) then Some(elements) else None
    {
      var es, objects := NewElements(analog);
      this.handle, this.vendor, elements, repr := handle, vendor, es, objects;
      this.present, this.analog := present, analog;
      playerIndex := -1;
      gamepad := es[..7];
      var extended := MaskBit(present, 7) || MaskBit(present, 8) || MaskBit(present, 9) || MaskBit(present, 10);
      extendedGamepad := if extended then Some(es) else None;
      new;
      assert forall i | 0 <= i < 15 :: elements[i].View().PadElement? <==> elements[i].PadObject?;
      NewController(View());
    }

    /** One element takes its values; the others are different objects. */
    method SetElement(i: nat, packet: seq<real>, at: nat) returns (taken: nat)
      requires Valid() && i < |elements| && at + View()[i].Width() <= |packet|
      modifies repr
      ensures View() == old(View())[i := old(View())[i].Set(packet, at)]
      ensures taken == old(View())[i].Width()
    {
      ghost var before := View();
      taken := elements[i].SetValues(packet, at);
      forall j | 0 <= j < |elements| && j != i ensures View()[j] == before[j] {
        assert elements[i].Objects() !! elements[j].Objects();
      }
    }

    /** The walk has passed i elements of what was there before, and the value pointer stands behind them. */
    ghost predicate Walked(before: seq<Element>, packet: seq<real>, i: nat, at: nat)
      requires Valid()
      reads repr
    {
      && |elements| == |before| && Offset(before, |before|) <= |packet| && i <= |before|
      && at == Offset(before, i) && View() == Walk(before, packet, i)
    }

    /** One turn of the walk. */
    method UpdateElement(i: nat, packet: seq<real>, at: nat, ghost before: seq<Element>) returns (next: nat)
      requires Valid() && i < |elements| && Walked(before, packet, i, at)
      modifies repr
      ensures Walked(before, packet, i + 1, next)
    {
      WalkNext(before, packet, i);
      var taken := SetElement(i, packet, at);
      next := at + taken;
    }

    /** The walk: the value pointer advances by what each element takes. */
    method WalkElements(packet: seq<real>, ghost before: seq<Element>) returns (at: nat)
      requires Valid() && Walked(before, packet, 0, 0)
      modifies repr
      ensures Walked(before, packet, |elements|, at)
    {
      at := 0;
      for i := 0 to |elements|
        invariant Walked(before, packet, i, at)
      {
        at := UpdateElement(i, packet, at, before);
      }
    }

    /** tweakUpdateButtons: every element takes its values, in the order of the list. */
    method UpdateButtons(packet: Packet)
      requires Valid()
      modifies repr
      ensures View() == Updated(old(View()), packet)
    {
      WalkMeetsFields(View(), 15);
      var end := WalkElements(packet, View());
    }
  }
}
