/** Controller elements: state packets applied incrementally, against what the last packet alone says. */
module Elements {
  import opened Bytes
  import opened StatePackets

  // ----- the elements and their incremental update -----

  /** fired lists the values passed to the change handler. */
  datatype Axis = Axis(value: real, fired: seq<real>) {
    function Set(v: real): Axis {
      if v != value then Axis(v, fired + [v]) else this
    }
  }

  datatype Button = Button(value: real, pressed: bool, fired: seq<real>) {
    function Set(v: real): Button {
      if v != value then Button(v, v > 0.0001, fired + [v]) else this
    }
  }

  /** A value as two levels, one for each side of zero. */
  predicate SplitBySign(negative: real, positive: real, v: real) {
    positive - negative == v && negative >= 0.0 && positive >= 0.0 && (negative == 0.0 || positive == 0.0)
  }

  function Below(v: real): (r: real)
    ensures SplitBySign(r, Above(v), v)
  {
    if v < 0.0 then -v else 0.0
  }

  function Above(v: real): real {
    if v > 0.0 then v else 0.0
  }

  /** A direction pad leaves early when neither axis has moved. */
  datatype DPad = DPad(
    x: Axis, y: Axis, up: Button, down: Button, left: Button, right: Button, fired: seq<(real, real)>)
  {
    function Set(vx: real, vy: real): DPad {
      if x.value == vx && y.value == vy then this
      else
        DPad(x.Set(vx), y.Set(vy), up.Set(Below(vy)), down.Set(Above(vy)),
             left.Set(Below(vx)), right.Set(Above(vx)), fired + [(vx, vy)])
    }
  }

  datatype Element = ButtonElement(button: Button) | PadElement(pad: DPad) {
    function Width(): nat {
      if PadElement? then 2 else 1
    }

    /** tweakSetValues: take one value or two from the packet. */
    function Set(packet: seq<real>, at: nat): Element
      requires at + Width() <= |packet|
    {
      match this
      case ButtonElement(b) => ButtonElement(b.Set(packet[at]))
      case PadElement(p) => PadElement(p.Set(packet[at], packet[at + 1]))
    }
  }

  /** Where the value pointer stands when the walk reaches element i. */
  function Offset(es: seq<Element>, i: nat): nat
    requires i <= |es|
  {
    if i == 0 then 0 else Offset(es, i - 1) + es[i - 1].Width()
  }

  /** What is left when the first i elements have taken their values, each where the one before left off. */
  function Walk(es: seq<Element>, packet: seq<real>, i: nat): (fs: seq<Element>)
    requires Offset(es, |es|) <= |packet| && i <= |es|
    ensures |fs| == |es|
  {
    if i == 0 then es
    else
      OffsetBound(es, i - 1);
      Walk(es, packet, i - 1)[i - 1 := es[i - 1].Set(packet, Offset(es, i - 1))]
  }

  /** tweakUpdateButtons: the walk over all the elements. */
  function Update(es: seq<Element>, packet: seq<real>): (fs: seq<Element>)
    requires Offset(es, |es|) <= |packet|
    ensures |fs| == |es|
  {
    Walk(es, packet, |es|)
  }

  lemma {:induction false} OffsetBound(es: seq<Element>, i: nat)
    requires i < |es|
    ensures Offset(es, i) + es[i].Width() <= Offset(es, |es|)
    decreases |es| - i
  {
    OffsetMonotone(es, i + 1, |es|);
  }

  lemma {:induction false} OffsetMonotone(es: seq<Element>, i: nat, j: nat)
    requires i <= j <= |es|
    ensures Offset(es, i) <= Offset(es, j)
    decreases j - i
  {
    if i < j {
      OffsetMonotone(es, i, j - 1);
    }
  }

  lemma {:induction false} WalkAhead(es: seq<Element>, packet: seq<real>, i: nat, j: nat)
    requires Offset(es, |es|) <= |packet| && i <= j < |es|
    ensures Walk(es, packet, i)[j] == es[j]
  {
    if i > 0 {
      WalkAhead(es, packet, i - 1, j);
    }
  }

  /** An element is set once, when the walk passes it. */
  lemma {:induction false} WalkBehind(es: seq<Element>, packet: seq<real>, i: nat, j: nat)
    requires Offset(es, |es|) <= |packet| && j < i <= |es|
    ensures Offset(es, j) + es[j].Width() <= |packet|
    ensures Walk(es, packet, i)[j] == es[j].Set(packet, Offset(es, j))
  {
    OffsetBound(es, j);
    if j < i - 1 {
      WalkBehind(es, packet, i - 1, j);
    }
  }

  lemma UpdateKeepsShape(es: seq<Element>, packet: seq<real>)
    requires Offset(es, |es|) <= |packet| && Shaped(es)
    ensures Shaped(Update(es, packet))
  {
    forall j | 0 <= j < 15 ensures Update(es, packet)[j].PadElement? <==> es[j].PadElement? {
      WalkBehind(es, packet, 15, j);
    }
  }

  lemma WalkNext(es: seq<Element>, packet: seq<real>, i: nat)
    requires Offset(es, |es|) <= |packet| && i < |es|
    ensures Walk(es, packet, i)[i] == es[i] && Offset(es, i) + es[i].Width() <= |packet|
    ensures Walk(es, packet, i + 1) == Walk(es, packet, i)[i := es[i].Set(packet, Offset(es, i))]
  {
    OffsetBound(es, i);
    WalkAhead(es, packet, i, i);
  }

  // ----- the controller that controllerForHandle builds -----

  const REST := Button(0.0, false, [])
  const CENTRE := Axis(0.0, [])
  const NEW_BUTTON := ButtonElement(REST)
  const NEW_PAD := PadElement(DPad(CENTRE, CENTRE, REST, REST, REST, REST, []))

  const NEW_CONTROLLER := [
    NEW_PAD, NEW_BUTTON, NEW_BUTTON, NEW_BUTTON, NEW_BUTTON, NEW_BUTTON, NEW_BUTTON, NEW_PAD, NEW_PAD,
    NEW_BUTTON, NEW_BUTTON, NEW_BUTTON, NEW_BUTTON, NEW_BUTTON, NEW_BUTTON]

  /** The direction pad and the two thumbsticks. */
  predicate IsPad(i: nat) {
    i == 0 || i == 7 || i == 8
  }

  /** The first value of each element in the packet structure: pads take two fields, buttons one. */
  function Field(i: nat): (f: nat)
    requires i < 15
    ensures f < 18 && (IsPad(i) ==> f < 17)
  {
    if i == 0 then 0 else if i <= 7 then i + 1 else if i == 8 then 10 else i + 3
  }

  predicate Shaped(es: seq<Element>) {
    |es| == 15 && forall i | 0 <= i < 15 :: es[i].PadElement? <==> IsPad(i)
  }

  /** The walk meets every element at its own field and consumes exactly the eighteen values. */
  lemma {:induction false} WalkMeetsFields(es: seq<Element>, i: nat)
    requires Shaped(es) && i <= 15
    ensures Offset(es, i) == if i < 15 then Field(i) else 18
  {
    if i > 0 {
      WalkMeetsFields(es, i - 1);
    }
  }

  // ----- reference: what the last packet alone says, and which changes there were -----

  predicate ShowsButton(b: Button, v: real) {
    b.value == v && (b.pressed <==> v > 0.0001)
  }

  /** The two buttons share a value by its sign, and each is pressed or not as its part says. */
  predicate ShowsSides(negative: Button, positive: Button, v: real) {
    && SplitBySign(negative.value, positive.value, v)
    && (negative.pressed <==> negative.value > 0.0001) && (positive.pressed <==> positive.value > 0.0001)
  }

  /** Left and up are the negative sides. */
  predicate ShowsPad(p: DPad, vx: real, vy: real) {
    p.x.value == vx && p.y.value == vy && ShowsSides(p.left, p.right, vx) && ShowsSides(p.up, p.down, vy)
  }

  predicate Shows(e: Element, packet: Packet, f: nat)
    requires f < 17 || (f == 17 && e.ButtonElement?)
  {
    match e
    case ButtonElement(b) => ShowsButton(b, packet[f])
    case PadElement(p) => ShowsPad(p, packet[f], packet[f + 1])
  }

  /** The values that differ from the one before, starting from prev. */
  function Changes<T(==)>(prev: T, vs: seq<T>): seq<T> {
    if vs == [] then []
    else
      var before, v := vs[..|vs| - 1], vs[|vs| - 1];
      Changes(prev, before) + if v == Latest(prev, before) then [] else [v]
  }

  function Latest<T>(prev: T, vs: seq<T>): T {
    if vs == [] then prev else vs[|vs| - 1]
  }

  function Firsts(vs: seq<(real, real)>): (xs: seq<real>)
    ensures |xs| == |vs|
  {
    seq(|vs|, i requires 0 <= i < |vs| => vs[i].0)
  }

  function Seconds(vs: seq<(real, real)>): (ys: seq<real>)
    ensures |ys| == |vs|
  {
    seq(|vs|, i requires 0 <= i < |vs| => vs[i].1)
  }

  function Belows(vs: seq<real>): (bs: seq<real>)
    ensures |bs| == |vs|
  {
    seq(|vs|, i requires 0 <= i < |vs| => Below(vs[i]))
  }

  function Aboves(vs: seq<real>): (bs: seq<real>)
    ensures |bs| == |vs|
  {
    seq(|vs|, i requires 0 <= i < |vs| => Above(vs[i]))
  }

  /** A button that has been shown a run of values, each if it differed. */
  predicate ButtonTracks(b: Button, vs: seq<real>) {
    ShowsButton(b, Latest(0.0, vs)) && b.fired == Changes(0.0, vs)
  }

  predicate AxisTracks(a: Axis, vs: seq<real>) {
    a.value == Latest(0.0, vs) && a.fired == Changes(0.0, vs)
  }

  predicate PadTracks(p: DPad, vs: seq<(real, real)>) {
    var xs, ys := Firsts(vs), Seconds(vs);
    && AxisTracks(p.x, xs) && AxisTracks(p.y, ys)
    && ButtonTracks(p.left, Belows(xs)) && ButtonTracks(p.right, Aboves(xs))
    && ButtonTracks(p.up, Belows(ys)) && ButtonTracks(p.down, Aboves(ys))
    && p.fired == Changes((0.0, 0.0), vs)
    && ShowsPad(p, Latest((0.0, 0.0), vs).0, Latest((0.0, 0.0), vs).1)
  }

  /** What the packets of a run hold at one field, or at a pair of fields. */
  function FieldRun(ps: seq<Packet>, f: nat): (vs: seq<real>)
    requires f < 18
    ensures |vs| == |ps|
  {
    seq(|ps|, i requires 0 <= i < |ps| => ps[i][f])
  }

  function PairRun(ps: seq<Packet>, f: nat): (vs: seq<(real, real)>)
    requires f < 17
    ensures |vs| == |ps|
  {
    seq(|ps|, i requires 0 <= i < |ps| => (ps[i][f], ps[i][f + 1]))
  }

  predicate Tracks(e: Element, ps: seq<Packet>, f: nat)
    requires f < 17 || (f == 17 && e.ButtonElement?)
  {
    match e
    case ButtonElement(b) => ButtonTracks(b, FieldRun(ps, f))
    case PadElement(p) => PadTracks(p, PairRun(ps, f))
  }

  /** The elements of a controller. */
  type Panel = es: seq<Element> | Shaped(es) witness NEW_CONTROLLER

  function Updated(panel: Panel, packet: Packet): Panel {
    WalkMeetsFields(panel, 15);
    UpdateKeepsShape(panel, packet);
    Update(panel, packet)
  }

  function RunController(ps: seq<Packet>): Panel {
    if ps == [] then NEW_CONTROLLER else Updated(RunController(ps[..|ps| - 1]), ps[|ps| - 1])
  }

  lemma ChangesExtend<T>(prev: T, vs: seq<T>, v: T)
    ensures Changes(prev, vs + [v]) == Changes(prev, vs) + if v == Latest(prev, vs) then [] else [v]
    ensures Latest(prev, vs + [v]) == v
  {
  }

  lemma ButtonStep(b: Button, vs: seq<real>, v: real)
    requires ButtonTracks(b, vs)
    ensures ButtonTracks(b.Set(v), vs + [v])
  {
  }

  lemma AxisStep(a: Axis, vs: seq<real>, v: real)
    requires AxisTracks(a, vs)
    ensures AxisTracks(a.Set(v), vs + [v])
  {
  }

  lemma HalvesExtend(vs: seq<(real, real)>, v: (real, real))
    ensures Firsts(vs + [v]) == Firsts(vs) + [v.0] && Seconds(vs + [v]) == Seconds(vs) + [v.1]
  {
  }

  lemma SignsExtend(vs: seq<real>, v: real)
    ensures Belows(vs + [v]) == Belows(vs) + [Below(v)] && Aboves(vs + [v]) == Aboves(vs) + [Above(v)]
  {
  }

  /** The early return makes no difference to a pad that is showing what it was last set to. */
  lemma EarlyReturnIsHarmless(p: DPad, vs: seq<(real, real)>, vx: real, vy: real)
    requires PadTracks(p, vs)
    ensures var q := p.Set(vx, vy);
            && q.x == p.x.Set(vx) && q.left == p.left.Set(Below(vx)) && q.right == p.right.Set(Above(vx))
            && q.y == p.y.Set(vy) && q.up == p.up.Set(Below(vy)) && q.down == p.down.Set(Above(vy))
  {
  }

  lemma PadStep(p: DPad, vs: seq<(real, real)>, v: (real, real))
    requires PadTracks(p, vs)
    ensures PadTracks(p.Set(v.0, v.1), vs + [v])
  {
    var xs, ys := Firsts(vs), Seconds(vs);
    EarlyReturnIsHarmless(p, vs, v.0, v.1);
    HalvesExtend(vs, v);
    SignsExtend(xs, v.0);
    SignsExtend(ys, v.1);
    AxisStep(p.x, xs, v.0);
    AxisStep(p.y, ys, v.1);
    ButtonStep(p.left, Belows(xs), Below(v.0));
    ButtonStep(p.right, Aboves(xs), Above(v.0));
    ButtonStep(p.up, Belows(ys), Below(v.1));
    ButtonStep(p.down, Aboves(ys), Above(v.1));
    ChangesExtend((0.0, 0.0), vs, v);
    assert Latest((0.0, 0.0), vs) == (p.x.value, p.y.value);
    assert p.fired + [] == p.fired;
  }

  lemma ElementStep(e: Element, ps: seq<Packet>, packet: Packet, f: nat)
    requires f < 17 || (f == 17 && e.ButtonElement?)
    requires Tracks(e, ps, f)
    ensures Tracks(e.Set(packet, f), ps + [packet], f)
  {
    match e
    case ButtonElement(b) =>
      assert FieldRun(ps + [packet], f) == FieldRun(ps, f) + [packet[f]];
      ButtonStep(b, FieldRun(ps, f), packet[f]);
    case PadElement(p) =>
      assert PairRun(ps + [packet], f) == PairRun(ps, f) + [(packet[f], packet[f + 1])];
      PadStep(p, PairRun(ps, f), (packet[f], packet[f + 1]));
  }

  lemma NewTracks(i: nat)
    requires i < 15
    ensures Tracks(NEW_CONTROLLER[i], [], Field(i))
  {
  }

  predicate ControllerTracks(es: seq<Element>, ps: seq<Packet>) {
    Shaped(es) && forall i | 0 <= i < 15 :: Tracks(es[i], ps, Field(i))
  }

  lemma UpdateStep(es: seq<Element>, ps: seq<Packet>, packet: Packet)
    requires ControllerTracks(es, ps)
    ensures Offset(es, 15) == 18 && ControllerTracks(Update(es, packet), ps + [packet])
  {
    WalkMeetsFields(es, 15);
    var fs := Update(es, packet);
    forall i | 0 <= i < 15 ensures fs[i].PadElement? == es[i].PadElement? && Tracks(fs[i], ps + [packet], Field(i)) {
      WalkMeetsFields(es, i);
      WalkBehind(es, packet, 15, i);
      ElementStep(es[i], ps, packet, Field(i));
    }
  }

  /**
   * Incremental update is direct: after any sequence of packets each element shows its own fields of the last
   * packet alone, and its change handlers have fired exactly for the values that differed from the one before.
   */
  lemma {:induction false} UpdateIsDirect(ps: seq<Packet>)
    ensures ControllerTracks(RunController(ps), ps)
  {
    if ps == [] {
      forall i | 0 <= i < 15 ensures Tracks(NEW_CONTROLLER[i], [], Field(i)) {
        NewTracks(i);
      }
    } else {
      var before, packet := ps[..|ps| - 1], ps[|ps| - 1];
      UpdateIsDirect(before);
      UpdateStep(RunController(before), before, packet);
      SplitLast(ps);
    }
  }

  /** An element that tracks a run shows its last packet. */
  lemma TracksShows(es: seq<Element>, ps: seq<Packet>, i: nat)
    requires ControllerTracks(es, ps) && i < 15 && ps != []
    ensures Shows(es[i], ps[|ps| - 1], Field(i))
  {
  }

  /** The element values after a run are those of its last packet, split by sign on the pads. */
  lemma LastPacketAlone(ps: seq<Packet>, i: nat)
    requires i < 15 && ps != []
    ensures Shows(RunController(ps)[i], ps[|ps| - 1], Field(i))
  {
    UpdateIsDirect(ps);
    TracksShows(RunController(ps), ps, i);
  }
}
