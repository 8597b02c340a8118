/**
 Wheel events of the Wayland client, client/Wayland/wlf_input.c: one scroll of any size
 becomes a series of pointer events, each with 9 bits of rotation.
 */
module Wheel {
  const PTR_FLAGS_WHEEL: nat := 0x200
  const PTR_FLAGS_HWHEEL: nat := 0x400
  const PTR_FLAGS_WHEEL_NEGATIVE: nat := 0x100

  datatype Axis = Vertical | Horizontal | Other(id: nat)

  /** A pointer event on the wire, and the rotation a receiver reads from it. */
  datatype Turn = Turn(axis: Axis, rotation: int)

  /** freerdp_client_send_wheel_event in client/common/client.c takes the flags apart again. */
  function Received(flags: nat): (t: Turn)
  {
    var low := flags % 0x100;
    var axis := if flags / PTR_FLAGS_WHEEL % 2 == 1 then Vertical
                else if flags / PTR_FLAGS_HWHEEL % 2 == 1 then Horizontal else Other(0);
    Turn(axis, if flags / PTR_FLAGS_WHEEL_NEGATIVE % 2 == 1 then -(0x100 - low) else low)
  }

  function Magnitude(value: int): (n: nat)
  {
    if value < 0 then -value else value
  }

  /** Scrolling down is a negative vertical rotation, scrolling left a negative horizontal one. */
  function Wanted(axis: Axis, value: int): (rotation: int)
  {
    if axis.Vertical? then -value else value
  }

  /** An amount of rotation in the direction of the scroll. */
  function Directed(axis: Axis, value: int, amount: int): (rotation: int)
  {
    if Wanted(axis, value) < 0 then -amount else amount
  }

  function Flags(axis: Axis, value: int): (f: nat)
    requires !axis.Other?
  {
    (if axis.Vertical? then PTR_FLAGS_WHEEL else PTR_FLAGS_HWHEEL)
    + (if Wanted(axis, value) < 0 then PTR_FLAGS_WHEEL_NEGATIVE else 0)
  }

  /** One event of a scroll; its low byte is free in the flags, so the bits are added. */
  function Event(axis: Axis, value: int, step: nat): (f: nat)
    requires !axis.Other? && 1 <= step <= 0xFF
  {
    Flags(axis, value) + (if Wanted(axis, value) < 0 then 0x100 - step else step)
  }

  function Step(left: nat): (step: nat)
    requires left > 0
    ensures 1 <= step <= 0xFF && step <= left
  {
    if left > 0xFF then 0xFF else left
  }

  /** The events for what is left of a scroll. */
  function Events(axis: Axis, value: int, left: nat): (es: seq<nat>)
    requires !axis.Other?
    decreases left
  {
    if left == 0 then [] else [Event(axis, value, Step(left))] + Events(axis, value, left - Step(left))
  }

  function Total(es: seq<nat>): (rotation: int)
  {
    if es == [] then 0 else Received(es[0]).rotation + Total(es[1..])
  }

  /** An event is received on its axis, with its size, in the direction of the scroll. */
  lemma EventIsReceived(axis: Axis, value: int, step: nat)
    requires !axis.Other? && 1 <= step <= 0xFF && value != 0
    ensures Received(Event(axis, value, step)) == Turn(axis, Directed(axis, value, step))
  {
  }

  /**
   The flags of an event on the wire: the bit of its axis above nine bits of rotation in two's
   complement.
   */
  lemma EventLayout(axis: Axis, value: int, step: nat)
    requires !axis.Other? && 1 <= step <= 0xFF && value != 0
    ensures var f := Event(axis, value, step);
            && f / 0x200 == (if axis == Vertical then 1 else 2)
            && f % 0x200 == (if (if axis == Vertical then value > 0 else value < 0) then 0x200 - step else step)
  {
  }

  lemma {:induction false} EventsAddUp(axis: Axis, value: int, left: nat)
    requires !axis.Other? && value != 0
    ensures Total(Events(axis, value, left)) == Directed(axis, value, left)
    decreases left
  {
    if left > 0 {
      var step := Step(left);
      EventIsReceived(axis, value, step);
      EventsAddUp(axis, value, left - step);
      assert Events(axis, value, left)[1..] == Events(axis, value, left - step);
    }
  }

  lemma {:induction false} EventsAreFew(axis: Axis, value: int, left: nat, i: nat)
    requires !axis.Other? && value != 0
    ensures |Events(axis, value, left)| == (left + 0xFE) / 0xFF
    ensures i < |Events(axis, value, left)| ==>
              var t := Received(Events(axis, value, left)[i]);
              t.axis == axis && 1 <= Magnitude(t.rotation) <= 0xFF && (t.rotation < 0 <==> Wanted(axis, value) < 0)
    decreases left
  {
    if left > 0 {
      var step := Step(left);
      EventIsReceived(axis, value, step);
      EventsAreFew(axis, value, left - step, if i > 0 then i - 1 else 0);
      assert Events(axis, value, left)[1..] == Events(axis, value, left - step);
    }
  }

  /**
   Every scroll arrives whole: the rotations of its events add up to it, each is in its
   direction and at most 255, and there are as few events as that allows.
   */
  lemma ScrollArrives(axis: Axis, value: int, i: nat)
    requires !axis.Other?
    ensures var es := Events(axis, value, Magnitude(value));
            && Total(es) == (if axis == Vertical then -value else value)
            && |es| == ((if value < 0 then -value else value) + 0xFE) / 0xFF
            && (i < |es| ==>
                  var t := Received(es[i]);
                  && t.axis == axis && -0xFF <= t.rotation <= 0xFF && t.rotation != 0
                  && (t.rotation < 0 <==> if axis == Vertical then value > 0 else value < 0))
  {
    if value != 0 {
      EventsAddUp(axis, value, Magnitude(value));
      EventsAreFew(axis, value, Magnitude(value), i);
    }
  }

  /** The series `es` was sent up to the first send that failed. */
  predicate SentUpToFailure(es: seq<nat>, works: nat -> bool, ok: bool, sent: seq<nat>)
  {
    && sent <= es && (ok ==> sent == es && forall i :: 0 <= i < |es| ==> works(i))
    && (!ok ==> sent != [] && !works(|sent| - 1) && forall i :: 0 <= i < |sent| - 1 ==> works(i))
  }

  method EventFlags(axis: Axis, value: int, flags: nat, cval: nat) returns (cflags: nat)
    requires !axis.Other? && flags == Flags(axis, value) && 1 <= cval <= 0xFF
    ensures cflags == Event(axis, value, cval)
  {
    cflags := flags + cval;
    if flags / PTR_FLAGS_WHEEL_NEGATIVE % 2 == 1 { cflags := flags + (0x100 - cval); }
  }

  lemma EventsFrom(sent: seq<nat>, axis: Axis, value: int, left: nat)
    requires !axis.Other? && left > 0
    ensures sent + Events(axis, value, left)
         == (sent + [Event(axis, value, Step(left))]) + Events(axis, value, left - Step(left))
  {
  }

  /** The loop of wlf_handle_wheel; `works` is the result of each send. */
  method SendEvents(axis: Axis, value: int, flags: nat, works: nat -> bool) returns (ok: bool, sent: seq<nat>)
    requires !axis.Other? && flags == Flags(axis, value)
    ensures SentUpToFailure(Events(axis, value, Magnitude(value)), works, ok, sent)
  {
    sent := [];
    var avalue := Magnitude(value);
    ghost var es := Events(axis, value, avalue);
    assert es == [] + Events(axis, value, avalue);
    while avalue > 0
      invariant es == sent + Events(axis, value, avalue)
      invariant forall i :: 0 <= i < |sent| ==> works(i)
    {
      EventsFrom(sent, axis, value, avalue);
      var cval := if avalue > 0xFF then 0xFF else avalue;
      var cflags := EventFlags(axis, value, flags, cval);
      sent := sent + [cflags];
      avalue := avalue - cval;
      if !works(|sent| - 1) { return false, sent; }
    }
    assert sent + [] == sent;
    return true, sent;
  }

  /** wlf_handle_wheel; `scaled` is the result of scaling the coordinates. */
  method HandleWheel(scaled: bool, axis: Axis, value: int, works: nat -> bool) returns (ok: bool, sent: seq<nat>)
    requires -0x8000_0000 < value < 0x8000_0000
    ensures if scaled && !axis.Other? then SentUpToFailure(Events(axis, value, Magnitude(value)), works, ok, sent)
            else !ok && sent == []
  {
    if !scaled { return false, []; }
    var flags := 0;
    match axis {
      case Vertical =>
        flags := PTR_FLAGS_WHEEL;
        if value > 0 { flags := flags + PTR_FLAGS_WHEEL_NEGATIVE; }
      case Horizontal =>
        flags := PTR_FLAGS_HWHEEL;
        if value < 0 { flags := flags + PTR_FLAGS_WHEEL_NEGATIVE; }
      case Other(_) => return false, [];
    }
    ok, sent := SendEvents(axis, value, flags, works);
  }
}
