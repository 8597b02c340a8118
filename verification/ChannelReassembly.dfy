/**
 Reassembly of virtual channel chunks in channels/client/addin.c
 (chunk flags of section 2.2.6.1.1 of MS-RDPBCGR).
 */
module ChannelReassembly {
  import opened WinprStream

  type Message = seq<Byte>

  /** One call of channel_client_post_message. */
  datatype Chunk = Chunk(data: seq<Byte>, total: nat, first: bool, last: bool, suspend: bool, resume: bool) {
    predicate Control() {
      suspend || resume
    }
  }

  datatype Rc = Ok | NoMemory | InternalError

  /** A message under construction: the stream's capacity and what has been written. */
  datatype Assembly = Assembly(capacity: nat, data: seq<Byte>) {
    predicate Valid() {
      |data| <= capacity && capacity > 0
    }
  }

  datatype Outcome = Outcome(partial: Option<Assembly>, delivered: Option<Message>, rc: Rc)

  predicate ValidPartial(p: Option<Assembly>)
  {
    p.Some? ==> p.value.Valid()
  }

  /** The stream a chunk is appended to, if there is one. */
  function Opened(p: Option<Assembly>, c: Chunk): (r: Option<Assembly>)
    requires ValidPartial(p)
    ensures ValidPartial(r)
  {
    if !c.first then p
    else match p
      case Some(a) => Some(a.(capacity := Doubled(a.capacity, c.total)))
      case None => if c.total == 0 then None else Some(Assembly(c.total, []))
  }

  function Receive(p: Option<Assembly>, c: Chunk): (o: Outcome)
    requires ValidPartial(p)
    ensures ValidPartial(o.partial)
  {
    if c.Control() then Outcome(p, None, Ok)
    else match Opened(p, c)
      case None => Outcome(None, None, NoMemory)
      case Some(a) =>
        var b := Assembly(Reserved(a.capacity, |a.data|, |c.data|), a.data + c.data);
        if !c.last then Outcome(Some(b), None, Ok)
        else if b.capacity != |b.data| then Outcome(Some(b), None, InternalError)
        else Outcome(None, Some(b.data), Ok)
  }

  /** The receiving side of the handler object: `dataIn` is the partial message. */
  class Receiver {
    var dataIn: Stream?

    ghost predicate Valid()
      reads this, dataIn
    {
      dataIn != null ==> dataIn.Valid() && dataIn.buffer != []
    }

    ghost function Partial(): (p: Option<Assembly>)
      requires Valid()
      reads this, dataIn
      ensures ValidPartial(p)
    {
      if dataIn == null then None else Some(Assembly(|dataIn.buffer|, dataIn.Written()))
    }

    constructor ()
      ensures Valid() && Partial() == None
    {
      dataIn := null;
    }

    /** channel_client_post_message up to the point where a complete message is handed on. */
    method PostChunk(c: Chunk) returns (rc: Rc, delivered: Option<Message>)
      requires Valid()
      modifies this, dataIn
      ensures Valid() && (dataIn != null ==> dataIn == old(dataIn) || fresh(dataIn))
      ensures Outcome(Partial(), delivered, rc) == Receive(old(Partial()), c)
    {
      if c.suspend || c.resume {
        return Ok, None;
      }
      if c.first {
        if dataIn != null {
          ghost var before := dataIn.Written();
          ghost var old_capacity := |dataIn.buffer|;
          dataIn.EnsureCapacity(c.total);
          assert dataIn.Written() == dataIn.buffer[..old_capacity][..dataIn.position] == before;
        } else if c.total > 0 {
          dataIn := new Stream(c.total, 0);
        }
      }
      if dataIn == null {
        return NoMemory, None;
      }
      dataIn.EnsureRemainingCapacity(|c.data|);
      dataIn.Write(c.data);
      if c.last {
        if |dataIn.buffer| != dataIn.position {
          return InternalError, None;
        }
        var message := dataIn.buffer[..dataIn.position];
        dataIn := null;
        return Ok, Some(message);
      }
      return Ok, None;
    }
  }

  // ---- Whole chunk streams -----------------------------------------------

  function PartialAfter(p: Option<Assembly>, cs: seq<Chunk>): (r: Option<Assembly>)
    requires ValidPartial(p)
    ensures ValidPartial(r)
    decreases |cs|
  {
    if cs == [] then p else PartialAfter(Receive(p, cs[0]).partial, cs[1..])
  }

  function Delivered(p: Option<Assembly>, cs: seq<Chunk>): (ms: seq<Message>)
    requires ValidPartial(p)
    decreases |cs|
  {
    if cs == [] then []
    else
      var o := Receive(p, cs[0]);
      (if o.delivered.Some? then [o.delivered.value] else []) + Delivered(o.partial, cs[1..])
  }

  lemma {:induction false} PartialAppend(p: Option<Assembly>, cs: seq<Chunk>, ds: seq<Chunk>)
    requires ValidPartial(p)
    ensures PartialAfter(p, cs + ds) == PartialAfter(PartialAfter(p, cs), ds)
    decreases |cs|
  {
    if cs == [] {
      assert cs + ds == ds;
    } else {
      assert (cs + ds)[0] == cs[0] && (cs + ds)[1..] == cs[1..] + ds;
      PartialAppend(Receive(p, cs[0]).partial, cs[1..], ds);
    }
  }

  lemma {:induction false} DeliveredAppend(p: Option<Assembly>, cs: seq<Chunk>, ds: seq<Chunk>)
    requires ValidPartial(p)
    ensures Delivered(p, cs + ds) == Delivered(p, cs) + Delivered(PartialAfter(p, cs), ds)
    decreases |cs|
  {
    if cs == [] {
      assert cs + ds == ds;
    } else {
      assert (cs + ds)[0] == cs[0] && (cs + ds)[1..] == cs[1..] + ds;
      var o := Receive(p, cs[0]);
      var head := if o.delivered.Some? then [o.delivered.value] else [];
      DeliveredAppend(o.partial, cs[1..], ds);
      var rest, after := Delivered(o.partial, cs[1..]), Delivered(PartialAfter(o.partial, cs[1..]), ds);
      assert head + (rest + after) == (head + rest) + after;
    }
  }

  /** Receiving one stream of chunks after another is receiving both. */
  lemma ReceiveAppend(p: Option<Assembly>, cs: seq<Chunk>, ds: seq<Chunk>)
    requires ValidPartial(p)
    ensures PartialAfter(p, cs + ds) == PartialAfter(PartialAfter(p, cs), ds)
    ensures Delivered(p, cs + ds) == Delivered(p, cs) + Delivered(PartialAfter(p, cs), ds)
  {
    PartialAppend(p, cs, ds);
    DeliveredAppend(p, cs, ds);
  }

  function WithoutControl(cs: seq<Chunk>): (r: seq<Chunk>)
  {
    if cs == [] then []
    else if cs[0].Control() then WithoutControl(cs[1..])
    else [cs[0]] + WithoutControl(cs[1..])
  }

  /** Suspend and resume chunks leave no trace, wherever they occur. */
  lemma {:induction false} ControlIsIgnored(p: Option<Assembly>, cs: seq<Chunk>)
    requires ValidPartial(p)
    ensures Delivered(p, cs) == Delivered(p, WithoutControl(cs))
    ensures PartialAfter(p, cs) == PartialAfter(p, WithoutControl(cs))
    decreases |cs|
  {
    if cs != [] {
      ControlIsIgnored(Receive(p, cs[0]).partial, cs[1..]);
      if !cs[0].Control() {
        assert WithoutControl(cs)[1..] == WithoutControl(cs[1..]);
      }
    }
  }

  /** The chunks of the remaining pieces of a message. */
  function Chunks(pieces: seq<seq<Byte>>, total: nat, first: bool): (cs: seq<Chunk>)
  {
    if pieces == [] then []
    else [Chunk(pieces[0], total, first, |pieces| == 1, false, false)] + Chunks(pieces[1..], total, false)
  }

  /** The chunks of messages given as lists of pieces. */
  function ChunksOfAll(cuts: seq<seq<seq<Byte>>>): (cs: seq<Chunk>)
  {
    if cuts == [] then [] else Chunks(cuts[0], |Concat(cuts[0])|, true) + ChunksOfAll(cuts[1..])
  }

  function Messages(cuts: seq<seq<seq<Byte>>>): (ms: seq<Message>)
  {
    if cuts == [] then [] else [Concat(cuts[0])] + Messages(cuts[1..])
  }

  /** With room for exactly the rest of the message, the remaining chunks complete it. */
  lemma {:induction false} RestCompletes(a: Assembly, pieces: seq<seq<Byte>>, total: nat)
    requires a.Valid() && pieces != [] && a.capacity == |a.data| + |Concat(pieces)|
    ensures Delivered(Some(a), Chunks(pieces, total, false)) == [a.data + Concat(pieces)]
    ensures PartialAfter(Some(a), Chunks(pieces, total, false)) == None
    decreases |pieces|
  {
    var cs := Chunks(pieces, total, false);
    var o := Receive(Some(a), cs[0]);
    assert cs[1..] == Chunks(pieces[1..], total, false);
    if |pieces| == 1 {
      assert Concat(pieces) == pieces[0];
    } else {
      RestCompletes(o.partial.value, pieces[1..], total);
      assert a.data + pieces[0] + Concat(pieces[1..]) == a.data + Concat(pieces);
    }
  }

  /** One non-empty message, cut anywhere, arrives whole and leaves nothing behind. */
  lemma MessageArrives(pieces: seq<seq<Byte>>)
    requires Concat(pieces) != []
    ensures Delivered(None, Chunks(pieces, |Concat(pieces)|, true)) == [Concat(pieces)]
    ensures PartialAfter(None, Chunks(pieces, |Concat(pieces)|, true)) == None
  {
    var total := |Concat(pieces)|;
    var a := Assembly(total, []);
    var cs, ds := Chunks(pieces, total, true), Chunks(pieces, total, false);
    RestCompletes(a, pieces, total);
    assert Receive(None, cs[0]) == Receive(Some(a), ds[0]);
    assert cs[1..] == ds[1..];
    assert [] + Concat(pieces) == Concat(pieces);
  }

  /**
   Any list of non-empty messages, each cut into any chunks, with suspend and
   resume chunks anywhere between, is delivered as exactly those messages in order.
   */
  lemma {:induction false} MessagesArrive(cs: seq<Chunk>, cuts: seq<seq<seq<Byte>>>)
    requires forall k :: 0 <= k < |cuts| ==> Concat(cuts[k]) != []
    requires WithoutControl(cs) == ChunksOfAll(cuts)
    ensures Delivered(None, cs) == Messages(cuts) && PartialAfter(None, cs) == None
  {
    ControlIsIgnored(None, cs);
    CutsArrive(cuts);
  }

  lemma {:induction false} CutsArrive(cuts: seq<seq<seq<Byte>>>)
    requires forall k :: 0 <= k < |cuts| ==> Concat(cuts[k]) != []
    ensures Delivered(None, ChunksOfAll(cuts)) == Messages(cuts) && PartialAfter(None, ChunksOfAll(cuts)) == None
  {
    if cuts != [] {
      MessageArrives(cuts[0]);
      CutsArrive(cuts[1..]);
      ReceiveAppend(None, Chunks(cuts[0], |Concat(cuts[0])|, true), ChunksOfAll(cuts[1..]));
    }
  }

  // ---- When the announced total is wrong ---------------------------------

  lemma {:induction false} RestFallsShort(a: Assembly, pieces: seq<seq<Byte>>, total: nat)
    requires a.Valid() && a.capacity > |a.data| + |Concat(pieces)|
    ensures Delivered(Some(a), Chunks(pieces, total, false)) == []
    ensures PartialAfter(Some(a), Chunks(pieces, total, false)) == Some(a.(data := a.data + Concat(pieces)))
    decreases |pieces|
  {
    var cs := Chunks(pieces, total, false);
    if pieces == [] {
      assert a.data + Concat(pieces) == a.data;
    } else {
      var o := Receive(Some(a), cs[0]);
      assert cs[1..] == Chunks(pieces[1..], total, false);
      RestFallsShort(o.partial.value, pieces[1..], total);
      assert a.data + pieces[0] + Concat(pieces[1..]) == a.data + Concat(pieces);
    }
  }

  /** A message shorter than announced is never delivered, and its bytes stay in the way. */
  lemma ShortMessageStays(pieces: seq<seq<Byte>>, total: nat)
    requires pieces != [] && |Concat(pieces)| < total
    ensures Delivered(None, Chunks(pieces, total, true)) == []
    ensures PartialAfter(None, Chunks(pieces, total, true)) == Some(Assembly(total, Concat(pieces)))
  {
    var a := Assembly(total, []);
    var cs, ds := Chunks(pieces, total, true), Chunks(pieces, total, false);
    RestFallsShort(a, pieces, total);
    assert Receive(None, cs[0]) == Receive(Some(a), ds[0]);
    assert cs[1..] == ds[1..];
    assert [] + Concat(pieces) == Concat(pieces);
  }

  /** The capacity of the stream when the pieces have been written. */
  function Room(capacity: nat, written: nat, pieces: seq<seq<Byte>>): (r: nat)
    requires written <= capacity && capacity > 0
    ensures r >= capacity && r >= written + |Concat(pieces)|
    decreases |pieces|
  {
    if pieces == [] then capacity
    else Room(Reserved(capacity, written, |pieces[0]|), written + |pieces[0]|, pieces[1..])
  }

  predicate IsDoubling(capacity: nat, n: nat)
    requires capacity > 0
    decreases n - capacity
  {
    n == capacity || (n > capacity && IsDoubling(2 * capacity, n))
  }

  lemma {:induction false} DoubledIsDoubling(capacity: nat, size: nat, n: nat)
    requires capacity > 0 && n >= Doubled(capacity, size) && IsDoubling(Doubled(capacity, size), n)
    ensures IsDoubling(capacity, n)
    decreases size - capacity
  {
    if capacity < size {
      DoubledIsDoubling(2 * capacity, size, n);
    }
  }

  /** Room that is enough from the start stays; otherwise it is doubled a number of times. */
  lemma {:induction false} RoomIsDoubling(capacity: nat, written: nat, pieces: seq<seq<Byte>>)
    requires written <= capacity && capacity > 0
    ensures IsDoubling(capacity, Room(capacity, written, pieces))
    ensures written + |Concat(pieces)| <= capacity ==> Room(capacity, written, pieces) == capacity
    decreases |pieces|
  {
    if pieces != [] {
      var next := Reserved(capacity, written, |pieces[0]|);
      RoomIsDoubling(next, written + |pieces[0]|, pieces[1..]);
      if written + |pieces[0]| > capacity {
        DoubledIsDoubling(capacity, capacity + |pieces[0]|, Room(capacity, written, pieces));
      }
    }
  }

  /** The stream with one more piece. */
  function Grown(a: Assembly, piece: seq<Byte>): (b: Assembly)
    requires a.Valid()
    ensures b.Valid()
  {
    Assembly(Reserved(a.capacity, |a.data|, |piece|), a.data + piece)
  }

  lemma PieceIsKept(a: Assembly, pieces: seq<seq<Byte>>, total: nat)
    requires a.Valid() && |pieces| > 1
    ensures Delivered(Some(a), Chunks(pieces, total, false))
         == Delivered(Some(Grown(a, pieces[0])), Chunks(pieces[1..], total, false))
  {
    var cs := Chunks(pieces, total, false);
    assert cs[1..] == Chunks(pieces[1..], total, false);
    assert Receive(Some(a), cs[0]) == Outcome(Some(Grown(a, pieces[0])), None, Ok);
  }

  lemma LastPieceDecides(a: Assembly, pieces: seq<seq<Byte>>, total: nat)
    requires a.Valid() && |pieces| == 1
    ensures var b := Grown(a, pieces[0]);
            Delivered(Some(a), Chunks(pieces, total, false)) == (if b.capacity == |b.data| then [b.data] else [])
  {
    var cs := Chunks(pieces, total, false);
    assert pieces[1..] == [] && cs[1..] == Chunks(pieces[1..], total, false) == [];
  }

  lemma {:induction false} RestDelivered(a: Assembly, pieces: seq<seq<Byte>>, total: nat)
    requires a.Valid() && pieces != []
    ensures Delivered(Some(a), Chunks(pieces, total, false))
         == (if Room(a.capacity, |a.data|, pieces) == |a.data + Concat(pieces)| then [a.data + Concat(pieces)] else [])
    decreases |pieces|
  {
    var b := Grown(a, pieces[0]);
    assert b.data + Concat(pieces[1..]) == a.data + Concat(pieces);
    assert Room(a.capacity, |a.data|, pieces) == Room(b.capacity, |b.data|, pieces[1..]);
    if |pieces| == 1 {
      LastPieceDecides(a, pieces, total);
      assert pieces[1..] == [] && b.data + [] == b.data;
    } else {
      PieceIsKept(a, pieces, total);
      RestDelivered(b, pieces[1..], total);
    }
  }

  /** The result of a call, and the partial message it leaves, in every case. */
  lemma ReceiveExactly(p: Option<Assembly>, c: Chunk)
    requires ValidPartial(p)
    ensures var o := Receive(p, c);
            if c.suspend || c.resume then o == Outcome(p, None, Ok)
            else if p.None? && (!c.first || c.total == 0) then o == Outcome(None, None, NoMemory)
            else
              var a := if p.Some? then p.value else Assembly(c.total, []);
              var data := a.data + c.data;
              var base := if c.first then Doubled(a.capacity, c.total) else a.capacity;
              var room := Reserved(base, |a.data|, |c.data|);
              && (o.partial.Some? ==> o.partial.value.capacity == room)
              && (o.delivered.Some? <==> c.last && room == |data|)
              && (!c.last ==> o.rc == Ok && o.delivered == None && o.partial.Some? && o.partial.value.data == data)
              && (c.last && o.delivered.Some? ==> o == Outcome(None, Some(data), Ok))
              && (c.last && o.delivered.None? ==>
                    o.rc == InternalError && o.partial.Some? && o.partial.value.data == data
                    && o.partial.value.capacity > |data|)
  {
  }

  /**
   Behind a message that was not delivered, the next one is appended to what is there: it comes
   out with those bytes in front, exactly if both together fill the stream.
   */
  lemma NextIsSpoiled(a: Assembly, pieces: seq<seq<Byte>>, total: nat)
    requires a.Valid() && pieces != []
    ensures var capacity := Doubled(a.capacity, total);
            var data := a.data + Concat(pieces);
            Delivered(Some(a), Chunks(pieces, total, true))
            == if Room(capacity, |a.data|, pieces) == |data| then [data] else []
  {
    var b := a.(capacity := Doubled(a.capacity, total));
    var cs, ds := Chunks(pieces, total, true), Chunks(pieces, total, false);
    RestDelivered(b, pieces, total);
    assert Receive(Some(a), cs[0]) == Receive(Some(b), ds[0]);
    assert cs[1..] == ds[1..];
  }

  /**
   Exactly which messages are delivered under an announced total: none if it is 0, and
   otherwise those that fill the stream, whose capacity is the total, doubled as often as the
   pieces made it grow. One that is not longer than the total is delivered exactly when it
   has that length.
   */
  lemma DeliveredExactly(pieces: seq<seq<Byte>>, total: nat)
    requires pieces != []
    ensures total == 0 ==>
              Delivered(None, Chunks(pieces, 0, true)) == [] && PartialAfter(None, Chunks(pieces, 0, true)) == None
    ensures total > 0 ==>
              var data := Concat(pieces);
              && Delivered(None, Chunks(pieces, total, true))
                 == (if |data| == Room(total, 0, pieces) then [data] else [])
              && IsDoubling(total, Room(total, 0, pieces))
              && (|data| <= total ==> Room(total, 0, pieces) == total)
  {
    if total == 0 {
      NothingOpened(pieces);
    } else {
      FilledIsDelivered(pieces, total);
      RoomIsDoubling(total, 0, pieces);
    }
  }

  lemma FilledIsDelivered(pieces: seq<seq<Byte>>, total: nat)
    requires pieces != [] && total > 0
    ensures Delivered(None, Chunks(pieces, total, true))
         == (if |Concat(pieces)| == Room(total, 0, pieces) then [Concat(pieces)] else [])
  {
    var a := Assembly(total, []);
    var cs, ds := Chunks(pieces, total, true), Chunks(pieces, total, false);
    RestDelivered(a, pieces, total);
    assert Receive(None, cs[0]) == Receive(Some(a), ds[0]);
    assert cs[1..] == ds[1..];
    assert [] + Concat(pieces) == Concat(pieces);
  }

  lemma {:induction false} NothingToAppendTo(pieces: seq<seq<Byte>>)
    ensures Delivered(None, Chunks(pieces, 0, false)) == []
    ensures PartialAfter(None, Chunks(pieces, 0, false)) == None
    decreases |pieces|
  {
    if pieces != [] {
      assert Chunks(pieces, 0, false)[1..] == Chunks(pieces[1..], 0, false);
      NothingToAppendTo(pieces[1..]);
    }
  }

  /** A total of 0 opens no stream, and every chunk is an error. */
  lemma NothingOpened(pieces: seq<seq<Byte>>)
    requires pieces != []
    ensures Delivered(None, Chunks(pieces, 0, true)) == [] && PartialAfter(None, Chunks(pieces, 0, true)) == None
  {
    NothingToAppendTo(pieces[1..]);
    assert Chunks(pieces, 0, true)[1..] == Chunks(pieces[1..], 0, false);
  }

  /**
   A longer one can get through: growing the stream doubles its capacity, and
   the doubled capacity may be exactly what was written.
   */
  lemma LongMessageCanPass(x: seq<Byte>, y: seq<Byte>)
    requires |x| == |y| > 0
    ensures Delivered(None, Chunks([x, y], |x|, true)) == [x + y]
  {
    assert [x, y][1..] == [y] && [y][1..] == [];
    var pieces := [x, y];
    assert Concat(pieces[1..]) == y + Concat(pieces[1..][1..]) == y;
    assert Concat(pieces) == x + y;
    assert Room(|x|, 0, [x, y]) == Room(|x|, |x|, [y]) == Doubled(|x|, |x| + |y|);
    DeliveredExactly([x, y], |x|);
  }
}
