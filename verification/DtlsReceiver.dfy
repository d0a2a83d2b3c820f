/** What the DTLS receiver does to each handshake record, on values. */
module DtlsReceiving {
  import opened Basics
  import opened HandshakeWire
  import opened Ranges
  import opened Reassembly

  /** `SSL_MAX_HANDSHAKE_FLIGHT`. */
  const FLIGHT: nat := 7

  /** One place of the ring of incoming messages: the bytes received so far, by position. */
  datatype Slot =
    | Empty
    | Filling(typ: byte, num: nat, msgLen: nat, got: map<nat, byte>)
  {
    /** `reassembly == NULL`. */
    predicate Complete() {
      Filling? && Interval(0, msgLen) <= got.Keys
    }

    function Store(off: nat, body: seq<byte>): (s: Slot)
      requires Filling?
    {
      if Complete() then this
      else this.(got := got + BytesAt(off, body))
    }

    /** The assembled bytes: header and body, as `dtls1_get_message` hands them out. */
    function Assembled(): (m: Message)
      requires Complete()
    {
      Message(typ, seq(msgLen, i requires 0 <= i < msgLen => assert i in Interval(0, msgLen); got[i]))
    }
  }

  datatype Record =
    | HandshakeRecord(payload: seq<byte>)
    | ChangeCipherSpecRecord(payload: seq<byte>)
    | ApplicationDataRecord
    | OtherRecord

  /** The receiving half of `DTLS1_STATE`. */
  datatype View = View(readSeq: nat, slots: seq<Slot>, epoch: nat, nullCipher: bool, hasCcs: bool, hasMessage: bool)
  {
    predicate Ok() {
      && |slots| == FLIGHT
      && forall i | 0 <= i < FLIGHT && slots[i].Filling? ::
           && slots[i].num % FLIGHT == i
           && readSeq <= slots[i].num < readSeq + FLIGHT
           && FitsHeader(slots[i].msgLen, slots[i].num)
           && forall j | j in slots[i].got :: j < slots[i].msgLen
    }
  }

  function Initial(): (v: View)
    ensures v.Ok()
  {
    View(0, [Empty, Empty, Empty, Empty, Empty, Empty, Empty], 0, true, false, false)
  }

  /** The slot that fragment `p` belongs to, as it is before `p` is stored. */
  function SlotFor(v: View, p: Piece): (s: Slot)
    requires v.Ok()
    ensures s.Filling?
  {
    var s := v.slots[p.num % FLIGHT];
    if s.Empty? then Filling(p.typ, p.num, p.msgLen, map[]) else s
  }

  /** The number of `p` is inside the receiver's window. */
  predicate InWindow(v: View, p: Piece) {
    v.readSeq <= p.num < v.readSeq + FLIGHT
  }

  predicate Compatible(s: Slot, p: Piece)
    requires s.Filling?
  {
    s.typ == p.typ && s.msgLen == p.msgLen
  }

  /** One fragment: the body of the loop of `dtls1_read_message`, and `dtls1_get_incoming_message`.
      The flag is false on a fatal return. */
  function AcceptPiece(v: View, p: Piece, maxLen: nat): (r: (View, bool))
    requires v.Ok() && FitsHeader(p.msgLen, p.num)
    ensures r.0.Ok() && r.0 == v.(slots := r.0.slots)
  {
    if p.off > p.msgLen || p.off + |p.body| > p.msgLen || p.msgLen > maxLen then (v, false)
    else if v.epoch == 1 && p.num != v.readSeq then (v, false)
    else if p.num < v.readSeq || p.num > v.readSeq + FLIGHT then (v, true)
    else if !InWindow(v, p) then (v, false)
    else
      var slot := SlotFor(v, p);
      if !Compatible(slot, p) then (v, false)
      else (v.(slots := v.slots[p.num % FLIGHT := slot.Store(p.off, p.body)]), true)
  }

  /** All fragments of a handshake record. Fragments before a fatal one have taken effect. */
  function AcceptPieces(v: View, s: seq<byte>, maxLen: nat): (r: (View, bool))
    requires v.Ok()
    ensures r.0.Ok() && r.0 == v.(slots := r.0.slots)
    decreases |s|
  {
    if s == [] then (v, true)
    else
      match ParsePiece(s)
      case None => (v, false)
      case Some((p, rest)) =>
        var (v', ok) := AcceptPiece(v, p, maxLen);
        if !ok then (v', false) else AcceptPieces(v', rest, maxLen)
  }

  /** `dtls1_read_message` on a record that has been opened. */
  function AcceptRecord(v: View, r: Record, maxLen: nat): (res: (View, bool))
    requires v.Ok()
    ensures res.0.Ok() && res.0.readSeq == v.readSeq
  {
    match r
    case ApplicationDataRecord => (v, !v.nullCipher)
    case ChangeCipherSpecRecord(payload) =>
      if !v.nullCipher || payload != [1] then (v, false) else (v.(hasCcs := true), true)
    case OtherRecord => (v, false)
    case HandshakeRecord(payload) => AcceptPieces(v, payload, maxLen)
  }

  /** `dtls1_get_message`: the current message, if it is complete. */
  function Current(v: View): (m: Option<Message>)
    requires v.Ok()
  {
    var slot := v.slots[v.readSeq % FLIGHT];
    if slot.Complete() then Some(slot.Assembled()) else None
  }

  /** `dtls1_next_message`. */
  function Next(v: View): (v': View)
    requires v.Ok()
    ensures v'.Ok()
  {
    assert forall i | 0 <= i < FLIGHT && i != v.readSeq % FLIGHT && v.slots[i].Filling? :: v.slots[i].num != v.readSeq;
    v.(slots := v.slots[v.readSeq % FLIGHT := Empty], readSeq := v.readSeq + 1, hasMessage := false)
  }

  /** `dtls1_read_change_cipher_spec`, once the records before it have been read. */
  function TakeCcs(v: View): (r: (View, bool))
    requires v.Ok()
    ensures r.0.Ok()
  {
    (v.(hasCcs := false), v.hasCcs)
  }

  /** `dtls_has_incoming_messages`: something is buffered besides the message being handled. */
  predicate HasIncoming(v: View)
    requires v.Ok()
  {
    exists i :: 0 <= i < FLIGHT && !(v.hasMessage && i == v.readSeq % FLIGHT) && v.slots[i].Filling?
  }

  /** `dtls1_set_read_state`. */
  function ChangeReadState(v: View): (r: (View, bool))
    requires v.Ok()
    ensures r.0.Ok()
  {
    if HasIncoming(v) || v.hasCcs then (v, false)
    else (v.(epoch := (v.epoch + 1) % 0x1_0000, nullCipher := false), true)
  }
}

/** The receiver as it updates its ring in place. */
module DtlsReceiver {
  import opened Basics
  import opened HandshakeWire
  import opened Reassembly
  import opened DtlsReceiving

  /** The abstract value of an incoming message. */
  ghost function SlotView(f: Fragment?): (s: Slot)
    reads f
  {
    if f == null then Empty else Filling(f.typ, f.num, f.msgLen, f.got)
  }

  class Receiver {
    const maxLen: nat
    var readSeq: nat
    var incoming: seq<Fragment?>
    var epoch: nat
    var nullCipher: bool
    var hasCcs: bool
    var hasMessage: bool
    /** The abstract state, the objects of each slot, and all objects of the receiver. */
    ghost var view: View
    ghost var cells: seq<set<object>>
    ghost var Repr: set<object>

    /** The objects of a slot are in its cell, and its abstract value is `slot`. */
    ghost predicate SlotOk(f: Fragment?, cell: set<object>, slot: Slot)
      reads f, cell
    {
      && (f != null ==>
            f in cell && f.data in cell && (f.reassembly != null ==> f.reassembly in cell) && f.Valid())
      && slot == SlotView(f)
    }

    ghost predicate Valid()
      reads this, Repr
    {
      && this in Repr
      && view.Ok() && |incoming| == |cells| == FLIGHT
      && view == View(readSeq, view.slots, epoch, nullCipher, hasCcs, hasMessage)
      && (forall i | 0 <= i < FLIGHT :: cells[i] <= Repr && this !in cells[i])
      && (forall i, j | 0 <= i < j < FLIGHT :: cells[i] !! cells[j])
      && (forall i | 0 <= i < FLIGHT && incoming[i] != null :: incoming[i] in cells[i])
      && (forall i | 0 <= i < FLIGHT :: SlotOk(incoming[i], cells[i], view.slots[i]))
    }

    constructor (maxLen: nat)
      ensures Valid() && fresh(Repr) && this.maxLen == maxLen
      ensures view == Initial()
    {
      this.maxLen := maxLen;
      readSeq, epoch, nullCipher, hasCcs, hasMessage := 0, 0, true, false, false;
      incoming := seq(FLIGHT, _ => null);
      view := Initial();
      cells := seq(FLIGHT, _ => {});
      Repr := {this};
    }

    /** `dtls1_get_incoming_message`: the slot of message `p.num`, newly filled in if it was empty, or null if
        the number is outside the window or `p` contradicts what is there. The assertion that the slot holds
        the right message number never fails. */
    method GetIncoming(p: Piece) returns (f: Fragment?)
      requires Valid() && FitsHeader(p.msgLen, p.num)
      modifies this`incoming, this`cells, this`Repr, this`view
      ensures Valid() && fresh(Repr - old(Repr))
      ensures f != null <==> InWindow(old(view), p) && Compatible(SlotFor(old(view), p), p)
      ensures f != null ==> f == incoming[p.num % FLIGHT]
      ensures if f == null then view == old(view)
              else view == old(view).(slots := old(view).slots[p.num % FLIGHT := SlotFor(old(view), p)])
    {
      if p.num < readSeq || p.num - readSeq >= FLIGHT {
        return null;
      }
      var i := p.num % FLIGHT;
      f := incoming[i];
      if f != null {
        assert f.num == p.num;
        assert old(view).slots == old(view).slots[i := SlotFor(old(view), p)];
        if f.typ != p.typ || f.msgLen != p.msgLen {
          f := null;
        }
        return;
      }
      f := NewIncoming(p);
    }

    /** The first fragment of a message: a new entry in its slot. */
    method NewIncoming(p: Piece) returns (f: Fragment)
      requires Valid() && FitsHeader(p.msgLen, p.num) && readSeq <= p.num < readSeq + FLIGHT
      requires incoming[p.num % FLIGHT] == null
      modifies this`incoming, this`cells, this`Repr, this`view
      ensures Valid() && fresh(Repr - old(Repr))
      ensures view == old(view).(slots := old(view).slots[p.num % FLIGHT := Filling(p.typ, p.num, p.msgLen, map[])])
      ensures f == incoming[p.num % FLIGHT]
    {
      f := new Fragment(p.typ, p.num, p.msgLen);
      ghost var cell: set<object> := {f, f.data} + if f.reassembly != null then {f.reassembly} else {};
      Place(p.num % FLIGHT, f, cell);
    }

    /** An empty slot gets a message whose objects are not the receiver's yet. */
    method Place(i: nat, f: Fragment, ghost cell: set<object>)
      requires Valid() && i < FLIGHT && incoming[i] == null && cell !! Repr && SlotOk(f, cell, SlotView(f))
      requires view.(slots := view.slots[i := SlotView(f)]).Ok()
      modifies this`incoming, this`cells, this`Repr, this`view
      ensures Valid() && Repr == old(Repr) + cell
      ensures view == old(view).(slots := old(view).slots[i := SlotView(f)])
      ensures f == incoming[i]
    {
      incoming := incoming[i := f];
      cells := cells[i := cell];
      Repr := Repr + cell;
      view := view.(slots := view.slots[i := SlotView(f)]);
    }

    /** Storing into one slot leaves the others alone. */
    method StoreInSlot(i: nat, off: nat, body: seq<byte>)
      requires Valid() && i < FLIGHT && incoming[i] != null && off + |body| <= incoming[i].msgLen
      modifies incoming[i], incoming[i].data, incoming[i].reassembly, this`view
      ensures Valid()
      ensures view == old(view).(slots := old(view).slots[i := old(view).slots[i].Store(off, body)])
    {
      assert SlotOk(incoming[i], cells[i], view.slots[i]);
      incoming[i].Store(off, body);
      assert forall j | 0 <= j < FLIGHT && j != i :: SlotOk(incoming[j], cells[j], view.slots[j]);
      assert SlotOk(incoming[i], cells[i], view.slots[i].Store(off, body));
      view := view.(slots := view.slots[i := view.slots[i].Store(off, body)]);
    }

    /** One pass of the loop of `dtls1_read_message`. */
    method Accept(p: Piece) returns (ok: bool)
      requires Valid() && FitsHeader(p.msgLen, p.num)
      modifies Repr
      ensures Valid() && fresh(Repr - old(Repr))
      ensures (view, ok) == AcceptPiece(old(view), p, maxLen)
    {
      if p.off > p.msgLen || p.off + |p.body| > p.msgLen || p.msgLen > maxLen {
        return false;
      }
      if epoch == 1 && p.num != readSeq {
        return false;
      }
      if p.num < readSeq || p.num > readSeq + FLIGHT {
        return true;
      }
      var f := GetIncoming(p);
      if f == null {
        return false;
      }
      StoreInSlot(p.num % FLIGHT, p.off, p.body);
      assert view.slots == old(view).slots[p.num % FLIGHT := SlotFor(old(view), p).Store(p.off, p.body)];
      return true;
    }

    /** `dtls1_read_message` on an opened record. */
    method ReadMessage(r: Record) returns (ok: bool)
      requires Valid()
      modifies Repr
      ensures Valid() && fresh(Repr - old(Repr))
      ensures (view, ok) == AcceptRecord(old(view), r, maxLen)
    {
      match r
      case ApplicationDataRecord =>
        return !nullCipher;
      case OtherRecord =>
        return false;
      case ChangeCipherSpecRecord(payload) =>
        if !nullCipher || payload != [1] {
          return false;
        }
        hasCcs := true;
        view := view.(hasCcs := true);
        return true;
      case HandshakeRecord(payload) =>
        ok := ReadPieces(payload);
    }

    /** The loop of `dtls1_read_message` over the fragments of a handshake record. */
    method ReadPieces(payload: seq<byte>) returns (ok: bool)
      requires Valid()
      modifies Repr
      ensures Valid() && fresh(Repr - old(Repr))
      ensures (view, ok) == AcceptPieces(old(view), payload, maxLen)
    {
      var rest := payload;
      while rest != []
        invariant Valid() && fresh(Repr - old(Repr))
        invariant AcceptPieces(view, rest, maxLen) == AcceptPieces(old(view), payload, maxLen)
        decreases |rest|
      {
        var parsed := ParsePiece(rest);
        if parsed.None? {
          return false;
        }
        ok := Accept(parsed.value.0);
        if !ok {
          return;
        }
        rest := parsed.value.1;
      }
      return true;
    }

    /** `dtls1_get_message`: the current message, if it is complete. */
    method GetMessage() returns (m: Option<Message>)
      requires Valid()
      modifies this`hasMessage, this`view
      ensures Valid()
      ensures m == Current(old(view))
      ensures view == old(view).(hasMessage := if m.Some? then true else old(view).hasMessage)
    {
      var f := incoming[readSeq % FLIGHT];
      if f == null || f.reassembly != null {
        return None;
      }
      ghost var slot := view.slots[readSeq % FLIGHT];
      m := Some(Message(f.typ, f.data[..]));
      assert slot.Assembled().body == f.data[..];
      hasMessage := true;
      view := view.(hasMessage := true);
    }

    /** `dtls1_next_message`. */
    method NextMessage()
      requires Valid() && hasMessage && Current(view).Some?
      modifies this
      ensures Valid() && Repr == old(Repr)
      ensures view == Next(old(view))
    {
      incoming := incoming[readSeq % FLIGHT := null];
      readSeq := readSeq + 1;
      hasMessage := false;
      view := Next(view);
    }

    /** `dtls1_read_change_cipher_spec`: whether a ChangeCipherSpec has been read, which is then used up. If not,
        the caller reads more records first. */
    method ReadChangeCipherSpec() returns (ok: bool)
      requires Valid()
      modifies this`hasCcs, this`view
      ensures Valid()
      ensures (view, ok) == TakeCcs(old(view))
    {
      ok := hasCcs;
      hasCcs := false;
      view := view.(hasCcs := false);
    }

    /** `dtls1_set_read_state`, with the scan of `dtls_has_incoming_messages`. */
    method SetReadState() returns (ok: bool)
      requires Valid()
      modifies this`epoch, this`nullCipher, this`view
      ensures Valid()
      ensures (view, ok) == ChangeReadState(old(view))
    {
      var current := readSeq % FLIGHT;
      for i := 0 to FLIGHT
        invariant forall j | 0 <= j < i && !(hasMessage && j == current) :: view.slots[j].Empty?
      {
        if !(hasMessage && i == current) && incoming[i] != null {
          assert view.slots[i].Filling?;
          return false;
        }
      }
      if hasCcs {
        return false;
      }
      epoch := (epoch + 1) % 0x1_0000;
      nullCipher := false;
      view := view.(epoch := epoch, nullCipher := false);
      return true;
    }
  }
}
