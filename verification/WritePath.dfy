/** The TLS write path: the write buffer, the pending flight and the retry bookkeeping over a transport that
    may take part of what it is given, or nothing. */
module WritePath {
  import opened Basics

  datatype RecordType = Handshake | ChangeCipherSpec | Alert | ApplicationData

  /** `SSL3_RT_MAX_PLAIN_LENGTH`, and the bound on the capacity of a buffer. */
  const MAX_PLAIN: nat := 16384
  const MAX_CAPACITY: nat := 0xffff
  const INT_MAX: nat := 0x7fff_ffff

  class Connection {
    /** Configuration: the longest plaintext of a record, what sealing may add, and two modes. */
    const maxSendFragment: nat
    const overhead: nat
    const partialWrites: bool
    const movingBuffer: bool

    /** `write_buffer`: the memory, if any, and the window of it that is still to be written. */
    var buf: Option<seq<byte>>
    var offset: nat
    var len: nat
    var cap: nat

    /** `pending_flight` and `pending_flight_offset`. */
    var flight: Option<seq<byte>>
    var flightOffset: nat

    /** The bookkeeping of interrupted writes. */
    var wnum: nat
    var wpendPending: bool
    var wpendTot: nat
    var wpendRet: nat
    var wpendPtr: int
    var wpendType: RecordType

    /** What has reached the transport; every sealed record, in the order of sealing; the application and
        handshake bytes sealed, and the plaintext of each record; how often sealing has failed, and how often the
        transport has refused to write or to flush. */
    ghost var wire: seq<byte>
    ghost var sealed: seq<byte>
    ghost var appPlain: seq<byte>
    ghost var handshakePlain: seq<byte>
    ghost var records: seq<(RecordType, seq<byte>)>
    ghost var failures: nat
    ghost var refusals: nat

    ghost function Unsent(): seq<byte>
      requires BufferOk()
      reads `buf, `offset, `len, `cap
    {
      if buf.None? then [] else buf.value[offset..offset + len]
    }

    ghost function FlightRest(): seq<byte>
      requires FlightOk()
      reads `flight, `flightOffset
    {
      if flight.None? then [] else flight.value[flightOffset..]
    }

    ghost predicate BufferOk()
      reads `buf, `offset, `len, `cap
    {
      len <= cap <= MAX_CAPACITY && match buf case None => len == cap == 0 case Some(b) => offset + cap <= |b|
    }

    ghost predicate FlightOk()
      reads `flight, `flightOffset
    {
      match flight case None => flightOffset == 0 case Some(f) => flightOffset <= |f|
    }

    ghost predicate PendingOk()
      reads `wpendPending, `wpendRet, `wpendTot
    {
      wpendPending ==> wpendRet == wpendTot > 0
    }

    /** Nothing is lost, repeated or reordered: the wire, then the write buffer, then the rest of the flight
        are all that has been sealed. */
    ghost predicate Valid()
      reads this
    {
      && BufferOk() && FlightOk() && PendingOk() && maxSendFragment > 0
      && (failures == 0 ==> wire + Unsent() + FlightRest() == sealed)
    }

    constructor (maxSendFragment: nat, overhead: nat, partialWrites: bool, movingBuffer: bool)
      requires maxSendFragment > 0
      ensures Valid() && wire == sealed == appPlain == handshakePlain == [] && records == [] && failures == refusals == 0
      ensures wnum == 0 && !wpendPending
    {
      this.maxSendFragment, this.overhead := maxSendFragment, overhead;
      this.partialWrites, this.movingBuffer := partialWrites, movingBuffer;
      buf, offset, len, cap := None, 0, 0, 0;
      flight, flightOffset := None, 0;
      wnum, wpendPending, wpendTot, wpendRet, wpendPtr, wpendType := 0, false, 0, 0, 0, ApplicationData;
      wire, sealed, appPlain, handshakePlain, records, failures, refusals := [], [], [], [], [], 0, 0;
    }

    /** How much of the application data given to the last interrupted write is sealed but not yet reported. */
    ghost function Unreported(): nat
      reads `wpendPending, `wpendType, `wpendRet
    {
      if wpendPending && wpendType == ApplicationData then wpendRet else 0
    }

    /** How much of the data of an interrupted write is sealed. */
    ghost function Resume(): nat
      reads `wnum, `wpendPending, `wpendType, `wpendRet
    {
      wnum + Unreported()
    }

    /** `tls_seal_record`: how the cipher fares and what it gives are not known here, except the length. */
    method Seal(kind: RecordType, plain: seq<byte>) returns (ok: bool, out: seq<byte>)
      modifies `sealed, `appPlain, `handshakePlain, `records, `failures
      ensures |out| <= |plain| + overhead
      ensures failures == old(failures) + if ok then 0 else 1
      ensures sealed == old(sealed) + Only(ok, out)
      ensures records == old(records) + if ok then [(kind, plain)] else []
      ensures ok ==> appPlain == old(appPlain) + Only(kind == ApplicationData, plain)
      ensures ok ==> handshakePlain == old(handshakePlain) + Only(kind == Handshake, plain)
      ensures !ok ==> appPlain == old(appPlain) && handshakePlain == old(handshakePlain)
    {
      ok, out := *, *;
      if |out| > |plain| + overhead {
        out := out[..|plain| + overhead];
      }
      if ok {
        sealed := sealed + out;
        records := records + [(kind, plain)];
        appPlain := appPlain + Only(kind == ApplicationData, plain);
        handshakePlain := handshakePlain + Only(kind == Handshake, plain);
      } else {
        failures := failures + 1;
      }
    }

    /** `BIO_write`: an error or a retry, or the number of bytes taken. */
    method BioWrite(data: seq<byte>) returns (ret: int)
      requires data != []
      modifies `refusals
      ensures ret <= |data| && refusals == old(refusals) + if ret <= 0 then 1 else 0
    {
      ret := *;
      if ret > |data| {
        ret := |data|;
      }
      if ret <= 0 {
        refusals := refusals + 1;
      }
    }

    /** `consume_buffer` after a write of `n` bytes. */
    method Consume(n: nat)
      requires Valid() && n <= len
      modifies `offset, `len, `cap, `wire
      ensures Valid() && len == old(len) - n && buf == old(buf)
      ensures old(buf).Some? ==> wire == old(wire) + old(Unsent())[..n]
    {
      ghost var rest := Unsent();
      ghost var written := wire;
      offset, len, cap, wire := offset + n, len - n, cap - n, wire + rest[..n];
      assert rest == rest[..n] + Unsent();
      assert wire + Unsent() == written + rest;
    }

    /** `tls_write_buffer_flush`. */
    method FlushBuffer() returns (ret: int)
      requires Valid()
      modifies `buf, `offset, `len, `cap, `wire, `refusals
      ensures Valid() && old(wire) <= wire
      ensures ret > 0 ==> buf.None? && ret == 1
      ensures refusals == old(refusals) + if ret <= 0 then 1 else 0
    {
      while len > 0
        invariant Valid() && old(wire) <= wire && refusals == old(refusals)
        decreases len
      {
        ret := BioWrite(buf.value[offset..offset + len]);
        if ret <= 0 {
          return;
        }
        Consume(ret);
      }
      assert Unsent() == [];
      buf, offset, len, cap := None, 0, 0, 0;
      return 1;
    }

    /** `add_record_to_flight`. Its caller never adds to a flight that is being written out. */
    method AddRecord(kind: RecordType, plain: seq<byte>) returns (ok: bool)
      requires Valid() && flightOffset == 0
      modifies `flight, `sealed, `appPlain, `handshakePlain, `records, `failures
      ensures Valid()
      ensures failures == old(failures) + if ok then 0 else 1
      ensures records == old(records) + if ok then [(kind, plain)] else []
      ensures ok ==> appPlain == old(appPlain) + Only(kind == ApplicationData, plain)
      ensures ok ==> handshakePlain == old(handshakePlain) + Only(kind == Handshake, plain)
      ensures !ok ==> appPlain == old(appPlain) && handshakePlain == old(handshakePlain)
    {
      if flight.None? {
        flight := Some([]);
      }
      var out;
      ok, out := Seal(kind, plain);
      if ok {
        AppendToFlight(out);
      }
    }

    method AppendToFlight(out: seq<byte>)
      requires BufferOk() && FlightOk() && PendingOk() && maxSendFragment > 0 && flight.Some? && flightOffset == 0
      requires failures == 0 ==> wire + Unsent() + FlightRest() + out == sealed
      modifies `flight
      ensures Valid() && flight.Some?
    {
      ghost var was := FlightRest();
      flight := Some(flight.value + out);
      assert FlightRest() == was + out;
      assert wire + Unsent() + (was + out) == wire + Unsent() + was + out;
    }

    /** `ssl3_add_message`: the message is cut into records of the greatest length, and all of it is sealed. */
    method AddMessage(msg: seq<byte>) returns (ok: bool)
      requires Valid() && flightOffset == 0
      modifies `flight, `sealed, `appPlain, `handshakePlain, `records, `failures
      ensures Valid() && appPlain == old(appPlain)
      ensures failures == old(failures) + if ok then 0 else 1
      ensures ok ==> handshakePlain == old(handshakePlain) + msg
      ensures exists k: nat, end: nat ::
        IsCut(old(records), records, Handshake, msg, 0, k, end, maxSendFragment) && (ok ==> k > 0 && end == |msg|)
    {
      CutStarts(records, Handshake, msg, 0, maxSendFragment);
      var done: nat := 0;
      ghost var k: nat := 0;
      ok, done, k := AddPart(msg, done, old(records), k);
      while ok && done < |msg|
        invariant Valid() && done <= |msg| && appPlain == old(appPlain)
        invariant failures == old(failures) + if ok then 0 else 1
        invariant IsCut(old(records), records, Handshake, msg, 0, k, done, maxSendFragment)
        invariant ok ==> k > 0 && handshakePlain == old(handshakePlain) + msg[..done]
        decreases |msg| - done, ok
      {
        ok, done, k := AddPart(msg, done, old(records), k);
      }
      assert msg[..|msg|] == msg;
    }

    /** One turn of the loop in `ssl3_add_message`: the next record of the message, which comes after `done` bytes. */
    method AddPart(msg: seq<byte>, done: nat, ghost start: seq<(RecordType, seq<byte>)>, ghost k: nat)
      returns (ok: bool, done': nat, ghost k': nat)
      requires Valid() && flightOffset == 0 && done <= |msg|
      requires IsCut(start, records, Handshake, msg, 0, k, done, maxSendFragment)
      modifies `flight, `sealed, `appPlain, `handshakePlain, `records, `failures
      ensures Valid() && appPlain == old(appPlain) && failures == old(failures) + if ok then 0 else 1
      ensures IsCut(start, records, Handshake, msg, 0, k', done', maxSendFragment)
      ensures if ok then k' == k + 1 && done' == Smaller(done + maxSendFragment, |msg|) else done' == done
      ensures ok ==> forall plain :: old(handshakePlain) == plain + msg[..done] ==> handshakePlain == plain + msg[..done']
    {
      var end := Smaller(done + maxSendFragment, |msg|);
      CutGrows(start, records, Handshake, msg, 0, k, done, maxSendFragment);
      assert msg[..end] == msg[..done] + msg[done..end];
      ok := AddRecord(Handshake, msg[done..end]);
      if ok {
        return ok, end, k + 1;
      }
      return ok, done, k;
    }

    /** Progress of `ssl3_flush_flight` after a write of `n` bytes. */
    method ConsumeFlight(n: nat)
      requires Valid() && len == 0 && flight.Some? && flightOffset + n <= |flight.value|
      modifies `flightOffset, `wire
      ensures Valid() && flightOffset == old(flightOffset) + n && wire == old(wire) + old(FlightRest())[..n]
    {
      assert Unsent() == [];
      ghost var written := wire;
      ghost var rest := FlightRest();
      flightOffset, wire := flightOffset + n, wire + rest[..n];
      assert rest == rest[..n] + FlightRest();
      assert wire + FlightRest() == written + rest;
    }

    /** `ssl3_flush_flight`: what the write buffer holds goes first. */
    method FlushFlight() returns (ret: int)
      requires Valid()
      modifies `buf, `offset, `len, `cap, `flight, `flightOffset, `wire, `refusals
      ensures Valid() && old(wire) <= wire
      ensures ret > 0 ==> flight.None? && flightOffset == 0
      ensures refusals == old(refusals) + if ret > 0 || (old(flight).Some? && |old(flight).value| > INT_MAX) then 0 else 1
      ensures ret > 0 && old(flight).Some? && failures == 0 ==> wire == sealed
    {
      if flight.None? {
        return 1;
      }
      if |flight.value| > INT_MAX {
        return -1;
      }
      if len > 0 {
        ret := FlushBuffer();
        if ret <= 0 {
          return;
        }
      }
      ret := FlushRest();
      if ret <= 0 {
        return;
      }
      assert FlightRest() == [];
      flight, flightOffset := None, 0;
      return 1;
    }

    /** The loop of `ssl3_flush_flight`, and the flush of the transport. */
    method FlushRest() returns (ret: int)
      requires Valid() && flight.Some? && len == 0
      modifies `flightOffset, `wire, `refusals
      ensures Valid() && old(wire) <= wire
      ensures ret > 0 ==> flightOffset == |flight.value|
      ensures refusals == old(refusals) + if ret > 0 then 0 else 1
    {
      while flightOffset < |flight.value|
        invariant Valid() && old(wire) <= wire && refusals == old(refusals)
        decreases |flight.value| - flightOffset
      {
        ret := BioWrite(flight.value[flightOffset..]);
        if ret <= 0 {
          return;
        }
        ConsumeFlight(ret);
      }
      var flushed: bool := *;
      if !flushed {
        refusals := refusals + 1;
        return -1;
      }
      return 1;
    }

    /** A retry that does not match the interrupted write. */
    ghost predicate Mismatch(kind: RecordType, data: seq<byte>, ptr: int)
      reads `wpendTot, `wpendPtr, `wpendType
    {
      wpendTot > |data| || (!movingBuffer && wpendPtr != ptr) || wpendType != kind
    }

    /** `ssl3_write_pending`. */
    method WritePending(kind: RecordType, data: seq<byte>, ptr: int) returns (ret: int)
      requires Valid() && wpendPending
      modifies `buf, `offset, `len, `cap, `wire, `wpendPending, `refusals
      ensures Valid() && old(wire) <= wire
      ensures ret <= 0 ==> refusals == old(refusals) + if old(Mismatch(kind, data, ptr)) then 0 else 1
      ensures ret > 0 ==> refusals == old(refusals) && !old(Mismatch(kind, data, ptr))
      ensures ret > 0 ==> ret == wpendRet <= |data| && kind == wpendType && !wpendPending && buf.None?
      ensures ret <= 0 ==> wpendPending
    {
      if wpendTot > |data| || (!movingBuffer && wpendPtr != ptr) || wpendType != kind {
        return -1;
      }
      ret := FlushBuffer();
      if ret <= 0 {
        return;
      }
      wpendPending := false;
      return wpendRet;
    }

    /** `ssl_write_buffer_init`: the alignment of the memory it gets is not known. */
    method InitBuffer(maxLen: nat) returns (ok: bool)
      requires Valid() && maxLen > 0
      modifies `buf, `offset, `cap
      ensures Valid() && Unsent() == old(Unsent())
      ensures ok == (old(buf).None? && maxLen <= MAX_CAPACITY)
      ensures !ok ==> unchanged(this)
      ensures ok ==> buf.Some? && cap == maxLen && len == 0
    {
      if buf.Some? || maxLen > MAX_CAPACITY {
        return false;
      }
      var pad: nat := *;
      buf, offset, cap := Some(seq(maxLen + 7, _ => 0)), pad % 8, maxLen;
      return true;
    }

    /** The copies into the buffer, and `ssl_write_buffer_set_len`. */
    method FillBuffer(prefix: seq<byte>, out: seq<byte>)
      requires BufferOk() && FlightOk() && PendingOk() && maxSendFragment > 0
      requires buf.Some? && flight.None? && |prefix| + |out| <= cap
      requires failures == 0 ==> wire + prefix + out == sealed
      modifies `buf, `len
      ensures Valid() && buf.Some?
    {
      buf, len := Some(Overwrite(buf.value, offset, prefix + out)), |prefix| + |out|;
      assert Unsent() == prefix + out;
      assert wire + (prefix + out) + [] == wire + prefix + out;
    }

    /** There is room to stage a record with `n` bytes of plaintext: no buffer is held, and one that takes the rest of
        the flight and the record has a legal capacity. */
    ghost predicate Room(n: nat)
      requires FlightOk()
      reads `buf, `flight, `flightOffset
    {
      buf.None? && |FlightRest()| + n + overhead <= MAX_CAPACITY
    }

    /** The middle of `do_ssl3_write`: the rest of the flight and a new record become the write buffer. */
    method Stage(kind: RecordType, data: seq<byte>) returns (ok: bool)
      requires Valid() && data != []
      modifies `buf, `offset, `len, `cap, `flight, `flightOffset, `sealed, `appPlain, `handshakePlain, `records, `failures
      ensures Valid()
      ensures ok ==> appPlain == old(appPlain) + Only(kind == ApplicationData, data) && flight.None?
      ensures ok ==> handshakePlain == old(handshakePlain) + Only(kind == Handshake, data)
      ensures !ok ==> appPlain == old(appPlain) && handshakePlain == old(handshakePlain)
      ensures records == old(records) + if ok then [(kind, data)] else []
      ensures failures == old(failures) + if !ok && old(Room(|data|)) then 1 else 0
      ensures !old(Room(|data|)) ==> !ok && unchanged(this)
    {
      ghost var before := wire + Unsent();
      var prefix := if flight.None? then [] else flight.value[flightOffset..];
      ok := InitBuffer(|prefix| + |data| + overhead);
      if !ok {
        return;
      }
      assert before == wire;
      flight, flightOffset := None, 0;
      var out;
      ok, out := Seal(kind, data);
      if !ok {
        return;
      }
      FillBuffer(prefix, out);
    }

    /** The rest of `do_ssl3_write` up to the writing: the arguments are memorised. */
    method Start(kind: RecordType, data: seq<byte>, ptr: int) returns (ok: bool)
      requires Valid() && data != [] && !wpendPending
      modifies this
      ensures Valid() && wire == old(wire) && wnum == old(wnum)
      ensures ok ==> wpendPending && wpendType == kind && wpendRet == |data|
      ensures ok ==> appPlain == old(appPlain) + Only(kind == ApplicationData, data)
      ensures !ok ==> !wpendPending && appPlain == old(appPlain)
      ensures ok ==> wpendTot == |data| && wpendPtr == ptr && flight.None?
      ensures records == old(records) + (if ok then [(kind, data)] else []) && refusals == old(refusals)
      ensures ok ==> old(Room(|data|))
      ensures failures == old(failures) + if !ok && old(Room(|data|)) then 1 else 0
    {
      ok := Stage(kind, data);
      if ok {
        Remember(kind, |data|, ptr);
      }
    }

    method Remember(kind: RecordType, n: nat, ptr: int)
      requires Valid() && n > 0
      modifies `wpendTot, `wpendPtr, `wpendType, `wpendRet, `wpendPending
      ensures Valid() && wpendPending && wpendType == kind && wpendRet == wpendTot == n && wpendPtr == ptr
    {
      wpendTot, wpendPtr, wpendType, wpendRet, wpendPending := n, ptr, kind, n, true;
    }

    /** A write of `data` goes as far as to seal a record. */
    ghost predicate Seals(data: seq<byte>)
      requires FlightOk()
      reads `buf, `flight, `flightOffset, `wpendPending
    {
      !wpendPending && 0 < |data| <= MAX_PLAIN && Room(|data|)
    }

    /** `do_ssl3_write`. For application data: a positive result says how much of `data` is now sealed and
        reported; otherwise nothing more was sealed, or all of `data` was, and that is remembered. A seal has failed
        exactly when one was due, and the call has failed with no write pending. */
    method DoWrite(kind: RecordType, data: seq<byte>, ptr: int) returns (ret: int)
      requires Valid()
      modifies this
      ensures Valid() && old(wire) <= wire && wnum == old(wnum)
      ensures failures == old(failures) + if old(Seals(data)) && ret == -1 && !wpendPending then 1 else 0
      ensures records == old(records) + if old(Seals(data)) && failures == old(failures) then [(kind, data)] else []
      ensures old(Seals(data)) && ret <= 0 ==> failures > old(failures) || (wpendPending && refusals == old(refusals) + 1)
      ensures old(Seals(data)) && ret > 0 ==> flight.None? && ret == |data|
      ensures !old(Seals(data)) && ret > 0 ==> old(wpendPending) && old(wpendType) == kind && ret == old(wpendRet)
      ensures kind == ApplicationData && ret <= 0 ==>
        Unreported() == if old(Seals(data)) && failures == old(failures) then |data| else old(Unreported())
      ensures ret > 0 ==> ret <= |data| && buf.None? && !wpendPending && refusals == old(refusals)
      ensures kind != ApplicationData ==> appPlain == old(appPlain) && Unreported() == old(Unreported())
      ensures kind == ApplicationData && ret > 0 ==>
        && Unreported() == 0
        && ret == (if old(Unreported()) > 0 then old(Unreported()) else |data|)
        && appPlain == old(appPlain) + Only(old(Unreported()) == 0, data)
      ensures kind == ApplicationData && ret <= 0 ==>
        || (Unreported() == old(Unreported()) && appPlain == old(appPlain))
        || (old(Unreported()) == 0 && Unreported() == |data| && appPlain == old(appPlain) + data)
    {
      if wpendPending {
        ret := WritePending(kind, data, ptr);
        return;
      }
      if |data| > MAX_PLAIN {
        return -1;
      }
      if |data| == 0 {
        return 0;
      }
      var ok := Start(kind, data, ptr);
      if !ok {
        return -1;
      }
      ret := WritePending(kind, data, ptr);
    }

    /** A write of `data` is under way: its first `done` bytes have been written and the next `Unreported()` are
        sealed, on top of what was sealed `before`. */
    ghost predicate Writing(data: seq<byte>, before: seq<byte>, done: nat)
      reads `wpendPending, `wpendType, `wpendRet, `appPlain
    {
      done + Unreported() <= |data| && appPlain == before + data[..done + Unreported()]
    }

    /** Since there were `before` records and `unreported` bytes not reported after `tot`, either nothing was sealed, or one
        record with as much of `data` from `tot` on as goes into one. Now the first `now` bytes have been reported. */
    ghost predicate Sealed(before: seq<(RecordType, seq<byte>)>, unreported: nat, data: seq<byte>, tot: nat, now: nat)
      requires tot <= |data|
      reads `records, `wpendPending, `wpendType, `wpendRet
    {
      var end := Smaller(tot + maxSendFragment, |data|);
      || (records == before && now + Unreported() == tot + unreported)
      || (unreported == 0 && records == before + [(ApplicationData, data[tot..end])] && now + Unreported() == end)
    }

    /** One turn of the loop in `ssl3_write_app_data`. */
    method WriteChunk(data: seq<byte>, tot: nat, ptr: int, ghost before: seq<byte>) returns (ret: int)
      requires Valid() && tot <= |data|
      modifies this
      ensures Valid() && old(wire) <= wire && wnum == old(wnum) && ret <= |data| - tot
      ensures failures == old(failures) || (failures == old(failures) + 1 && ret == -1 && !wpendPending)
      ensures Sealed(old(records), old(Unreported()), data, tot, if ret > 0 then tot + ret else tot)
      ensures old(Seals(data[tot..Smaller(tot + maxSendFragment, |data|)])) ==>
        if ret > 0 then flight.None? else failures > old(failures) || (wpendPending && refusals == old(refusals) + 1)
      ensures ret > 0 ==> Unreported() == 0 && buf.None? && !wpendPending && refusals == old(refusals)
      ensures old(Writing(data, before, tot)) ==> Writing(data, before, if ret > 0 then tot + ret else tot)
    {
      var n := |data| - tot;
      var nw := if n > maxSendFragment then maxSendFragment else n;
      var chunk := data[tot..tot + nw];
      assert data[..tot + nw] == data[..tot] + chunk;
      assert before + data[..tot] + chunk == before + (data[..tot] + chunk);
      ret := DoWrite(ApplicationData, chunk, ptr + tot);
    }

    /** Nothing stands in the way of a write but the transport and the cipher: no write is pending, and there is room for a
        record of the greatest length. */
    ghost predicate Open()
      requires FlightOk()
      reads `buf, `flight, `flightOffset, `wpendPending
    {
      !wpendPending && maxSendFragment <= MAX_PLAIN && Room(maxSendFragment)
    }

    /** `ssl3_write_app_data` without early data. */
    method WriteAppData(data: seq<byte>, ptr: int, ghost before: seq<byte>) returns (ret: int)
      requires Valid()
      modifies this
      ensures Valid() && old(wire) <= wire && ret <= |data|
      ensures failures == old(failures) || (failures == old(failures) + 1 && ret == -1 && !wpendPending)
      ensures exists k: nat, end: nat ::
        IsCut(old(records), records, ApplicationData, data, old(Resume()), k, end, maxSendFragment) && (ret > 0 ==> ret == end)
      ensures old(Open()) && old(wnum) < |data| && ret <= 0 ==>
        failures > old(failures) || (wpendPending && refusals == old(refusals) + 1)
      ensures |data| < old(wnum) ==> ret == -1 && wnum == 0 && appPlain == old(appPlain)
      ensures ret > 0 ==> wnum == 0 && Unreported() == 0 && buf.None? && (partialWrites || ret == |data|)
      ensures old(Writing(data, before, wnum)) ==> Writing(data, before, if ret > 0 then ret else wnum)
    {
      var tot: nat := wnum;
      ghost var (a: nat, k: nat) := (Resume(), 0);
      ghost var end: nat := a;
      wnum := 0;
      CutStarts(records, ApplicationData, data, a, maxSendFragment);
      if |data| < tot {
        ret := -1;
      } else {
        ret, tot, k, end := WriteLoop(data, tot, ptr, before, old(records), a);
        if ret <= 0 {
          wnum := tot;
        }
      }
      assert IsCut(old(records), records, ApplicationData, data, old(Resume()), k, end, maxSendFragment);
    }

    /** The loop in `ssl3_write_app_data`, from `start` on. */
    method WriteLoop(data: seq<byte>, from: nat, ptr: int, ghost before: seq<byte>, ghost start: seq<(RecordType, seq<byte>)>,
                     ghost a: nat) returns (ret: int, tot: nat, ghost k: nat, ghost end: nat)
      requires Valid() && from <= |data| && wnum == 0 && Underway(start, data, from, a, 0, a)
      modifies this
      ensures Valid() && old(wire) <= wire && wnum == 0 && tot <= |data| && ret <= |data|
      ensures Underway(start, data, if ret > 0 then ret else tot, a, k, end)
      ensures failures == old(failures) || (failures == old(failures) + 1 && ret == -1 && !wpendPending)
      ensures ret > 0 ==> Unreported() == 0 && buf.None? && (partialWrites || ret == |data|)
      ensures old(Open()) && from < |data| && ret <= 0 ==>
        failures > old(failures) || (wpendPending && refusals == old(refusals) + 1)
      ensures old(Writing(data, before, from)) ==> Writing(data, before, if ret > 0 then ret else tot)
    {
      tot, k, end := from, 0, a;
      while true
        invariant Valid() && old(wire) <= wire && wnum == 0 && tot <= |data| && failures == old(failures)
        invariant Underway(start, data, tot, a, k, end)
        invariant old(Open()) && from < |data| ==> Open() && tot < |data| && refusals == old(refusals)
        invariant old(Writing(data, before, from)) ==> Writing(data, before, tot)
        decreases |data| - tot
      {
        ret, k, end := WriteTurn(data, tot, ptr, before, start, a, k, end);
        if ret <= 0 {
          return;
        }
        if ret == |data| - tot || partialWrites {
          ret := tot + ret;
          return;
        }
        tot := tot + ret;
      }
    }

    /** Since there were `start` records, `data` has been cut from `a` on into `k` records, which end at `end`; the first `tot` bytes
        have been reported. */
    ghost predicate Underway(start: seq<(RecordType, seq<byte>)>, data: seq<byte>, tot: nat, a: nat, k: nat, end: nat)
      reads `records, `wpendPending, `wpendType, `wpendRet
    {
      && IsCut(start, records, ApplicationData, data, a, k, end, maxSendFragment)
      && tot + Unreported() == end && (Unreported() == 0 || k > 0 ==> a <= |data|)
    }

    method WriteTurn(data: seq<byte>, tot: nat, ptr: int, ghost before: seq<byte>, ghost start: seq<(RecordType, seq<byte>)>,
                     ghost a: nat, ghost k: nat, ghost end: nat) returns (ret: int, ghost k': nat, ghost end': nat)
      requires Valid() && tot <= |data| && Underway(start, data, tot, a, k, end)
      modifies this
      ensures Valid() && old(wire) <= wire && wnum == old(wnum) && ret <= |data| - tot
      ensures Underway(start, data, if ret > 0 then tot + ret else tot, a, k', end')
      ensures failures == old(failures) || (failures == old(failures) + 1 && ret == -1 && !wpendPending)
      ensures ret > 0 ==> Unreported() == 0 && buf.None? && !wpendPending && refusals == old(refusals)
      ensures old(Open()) && tot < |data| ==>
        if ret > 0 then Open() else failures > old(failures) || (wpendPending && refusals == old(refusals) + 1)
      ensures old(Writing(data, before, tot)) ==> Writing(data, before, if ret > 0 then tot + ret else tot)
    {
      ghost var had := records;
      if Unreported() == 0 {
        CutGrows(start, records, ApplicationData, data, a, k, end, maxSendFragment);
      }
      ret := WriteChunk(data, tot, ptr, before);
      k', end' := k, end;
      if records != had {
        k', end' := k + 1, Smaller(end + maxSendFragment, |data|);
      }
    }
  }

  function Smaller(a: nat, b: nat): nat {
    if a < b then a else b
  }

  /** Where the first `k` records end when `len` bytes are cut from `a` on, each as long as it may be. */
  ghost function CutEnd(len: nat, a: nat, k: nat, max: nat): (end: nat)
    ensures a <= len ==> a <= end <= len
    ensures k == 0 ==> end == a
  {
    if k == 0 then a else Smaller(CutEnd(len, a, k - 1, max) + max, len)
  }

  /** The first `k` records when `data` is cut from `a` on. */
  ghost function Cut(data: seq<byte>, a: nat, k: nat, max: nat): (pieces: seq<seq<byte>>)
    ensures |pieces| <= k && forall i | 0 <= i < |pieces| :: |pieces[i]| <= max
  {
    if k == 0 || a > |data| then []
    else Cut(data, a, k - 1, max) + [data[CutEnd(|data|, a, k - 1, max)..CutEnd(|data|, a, k, max)]]
  }

  ghost function Tagged(kind: RecordType, pieces: seq<seq<byte>>): (rs: seq<(RecordType, seq<byte>)>)
    ensures |rs| == |pieces|
  {
    seq(|pieces|, i requires 0 <= i < |pieces| => (kind, pieces[i]))
  }

  /** The records since `before` are the first `k` when `data` is cut from `a` on, and they end at `end`. */
  ghost predicate IsCut(before: seq<(RecordType, seq<byte>)>, now: seq<(RecordType, seq<byte>)>, kind: RecordType,
                        data: seq<byte>, a: nat, k: nat, end: nat, max: nat)
  {
    now == before + Tagged(kind, Cut(data, a, k, max)) && end == CutEnd(|data|, a, k, max)
  }

  lemma {:induction false} CutStarts(now: seq<(RecordType, seq<byte>)>, kind: RecordType, data: seq<byte>, a: nat, max: nat)
    ensures IsCut(now, now, kind, data, a, 0, a, max)
  {
  }

  lemma {:induction false} CutGrows(before: seq<(RecordType, seq<byte>)>, now: seq<(RecordType, seq<byte>)>, kind: RecordType,
                                    data: seq<byte>, a: nat, k: nat, end: nat, max: nat)
    requires a <= |data| && IsCut(before, now, kind, data, a, k, end, max)
    ensures end <= |data|
    ensures var end' := Smaller(end + max, |data|);
      IsCut(before, now + [(kind, data[end..end'])], kind, data, a, k + 1, end', max)
  {
    var end' := Smaller(end + max, |data|);
    assert Cut(data, a, k + 1, max) == Cut(data, a, k, max) + [data[end..end']];
    assert Tagged(kind, Cut(data, a, k + 1, max)) == Tagged(kind, Cut(data, a, k, max)) + [(kind, data[end..end'])];
  }

  /** No record of a cut is too long. */
  lemma {:induction false} CutIsShort(before: seq<(RecordType, seq<byte>)>, now: seq<(RecordType, seq<byte>)>, kind: RecordType,
                                      data: seq<byte>, a: nat, k: nat, end: nat, max: nat)
    requires IsCut(before, now, kind, data, a, k, end, max)
    ensures before <= now && forall i | |before| <= i < |now| :: now[i].0 == kind && |now[i].1| <= max
  {
  }

  /** `data` if `condition` holds, otherwise nothing. */
  function Only(condition: bool, data: seq<byte>): seq<byte> {
    if condition then data else []
  }

  /** `memory` with `data` written at `at`. */
  function Overwrite(memory: seq<byte>, at: nat, data: seq<byte>): seq<byte>
    requires at + |data| <= |memory|
  {
    memory[..at] + data + memory[at + |data|..]
  }

  /** What else may happen on the connection between two attempts at the same write. */
  datatype Interlude = Flush | SendAlert(level: byte, description: byte) | AddHandshake(msg: seq<byte>) | Retry(ptr: int)

  /** The records since `before` are no longer than `max`, but for alerts. */
  ghost predicate ShortSince(before: seq<(RecordType, seq<byte>)>, now: seq<(RecordType, seq<byte>)>, max: nat) {
    |before| <= |now| && forall i | |before| <= i < |now| && now[i].0 != Alert :: |now[i].1| <= max
  }

  lemma {:induction false} ShortJoin(a: seq<(RecordType, seq<byte>)>, b: seq<(RecordType, seq<byte>)>,
                                     c: seq<(RecordType, seq<byte>)>, max: nat)
    requires ShortSince(a, b, max) && b <= c && ShortSince(b, c, max)
    ensures ShortSince(a, c, max)
  {
  }

  /** What happens between two attempts leaves the application data alone. */
  method Between(conn: Connection, step: Interlude) returns (bad: bool)
    requires conn.Valid() && !step.Retry?
    modifies conn
    ensures conn.Valid() && old(conn.wire) <= conn.wire && conn.wnum == old(conn.wnum)
    ensures conn.appPlain == old(conn.appPlain) && conn.Unreported() == old(conn.Unreported())
    ensures !bad ==> conn.failures == old(conn.failures)
    ensures old(conn.records) <= conn.records && ShortSince(old(conn.records), conn.records, conn.maxSendFragment)
  {
    bad := false;
    if step.Flush? {
      var _ := conn.FlushFlight();
    } else if step.SendAlert? {
      var res := conn.DoWrite(Alert, [step.level, step.description], -1);
      bad := res == -1 && !conn.wpendPending;
    } else if conn.flightOffset == 0 {
      var ok := conn.AddMessage(step.msg);
      bad := !ok;
      ghost var k: nat, end: nat :|
        IsCut(old(conn.records), conn.records, Handshake, step.msg, 0, k, end, conn.maxSendFragment);
      CutIsShort(old(conn.records), conn.records, Handshake, step.msg, 0, k, end, conn.maxSendFragment);
    }
  }

  method Attempt(conn: Connection, data: seq<byte>, ptr: int, ghost before: seq<byte>) returns (ret: int, bad: bool)
    requires conn.Valid() && conn.Writing(data, before, conn.wnum)
    modifies conn
    ensures conn.Valid() && old(conn.wire) <= conn.wire && ret <= |data|
    ensures ret > 0 ==> conn.wnum == 0 && conn.Unreported() == 0 && (conn.partialWrites || ret == |data|)
    ensures conn.Writing(data, before, if ret > 0 then ret else conn.wnum)
    ensures !bad ==> conn.failures == old(conn.failures)
    ensures old(conn.records) <= conn.records && ShortSince(old(conn.records), conn.records, conn.maxSendFragment)
  {
    ghost var a := conn.Resume();
    ret := conn.WriteAppData(data, ptr, before);
    bad := ret == -1 && !conn.wpendPending;
    ghost var k: nat, end: nat :|
      IsCut(old(conn.records), conn.records, ApplicationData, data, a, k, end, conn.maxSendFragment);
    CutIsShort(old(conn.records), conn.records, ApplicationData, data, a, k, end, conn.maxSendFragment);
  }

  /** A write of `data` and its retries, with flushes, alerts and handshake messages between the attempts: each byte
      of `data` is sealed once, in order. Unless a call fails with no write pending, no seal has failed; and as long as
      none has, the wire, the buffer and the flight are all that has been sealed. */
  method WriteWithRetries(conn: Connection, data: seq<byte>, script: seq<Interlude>) returns (ret: int, failed: bool)
    requires conn.Valid() && conn.wnum == 0 && conn.Unreported() == 0
    modifies conn
    ensures conn.Valid() && old(conn.wire) <= conn.wire
    ensures ShortSince(old(conn.records), conn.records, conn.maxSendFragment)
    ensures ret > 0 ==> ret <= |data| && conn.appPlain == old(conn.appPlain) + data[..ret]
    ensures ret > 0 && !conn.partialWrites ==> conn.appPlain == old(conn.appPlain) + data
    ensures !failed ==> conn.failures == old(conn.failures)
    ensures !failed && old(conn.failures) == 0 ==> conn.wire + conn.Unsent() + conn.FlightRest() == conn.sealed
    ensures ret <= 0 ==> exists k: nat | k <= |data| :: conn.appPlain == old(conn.appPlain) + data[..k]
  {
    ret, failed := 0, false;
    ghost var before := conn.appPlain;
    for i := 0 to |script|
      invariant conn.Valid() && old(conn.wire) <= conn.wire
      invariant !failed ==> conn.failures == old(conn.failures)
      invariant ShortSince(old(conn.records), conn.records, conn.maxSendFragment)
      invariant ret <= 0 && conn.Writing(data, before, conn.wnum)
    {
      ghost var had := conn.records;
      var bad;
      if script[i].Retry? {
        ret, bad := Attempt(conn, data, script[i].ptr, before);
      } else {
        bad := Between(conn, script[i]);
      }
      ShortJoin(old(conn.records), had, conn.records, conn.maxSendFragment);
      failed := failed || bad;
      if ret > 0 {
        assert data[..|data|] == data;
        return;
      }
    }
    ghost var k: nat := conn.wnum + conn.Unreported();
    assert conn.appPlain == before + data[..k];
  }
}
