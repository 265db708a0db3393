/**
  The state of BLEScanner (its hidden Impl) and the three operations that
  change it: the scan callback `ScanCallback::onResult`, which queues one
  raw advertisement; `BLEScanner::process`, which takes one record out,
  decodes it and hands back the output document and the MAC text; and
  `BLEScanner::stats`.  The four counters are uint32_t and wrap around;
  the ghost totals count without wrapping.
*/
module Scanner {
  import opened Wrappers
  import opened Json
  import opened RingBuffers
  import opened Dispatch
  import BT = BTHomeDecoder

  const U32: nat := 0x1_0000_0000

  /** `x++` on a uint32_t counter. */
  function Inc32(x: nat): (y: nat)
    requires x < U32
    ensures y < U32 && y == (x + 1) % U32
  {
    if x == U32 - 1 then 0 else x + 1
  }

  lemma WrapIsModulo(t: nat, w: nat, c: nat)
    requires c < U32 && t == w * U32 + c
    ensures c == t % U32
  {
  }

  /**
    The bytes `process` copies into a caller's buffer of macLen characters:
    the whole text when it fits with its terminating NUL, otherwise
    macLen - 1 characters.
  */
  function CopyLength(len: nat, macLen: nat): (n: nat)
    requires macLen >= 1
    ensures n <= len && n < macLen
    ensures len < macLen ==> n == len
    ensures len >= macLen ==> n == macLen - 1
  {
    if len >= macLen then macLen - 1 else len
  }

  /**
    `(uint8_t)((hwmBytes * 100) / totalBytes)` with size_t a 32-bit type:
    the product wraps modulo 2^32 and the quotient is cut to a byte.
  */
  function HwmPercent(hwm: nat, total: nat): (p: nat)
    ensures p < 256
    ensures total == 0 ==> p == 0
  {
    if total == 0 then 0 else (((hwm * 100) % U32) / total) % 256
  }

  /**
    For a buffer of less than 2^32 / 100 bytes whose watermark does not
    exceed its size, the percentage is the exact integer percentage and at
    most 100.
  */
  lemma HwmPercentExact(hwm: nat, total: nat)
    requires 0 < total && hwm <= total && total * 100 < U32
    ensures HwmPercent(hwm, total) == hwm * 100 / total
    ensures HwmPercent(hwm, total) <= 100
  {
    var x := hwm * 100;
    assert x < U32;
    assert x % U32 == x;
    QuotientAtMost(x, total, 100);
    var q := x / total;
    assert q % 256 == q;
  }

  /**
    A watermark that does not exceed the buffer's size never reports more
    than 100, whatever the size: when the product wraps, it is below 2^32,
    which is then at most 100 times the size.
  */
  lemma HwmPercentAtMost100(hwm: nat, total: nat)
    requires hwm <= total
    ensures HwmPercent(hwm, total) <= 100
  {
    if total > 0 {
      if total * 100 < U32 {
        HwmPercentExact(hwm, total);
      } else {
        var x := (hwm * 100) % U32;
        QuotientAtMost(x, total, 100);
        var q := x / total;
        assert q % 256 == q;
      }
    }
  }

  /** Past 2^32 / 100 bytes the product wraps: a full 50,000,000-byte buffer reports 14, not 100. */
  lemma HwmPercentWrapExample()
    ensures HwmPercent(50_000_000, 50_000_000) == 14
  {
    assert 50_000_000 * 100 == 5_000_000_000;
    assert 5_000_000_000 % U32 == 705_032_704;
    assert 705_032_704 / 50_000_000 == 14;
  }

  lemma QuotientAtMost(x: nat, d: nat, q: nat)
    requires 0 < d && x <= d * q
    ensures x / d <= q
  {
  }

  /** What `stats` reports. */
  datatype Stats = Stats(
    hwmBytes: nat,
    totalBytes: nat,
    hwmPercent: nat,
    queueFull: nat,
    acquireFail: nat,
    received: nat,
    decoded: nat)

  /** What happened to one advertisement in the scan callback. */
  datatype Enqueue =
    | NoQueue        // begin has not run: the advertisement is dropped
    | AcquireFailed  // send_acquire refused: acquireFail counts it
    | SizeMismatch   // serialisation wrote another length: logged only, the reservation stays
    | CommitFailed   // send_complete refused: queueFull counts it
    | Enqueued       // queued; the high watermark is updated

  class BLEScanner {
    var queue: RingBuffer?
    var bthKey: string
    var started: bool
    var queueFull: nat
    var acquireFail: nat
    var received: nat
    var decoded: nat
    /** Records taken out of the queue, without wrap-around. */
    ghost var receivedTotal: nat
    /** Records decoded, without wrap-around. */
    ghost var decodedTotal: nat
    /** How often each counter has wrapped. */
    ghost var receivedWraps: nat
    ghost var decodedWraps: nat

    ghost predicate Valid()
      reads this, queue
    {
      queueFull < U32 && acquireFail < U32 && received < U32 && decoded < U32
      && receivedTotal == receivedWraps * U32 + received
      && decodedTotal == decodedWraps * U32 + decoded
      && decodedTotal <= receivedTotal
      && (queue != null ==> queue.Valid() && queue.held.None?)
    }

    /** A fresh Impl: no queue, no key, every counter zero. */
    constructor ()
      ensures Valid()
      ensures queue == null && bthKey == "" && !started
      ensures queueFull == 0 && acquireFail == 0 && received == 0 && decoded == 0
    {
      queue := null;
      bthKey := "";
      started := false;
      queueFull, acquireFail, received, decoded := 0, 0, 0, 0;
      receivedTotal, decodedTotal := 0, 0;
      receivedWraps, decodedWraps := 0, 0;
    }

    /** setBTHomeKey: a null key is stored as the empty key.  The key text is copied, not aliased. */
    method SetBTHomeKey(hexKey: Option<string>)
      requires Valid()
      modifies this
      ensures Valid()
      ensures bthKey == if hexKey.Some? then hexKey.value else ""
      ensures queue == old(queue) && started == old(started)
      ensures queueFull == old(queueFull) && acquireFail == old(acquireFail)
      ensures received == old(received) && decoded == old(decoded)
    {
      bthKey := if hexKey.Some? then hexKey.value else "";
    }

    /** begin: only the first call creates the queue, of ringBufSize bytes. */
    method Begin(ringBufSize: nat)
      requires Valid()
      modifies this
      ensures Valid()
      ensures started
      ensures old(started) ==> queue == old(queue)
      ensures !old(started) ==>
        queue != null && fresh(queue) && queue.totalSize == ringBufSize && queue.items == []
        && queue.reserved == 0 && queue.held == None && queue.highWatermark == 0 && queue.Used() == 0
      ensures bthKey == old(bthKey)
      ensures queueFull == old(queueFull) && acquireFail == old(acquireFail)
      ensures received == old(received) && decoded == old(decoded)
    {
      if started {
        return;
      }
      started := true;
      queue := new RingBuffer(ringBufSize);
    }

    /**
      The counter logic of ScanCallback::onResult for one advertisement
      seen at `time`: its raw document takes `total` bytes as MsgPack, and
      the serialiser reports `written` bytes.
    */
    method OnResult(adv: Advertisement, time: real, total: nat, written: nat) returns (ghost outcome: Enqueue)
      requires Valid()
      modifies this, queue
      ensures Valid()
      ensures queue == old(queue) && bthKey == old(bthKey) && started == old(started)
      ensures received == old(received) && decoded == old(decoded)
      ensures outcome == NoQueue <==> old(queue) == null
      ensures acquireFail == if outcome == AcquireFailed then Inc32(old(acquireFail)) else old(acquireFail)
      ensures queueFull == if outcome == CommitFailed then Inc32(old(queueFull)) else old(queueFull)
      ensures outcome == SizeMismatch ==> written != total
      ensures outcome == CommitFailed || outcome == Enqueued ==> written == total
      ensures outcome == Enqueued ==> queue.items == old(queue.items) + [Entry(RawDoc(adv, time), total)]
      ensures outcome != Enqueued && outcome != NoQueue ==> queue.items == old(queue.items)
      ensures outcome == SizeMismatch || outcome == CommitFailed ==> queue.reserved == old(queue.reserved) + total
      ensures outcome == AcquireFailed || outcome == Enqueued ==> queue.reserved == old(queue.reserved)
      ensures queue != null ==> queue.held == old(queue.held)
      ensures queue != null && outcome != Enqueued ==> queue.highWatermark == old(queue.highWatermark)
      ensures outcome == Enqueued ==>
        queue.highWatermark == (if queue.Used() > old(queue.highWatermark) then queue.Used() else old(queue.highWatermark))
      ensures outcome == Enqueued ==> queue.Used() == old(queue.Used()) + total && queue.highWatermark >= queue.Used()
      ensures queue != null ==> queue.highWatermark >= old(queue.highWatermark)
    {
      if queue == null {
        return NoQueue;
      }
      var raw := RawDoc(adv, time);
      var acquired := queue.SendAcquire(total);
      if !acquired {
        acquireFail := Inc32(acquireFail);
        return AcquireFailed;
      }
      if written != total {
        return SizeMismatch;
      }
      var committed := queue.SendComplete(Entry(raw, total));
      if !committed {
        queueFull := Inc32(queueFull);
        return CommitFailed;
      }
      queue.UpdateHighWatermark();
      return Enqueued;
    }

    /**
      BLEScanner::process: takes the oldest record, decodes it, and hands
      back the output document and the colon-free MAC text, cut to fit the
      caller's buffer and NUL-terminated.  With no queue or no record it
      returns false and changes nothing.
    */
    method Process(doc0: Doc, mac: array<char>, decrypt: BT.CcmDecrypt) returns (ok: bool, doc: Doc)
      requires Valid() && mac.Length >= 1
      modifies this, queue, mac
      ensures Valid()
      ensures queue == old(queue) && bthKey == old(bthKey) && started == old(started)
      ensures queueFull == old(queueFull) && acquireFail == old(acquireFail)
      ensures ok <==> old(queue) != null && old(queue.items) != []
      ensures !ok ==> doc == doc0 && mac[..] == old(mac[..])
      ensures !ok ==> received == old(received) && decoded == old(decoded)
      ensures !ok ==> receivedTotal == old(receivedTotal) && decodedTotal == old(decodedTotal)
      ensures !ok && queue != null ==> queue.items == old(queue.items)
      ensures queue != null ==> queue.reserved == old(queue.reserved) && queue.highWatermark == old(queue.highWatermark)
      ensures queue != null ==> queue.held == None
      ensures ok ==> queue.items == old(queue.items)[1..]
      ensures ok ==>
        var raw := old(queue.items)[0].doc;
        var dec := Deliver(raw, bthKey, decrypt);
        doc == Output(raw, dec)
        && received == Inc32(old(received)) && receivedTotal == old(receivedTotal) + 1
        && decoded == (if dec.Some? then Inc32(old(decoded)) else old(decoded))
        && decodedTotal == old(decodedTotal) + (if dec.Some? then 1 else 0)
      ensures ok ==>
        var m := StripColons(AsText(Get(old(queue.items)[0].doc, Mac)));
        var n := CopyLength(|m|, mac.Length);
        mac[..n] == m[..n] && mac[n] == '\0' && mac[n + 1..] == old(mac[n + 1..])
    {
      var item := TakeRecord();
      if item.None? {
        return false, doc0;
      }
      var raw := item.value.doc;
      var dec := Deliver(raw, bthKey, decrypt);
      CountDecoded(dec.Some?);
      doc := Output(raw, dec);
      CopyMac(StripColons(AsText(Get(raw, Mac))), mac);
      ok := true;
    }

    /**
      The first half of `process`: the oldest record is received, its bytes
      are returned to the queue, and `received` counts it.
    */
    method TakeRecord() returns (item: Option<Entry>)
      requires Valid()
      modifies this, queue
      ensures Valid()
      ensures queue == old(queue) && bthKey == old(bthKey) && started == old(started)
      ensures queueFull == old(queueFull) && acquireFail == old(acquireFail)
      ensures decoded == old(decoded) && decodedTotal == old(decodedTotal)
      ensures item.Some? <==> old(queue) != null && old(queue.items) != []
      ensures item.None? ==> received == old(received) && receivedTotal == old(receivedTotal)
      ensures item.Some? ==> item.value == old(queue.items)[0] && queue.items == old(queue.items)[1..]
      ensures item.None? && queue != null ==> queue.items == old(queue.items)
      ensures queue != null ==> queue.reserved == old(queue.reserved) && queue.highWatermark == old(queue.highWatermark)
      ensures queue != null ==> queue.held == None
      ensures item.Some? ==> received == Inc32(old(received)) && receivedTotal == old(receivedTotal) + 1
    {
      if queue == null {
        return None;
      }
      item := queue.Receive();
      if item.None? {
        return;
      }
      queue.ReturnItem();
      if received == U32 - 1 {
        receivedWraps := receivedWraps + 1;
      }
      received := Inc32(received);
      receivedTotal := receivedTotal + 1;
    }

    /** `decoded` counts a record that a decoder claimed. */
    method CountDecoded(claimed: bool)
      requires Valid() && decodedTotal < receivedTotal
      modifies this
      ensures Valid()
      ensures queue == old(queue) && bthKey == old(bthKey) && started == old(started)
      ensures queueFull == old(queueFull) && acquireFail == old(acquireFail)
      ensures received == old(received) && receivedTotal == old(receivedTotal)
      ensures decoded == (if claimed then Inc32(old(decoded)) else old(decoded))
      ensures decodedTotal == old(decodedTotal) + (if claimed then 1 else 0)
    {
      if claimed {
        if decoded == U32 - 1 {
          decodedWraps := decodedWraps + 1;
        }
        decoded := Inc32(decoded);
        decodedTotal := decodedTotal + 1;
      }
    }

    /**
      The tail of `process`: as much of the text as fits before a NUL in
      the caller's buffer is copied, then the NUL; the rest of the buffer
      is left alone.
    */
    static method CopyMac(m: string, mac: array<char>)
      requires mac.Length >= 1
      modifies mac
      ensures var n := CopyLength(|m|, mac.Length);
        mac[..n] == m[..n] && mac[n] == '\0' && mac[n + 1..] == old(mac[n + 1..])
    {
      var n := CopyLength(|m|, mac.Length);
      var i := 0;
      while i < n
        invariant 0 <= i <= n
        invariant mac[..i] == m[..i]
        invariant forall j :: i <= j < mac.Length ==> mac[j] == old(mac[j])
      {
        mac[i] := m[i];
        i := i + 1;
      }
      mac[n] := '\0';
    }

    /** stats: all zero before the queue exists; the watermark as a share of the buffer size. */
    function CurrentStats(): (s: Stats)
      reads this, queue
    {
      if queue == null then Stats(0, 0, 0, 0, 0, 0, 0)
      else Stats(queue.highWatermark, queue.totalSize, HwmPercent(queue.highWatermark, queue.totalSize),
                 queueFull, acquireFail, received, decoded)
    }

    /** The uint32_t counters are the unbounded counts modulo 2^32. */
    lemma CountersWrap()
      requires Valid()
      ensures received == receivedTotal % U32 && decoded == decodedTotal % U32
    {
      WrapIsModulo(receivedTotal, receivedWraps, received);
      WrapIsModulo(decodedTotal, decodedWraps, decoded);
    }

    /** Until the received counter first wraps, it is never behind the decoded counter. */
    lemma DecodedAtMostReceived()
      requires Valid() && receivedTotal < U32
      ensures decoded <= received
    {
    }

    /**
      The reported percentage is at most 100, and for a buffer of fewer
      than 2^32 / 100 bytes it is the exact integer percentage.
    */
    lemma StatsPercentBound()
      requires Valid() && queue != null
      ensures CurrentStats().hwmPercent <= 100
      ensures 0 < queue.totalSize && queue.totalSize * 100 < U32 ==>
        CurrentStats().hwmPercent == queue.highWatermark * 100 / queue.totalSize
    {
      HwmPercentAtMost100(queue.highWatermark, queue.totalSize);
      if 0 < queue.totalSize && queue.totalSize * 100 < U32 {
        HwmPercentExact(queue.highWatermark, queue.totalSize);
      }
    }
  }
}
