/**
  The queue between the scan callback and `BLEScanner::process`: an
  espidf::RingBuffer of type NOSPLIT.  Its implementation is not part of
  this model, so it is an abstract class that keeps only what the scanner
  relies on:

  - `send_acquire` reserves room for one record and may fail (there is no
    room, or the operating system refuses for reasons the model does not
    see);
  - `send_complete` turns a reservation into a queued record and may fail
    too;
  - `receive` hands out the oldest queued record, or nothing;
  - `return_item` gives the received record's room back;
  - `update_high_watermark` records the largest number of bytes in use.

  The high watermark never decreases.
*/
module RingBuffers {
  import opened Wrappers
  import opened Json

  /** A queued record: the raw advertisement document and the bytes its MsgPack form takes. */
  datatype Entry = Entry(doc: Doc, size: nat)

  /** The bytes taken by a sequence of records. */
  function Footprint(items: seq<Entry>): nat
  {
    if items == [] then 0 else items[0].size + Footprint(items[1..])
  }

  /** A record appended at the back adds its size. */
  lemma {:induction false} FootprintAppend(items: seq<Entry>, e: Entry)
    ensures Footprint(items + [e]) == Footprint(items) + e.size
  {
    if items != [] {
      assert (items + [e])[1..] == items[1..] + [e];
      FootprintAppend(items[1..], e);
    }
  }

  class RingBuffer {
    /** get_total_size: the capacity in bytes. */
    const totalSize: nat
    /** The records committed and not yet received, oldest first. */
    var items: seq<Entry>
    /** Bytes acquired by send_acquire and not yet committed. */
    var reserved: nat
    /** The record handed out by receive and not yet returned. */
    var held: Option<Entry>
    /** get_high_watermark: the most bytes ever seen in use. */
    var highWatermark: nat

    /** The bytes in use: queued records, open reservations and the record being read. */
    function Used(): nat
      reads this
    {
      Footprint(items) + reserved + (if held.Some? then held.value.size else 0)
    }

    predicate Valid()
      reads this
    {
      Used() <= totalSize && highWatermark <= totalSize
    }

    /** create(size): an empty buffer. */
    constructor (size: nat)
      ensures Valid()
      ensures totalSize == size && items == [] && reserved == 0 && held == None && highWatermark == 0
    {
      totalSize := size;
      items := [];
      reserved := 0;
      held := None;
      highWatermark := 0;
    }

    /**
      send_acquire(size): reserves size bytes.  It fails when they do not
      fit, and may fail for other reasons; on failure nothing changes.
    */
    method SendAcquire(size: nat) returns (ok: bool)
      requires Valid()
      modifies this
      ensures Valid()
      ensures ok ==> old(Used()) + size <= totalSize
      ensures ok ==> reserved == old(reserved) + size
      ensures !ok ==> reserved == old(reserved)
      ensures items == old(items) && held == old(held) && highWatermark == old(highWatermark)
    {
      if Used() + size > totalSize {
        return false;
      }
      ok :| true;
      if ok {
        reserved := reserved + size;
      }
    }

    /**
      send_complete: the reserved bytes become a queued record at the back.
      It may fail, and then nothing changes.
    */
    method SendComplete(e: Entry) returns (ok: bool)
      requires Valid() && e.size <= reserved
      modifies this
      ensures Valid()
      ensures ok ==> items == old(items) + [e] && reserved == old(reserved) - e.size
      ensures !ok ==> items == old(items) && reserved == old(reserved)
      ensures Used() == old(Used())
      ensures held == old(held) && highWatermark == old(highWatermark)
    {
      ok :| true;
      if ok {
        FootprintAppend(items, e);
        items := items + [e];
        reserved := reserved - e.size;
      }
    }

    /**
      receive: the oldest queued record, which stays in use until it is
      returned; nothing when no record is queued.
    */
    method Receive() returns (r: Option<Entry>)
      requires Valid() && held.None?
      modifies this
      ensures Valid()
      ensures r.None? <==> old(items) == []
      ensures r.None? ==> items == old(items) && held == None
      ensures r.Some? ==> r.value == old(items)[0] && items == old(items)[1..] && held == r
      ensures Used() == old(Used())
      ensures reserved == old(reserved) && highWatermark == old(highWatermark)
    {
      if items == [] {
        return None;
      }
      r := Some(items[0]);
      held := r;
      items := items[1..];
    }

    /** return_item: the received record's bytes are free again. */
    method ReturnItem()
      requires Valid() && held.Some?
      modifies this
      ensures Valid()
      ensures held == None && Used() == old(Used()) - old(held).value.size
      ensures items == old(items) && reserved == old(reserved) && highWatermark == old(highWatermark)
    {
      held := None;
    }

    /** update_high_watermark: raise the watermark to the bytes now in use. */
    method UpdateHighWatermark()
      requires Valid()
      modifies this
      ensures Valid()
      ensures highWatermark == if old(Used()) > old(highWatermark) then old(Used()) else old(highWatermark)
      ensures highWatermark >= old(highWatermark) && highWatermark >= Used() && Used() == old(Used())
      ensures items == old(items) && reserved == old(reserved) && held == old(held)
    {
      if Used() > highWatermark {
        highWatermark := Used();
      }
    }
  }
}
