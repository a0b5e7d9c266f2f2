/** The receiving half of the JavaScript endpoint (OpenHome/ohNetmon.js): every datagram that
    arrives becomes a 16-byte entry (its first twelve bytes and the arrival time) queued in a
    fixed ring buffer of 10000 slots; a 1 ms interval drains the buffer to the measuring
    client's report connection while reporting is active. */
module Receiver {
  import opened Wrappers
  import opened Bytes
  import opened FrameCodec

  const RX_BUFFER_MAX: nat := 10000
  /** After an overflow, entries are dropped until at least this many slots (plus one) are free. */
  const RX_BUFFER_OVERFLOW_GUARD: nat := 10

  type Entry = e: seq<u8> | |e| == 16 witness [0, 0, 0, 0, 0, 0, 0, 0, 0, 0, 0, 0, 0, 0, 0, 0]

  /** The all-zero entry queued to mark that entries were dropped. */
  const BLOWN: Entry := [0, 0, 0, 0, 0, 0, 0, 0, 0, 0, 0, 0, 0, 0, 0, 0]

  /** The entry the `message` handler builds: the datagram's bytes 0 to 11 (a missing byte
      reads as 0), then the low 32 bits of the arrival time in microseconds, big-endian. */
  function MakeEntry(msg: seq<u8>, clock: nat): (e: Entry)
    ensures forall i :: 0 <= i < 12 && i < |msg| ==> e[i] == msg[i]
    ensures forall i :: |msg| <= i < 12 ==> e[i] == 0
    ensures DecodeRecord(e).rx == Low32(clock)
  {
    var stamp := BigEndian(Low32(clock));
    var e: Entry := seq(16, i requires 0 <= i < 16 =>
      if i < 12 then (if i < |msg| then msg[i] else 0) else stamp[i - 12]);
    assert e[12..16] == stamp;
    BigEndianInjective(DecodeRecord(e).rx, Low32(clock));
    e
  }

  /** An entry whose id bytes are all zero ends the report stream. */
  predicate IsEndMarker(e: Entry): (zero: bool)
    ensures zero <==> DecodeRecord(e).id == 0
  {
    BigEndianOfReadUintBe(e[0..4]);
    BigEndianZero(ReadUintBe(e[0..4]));
    e[..4] == [0, 0, 0, 0]
  }

  /** The zero-id test of `rxReport`. */
  method HasZeroId(entry: Entry) returns (zeroid: bool)
    ensures zeroid <==> IsEndMarker(entry)
  {
    zeroid := true;
    var i := 0;
    while i < 4
      invariant 0 <= i <= 4 && zeroid
      invariant forall j :: 0 <= j < i ==> entry[j] == 0
    {
      if entry[i] != 0 {
        zeroid := false;
        assert entry[..4][i] != 0;
        break;
      }
      i := i + 1;
    }
  }

  /** What one `rxReport` call does with the entry it dequeues. */
  datatype ReportAction = Write(entry: Entry) | EndStream

  /** The slot holding the `k`-th queued entry (`k` at most one lap past the read index). */
  function Slot(readIndex: nat, k: nat): nat {
    if readIndex + k < RX_BUFFER_MAX then readIndex + k else readIndex + k - RX_BUFFER_MAX
  }

  /** Fewer than a full lap of entries occupy distinct slots. */
  lemma SlotsDistinct(readIndex: nat, i: nat, j: nat)
    requires readIndex < RX_BUFFER_MAX && i < j < RX_BUFFER_MAX
    ensures Slot(readIndex, i) != Slot(readIndex, j)
  {
  }

  /** The `rxBuffer*` and `report*` globals. `Contents` is the queue the slots hold, oldest
      first. */
  class RxEndpoint {
    var buffer: array<Option<Entry>>
    var readIndex: nat
    var writeIndex: nat
    var count: nat
    var overflow: bool
    var reportActive: bool
    var reportConnected: bool
    ghost var Contents: seq<Entry>

    ghost predicate Valid()
      reads this, buffer
    {
      && buffer.Length == RX_BUFFER_MAX
      && readIndex < RX_BUFFER_MAX && writeIndex < RX_BUFFER_MAX && count <= RX_BUFFER_MAX
      && Slot(readIndex, count) == writeIndex
      && |Contents| == count
      && (forall k :: 0 <= k < count ==> buffer[Slot(readIndex, k)] == Some(Contents[k]))
      && (reportActive ==> reportConnected && count > 0)
    }

    constructor ()
      ensures Valid() && fresh(buffer)
      ensures Contents == [] && !overflow && !reportActive && !reportConnected
      ensures forall j :: 0 <= j < RX_BUFFER_MAX ==> buffer[j] == None
    {
      buffer := new Option<Entry>[RX_BUFFER_MAX](_ => None);
      readIndex, writeIndex, count := 0, 0, 0;
      overflow, reportActive, reportConnected := false, false, false;
      Contents := [];
    }

    /** `rxBufferCount++; rxBuffer[rxBufferWriteIndex++] = entry;` and the wrap of the index. */
    method Append(entry: Entry)
      requires Valid() && count < RX_BUFFER_MAX
      modifies this, buffer
      ensures Valid() && buffer == old(buffer)
      ensures Contents == old(Contents) + [entry] && count == old(count) + 1
      ensures readIndex == old(readIndex) && overflow == old(overflow)
      ensures reportActive == old(reportActive) && reportConnected == old(reportConnected)
    {
      forall k | 0 <= k < count ensures Slot(readIndex, k) != writeIndex {
        SlotsDistinct(readIndex, k, count);
      }
      count := count + 1;
      buffer[writeIndex] := Some(entry);
      writeIndex := writeIndex + 1;
      if writeIndex == RX_BUFFER_MAX {
        writeIndex := 0;
      }
      Contents := Contents + [entry];
    }

    /** The `message` handler for one datagram arriving at `clock` microseconds. */
    method OnMessage(msg: seq<u8>, clock: nat)
      requires Valid()
      modifies this, buffer
      ensures Valid() && buffer == old(buffer)
      ensures readIndex == old(readIndex) && reportConnected == old(reportConnected)
      ensures var entry := MakeEntry(msg, clock);
        if old(overflow) && old(count) < RX_BUFFER_MAX - RX_BUFFER_OVERFLOW_GUARD then
          Contents == old(Contents) + [BLOWN, entry] && !overflow && reportActive == reportConnected
        else if !old(overflow) && old(count) < RX_BUFFER_MAX then
          Contents == old(Contents) + [entry] && !overflow && reportActive == reportConnected
        else
          Contents == old(Contents) && overflow && count == old(count)
          && writeIndex == old(writeIndex) && reportActive == old(reportActive)
          && buffer[..] == old(buffer[..])
    {
      var entry := MakeEntry(msg, clock);
      if overflow {
        if count < RX_BUFFER_MAX - RX_BUFFER_OVERFLOW_GUARD {
          Append(BLOWN);
          Append(entry);
          overflow := false;
          if reportConnected && !reportActive {
            reportActive := true;
          }
        }
      } else {
        if count < RX_BUFFER_MAX {
          Append(entry);
          if reportConnected && !reportActive {
            reportActive := true;
          }
        } else {
          overflow := true;
        }
      }
    }

    /** The start of `rxReport`: one entry leaves the queue, reporting pauses when that empties
        it, and the slot it held is cleared. */
    method Dequeue() returns (entry: Entry)
      requires Valid() && reportActive
      modifies this, buffer
      ensures Valid() && buffer == old(buffer)
      ensures entry == old(Contents)[0] && Contents == old(Contents)[1..]
      ensures count == old(count) - 1 && buffer[old(readIndex)] == None
      ensures readIndex == if old(readIndex) + 1 == RX_BUFFER_MAX then 0 else old(readIndex) + 1
      ensures writeIndex == old(writeIndex) && overflow == old(overflow)
      ensures reportActive == (count > 0) && reportConnected == old(reportConnected)
    {
      count := count - 1;
      if count == 0 {
        reportActive := false;
      }
      assert buffer[Slot(readIndex, 0)] == Some(Contents[0]);
      entry := buffer[readIndex].value;
      ghost var oldRead := readIndex;
      buffer[readIndex] := None;
      readIndex := readIndex + 1;
      if readIndex == RX_BUFFER_MAX {
        readIndex := 0;
      }
      Contents := Contents[1..];
      forall k | 0 <= k < count ensures buffer[Slot(readIndex, k)] == Some(Contents[k]) {
        assert Slot(readIndex, k) == Slot(oldRead, k + 1) != oldRead;
      }
    }

    /** `rxReport`, called by the report interval while reporting is active: dequeue the oldest
        entry, clear its slot, and write it to the report connection, or end the connection
        when it is a zero-id entry. */
    method Report() returns (action: ReportAction)
      requires Valid() && reportActive
      modifies this, buffer
      ensures Valid() && buffer == old(buffer)
      ensures Contents == old(Contents)[1..] && count == old(count) - 1
      ensures buffer[old(readIndex)] == None
      ensures readIndex == if old(readIndex) + 1 == RX_BUFFER_MAX then 0 else old(readIndex) + 1
      ensures writeIndex == old(writeIndex) && overflow == old(overflow)
      ensures action == if IsEndMarker(old(Contents)[0]) then EndStream else Write(old(Contents)[0])
      ensures reportActive == (count > 0 && !IsEndMarker(old(Contents)[0]))
      ensures reportConnected == (old(reportConnected) && !IsEndMarker(old(Contents)[0]))
    {
      var entry := Dequeue();
      var zeroid := HasZeroId(entry);
      if zeroid {
        reportConnected := false;
        reportActive := false;
        action := EndStream;
      } else {
        action := Write(entry);
      }
    }

    /** The report connection's `connect` handler: reporting starts if anything is queued. */
    method OnConnect()
      requires Valid()
      modifies this
      ensures Valid() && reportConnected && reportActive == (count > 0)
      ensures Contents == old(Contents) && count == old(count) && overflow == old(overflow)
      ensures readIndex == old(readIndex) && writeIndex == old(writeIndex)
    {
      reportConnected := true;
      if count > 0 {
        reportActive := true;
      }
    }

    /** The report connection's `end` handler: reporting stops; queued entries stay. */
    method OnEnd()
      requires Valid()
      modifies this
      ensures Valid() && !reportConnected && !reportActive
      ensures Contents == old(Contents) && count == old(count) && overflow == old(overflow)
      ensures readIndex == old(readIndex) && writeIndex == old(writeIndex)
    {
      reportConnected := false;
      reportActive := false;
    }
  }
}
