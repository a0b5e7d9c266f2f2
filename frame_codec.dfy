/** The 16-byte record the receiver endpoint streams to the measuring client: four unsigned
    32-bit fields, each big-endian, in the order id, frame, tx timestamp, rx timestamp. */
module FrameCodec {
  import opened Bytes

  const RECORD_BYTES: nat := 16

  datatype Frame = Frame(id: u32, frame: u32, tx: u32, rx: u32)

  /** The four `ReadUintBe(4)` calls of `ReceiverThread::Run` on one 16-byte entry. */
  function DecodeRecord(entry: seq<u8>): (f: Frame)
    requires |entry| == RECORD_BYTES
    ensures BigEndian(f.id) == entry[0..4] && BigEndian(f.frame) == entry[4..8]
    ensures BigEndian(f.tx) == entry[8..12] && BigEndian(f.rx) == entry[12..16]
  {
    BigEndianOfReadUintBe(entry[0..4]);
    BigEndianOfReadUintBe(entry[4..8]);
    BigEndianOfReadUintBe(entry[8..12]);
    BigEndianOfReadUintBe(entry[12..16]);
    Frame(ReadUintBe(entry[0..4]), ReadUintBe(entry[4..8]),
          ReadUintBe(entry[8..12]), ReadUintBe(entry[12..16]))
  }

  /** The wire bytes of a frame, as the JavaScript endpoints lay them out. */
  function EncodeRecord(f: Frame): (entry: seq<u8>)
    ensures |entry| == RECORD_BYTES
  {
    BigEndian(f.id) + BigEndian(f.frame) + BigEndian(f.tx) + BigEndian(f.rx)
  }

  lemma DecodeEncode(f: Frame)
    ensures DecodeRecord(EncodeRecord(f)) == f
  {
    var e := EncodeRecord(f);
    assert e[0..4] == BigEndian(f.id);
    assert e[4..8] == BigEndian(f.frame);
    assert e[8..12] == BigEndian(f.tx);
    assert e[12..16] == BigEndian(f.rx);
    ReadUintBeOfBigEndian(f.id);
    ReadUintBeOfBigEndian(f.frame);
    ReadUintBeOfBigEndian(f.tx);
    ReadUintBeOfBigEndian(f.rx);
  }

  lemma EncodeDecode(entry: seq<u8>)
    requires |entry| == RECORD_BYTES
    ensures EncodeRecord(DecodeRecord(entry)) == entry
  {
    var f := DecodeRecord(entry);
    assert entry == entry[0..4] + entry[4..8] + entry[8..12] + entry[12..16];
  }

  /** The records `Run` reads from a data stream: every whole 16-byte chunk in order. A
      trailing partial chunk is where the read fails and the loop ends. */
  function Records(stream: seq<u8>): (fs: seq<Frame>)
    ensures |fs| == |stream| / RECORD_BYTES
    ensures forall k :: 0 <= k < |fs| ==>
      16 * k + 16 <= |stream| && fs[k] == DecodeRecord(stream[16 * k .. 16 * k + 16])
  {
    seq(|stream| / RECORD_BYTES, k requires 0 <= k < |stream| / RECORD_BYTES =>
      DecodeRecord(stream[16 * k .. 16 * k + 16]))
  }

  /** The stream the receiver endpoint writes for a sequence of frames decodes back to them. */
  lemma {:induction false} RecordsOfEncoded(fs: seq<Frame>)
    ensures Records(Concat(fs)) == fs
  {
    var s := Concat(fs);
    ConcatLength(fs);
    forall k | 0 <= k < |fs| ensures s[16 * k .. 16 * k + 16] == EncodeRecord(fs[k]) {
      ConcatAt(fs, k);
    }
    forall k | 0 <= k < |fs| ensures Records(s)[k] == fs[k] {
      DecodeEncode(fs[k]);
    }
  }

  /** The encodings of frames laid end to end. */
  function Concat(fs: seq<Frame>): seq<u8> {
    if fs == [] then [] else Concat(fs[..|fs| - 1]) + EncodeRecord(fs[|fs| - 1])
  }

  lemma {:induction false} ConcatLength(fs: seq<Frame>)
    ensures |Concat(fs)| == 16 * |fs|
  {
    if fs != [] { ConcatLength(fs[..|fs| - 1]); }
  }

  lemma {:induction false} ConcatAt(fs: seq<Frame>, k: nat)
    requires k < |fs|
    ensures |Concat(fs)| == 16 * |fs|
    ensures Concat(fs)[16 * k .. 16 * k + 16] == EncodeRecord(fs[k])
  {
    ConcatLength(fs);
    var init := fs[..|fs| - 1];
    ConcatLength(init);
    if k < |fs| - 1 {
      ConcatAt(init, k);
      assert init[k] == fs[k];
      assert Concat(fs)[16 * k .. 16 * k + 16] == Concat(init)[16 * k .. 16 * k + 16];
    }
  }
}
