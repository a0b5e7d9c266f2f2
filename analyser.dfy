/** The measuring client's frame analyser (`ReceiverThread` in ohNetmon.cpp).

    `Analysed` is the specification: one frame's effect on the analyser state, with the code's
    32-bit arithmetic written out. `ReceiverThread` is the object the code updates in place; its
    methods are proved against `Analysed`, and the lemmas state what the code promises. */
module Analyser {
  import opened Bytes
  import opened FrameCodec

  /** Size of the latency histogram; bucket `i` counts one-way times of `i - 10` ms. */
  const BUCKETS: nat := 100
  /** The histogram index of a one-way time of 0 us. */
  const BUCKET_OFFSET: int := 10

  datatype Analysis = Analysis(
    id: u32,
    total: u32,
    missed: u32,
    max: i32,
    min: i32,
    timings: seq<u32>,
    lastFrame: u32,
    lastTx: u32,
    lastRx: u32,
    txTimebase: u32,
    rxTimebase: u32)

  predicate WellFormed(s: Analysis) { |s.timings| == BUCKETS }

  /** The sum of the histogram's buckets. */
  function Sum(t: seq<u32>): nat {
    if t == [] then 0 else Sum(t[..|t| - 1]) + t[|t| - 1]
  }

  /** The state the constructor leaves: every counter and bucket zero. The baselines and the
      last timestamps are not initialised by the code; they are only read once a first frame
      has set them, and are zero here. */
  function Initial(id: u32): (s: Analysis)
    ensures WellFormed(s) && s.id == id && s.total == 0 && s.missed == 0
    ensures s.min <= 0 <= s.max && Sum(s.timings) == 0
  {
    var z := seq(BUCKETS, _ => 0);
    assert Sum(z) == 0 by { SumZero(BUCKETS); }
    Analysis(id, 0, 0, 0, 0, z, 0, 0, 0, 0, 0)
  }

  lemma {:induction false} SumZero(n: nat)
    ensures Sum(seq(n, _ => 0)) == 0
  {
    if n > 0 {
      SumZero(n - 1);
      assert seq(n, _ => 0)[..n - 1] == seq(n - 1, _ => 0);
    }
  }

  /** How the analyser treats a frame. */
  datatype Kind = Unrecognised | Baseline | OutOfOrder | Repeated | Missed(count: nat) | Consecutive

  /** A frame of another session is not recognised; the first frame of the session sets the
      baseline; after that a frame is compared with the last frame number. */
  function Classify(s: Analysis, f: Frame): (k: Kind)
    ensures k == Unrecognised <==> f.id != s.id
    ensures k == Baseline <==> f.id == s.id && s.total == 0
    ensures k == OutOfOrder <==> f.id == s.id && s.total != 0 && f.frame < s.lastFrame
    ensures k == Repeated <==> f.id == s.id && s.total != 0 && f.frame == s.lastFrame
    ensures k.Missed? <==> f.id == s.id && s.total != 0 && f.frame > s.lastFrame + 1
    ensures k.Missed? ==> k.count == f.frame - s.lastFrame - 1 > 0
    ensures k == Consecutive <==> f.id == s.id && s.total != 0 && f.frame == s.lastFrame + 1
  {
    if f.id != s.id then Unrecognised
    else if s.total == 0 then Baseline
    else if f.frame < s.lastFrame then OutOfOrder
    else if f.frame == s.lastFrame then Repeated
    else if f.frame - s.lastFrame - 1 > 0 then Missed(f.frame - s.lastFrame - 1)
    else Consecutive
  }

  /** Receiver-relative time minus sender-relative time, both taken from the session baselines
      with unsigned 32-bit subtraction, and the unsigned difference read as a signed `TInt`. */
  function NetworkTime(s: Analysis, f: Frame): (t: i32)
    ensures Low32(t) == Low32(Low32(f.rx - s.rxTimebase) - Low32(f.tx - s.txTimebase))
  {
    AsSigned(Low32(Low32(f.rx - s.rxTimebase) - Low32(f.tx - s.txTimebase)))
  }

  /** The histogram index of a one-way time: whole milliseconds, truncated toward zero, plus 10. */
  function TimingsIndex(networkTime: int): (i: int)
    ensures networkTime >= 0 ==> BUCKET_OFFSET + networkTime / 1000 == i
    ensures networkTime < 0 ==> BUCKET_OFFSET - (-networkTime) / 1000 == i
  {
    TruncDiv(networkTime, 1000) + BUCKET_OFFSET
  }

  /** One frame's effect on the analyser (`ReceiverThread::Analyse`). */
  function Analysed(s: Analysis, f: Frame): (r: Analysis)
    requires WellFormed(s)
    ensures WellFormed(r) && r.id == s.id
  {
    if f.id != s.id then s
    else if s.total == 0 then
      s.(txTimebase := f.tx, rxTimebase := f.rx, lastFrame := f.frame, lastTx := 0, lastRx := 0,
         total := Low32(s.total + 1))
    else
      var txTimestamp := Low32(f.tx - s.txTimebase);
      var rxTimestamp := Low32(f.rx - s.rxTimebase);
      var t :=
        if f.frame <= s.lastFrame then s
        else if f.frame - s.lastFrame - 1 > 0 then
          s.(missed := Low32(s.missed + (f.frame - s.lastFrame - 1)))
        else Sampled(s, NetworkTime(s, f));
      t.(lastFrame := f.frame, lastTx := txTimestamp, lastRx := rxTimestamp,
         total := Low32(s.total + 1))
  }

  /** A latency sample: the histogram bucket (only indices 1 to 99) and the extremes. */
  function Sampled(s: Analysis, networkTime: i32): (r: Analysis)
    requires WellFormed(s)
    ensures WellFormed(r) && r == s.(timings := r.timings, min := r.min, max := r.max)
    ensures r.min <= s.min && s.max <= r.max && r.min <= networkTime <= r.max
    ensures (r.min == s.min || r.min == networkTime) && (r.max == s.max || r.max == networkTime)
    ensures r.timings[0] == s.timings[0] && Sum(r.timings) <= Sum(s.timings) + 1
  {
    var i := TimingsIndex(networkTime);
    var timings := if 0 < i < BUCKETS then s.timings[i := Low32(s.timings[i] as int + 1)] else s.timings;
    assert Sum(timings) <= Sum(s.timings) + 1 by {
      if 0 < i < BUCKETS { SumIncrement(s.timings, i); }
    }
    s.(timings := timings,
       max := if networkTime > s.max then networkTime else s.max,
       min := if networkTime < s.min then networkTime else s.min)
  }

  /** The analyser after a sequence of frames, in arrival order. */
  function AnalysedAll(s: Analysis, fs: seq<Frame>): (r: Analysis)
    requires WellFormed(s)
    ensures WellFormed(r) && r.id == s.id
  {
    if fs == [] then s else Analysed(AnalysedAll(s, fs[..|fs| - 1]), fs[|fs| - 1])
  }

  /** The number of frames in `fs` that carry the session id. */
  function Accepted(id: u32, fs: seq<Frame>): (n: nat)
    ensures n <= |fs|
  {
    if fs == [] then 0
    else Accepted(id, fs[..|fs| - 1]) + (if fs[|fs| - 1].id == id then 1 else 0)
  }

  // ---------------------------------------------------------------------------------------
  // One frame

  /** A frame with a foreign id changes nothing, `total` included; a frame with the session
      id adds exactly one to `total` (modulo 2^32). */
  lemma TotalCountsAcceptedFrames(s: Analysis, f: Frame)
    requires WellFormed(s)
    ensures f.id != s.id ==> Analysed(s, f) == s
    ensures f.id == s.id ==> Analysed(s, f).total == Low32(s.total + 1)
  {
  }

  /** The first accepted frame sets the baselines and the last frame number, and touches no
      counter other than `total`, no bucket and no extreme. */
  lemma FirstFrameSetsBaseline(s: Analysis, f: Frame)
    requires WellFormed(s) && s.total == 0 && f.id == s.id
    ensures var r := Analysed(s, f);
      r.txTimebase == f.tx && r.rxTimebase == f.rx && r.lastFrame == f.frame
      && r.missed == s.missed && r.timings == s.timings && r.min == s.min && r.max == s.max
  {
  }

  /** Every frame after the first keeps the baselines, so all one-way times of a session are
      relative to its first accepted frame. */
  lemma BaselineKept(s: Analysis, f: Frame)
    requires WellFormed(s) && s.total != 0
    ensures Analysed(s, f).txTimebase == s.txTimebase && Analysed(s, f).rxTimebase == s.rxTimebase
  {
  }

  /** `missed` changes only across a gap, and then grows by the number of frames skipped. */
  lemma MissedOnlyOnGap(s: Analysis, f: Frame)
    requires WellFormed(s)
    ensures Analysed(s, f).missed ==
      if f.id == s.id && s.total != 0 && f.frame > s.lastFrame + 1
      then Low32(s.missed + (f.frame - s.lastFrame - 1))
      else s.missed
  {
  }

  /** Every accepted frame becomes the last frame, out-of-order and repeated ones included. */
  lemma LastFrameFollowsEveryAcceptedFrame(s: Analysis, f: Frame)
    requires WellFormed(s) && f.id == s.id
    ensures Analysed(s, f).lastFrame == f.frame
  {
  }

  /** The histogram changes only for a consecutive frame: bucket trunc(t/1000)+10 gains one
      when it lies in 1..99, and nothing changes otherwise. Bucket 0 never changes. */
  lemma HistogramOnlyOnConsecutive(s: Analysis, f: Frame)
    requires WellFormed(s)
    ensures var r := Analysed(s, f);
      var i := TimingsIndex(NetworkTime(s, f));
      r.timings ==
        if Classify(s, f) == Consecutive && 0 < i < BUCKETS
        then s.timings[i := Low32(s.timings[i] as int + 1)]
        else s.timings
    ensures Analysed(s, f).timings[0] == s.timings[0]
    ensures Sum(Analysed(s, f).timings) <= Sum(s.timings) + 1
  {
    var r := Analysed(s, f);
    var i := TimingsIndex(NetworkTime(s, f));
    if Classify(s, f) == Consecutive && 0 < i < BUCKETS {
      SumIncrement(s.timings, i);
    }
  }

  /** Incrementing one bucket (modulo 2^32) adds at most one to the sum. */
  lemma {:induction false} SumIncrement(t: seq<u32>, i: nat)
    requires i < |t|
    ensures Sum(t[i := Low32(t[i] as int + 1)]) <= Sum(t) + 1
  {
    var u := t[i := Low32(t[i] as int + 1)];
    if i < |t| - 1 {
      SumIncrement(t[..|t| - 1], i);
      assert u[..|t| - 1] == t[..|t| - 1][i := Low32(t[i] as int + 1)];
    } else {
      assert u[..|t| - 1] == t[..|t| - 1];
    }
  }

  /** The extremes only move outward, so `min <= 0 <= max` is kept; after a consecutive frame
      they are the least and greatest of the old extremes and its one-way time. */
  lemma ExtremesBracketSamples(s: Analysis, f: Frame)
    requires WellFormed(s)
    ensures var r := Analysed(s, f);
      r.min <= s.min && s.max <= r.max
      && (s.min <= 0 <= s.max ==> r.min <= 0 <= r.max)
      && (Classify(s, f) == Consecutive ==> r.min <= NetworkTime(s, f) <= r.max)
      && (Classify(s, f) == Consecutive ==>
            r.min == (if NetworkTime(s, f) < s.min then NetworkTime(s, f) else s.min)
            && r.max == (if NetworkTime(s, f) > s.max then NetworkTime(s, f) else s.max))
      && (Classify(s, f) != Consecutive ==> r.min == s.min && r.max == s.max)
  {
  }

  /** The histogram boundaries as the code has them: -10000 us falls in bucket 0 and is never
      counted, -9000 us in bucket 1; times up to 89999 us reach bucket 99, which is counted;
      truncation puts -999 us in the same bucket as +999 us. */
  lemma TimingsIndexBoundaries()
    ensures TimingsIndex(-10000) == 0 && TimingsIndex(-9999) == 1 && TimingsIndex(-9000) == 1
    ensures TimingsIndex(-999) == 10 && TimingsIndex(999) == 10
    ensures TimingsIndex(89999) == 99 && TimingsIndex(90000) == 100
  {
  }

  // ---------------------------------------------------------------------------------------
  // Sequences of frames

  /** `total` counts the frames carrying the session id, modulo 2^32. */
  lemma {:induction false} TotalCountsAccepted(s: Analysis, fs: seq<Frame>)
    requires WellFormed(s)
    ensures AnalysedAll(s, fs).total == Low32(s.total + Accepted(s.id, fs))
  {
    if fs != [] {
      var init, last := fs[..|fs| - 1], fs[|fs| - 1];
      TotalCountsAccepted(s, init);
      TotalCountsAcceptedFrames(AnalysedAll(s, init), last);
      if last.id == s.id {
        Low32AddOne(s.total + Accepted(s.id, init));
      }
    }
  }

  /** The histogram never gains more samples than frames accepted. */
  lemma {:induction false} HistogramBoundedByAccepted(s: Analysis, fs: seq<Frame>)
    requires WellFormed(s)
    ensures Sum(AnalysedAll(s, fs).timings) <= Sum(s.timings) + Accepted(s.id, fs)
  {
    if fs != [] {
      var init, last := fs[..|fs| - 1], fs[|fs| - 1];
      HistogramBoundedByAccepted(s, init);
      var mid := AnalysedAll(s, init);
      HistogramOnlyOnConsecutive(mid, last);
      TotalCountsAcceptedFrames(mid, last);
    }
  }

  /** From a fresh analyser: the histogram sum never exceeds the number of accepted frames,
      which `total` holds exactly while it is below 2^32. */
  lemma FreshHistogramBoundedByTotal(id: u32, fs: seq<Frame>)
    requires Accepted(id, fs) < TWO_32
    ensures var r := AnalysedAll(Initial(id), fs);
      r.total == Accepted(id, fs) && Sum(r.timings) <= r.total
  {
    TotalCountsAccepted(Initial(id), fs);
    HistogramBoundedByAccepted(Initial(id), fs);
  }

  /** `min <= 0 <= max` holds after any sequence of frames from a fresh analyser. */
  lemma {:induction false} ExtremesBracketZero(s: Analysis, fs: seq<Frame>)
    requires WellFormed(s) && s.min <= 0 <= s.max
    ensures AnalysedAll(s, fs).min <= 0 <= AnalysedAll(s, fs).max
  {
    if fs != [] {
      ExtremesBracketZero(s, fs[..|fs| - 1]);
      ExtremesBracketSamples(AnalysedAll(s, fs[..|fs| - 1]), fs[|fs| - 1]);
    }
  }

  /** Frames of the session numbered `first`, `first + 1`, ... lose nothing: `missed` stays 0,
      `total` counts them all and the last of them is the last frame. */
  lemma {:induction false} ConsecutiveFramesMissNothing(id: u32, first: u32, fs: seq<Frame>)
    requires |fs| > 0 && first + |fs| <= TWO_32
    requires forall k :: 0 <= k < |fs| ==> fs[k].id == id && fs[k].frame == first + k
    ensures var r := AnalysedAll(Initial(id), fs);
      r.missed == 0 && r.total == Low32(|fs|) && r.lastFrame == first + |fs| - 1
  {
    var init := fs[..|fs| - 1];
    var last := fs[|fs| - 1];
    if |init| > 0 {
      forall k | 0 <= k < |init| ensures init[k].id == id && init[k].frame == first + k {
        assert init[k] == fs[k];
      }
      ConsecutiveFramesMissNothing(id, first, init);
      var mid := AnalysedAll(Initial(id), init);
      assert last.frame == mid.lastFrame + 1;
      assert AnalysedAll(Initial(id), fs) == Analysed(mid, last);
    }
  }

  /** Frames 100, 101, 106 of session 7: four frames missed, three counted, and one sample,
      taken for 101 (300 us one-way, bucket 10). */
  lemma GapExample()
    ensures var r := AnalysedAll(Initial(7),
      [Frame(7, 100, 1000, 5000), Frame(7, 101, 11000, 15300), Frame(7, 106, 61000, 65000)]);
      r.missed == 4 && r.total == 3 && r.lastFrame == 106
      && r.timings == Initial(7).timings[10 := 1] && r.max == 300 && r.min == 0
  {
    var f1, f2, f3 := Frame(7, 100, 1000, 5000), Frame(7, 101, 11000, 15300), Frame(7, 106, 61000, 65000);
    var s0 := Initial(7);
    var s1 := Analysed(s0, f1);
    assert s1.total == 1 && s1.lastFrame == 100 && s1.txTimebase == 1000 && s1.rxTimebase == 5000;
    assert NetworkTime(s1, f2) == 300;
    assert TimingsIndex(300) == 10;
    var s2 := Analysed(s1, f2);
    assert s2.timings == s0.timings[10 := 1] && s2.max == 300 && s2.min == 0 && s2.missed == 0;
    var s3 := Analysed(s2, f3);
    assert s3.missed == 4 && s3.total == 3 && s3.timings == s2.timings;
    AnalysedAll3(s0, f1, f2, f3);
  }

  /** Three consecutive frames of session 7 with 300 us and 0 us one-way times: nothing
      missed, three counted, bucket 10 holds both samples. */
  lemma ConsecutiveExample()
    ensures var r := AnalysedAll(Initial(7),
      [Frame(7, 0, 1000, 5000), Frame(7, 1, 11000, 15300), Frame(7, 2, 21000, 25000)]);
      r.missed == 0 && r.total == 3 && r.timings == Initial(7).timings[10 := 2]
  {
    var f1, f2, f3 := Frame(7, 0, 1000, 5000), Frame(7, 1, 11000, 15300), Frame(7, 2, 21000, 25000);
    var s0 := Initial(7);
    var s1 := Analysed(s0, f1);
    assert s1.total == 1 && s1.lastFrame == 0 && s1.txTimebase == 1000 && s1.rxTimebase == 5000;
    assert NetworkTime(s1, f2) == 300;
    assert TimingsIndex(300) == 10;
    var s2 := Analysed(s1, f2);
    assert s2.timings == s0.timings[10 := 1] && s2.missed == 0 && s2.lastFrame == 1;
    assert NetworkTime(s2, f3) == 0;
    assert TimingsIndex(0) == 10;
    var s3 := Analysed(s2, f3);
    assert s3.timings == s0.timings[10 := 2];
    AnalysedAll3(s0, f1, f2, f3);
  }

  lemma AnalysedAll3(s: Analysis, f1: Frame, f2: Frame, f3: Frame)
    requires WellFormed(s)
    ensures AnalysedAll(s, [f1, f2, f3]) == Analysed(Analysed(Analysed(s, f1), f2), f3)
  {
    AnalysedAllSnoc(s, [], f1);
    assert [] + [f1] == [f1];
    AnalysedAllSnoc(s, [f1], f2);
    assert [f1] + [f2] == [f1, f2];
    AnalysedAllSnoc(s, [f1, f2], f3);
    assert [f1, f2] + [f3] == [f1, f2, f3];
  }

  lemma AnalysedAllSnoc(s: Analysis, fs: seq<Frame>, f: Frame)
    requires WellFormed(s)
    ensures AnalysedAll(s, fs + [f]) == Analysed(AnalysedAll(s, fs), f)
  {
    assert (fs + [f])[..|fs|] == fs;
  }

  // ---------------------------------------------------------------------------------------
  // The object the code updates in place

  class ReceiverThread {
    const analyse: bool
    const id: u32
    var total: u32
    var missed: u32
    var max: i32
    var min: i32
    var timings: array<u32>
    var lastFrame: u32
    var lastTx: u32
    var lastRx: u32
    var txTimebase: u32
    var rxTimebase: u32

    ghost predicate Valid()
      reads this
    {
      timings.Length == BUCKETS
    }

    /** The analyser state the fields hold. */
    function State(): (s: Analysis)
      reads this, timings
      requires Valid()
      ensures WellFormed(s) && s.id == id
    {
      Analysis(id, total, missed, max, min, timings[..], lastFrame, lastTx, lastRx,
               txTimebase, rxTimebase)
    }

    /** The data connection and the reading thread are not part of this model. */
    constructor (analyse: bool, id: u32)
      ensures Valid() && fresh(timings)
      ensures this.analyse == analyse
      ensures State() == Initial(id)
    {
      this.analyse := analyse;
      this.id := id;
      total, missed, max, min := 0, 0, 0, 0;
      lastFrame, lastTx, lastRx, txTimebase, rxTimebase := 0, 0, 0, 0, 0;
      var zeroed := new u32[BUCKETS];
      for i := 0 to BUCKETS
        invariant forall j :: 0 <= j < i ==> zeroed[j] == 0
      {
        zeroed[i] := 0;
      }
      timings := zeroed;
      new;
      assert timings[..] == Initial(id).timings;
    }

    /** The rows `ReportTimings` prints: each bucket's label i-10 (the whole milliseconds,
        truncated toward zero, of the times it counts) with its count, then
        `total` and `missed`. `%d` prints the unsigned counters as signed values. */
    method ReportTimings() returns (rows: seq<(int, i32)>, totalShown: i32, missedShown: i32)
      requires Valid()
      ensures |rows| == BUCKETS
      ensures forall i :: 0 <= i < BUCKETS ==> rows[i] == (i - BUCKET_OFFSET, AsSigned(timings[i]))
      ensures totalShown == AsSigned(total) && missedShown == AsSigned(missed)
    {
      rows := [];
      for i := 0 to BUCKETS
        invariant |rows| == i
        invariant forall j :: 0 <= j < i ==> rows[j] == (j - BUCKET_OFFSET, AsSigned(timings[j]))
      {
        rows := rows + [(i - BUCKET_OFFSET, AsSigned(timings[i]))];
      }
      totalShown := AsSigned(total);
      missedShown := AsSigned(missed);
    }

    /** `ReceiverThread::Analyse`: one decoded frame, the fields updated in place. */
    method Analyse(aId: u32, aFrame: u32, aTx: u32, aRx: u32)
      requires Valid()
      modifies this, timings
      ensures Valid() && timings == old(timings)
      ensures State() == Analysed(old(State()), Frame(aId, aFrame, aTx, aRx))
    {
      ghost var s, f := State(), Frame(aId, aFrame, aTx, aRx);
      if aId != id {
        return;
      }
      if total == 0 {
        txTimebase := aTx;
        rxTimebase := aRx;
        lastFrame := aFrame;
        lastTx := 0;
        lastRx := 0;
        total := Low32(total + 1);
        return;
      }
      var txTimestamp := Low32(aTx - txTimebase);
      var rxTimestamp := Low32(aRx - rxTimebase);
      if aFrame < lastFrame {
        // out of order: reported only
        assert Classify(s, f) == OutOfOrder;
      } else if aFrame == lastFrame {
        // repeated: reported only
        assert Classify(s, f) == Repeated;
      } else {
        var missedNow := aFrame - lastFrame - 1;
        if missedNow > 0 {
          missed := Low32(missed + missedNow);
        } else {
          var networkTime := AsSigned(Low32(rxTimestamp as int - txTimestamp));
          assert networkTime == NetworkTime(s, f);
          Sample(networkTime);
          assert State() == Sampled(s, NetworkTime(s, f)).(lastFrame := s.lastFrame);
        }
      }
      lastFrame := aFrame;
      lastTx := txTimestamp;
      lastRx := rxTimestamp;
      total := Low32(total + 1);
    }

    /** The consecutive-frame branch of `Analyse`: the histogram bucket and the extremes. */
    method Sample(networkTime: i32)
      requires Valid()
      modifies this`max, this`min, timings
      ensures Valid() && State() == Sampled(old(State()), networkTime)
    {
      var networkTimeMs := TruncDiv(networkTime, 1000);
      var timingsIndex := networkTimeMs + 10;
      if timingsIndex > 0 && timingsIndex < 100 {
        timings[timingsIndex] := Low32(timings[timingsIndex] as int + 1);
      }
      if networkTime > max {
        max := networkTime;
      }
      if networkTime < min {
        min := networkTime;
      }
    }

    /** `ReceiverThread::Run` over everything the data connection delivers before it closes:
        each whole 16-byte entry is decoded and analysed, or, when not analysing, collected as
        the raw line it would print. */
    method Run(stream: seq<u8>) returns (printed: seq<Frame>)
      requires Valid()
      modifies this, timings
      ensures Valid() && timings == old(timings)
      ensures analyse ==> printed == [] && State() == AnalysedAll(old(State()), Records(stream))
      ensures !analyse ==> printed == Records(stream) && State() == old(State())
    {
      printed := [];
      ghost var records := Records(stream);
      var k := 0;
      while 16 * k + 16 <= |stream|
        invariant 0 <= k <= |stream| / 16
        invariant Valid() && timings == old(timings)
        invariant analyse ==> printed == [] && State() == AnalysedAll(old(State()), records[..k])
        invariant !analyse ==> printed == records[..k] && State() == old(State())
        decreases |stream| - 16 * k
      {
        var f := DecodeRecord(stream[16 * k .. 16 * k + 16]);
        assert f == records[k];
        assert records[..k + 1] == records[..k] + [f];
        if analyse {
          AnalysedAllSnoc(old(State()), records[..k], f);
          Analyse(f.id, f.frame, f.tx, f.rx);
        } else {
          printed := printed + [f];
        }
        k := k + 1;
      }
      assert records[..k] == records;
    }
  }
}
