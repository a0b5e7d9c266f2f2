/** The sending half of the JavaScript endpoint (OpenHome/ohNetmon.js): the control-connection
    handler that parses `start` and `stop`, and `txSend`, which the send interval calls to emit
    one numbered, timestamped datagram. */
module Sender {
  import opened Wrappers
  import opened Bytes
  import opened Text

  /** A JavaScript number as this endpoint's parsing can produce it. */
  datatype JsNum = Num(value: int) | NaN

  /** `parseInt` on a field: the value of a non-empty string of decimal digits; anything else
      is taken as `NaN` (see README for the parsing this leaves out). */
  function ParseInt(s: string): (n: JsNum)
    ensures n.Num? <==> IsNumeral(s)
    ensures n.Num? ==> n.value >= 0
  {
    if IsNumeral(s) then Num(ValueOf(s)) else NaN
  }

  lemma ParseIntOfDecimal(m: nat)
    ensures ParseInt(Decimal(m)) == Num(m)
  {
    ValueOfDecimal(m);
  }

  /** `a == v`: `NaN` equals nothing. */
  predicate Is(a: JsNum, v: int) { a.Num? && a.value == v }
  /** `a < v`: false for `NaN`. */
  predicate Below(a: JsNum, v: int) { a.Num? && a.value < v }
  /** `a > v`: false for `NaN`. */
  predicate Above(a: JsNum, v: int) { a.Num? && a.value > v }

  /** `a >>> 0`, the unsigned 32 bits the byte extraction `(a >>> k) & 0xFF` works on. */
  function ToUint32(a: JsNum): (r: u32)
    ensures a.NaN? ==> r == 0
    ensures a.Num? ==> (a.value - r) % TWO_32 == 0
  {
    match a
    case Num(v) => Low32(v)
    case NaN => 0
  }

  /** `~~(d / 1000)`: microseconds to whole milliseconds, truncated, as a signed 32-bit value. */
  function DelayMs(d: JsNum): (r: JsNum)
    ensures r.Num? && -TWO_31 <= r.value < TWO_31
    ensures d.NaN? ==> r == Num(0)
    ensures d.Num? && 0 <= d.value < 1000 * TWO_31 ==> r == Num(TruncDiv(d.value, 1000))
  {
    match d
    case Num(v) => Num(AsSigned(Low32(TruncDiv(v, 1000))))
    case NaN => Num(0)
  }

  /** The `tx*` globals the `start` handler assigns. */
  datatype TxConfig = TxConfig(
    port: JsNum, address: string, id: JsNum, count: JsNum, bytes: JsNum, delay: JsNum, ttl: JsNum)

  /** The globals after the `start` handler's checks, and the first check that failed. */
  datatype Checked = Checked(config: TxConfig, error: Option<string>)

  /** The `start` handler's check chain. Each field is parsed and assigned just before it is
      checked, so a rejected `start` keeps the assignments made before the failing check. */
  function CheckStart(cfg: TxConfig, parts: seq<string>): (r: Checked)
    requires |parts| >= 1
    ensures |parts| != 7 || |Split(parts[1], ':')| != 2 ==> r.config == cfg && r.error.Some?
    ensures r.error.Some? ==> r.config.ttl == cfg.ttl
  {
    if |parts| != 7 then Checked(cfg, Some("Invalid number of arguments for start command\n"))
    else
      var aparts := Split(parts[1], ':');
      if |aparts| != 2 then Checked(cfg, Some("Invalid endpoint specified\n"))
      else
        CheckId(cfg.(port := ParseInt(aparts[1]), address := aparts[0], id := ParseInt(parts[2])),
                parts)
  }

  /** From the id check on: the endpoint and the id are already assigned. */
  function CheckId(c: TxConfig, parts: seq<string>): (r: Checked)
    requires |parts| == 7
    ensures r.config.port == c.port && r.config.address == c.address && r.config.id == c.id
    ensures Is(c.id, 0) ==> r.config == c && r.error.Some?
    ensures r.error.Some? ==> r.config.ttl == c.ttl
  {
    if Is(c.id, 0) then Checked(c, Some("Id must be non-zero"))
    else CheckBytes(c.(count := ParseInt(parts[3]), bytes := ParseInt(parts[4])), parts)
  }

  /** From the size checks on: the count and the size are already assigned. */
  function CheckBytes(c: TxConfig, parts: seq<string>): (r: Checked)
    requires |parts| == 7
    ensures r.config == c.(delay := r.config.delay, ttl := r.config.ttl)
    ensures Below(c.bytes, 12) || Above(c.bytes, 65536) ==> r.config == c && r.error.Some?
    ensures r.error.Some? ==> r.config.ttl == c.ttl
  {
    if Below(c.bytes, 12) then
      Checked(c, Some("Specified txBytes less than minimum of 12"))
    else if Above(c.bytes, 65536) then
      Checked(c, Some("Specified txBytes greater than maximum of 65536"))
    else CheckDelay(c.(delay := ParseInt(parts[5])), parts)
  }

  /** The delay checks: not 0 microseconds, then not 0 once converted to milliseconds. */
  function CheckDelay(c: TxConfig, parts: seq<string>): (r: Checked)
    requires |parts| == 7
    ensures r.config == c.(delay := r.config.delay, ttl := r.config.ttl)
    ensures r.error == None <==> !Is(c.delay, 0) && !Is(DelayMs(c.delay), 0)
    ensures r.error == None ==> r.config.delay == DelayMs(c.delay) && r.config.ttl == ParseInt(parts[6])
    ensures r.error.Some? ==> r.config.ttl == c.ttl
  {
    if Is(c.delay, 0) then Checked(c, Some("Delay must be non-zero"))
    else
      var converted := c.(delay := DelayMs(c.delay));
      if Is(converted.delay, 0) then
        Checked(converted, Some("Delay must be no less than 1ms for this sender"))
      else Checked(converted.(ttl := ParseInt(parts[6])), None)
  }

  /** With numeric fields, `start` is accepted exactly when it has seven parts, the endpoint has
      one colon, the id is not 0, the size is 12 to 65536 bytes and the delay is at least one
      whole millisecond (modulo 2^32, as `~~` wraps); it then holds every field. */
  lemma NumericStartAccepted(cfg: TxConfig, parts: seq<string>)
    requires |parts| == 7
    requires IsNumeral(parts[2]) && IsNumeral(parts[3]) && IsNumeral(parts[4])
    requires IsNumeral(parts[5]) && IsNumeral(parts[6])
    ensures var checked := CheckStart(cfg, parts);
      var id, count, bytes := ValueOf(parts[2]), ValueOf(parts[3]), ValueOf(parts[4]);
      var delay, ttl := ValueOf(parts[5]), ValueOf(parts[6]);
      var aparts := Split(parts[1], ':');
      (checked.error == None <==>
        |aparts| == 2 && id != 0 && 12 <= bytes <= 65536 && Low32(delay / 1000) != 0)
      && (checked.error == None ==>
        checked.config == TxConfig(ParseInt(aparts[1]), aparts[0], Num(id), Num(count), Num(bytes),
                                   Num(AsSigned(Low32(delay / 1000))), Num(ttl)))
  {
    var delay := ValueOf(parts[5]);
    assert TruncDiv(delay, 1000) == delay / 1000;
    var ms := AsSigned(Low32(delay / 1000));
    assert ms == 0 <==> Low32(delay / 1000) == 0;
    assert delay == 0 ==> Low32(delay / 1000) == 0;
  }

  /** A rejected `start` leaves exactly the globals it had assigned before the failing check,
      and every later one as it was: the first two checks assign nothing, a bad id follows the
      port, address and id, a bad size also the count and size, a zero delay also the parsed
      delay, and a delay under one millisecond leaves the converted delay. Only an accepted
      `start` assigns the ttl. */
  lemma RejectedStartKeepsAssignments(cfg: TxConfig, parts: seq<string>)
    requires |parts| >= 1
    ensures var r := CheckStart(cfg, parts);
      if |parts| != 7 then
        r == Checked(cfg, Some("Invalid number of arguments for start command\n"))
      else if |Split(parts[1], ':')| != 2 then
        r == Checked(cfg, Some("Invalid endpoint specified\n"))
      else
        var aparts := Split(parts[1], ':');
        var c1 := cfg.(port := ParseInt(aparts[1]), address := aparts[0], id := ParseInt(parts[2]));
        var c2 := c1.(count := ParseInt(parts[3]), bytes := ParseInt(parts[4]));
        var c3 := c2.(delay := ParseInt(parts[5]));
        var c4 := c3.(delay := DelayMs(c3.delay));
        if Is(c1.id, 0) then r == Checked(c1, Some("Id must be non-zero"))
        else if Below(c2.bytes, 12) then
          r == Checked(c2, Some("Specified txBytes less than minimum of 12"))
        else if Above(c2.bytes, 65536) then
          r == Checked(c2, Some("Specified txBytes greater than maximum of 65536"))
        else if Is(c3.delay, 0) then r == Checked(c3, Some("Delay must be non-zero"))
        else if Is(c4.delay, 0) then
          r == Checked(c4, Some("Delay must be no less than 1ms for this sender"))
        else r == Checked(c4.(ttl := ParseInt(parts[6])), None)
  {
  }

  /** `parseInt` never throws, so a non-numeric field is not caught: a non-numeric id or size
      passes every check (`NaN` compares false), while a non-numeric delay is refused only by
      the whole-millisecond check. */
  lemma NonNumericFields(cfg: TxConfig)
    ensures CheckStart(cfg, ["start", "h:1", "x", "0", "12", "10000", "1"]).error == None
    ensures CheckStart(cfg, ["start", "h:1", "7", "0", "x", "10000", "1"]).error == None
    ensures CheckStart(cfg, ["start", "h:1", "7", "0", "12", "x", "1"]).error
      == Some("Delay must be no less than 1ms for this sender")
  {
    EndpointSplits();
    SampleFieldValues();
  }

  lemma SampleFieldValues()
    ensures ParseInt("x") == NaN && ParseInt("7") == Num(7) && ParseInt("12") == Num(12)
    ensures ParseInt("10000") == Num(10000)
  {
    assert !IsDigit("x"[0]);
    assert "7" == Decimal(7);
    ParseIntOfDecimal(7);
    assert "12" == Decimal(12);
    ParseIntOfDecimal(12);
    assert "10000" == Decimal(10000);
    ParseIntOfDecimal(10000);
  }

  lemma EndpointSplits()
    ensures Split("h:1", ':') == ["h", "1"]
  {
    assert "h:1" == Join(["h", "1"], ':');
    SplitJoin(["h", "1"], ':');
  }

  /** The twelve zero bytes sent when a run ends. */
  const SENTINEL: seq<u8> := [0, 0, 0, 0, 0, 0, 0, 0, 0, 0, 0, 0]

  datatype Datagram = Datagram(payload: seq<u8>, port: JsNum, address: string)

  /** The length of `new Buffer(txBytes)`: a size that is not a number gives an empty buffer. */
  function BufferLength(bytes: JsNum): (n: nat)
    ensures bytes.Num? && bytes.value >= 0 ==> n == bytes.value
    ensures n > 0 ==> bytes == Num(n)
  {
    match bytes
    case Num(n) => if n < 0 then 0 else n
    case NaN => 0
  }

  /** The datagram `txSend` builds: a zero-filled buffer of `txBytes` bytes whose first twelve
      bytes are the id, the frame number and the send time, each as 32 bits big-endian.
      Writes beyond a shorter buffer are dropped, as Node's buffers drop them. */
  function Message(id: JsNum, frame: nat, clock: nat, bytes: JsNum): (m: seq<u8>)
    ensures |m| == BufferLength(bytes)
    ensures |m| >= 12 ==>
      m[0..4] == BigEndian(ToUint32(id)) && m[4..8] == BigEndian(Low32(frame))
      && m[8..12] == BigEndian(Low32(clock))
    ensures forall i :: 12 <= i < |m| ==> m[i] == 0
  {
    var header := BigEndian(ToUint32(id)) + BigEndian(Low32(frame)) + BigEndian(Low32(clock));
    seq(BufferLength(bytes), i requires 0 <= i < BufferLength(bytes) =>
      if i < 12 then header[i] else 0)
  }

  /** `txCount` after one send: a count of 0 means unbounded and stays 0; otherwise it drops by one. */
  function CountAfterSend(count: JsNum): (c: JsNum)
    ensures Is(count, 0) || count.NaN? ==> c == count
    ensures count.Num? && count.value != 0 ==> c == Num(count.value - 1)
  {
    if Is(count, 0) then count
    else match count
      case Num(n) => Num(n - 1)
      case NaN => NaN
  }

  /** Whether this send is the last of a counted run. */
  predicate LastSend(count: JsNum): (last: bool)
    ensures last <==> count == Num(1)
  {
    !Is(count, 0) && Is(CountAfterSend(count), 0)
  }

  /** `txCount` after `k` sends. */
  function CountAfter(count: JsNum, k: nat): JsNum {
    if k == 0 then count else CountAfterSend(CountAfter(count, k - 1))
  }

  /** A run of `n > 0` frames stops exactly at its `n`-th send; a count of 0 or `NaN` never
      stops by itself. */
  lemma {:induction false} CountedRunStops(n: nat, k: nat)
    requires n > 0 && k < n
    ensures CountAfter(Num(n), k) == Num(n - k)
    ensures LastSend(CountAfter(Num(n), k)) <==> k == n - 1
  {
    if k > 0 {
      CountedRunStops(n, k - 1);
    }
  }

  lemma {:induction false} UnboundedRunNeverStops(count: JsNum, k: nat)
    requires count == Num(0) || count == NaN
    ensures CountAfter(count, k) == count && !LastSend(CountAfter(count, k))
  {
    if k > 0 {
      UnboundedRunNeverStops(count, k - 1);
    }
  }

  /** The control connection's reply: `OK`, or `txError`'s `ERROR <message>`, then a line feed. */
  function Reply(error: Option<string>): (r: string)
    ensures |r| >= 3 && r[|r| - 1] == '\n'
    ensures error == None <==> r[..3] == "OK\n"
    ensures error.Some? ==> r == "ERROR " + error.value + "\n"
  {
    match error
    case None => "OK\n"
    case Some(message) =>
      var r := "ERROR " + message + "\n";
      assert r[0] == 'E';
      r
  }

  /** `data.substring(0, data.length - 1)`: the received text without its last character. */
  function StripLast(data: string): (r: string)
    ensures |data| > 0 ==> data == r + [data[|data| - 1]]
    ensures |data| == 0 ==> r == ""
  {
    if |data| == 0 then "" else data[..|data| - 1]
  }

  const UNRECOGNISED := "Urecognised command"

  /** The endpoint's `tx*` globals. `started` is `txStarted`; the send interval runs exactly
      while it is set, since `start` sets both and `stop` and the end of a counted run clear
      both. */
  class TxServer {
    var port: JsNum
    var address: string
    var id: JsNum
    var count: JsNum
    var bytes: JsNum
    var delay: JsNum
    var ttl: JsNum
    var started: bool
    var frame: nat

    function Config(): TxConfig
      reads this
    {
      TxConfig(port, address, id, count, bytes, delay, ttl)
    }

    /** The globals start undefined, which every use here treats as `NaN` does. */
    constructor ()
      ensures Config() == TxConfig(NaN, "", NaN, NaN, NaN, NaN, NaN)
      ensures !started && frame == 0
    {
      port, address, id, count, bytes, delay, ttl := NaN, "", NaN, NaN, NaN, NaN, NaN;
      started, frame := false, 0;
    }

    /** The assignments the `start` handler makes to the `tx*` globals. */
    method SetConfig(c: TxConfig)
      modifies this
      ensures Config() == c && started == old(started) && frame == old(frame)
    {
      port, address, id, count := c.port, c.address, c.id, c.count;
      bytes, delay, ttl := c.bytes, c.delay, c.ttl;
    }

    /** The control connection's `data` handler for one received line. */
    method OnData(data: string) returns (reply: string, sent: seq<Datagram>)
      modifies this
      ensures var parts := Split(StripLast(data), ' ');
        if parts[0] == "start" then
          var checked := CheckStart(old(Config()), parts);
          Config() == checked.config && reply == Reply(checked.error) && sent == []
          && (checked.error == None ==> started && frame == 0)
          && (checked.error != None ==> started == old(started) && frame == old(frame))
        else if parts[0] == "stop" then
          Config() == old(Config()) && reply == Reply(None) && !started && frame == old(frame)
          && sent == (if old(started) then [Datagram(SENTINEL, port, address)] else [])
        else
          Config() == old(Config()) && reply == Reply(Some(UNRECOGNISED)) && sent == []
          && started == old(started) && frame == old(frame)
    {
      var parts := Split(StripLast(data), ' ');
      sent := [];
      if parts[0] == "start" {
        var checked := CheckStart(Config(), parts);
        SetConfig(checked.config);
        match checked.error {
          case Some(message) =>
            reply := Reply(Some(message));
          case None =>
            reply := Reply(None);
            started := true;
            frame := 0;
        }
      } else if parts[0] == "stop" {
        if started {
          started := false;
          sent := [Datagram(SENTINEL, port, address)];
        }
        reply := Reply(None);
      } else {
        reply := Reply(Some(UNRECOGNISED));
      }
    }

    /** `txSend`, called by the send interval: one datagram with the next frame number and the
        send time, and at the end of a counted run the twelve-byte zero sentinel as well. */
    method Send(clock: nat) returns (sent: seq<Datagram>)
      requires started
      modifies this
      ensures frame == old(frame) + 1
      ensures Config() == old(Config()).(count := CountAfterSend(old(count)))
      ensures started == !LastSend(old(count))
      ensures sent == [Datagram(Message(id, old(frame), clock, bytes), port, address)]
        + (if LastSend(old(count)) then [Datagram(SENTINEL, port, address)] else [])
    {
      var message := Message(id, frame, clock, bytes);
      sent := [Datagram(message, port, address)];
      frame := frame + 1;
      if !Is(count, 0) {
        count := CountAfterSend(count);
        if Is(count, 0) {
          started := false;
          sent := sent + [Datagram(SENTINEL, port, address)];
        }
      }
    }
  }
}
