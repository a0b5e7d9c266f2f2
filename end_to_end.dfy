/** How the three parts fit together: the `start` line the measuring client builds is parsed by
    the sender endpoint, its reply is judged by the client, each datagram the sender emits is
    queued by the receiver endpoint, and the entry streamed back decodes to the sent fields. */
module EndToEnd {
  import opened Wrappers
  import opened Bytes
  import opened Text
  import opened FrameCodec
  import opened Analyser
  import opened Control
  import opened Sender
  import opened Receiver

  /** The client judges the sender's replies as meant: `OK` accepts, every `ERROR` refuses. */
  lemma ReplyAccepted(error: Option<string>)
    ensures StartAccepted(Reply(error)) <==> error == None
  {
    match error {
      case None =>
        StartAcceptedIff("OK\n");
      case Some(message) =>
        assert Reply(error) == "ERROR " + (message + "\n");
        ErrorRepliesRejected(message + "\n");
    }
  }

  /** The sender splits the client's `start` line back into its seven fields. */
  lemma StartLineSplits(address: string, port: u32, args: SessionArgs)
    requires ' ' !in address && ':' !in address
    ensures Split(StripLast(StartRequest(address, port, args)), ' ')
      == StartFields(address, port, args)
    ensures Split(StartFields(address, port, args)[1], ':') == [address, Decimal(port)]
  {
    var fields := StartFields(address, port, args);
    StartRequestIsJoinedFields(address, port, args);
    var joined := Join(fields, ' ');
    assert StripLast(joined + "\n") == joined;
    FieldsHaveNoSpace(address, port, args);
    SplitJoin(fields, ' ');
    EndpointFieldSplits(address, port);
  }

  /** The endpoint field splits on its one colon into the address and the port numeral. */
  lemma EndpointFieldSplits(address: string, port: u32)
    requires ':' !in address
    ensures Split(address + ":" + Decimal(port), ':') == [address, Decimal(port)]
  {
    DecimalHasNoSeparator(port);
    assert Join([address, Decimal(port)], ':') == address + ":" + Decimal(port);
    SplitJoin([address, Decimal(port)], ':');
  }

  lemma FieldsHaveNoSpace(address: string, port: u32, args: SessionArgs)
    requires ' ' !in address
    ensures forall k :: 0 <= k < 7 ==> ' ' !in StartFields(address, port, args)[k]
  {
    var fields := StartFields(address, port, args);
    DecimalHasNoSeparator(port);
    DecimalHasNoSeparator(args.id);
    DecimalHasNoSeparator(args.count);
    DecimalHasNoSeparator(args.bytes);
    DecimalHasNoSeparator(args.delay);
    DecimalHasNoSeparator(args.ttl);
    assert ' ' !in "start" by {
      assert forall k :: 0 <= k < 5 ==> "start"[k] != ' ';
    }
    var endpoint := address + ":" + Decimal(port);
    assert ' ' !in endpoint by {
      forall k | 0 <= k < |endpoint| ensures endpoint[k] != ' ' {
        if k < |address| {
          assert endpoint[k] == address[k];
        } else if k > |address| {
          assert endpoint[k] == Decimal(port)[k - |address| - 1];
        }
      }
    }
  }

  /** For the `start` line the client sends, the sender accepts exactly when the id is not 0,
      the size is 12 to 65536 bytes and the delay is at least 1000 microseconds, and then holds
      the client's values, the delay converted to whole milliseconds. */
  lemma StartLineAccepted(cfg: TxConfig, address: string, port: u32, args: SessionArgs)
    requires ' ' !in address && ':' !in address
    ensures var parts := Split(StripLast(StartRequest(address, port, args)), ' ');
      var checked := CheckStart(cfg, parts);
      parts[0] == "start"
      && (checked.error == None <==>
            args.id != 0 && 12 <= args.bytes <= 65536 && args.delay >= 1000)
      && (checked.error == None ==>
            checked.config == TxConfig(Num(port), address, Num(args.id), Num(args.count),
                                       Num(args.bytes), Num(args.delay / 1000), Num(args.ttl)))
  {
    StartLineSplits(address, port, args);
    FieldsAccepted(cfg, address, port, args);
  }

  lemma FieldsAccepted(cfg: TxConfig, address: string, port: u32, args: SessionArgs)
    requires Split(StartFields(address, port, args)[1], ':') == [address, Decimal(port)]
    ensures var checked := CheckStart(cfg, StartFields(address, port, args));
      (checked.error == None <==>
        args.id != 0 && 12 <= args.bytes <= 65536 && args.delay >= 1000)
      && (checked.error == None ==>
        checked.config == TxConfig(Num(port), address, Num(args.id), Num(args.count),
                                   Num(args.bytes), Num(args.delay / 1000), Num(args.ttl)))
  {
    var parts := StartFields(address, port, args);
    NumericStartAccepted(cfg, parts);
    ValueOfDecimal(args.id);
    ValueOfDecimal(args.count);
    ValueOfDecimal(args.bytes);
    ValueOfDecimal(args.delay);
    ValueOfDecimal(args.ttl);
    ParseIntOfDecimal(port);
    DelayConversion(args.delay);
  }

  /** A 32-bit count of microseconds converts to milliseconds without wrapping. */
  lemma DelayConversion(delay: u32)
    ensures Low32(delay / 1000) == delay / 1000
    ensures AsSigned(Low32(delay / 1000)) == delay / 1000
    ensures delay / 1000 != 0 <==> delay >= 1000
  {
    var ms := delay / 1000;
    var signed := AsSigned(Low32(ms));
    assert signed >= 0;
    assert Low32(signed) == signed;
  }

  /** Once both checks are combined, a session runs exactly when the sender accepts its
      arguments: the client alone lets through a size under 12 or over 65536 bytes and a delay
      under 1000 microseconds, and such a session is then refused by the sender's reply. */
  lemma SessionRunsIffSenderAccepts(cfg: TxConfig, address: string, port: u32, args: SessionArgs)
    requires ' ' !in address && ':' !in address
    ensures var checked := CheckStart(cfg, Split(StripLast(StartRequest(address, port, args)), ' '));
      SetupSession(args, address, port, Reply(checked.error)).Running?
      <==> args.id != 0 && 12 <= args.bytes <= 65536 && args.delay >= 1000
  {
    var checked := CheckStart(cfg, Split(StripLast(StartRequest(address, port, args)), ' '));
    StartLineAccepted(cfg, address, port, args);
    ReplyAccepted(checked.error);
  }

  /** The `stop` line the client sends reaches the sender's `stop` branch. */
  lemma StopLineRecognised()
    ensures Split(StripLast(STOP_REQUEST), ' ') == ["stop"]
  {
    assert StripLast(STOP_REQUEST) == Join(["stop"], ' ');
    SplitJoin(["stop"], ' ');
  }

  /** A datagram `txSend` emits, queued by the receiver endpoint and decoded by the client's
      reader, gives back the id and frame number as 32 bits, the send time and the arrival
      time, each modulo 2^32. */
  lemma DatagramDecodes(id: JsNum, frame: nat, txClock: nat, bytes: JsNum, rxClock: nat)
    requires BufferLength(bytes) >= 12
    ensures DecodeRecord(MakeEntry(Message(id, frame, txClock, bytes), rxClock))
      == Frame(ToUint32(id), Low32(frame), Low32(txClock), Low32(rxClock))
  {
    var m := Message(id, frame, txClock, bytes);
    var e := MakeEntry(m, rxClock);
    var f := DecodeRecord(e);
    assert e[0..4] == m[0..4];
    assert e[4..8] == m[4..8];
    assert e[8..12] == m[8..12];
    BigEndianInjective(f.id, ToUint32(id));
    BigEndianInjective(f.frame, Low32(frame));
    BigEndianInjective(f.tx, Low32(txClock));
  }

  /** A datagram with a non-zero 32-bit id never ends the report stream. */
  lemma FrameIsNotEndMarker(id: JsNum, frame: nat, txClock: nat, bytes: JsNum, rxClock: nat)
    requires BufferLength(bytes) >= 12 && ToUint32(id) != 0
    ensures !IsEndMarker(MakeEntry(Message(id, frame, txClock, bytes), rxClock))
  {
    var e := MakeEntry(Message(id, frame, txClock, bytes), rxClock);
    DatagramDecodes(id, frame, txClock, bytes, rxClock);
    BigEndianZero(ToUint32(id));
    assert e[..4] == e[0..4];
  }

  /** The sentinel that ends a run, the marker queued after an overflow and an empty datagram
      (what a size that is not a number produces) all give a zero id: each ends the report
      stream when it is dequeued, and a zero id is never a session's id, so the analysis would
      ignore it. */
  lemma ZeroIdsEndTheStream(rxClock: nat)
    ensures IsEndMarker(MakeEntry(SENTINEL, rxClock))
    ensures IsEndMarker(BLOWN)
    ensures IsEndMarker(MakeEntry([], rxClock))
    ensures DecodeRecord(MakeEntry(SENTINEL, rxClock)).id == 0
  {
    var e := MakeEntry(SENTINEL, rxClock);
    assert e[..4] == [0, 0, 0, 0];
    var s := MakeEntry([], rxClock);
    assert s[0] == 0 && s[1] == 0 && s[2] == 0 && s[3] == 0;
    assert s[..4] == [0, 0, 0, 0];
    BigEndianZero(DecodeRecord(e).id);
  }

  /** A session whose id is 0 cannot be started, so the analysis never counts a zero-id entry. */
  lemma ZeroIdIgnored(s: Analysis, f: Frame)
    requires WellFormed(s) && s.id != 0 && f.id == 0
    ensures Analysed(s, f) == s
  {
    TotalCountsAcceptedFrames(s, f);
  }

  /** A concrete session: the line for endpoint 10.0.0.5:9000, id 7, unbounded count, 12-byte
      datagrams, 10000 microseconds apart and ttl 1. */
  lemma ConcreteStartLine()
    ensures StartRequest("10.0.0.5", 9000, SessionArgs(7, 0, 12, 10000, 1))
      == "start 10.0.0.5:9000 7 0 12 10000 1\n"
  {
    ConcreteNumerals();
  }

  /** The sender accepts that line and sends every 10 ms. */
  lemma ConcreteSessionAccepted(cfg: TxConfig)
    ensures var checked := CheckStart(cfg,
        Split(StripLast(StartRequest("10.0.0.5", 9000, SessionArgs(7, 0, 12, 10000, 1))), ' '));
      checked.error == None && checked.config.delay == Num(10)
  {
    var address := "10.0.0.5";
    assert ' ' !in address && ':' !in address;
    StartLineAccepted(cfg, address, 9000, SessionArgs(7, 0, 12, 10000, 1));
  }

  lemma ConcreteNumerals()
    ensures Decimal(9000) == "9000" && Decimal(10000) == "10000"
    ensures Decimal(7) == "7" && Decimal(0) == "0" && Decimal(12) == "12" && Decimal(1) == "1"
  {
    assert Decimal(9) == "9" && Decimal(90) == "90" && Decimal(900) == "900";
    assert Decimal(10) == "10" && Decimal(100) == "100" && Decimal(1000) == "1000";
  }
}
