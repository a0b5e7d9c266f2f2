/** The measuring client's side of the control protocol (`main` in ohNetmon.cpp): the session
    arguments it checks, the `start` line it sends to the sender endpoint, the one-line reply it
    reads back and the `stop` line it sends at the end. */
module Control {
  import opened Wrappers
  import opened Bytes
  import opened Text

  /** The session arguments `main` passes on: all unsigned 32-bit options. */
  datatype SessionArgs = SessionArgs(id: u32, count: u32, bytes: u32, delay: u32, ttl: u32)

  const STOP_REQUEST: string := "stop\n"

  /** The `start` line: `start <address>:<port> <id> <count> <bytes> <delay> <ttl>` and a line
      feed, every number in decimal. The address is formatted by a library not modelled here. */
  function StartRequest(address: string, port: u32, args: SessionArgs): (line: string)
    ensures |line| > 0 && line[|line| - 1] == '\n'
  {
    "start " + address + ":" + Decimal(port)
      + " " + Decimal(args.id) + " " + Decimal(args.count) + " " + Decimal(args.bytes)
      + " " + Decimal(args.delay) + " " + Decimal(args.ttl) + "\n"
  }

  /** The fields of the `start` line, as the sender endpoint splits it on spaces. */
  function StartFields(address: string, port: u32, args: SessionArgs): seq<string> {
    ["start", address + ":" + Decimal(port), Decimal(args.id), Decimal(args.count),
     Decimal(args.bytes), Decimal(args.delay), Decimal(args.ttl)]
  }

  /** The `start` line is exactly its seven fields joined by spaces, then a line feed. */
  lemma StartRequestIsJoinedFields(address: string, port: u32, args: SessionArgs)
    ensures StartRequest(address, port, args)
      == Join(StartFields(address, port, args), ' ') + "\n"
  {
    var f := StartFields(address, port, args);
    JoinSeven(f[0], f[1], f[2], f[3], f[4], f[5], f[6]);
    assert f == [f[0], f[1], f[2], f[3], f[4], f[5], f[6]];
    var p := Decimal(port);
    assert "start " + address + ":" + p == "start" + " " + (address + ":" + p);
  }

  lemma JoinSeven(a: string, b: string, c: string, d: string, e: string, f: string, g: string)
    ensures Join([a, b, c, d, e, f, g], ' ')
      == a + " " + b + " " + c + " " + d + " " + e + " " + f + " " + g
  {
    var p := [a, b, c, d, e, f, g];
    assert p[1..] == [b, c, d, e, f, g];
    assert p[1..][1..] == [c, d, e, f, g];
    assert p[1..][1..][1..] == [d, e, f, g];
    assert p[1..][1..][1..][1..] == [e, f, g];
    assert p[1..][1..][1..][1..][1..] == [f, g];
    assert p[1..][1..][1..][1..][1..][1..] == [g];
    assert Join([f, g], ' ') == f + " " + g;
    assert Join([e, f, g], ' ') == e + " " + (f + " " + g);
    assert Join([d, e, f, g], ' ') == d + " " + (e + " " + (f + " " + g));
    assert Join([c, d, e, f, g], ' ') == c + " " + (d + " " + (e + " " + (f + " " + g)));
    assert Join([b, c, d, e, f, g], ' ')
      == b + " " + (c + " " + (d + " " + (e + " " + (f + " " + g))));
  }

  /** `Srs::ReadUntil('\n')`: the reply up to its first line feed; `None` when the connection
      ends before a line feed arrives. */
  function ReadLine(input: string): (line: Option<string>)
    ensures line.Some? ==>
      '\n' !in line.value && |line.value| < |input| && input[..|line.value| + 1] == line.value + "\n"
    ensures line.None? <==> '\n' !in input
  {
    if |input| == 0 then None
    else if input[0] == '\n' then Some("")
    else match ReadLine(input[1..])
      case None => None
      case Some(rest) => Some([input[0]] + rest)
  }

  /** `main` goes on only when the reply line is exactly `OK`; the reply then starts with
      `OK` and a line feed (StartAcceptedIff gives the converse). */
  predicate StartAccepted(reply: string): (ok: bool)
    ensures ok ==> |reply| >= 3 && reply[..3] == "OK\n"
  {
    ReadLine(reply) == Some("OK")
  }

  lemma {:induction false} StartAcceptedIff(reply: string)
    ensures StartAccepted(reply) <==> |reply| >= 3 && reply[..3] == "OK\n"
  {
    if |reply| >= 3 && reply[..3] == "OK\n" {
      assert reply[0] == 'O' && reply[1] == 'K' && reply[2] == '\n';
      var r1, r2 := reply[1..], reply[2..];
      assert r1[0] == 'K' && r1[1..] == r2 && r2[0] == '\n';
      assert ReadLine(r2) == Some("");
      assert ReadLine(r1) == Some(['K'] + "");
      assert ['K'] + "" == "K";
      assert ReadLine(reply) == Some(['O'] + "K");
      assert ['O'] + "K" == "OK";
    }
    if StartAccepted(reply) {
      var line := ReadLine(reply).value;
      assert reply[..3] == line + "\n";
    }
  }

  /** A reply line other than `OK` aborts the session: an `ERROR` line and an empty line alike.
      A reply with no line feed is not accepted either, but it never reaches the reply check
      (see `SetupSession`). */
  lemma ErrorRepliesRejected(message: string)
    ensures !StartAccepted("ERROR " + message)
    ensures !StartAccepted("\n") && !StartAccepted("")
  {
    StartAcceptedIff("ERROR " + message);
    StartAcceptedIff("\n");
    StartAcceptedIff("");
  }

  /** What `main` does once both endpoints are found and connected. `ReplyLost` is a reply
      connection that closes before a line feed: the reader throws and `main` ends on that
      uncaught error instead of printing the reply and returning 1. */
  datatype Setup =
    | InvalidArguments(message: string)
    | ReplyLost(request: string)
    | StartRefused(request: string, line: string)
    | Running(request: string)

  /** `main` from the id and delay checks to the reply check: an id or a delay of 0 stops before
      anything is sent; otherwise the `start` line is sent, a reply without a line feed is lost,
      and the session runs only when the reply line is `OK`. */
  function SetupSession(args: SessionArgs, address: string, port: u32, reply: string): (r: Setup)
    ensures r.InvalidArguments? <==> args.id == 0 || args.delay == 0
    ensures r.ReplyLost? <==> args.id != 0 && args.delay != 0 && '\n' !in reply
    ensures r.Running? <==> args.id != 0 && args.delay != 0 && StartAccepted(reply)
    ensures r.StartRefused? ==> Some(r.line) == ReadLine(reply) && r.line != "OK"
    ensures !r.InvalidArguments? ==> r.request == StartRequest(address, port, args)
  {
    if args.id == 0 then InvalidArguments("Invalid id")
    else if args.delay == 0 then InvalidArguments("Invalid delay")
    else
      var request := StartRequest(address, port, args);
      match ReadLine(reply)
      case None => ReplyLost(request)
      case Some(line) => if line == "OK" then Running(request) else StartRefused(request, line)
  }

  /** A sender that answers `ERROR bad args` aborts the session with that line: no reader is
      started. A sender that closes the connection without replying loses the reply. */
  lemma BadArgsAbortsSession(address: string, port: u32, args: SessionArgs)
    requires args.id != 0 && args.delay != 0
    ensures SetupSession(args, address, port, "ERROR bad args\n")
      == StartRefused(StartRequest(address, port, args), "ERROR bad args")
    ensures SetupSession(args, address, port, "").ReplyLost?
  {
    var line := "ERROR bad args";
    assert '\n' !in line by {
      assert forall k :: 0 <= k < |line| ==> line[k] != '\n';
    }
    ReadLineOfLine(line, "");
    assert line + "\n" + "" == "ERROR bad args\n";
  }

  /** A line without a line feed, followed by one and anything else, reads back as that line. */
  lemma {:induction false} ReadLineOfLine(line: string, rest: string)
    requires '\n' !in line
    ensures ReadLine(line + "\n" + rest) == Some(line)
  {
    if line != [] {
      ReadLineOfLine(line[1..], rest);
      assert (line + "\n" + rest)[1..] == line[1..] + "\n" + rest;
      assert [line[0]] + line[1..] == line;
    }
  }
}
