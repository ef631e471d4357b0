/** One connection to the engine: round trips over it, and the handshake that opens it. */
module Ipc {
  import opened Options
  import opened Framing

  /** The requests, verbs apart from those of the handshake with their arguments in one. */
  datatype Request = Hello(nonce: string) | HelloProof(proof: string) | DaemonStatus | Verb(name: string, args: string)

  /** A parsed reply; absent fields are `None`. */
  datatype Value = Value(good: bool, error: Option<string>, snonce: Option<string>, proof: Option<string>,
                         version: Option<nat>, body: string)

  datatype Error = Io | Malformed | Server(msg: string)
  datatype Result = Got(value: Value) | Err(error: Error)

  const AUTH_FAILED := "auth_failed"
  const AUTH_UNAVAILABLE := "auth_unavailable"
  const PROTOCOL := 2
  const MAX_REQUEST_BYTES := 64 * 1024
  const MAX_INBOUND_LINE_BYTES: nat := 4 * 1024 * 1024

  predicate IsAuthTerminal(e: Error) {
    e.Server? && (AUTH_FAILED <= e.msg || AUTH_UNAVAILABLE <= e.msg)
  }

  /** Printing and parsing of messages, and the proofs, which are not modelled. */
  datatype Codec = Codec(encode: Request -> Bytes, parse: Bytes -> Option<Value>,
                         clientProof: (string, string) -> string, accepts: (string, string, string, string) -> bool)

  datatype Token = Key | Absent | Broken(why: string)

  /** How an attempt to connect goes: whether the listener accepts, what reading the
      token file and making a nonce give, and how long it takes. */
  datatype Dial = Dial(accepted: bool, token: Token, nonce: Option<string>, took: nat)

  /** How the engine serves a request: with one reply line, delivered in chunks, or
      losing the connection after some of it, or before the request is written. */
  datatype Answer =
    | Replies(line: Bytes, chunks: seq<Bytes>)
    | Cut(line: Bytes, chunks: seq<Bytes>, reset: bool)
    | NotWritten

  /** The engine writes one line per request, and part of a line does not parse. */
  ghost predicate Honest(codec: Codec, a: Answer) {
    a.NotWritten? || (
      && NEWLINE !in a.line && (forall i :: 0 <= i < |a.chunks| ==> a.chunks[i] != [])
      && (a.Replies? ==> Join(a.chunks) == a.line + [NEWLINE])
      && (a.Cut? ==> Join(a.chunks) <= a.line && (Join(a.chunks) != a.line ==> codec.parse(Join(a.chunks)).None?)))
  }

  /** A request handed to a connection, the line the engine answers it with, and what
      arrives of it; `reset` says that a read error follows. */
  datatype Exchange = Exchange(conn: nat, req: Request, line: Option<Bytes>, arrived: Bytes, reset: bool)

  /** A dial once the script is over. */
  const NO_DIAL := Dial(false, Absent, None, 0)

  /** The engine, as far as a client can tell: what it will do, scripted without end
      by refusals once the script is over, and what was asked of it. */
  class Daemon {
    const codec: Codec
    var dials: seq<Dial>
    var answers: seq<Answer>
    var clock: nat
    var dialed: nat
    var live: set<nat>
    var log: seq<Exchange>

    ghost predicate Valid()
      reads this
    {
      && (forall i :: 0 <= i < |answers| ==> Honest(codec, answers[i]))
      && (forall n :: n in live ==> n < dialed)
    }

    constructor (codec: Codec, dials: seq<Dial>, answers: seq<Answer>)
      requires forall i :: 0 <= i < |answers| ==> Honest(codec, answers[i])
      ensures Valid() && log == [] && dialed == 0
    {
      this.codec, this.dials, this.answers := codec, dials, answers;
      clock, dialed, live, log := 0, 0, {}, [];
    }

    /** A `connect` on the socket; an accepted one gets a number of its own. */
    method Accept() returns (d: Dial, number: nat)
      requires Valid()
      modifies this
      ensures Valid() && answers == old(answers) && log == old(log)
      ensures number == old(dialed) && dialed == old(dialed) + 1
      ensures if old(dials) == [] then d == NO_DIAL && dials == [] else d == old(dials)[0] && dials == old(dials)[1..]
      ensures clock == old(clock) + d.took && live == if d.accepted then old(live) + {number} else old(live)
    {
      d := NO_DIAL;
      if dials != [] {
        d, dials := dials[0], dials[1..];
      }
      number := dialed;
      dialed := dialed + 1;
      clock := clock + d.took;
      if d.accepted {
        live := live + {number};
      }
    }

    /** A request line written to a connection, and what arrives on it in turn. */
    method Ask(conn: nat, reader: LineReader, req: Request) returns (written: bool)
      requires Valid() && reader.Valid() && reader.Stream() == []
      modifies this, reader
      ensures Valid() && reader.Valid() && dials == old(dials) && clock == old(clock) && dialed == old(dialed)
      ensures |log| == |old(log)| + 1 && log[..|old(log)|] == old(log)
      ensures log[|old(log)|].conn == conn && log[|old(log)|].req == req
      ensures log[|old(log)|].arrived == reader.Stream()
      ensures reader.Stream() != [] ==> log[|old(log)|].reset == reader.reset
      ensures var line := log[|old(log)|].line;
              if conn in live
              then written && line.Some? && NEWLINE !in line.value && reader.Stream() == line.value + [NEWLINE]
              else NEWLINE !in reader.Stream() &&
                   (codec.parse(reader.Stream()).Some? && reader.Stream() != [] ==> line == Some(reader.Stream()))
      ensures live <= old(live) && old(live) - {conn} <= live
      ensures !written ==> conn !in live && reader.Stream() == []
    {
      var a := NotWritten;
      if answers != [] {
        a, answers := answers[0], answers[1..];
      }
      written := !a.NotWritten?;
      if conn in live && written {
        NothingPending(reader);
        reader.fills := a.chunks;
        assert reader.Stream() == Join(a.chunks);
        if a.Cut? {
          reader.reset := a.reset;
          live := live - {conn};
        }
        log := log + [Exchange(conn, req, Some(a.line), Join(a.chunks), reader.reset)];
      } else {
        log := log + [Exchange(conn, req, None, [], false)];
        live := live - {conn};
      }
    }
  }

  lemma NothingPending(reader: LineReader)
    requires reader.Valid() && reader.Stream() == []
    ensures reader.buffer == [] && reader.fills == []
  {
  }

  // ---------------------------------------------------------------- round trips

  datatype Connection = Connection(number: nat, reader: LineReader)

  predicate Fits(codec: Codec, req: Request) {
    |codec.encode(req)| < MAX_REQUEST_BYTES
  }

  /** What a line means as a reply. */
  function Parsed(codec: Codec, line: Bytes): Result {
    if |line| < MAX_INBOUND_LINE_BYTES && codec.parse(line).Some? then Got(codec.parse(line).value) else Err(Malformed)
  }

  /** What arrives decides: a line that is complete, or ends with the connection and is
      short, is read and parsed; anything else is a lost connection. */
  function ReplyOf(codec: Codec, x: Exchange): Result {
    if Ends(x.arrived) then Parsed(codec, x.arrived[..|x.arrived| - 1])
    else if x.reset || x.arrived == [] || |x.arrived| >= MAX_INBOUND_LINE_BYTES then Err(Io)
    else Parsed(codec, x.arrived)
  }

  /** The engine's line for `x` parses to `v` and is not too long to be read. */
  ghost predicate Answers(codec: Codec, x: Exchange, req: Request, v: Value) {
    x.req == req && x.line.Some? && |x.line.value| < MAX_INBOUND_LINE_BYTES && codec.parse(x.line.value) == Some(v)
  }

  /** `after` has `more` exchanges on `conn` added to `before`. */
  ghost predicate Adds(before: seq<Exchange>, after: seq<Exchange>, conn: nat, more: nat) {
    && |after| == |before| + more && after[..|before|] == before
    && forall i :: |before| <= i < |after| ==> after[i].conn == conn
  }

  /** What was asked between `before` and `after` belongs to opening connections. */
  ghost predicate SendsNoVerb(before: seq<Exchange>, after: seq<Exchange>) {
    && |before| <= |after| && after[..|before|] == before
    && forall i :: |before| <= i < |after| ==> !after[i].req.Verb?
  }

  /** A line with or without its newline. */
  function Trimmed(buf: Bytes): Bytes {
    if Ends(buf) then buf[..|buf| - 1] else buf
  }

  /** A whole line is read as such if it fits, and consumed either way. */
  lemma WholeLine(line: Bytes, reset: bool, limit: nat)
    requires NEWLINE !in line
    ensures var s := line + [NEWLINE];
            && LineEnd(s) == |s| && Ends(s) && Trimmed(s) == line
            && Read(s, reset, limit) == if |line| < limit then Line(s) else TooLong
  {
    FirstLine(line, []);
    assert line + [NEWLINE] + [] == line + [NEWLINE];
  }

  /** What ends without a newline is consumed as well, and read if it is short. */
  lemma PartOfLine(s: Bytes, reset: bool, limit: nat)
    requires NEWLINE !in s
    ensures LineEnd(s) == |s| && !Ends(s) && Trimmed(s) == s
    ensures Read(s, reset, limit) ==
            if reset then IoError else if s == [] then Eof else if |s| < limit then Line(s) else IoError
  {
    assert s[..|s|] == s && !Ends(s);
  }

  /** What reading gives is what the reply is. */
  lemma ArrivedDecides(codec: Codec, x: Exchange, reset: bool, line: Bytes)
    requires NEWLINE !in line && (x.arrived == line || x.arrived == line + [NEWLINE])
    requires x.arrived != [] ==> x.reset == reset
    ensures LineEnd(x.arrived) == |x.arrived| && Trimmed(x.arrived) == line
    ensures match Read(x.arrived, reset, MAX_INBOUND_LINE_BYTES)
            case Line(buf) =>
              && ReplyOf(codec, x) == Parsed(codec, line) && buf == x.arrived != []
              && |line| < MAX_INBOUND_LINE_BYTES
            case TooLong => ReplyOf(codec, x) == Err(Malformed)
            case _ => ReplyOf(codec, x) == Err(Io)
    ensures x.arrived == line + [NEWLINE] ==> ReplyOf(codec, x) == Parsed(codec, line)
  {
    hide Read, LineEnd, Ends;
    if x.arrived == line {
      PartOfLine(line, reset, MAX_INBOUND_LINE_BYTES);
    } else {
      WholeLine(line, reset, MAX_INBOUND_LINE_BYTES);
    }
  }

  /** One request and its reply. Between round trips nothing is left to be read, so
      the reply acted on is the engine's line for this very request, and while the
      connection lives that line alone decides; after an `Io` error it is dead. */
  method RoundTrip(daemon: Daemon, c: Connection, req: Request) returns (r: Result)
    requires daemon.Valid() && c.reader.Valid() && c.reader.Stream() == []
    modifies daemon, c.reader
    ensures daemon.Valid() && c.reader.Valid() && c.reader.Stream() == []
    ensures daemon.dials == old(daemon.dials) && daemon.clock == old(daemon.clock)
    ensures daemon.dialed == old(daemon.dialed)
    ensures daemon.live <= old(daemon.live) && old(daemon.live) - {c.number} <= daemon.live
    ensures if Fits(daemon.codec, req)
            then && Adds(old(daemon.log), daemon.log, c.number, 1) && daemon.log[|old(daemon.log)|].req == req
                 && r == ReplyOf(daemon.codec, daemon.log[|old(daemon.log)|])
                 && (c.number in daemon.live ==>
                       && daemon.log[|old(daemon.log)|].line.Some?
                       && r == Parsed(daemon.codec, daemon.log[|old(daemon.log)|].line.value))
            else r == Err(Malformed) && daemon.log == old(daemon.log) && daemon.live == old(daemon.live)
    ensures r.Got? ==> Adds(old(daemon.log), daemon.log, c.number, 1)
                       && Answers(daemon.codec, daemon.log[|old(daemon.log)|], req, r.value)
    ensures r.Err? ==> !r.error.Server? && (r.error.Io? ==> c.number !in daemon.live)
  {
    hide LineEnd, Join, Honest, Read, ReplyOf, Ends, Trimmed;
    if |daemon.codec.encode(req)| + 1 > MAX_REQUEST_BYTES {
      return Err(Malformed);
    }
    var written := daemon.Ask(c.number, c.reader, req);
    ghost var x := daemon.log[|old(daemon.log)|];
    ghost var line := if c.number in daemon.live then x.line.value else x.arrived;
    ArrivedDecides(daemon.codec, x, c.reader.reset, line);
    if !written {
      NothingArrived(daemon.codec, x);
      return Err(Io);
    }
    var inbound := c.reader.ReadInboundLine(MAX_INBOUND_LINE_BYTES);
    match inbound
    case Line(buf) =>
      var v := daemon.codec.parse(Trimmed(buf));
      return if v.Some? then Got(v.value) else Err(Malformed);
    case TooLong =>
      return Err(Malformed);
    case _ =>
      return Err(Io);
  }

  lemma NothingArrived(codec: Codec, x: Exchange)
    requires x.arrived == []
    ensures ReplyOf(codec, x) == Err(Io)
  {
  }

  // ---------------------------------------------------------------- opening a connection

  datatype Opening = Open(conn: Connection) | Refused(error: Error)

  /** The engine has answered the challenge with a nonce of its own. */
  ghost predicate Challenged(codec: Codec, hello: Exchange) {
    && hello.req.Hello? && ReplyOf(codec, hello).Got?
    && ReplyOf(codec, hello).value.good && ReplyOf(codec, hello).value.snonce.Some?
  }

  ghost function Answered(codec: Codec, hello: Exchange): Request
    requires Challenged(codec, hello)
  {
    HelloProof(codec.clientProof(hello.req.nonce, ReplyOf(codec, hello).value.snonce.value))
  }

  /** The engine has answered the challenge and its proof has been accepted. */
  ghost predicate Proven(codec: Codec, hello: Exchange, proof: Exchange) {
    && Challenged(codec, hello) && proof.req == Answered(codec, hello) && ReplyOf(codec, proof).Got?
    && var v, w := ReplyOf(codec, hello).value, ReplyOf(codec, proof).value;
    && w.good
    && codec.accepts(hello.req.nonce, v.snonce.value, proof.req.proof, if w.proof.Some? then w.proof.value else "")
  }

  /** The engine is one that knows no handshake. */
  ghost predicate OldEngine(codec: Codec, status: Exchange) {
    && status.req.DaemonStatus? && ReplyOf(codec, status).Got?
    && var v := ReplyOf(codec, status).value;
       (if v.version.Some? then v.version.value else 1) < PROTOCOL
  }

  /** What is sent in a handshake: each step follows as long as the one before it is
      answered and the request fits. */
  ghost predicate HandshakeSends(codec: Codec, nonce: Option<string>, sent: seq<Exchange>) {
    && (nonce.None? || !Fits(codec, Hello(nonce.value)) ==> sent == [])
    && (nonce.Some? && Fits(codec, Hello(nonce.value)) ==>
          && 1 <= |sent| <= 2 && sent[0].req == Hello(nonce.value)
          && (|sent| == 2 <==> Challenged(codec, sent[0]) && Fits(codec, Answered(codec, sent[0]))))
  }

  /** The handshake is refused for good: there is no nonce to send, the engine says no, or its
      proof is not accepted. */
  ghost predicate Refuses(codec: Codec, nonce: Option<string>, sent: seq<Exchange>) {
    || nonce.None?
    || (|sent| == 1 && ReplyOf(codec, sent[0]).Got? && !ReplyOf(codec, sent[0]).value.good)
    || (|sent| == 2 && ReplyOf(codec, sent[1]).Got? && !Proven(codec, sent[0], sent[1]))
  }

  method Handshake(daemon: Daemon, c: Connection, nonce: Option<string>) returns (e: Option<Error>)
    requires daemon.Valid() && c.reader.Valid() && c.reader.Stream() == []
    modifies daemon, c.reader
    ensures daemon.Valid() && c.reader.Valid() && c.reader.Stream() == []
    ensures daemon.dials == old(daemon.dials) && daemon.clock == old(daemon.clock)
    ensures daemon.dialed == old(daemon.dialed)
    ensures daemon.live <= old(daemon.live)
    ensures exists n: nat :: n <= 2 && Adds(old(daemon.log), daemon.log, c.number, n)
    ensures SendsNoVerb(old(daemon.log), daemon.log)
    ensures HandshakeSends(daemon.codec, nonce, daemon.log[|old(daemon.log)|..])
    ensures e.None? <==> |daemon.log| == |old(daemon.log)| + 2 &&
                         Proven(daemon.codec, daemon.log[|old(daemon.log)|], daemon.log[|old(daemon.log)| + 1])
    ensures e == Some(Io) <==> |daemon.log| > |old(daemon.log)| &&
                               ReplyOf(daemon.codec, daemon.log[|daemon.log| - 1]) == Err(Io)
    ensures e.Some? && e.value.Server? ==> IsAuthTerminal(e.value)
    ensures e.Some? && e.value.Server? <==> Refuses(daemon.codec, nonce, daemon.log[|old(daemon.log)|..])
  {
    hide ReplyOf, Parsed;
    assert Adds(daemon.log, daemon.log, c.number, 0);
    if nonce.None? {
      return Some(Server(AUTH_FAILED + ": no OS randomness for the nonce"));
    }
    var r := RoundTrip(daemon, c, Hello(nonce.value));
    if r.Err? {
      return Some(r.error);
    }
    if !r.value.good {
      return Some(Server(AUTH_FAILED + ": the daemon refused hello"));
    }
    if r.value.snonce.None? {
      return Some(Malformed);
    }
    var proof := daemon.codec.clientProof(nonce.value, r.value.snonce.value);
    ghost var log1 := daemon.log;
    assert Challenged(daemon.codec, log1[|old(daemon.log)|]);
    var r2 := RoundTrip(daemon, c, HelloProof(proof));
    assert daemon.log[..|old(daemon.log)|] == log1[..|old(daemon.log)|];
    assert daemon.log[|old(daemon.log)|] == log1[|old(daemon.log)|];
    assert Adds(old(daemon.log), daemon.log, c.number, |daemon.log| - |old(daemon.log)|);
    if r2.Err? {
      return Some(r2.error);
    }
    if !r2.value.good {
      return Some(Server(AUTH_FAILED + ": the daemon rejected the IPC token"));
    }
    var serverProof := if r2.value.proof.Some? then r2.value.proof.value else "";
    if !daemon.codec.accepts(nonce.value, r.value.snonce.value, proof, serverProof) {
      return Some(Server(AUTH_FAILED + ": the daemon's proof did not match; connection closed"));
    }
    e := None;
  }

  /** The dial and what was sent on it give a connection. */
  ghost predicate Opens(codec: Codec, auth: bool, d: Dial, sent: seq<Exchange>) {
    d.accepted && (auth ==>
      || (d.token.Key? && |sent| == 2 && Proven(codec, sent[0], sent[1]))
      || (d.token.Absent? && |sent| == 1 && OldEngine(codec, sent[0])))
  }

  /** The dial is refused for good: the token cannot be read, the handshake is refused, or a
      new engine is met without a token. */
  ghost predicate TurnsAway(codec: Codec, auth: bool, d: Dial, sent: seq<Exchange>) {
    d.accepted && auth &&
    match d.token
    case Broken(_) => true
    case Key => Refuses(codec, d.nonce, sent)
    case Absent => |sent| == 1 && ReplyOf(codec, sent[0]).Got? && !OldEngine(codec, sent[0])
  }

  /** What is sent on a dial: under authentication the handshake, or, without a token, the
      question how old the engine is. */
  ghost predicate DialSends(codec: Codec, auth: bool, d: Dial, sent: seq<Exchange>) {
    if !d.accepted || !auth then sent == []
    else match d.token
      case Broken(_) => sent == []
      case Key => HandshakeSends(codec, d.nonce, sent)
      case Absent => if Fits(codec, DaemonStatus) then |sent| == 1 && sent[0].req == DaemonStatus else sent == []
  }

  /** Connect and, under `auth`, run the handshake before anything else. Without a
      token only an engine that knows no handshake is used. Every refusal it
      returns as a server error is terminal. */
  method Connect(daemon: Daemon, auth: bool) returns (r: Opening)
    requires daemon.Valid()
    modifies daemon
    ensures daemon.Valid() && daemon.dialed == old(daemon.dialed) + 1 && daemon.clock >= old(daemon.clock)
    ensures daemon.dials == if old(daemon.dials) == [] then [] else old(daemon.dials)[1..]
    ensures exists n: nat :: n <= 2 && Adds(old(daemon.log), daemon.log, old(daemon.dialed), n)
    ensures SendsNoVerb(old(daemon.log), daemon.log)
    ensures var d := if old(daemon.dials) == [] then NO_DIAL else old(daemon.dials)[0];
            var sent := daemon.log[|old(daemon.log)|..];
            && DialSends(daemon.codec, auth, d, sent) && (r.Open? <==> Opens(daemon.codec, auth, d, sent))
            && (r.Refused? && r.error.Server? <==> TurnsAway(daemon.codec, auth, d, sent))
    ensures r.Open? ==> r.conn.number == old(daemon.dialed) && fresh(r.conn.reader)
                        && r.conn.reader.Valid() && r.conn.reader.Stream() == []
    ensures r.Refused? && r.error.Server? ==> IsAuthTerminal(r.error)
  {
    hide ReplyOf, Proven, HandshakeSends, Refuses;
    var d, number := daemon.Accept();
    assert Adds(old(daemon.log), daemon.log, number, 0);
    if !d.accepted {
      return Refused(Io);
    }
    var reader := new LineReader();
    var c := Connection(number, reader);
    if !auth {
      return Open(c);
    }
    match d.token
    case Broken(why) =>
      return Refused(Server(AUTH_UNAVAILABLE + ": " + why));
    case Key =>
      var e := Handshake(daemon, c, d.nonce);
      ghost var sent := daemon.log[|old(daemon.log)|..];
      assert |sent| == 2 ==> sent[0] == daemon.log[|old(daemon.log)|] && sent[1] == daemon.log[|old(daemon.log)| + 1];
      return if e.Some? then Refused(e.value) else Open(c);
    case Absent =>
      var reply := RoundTrip(daemon, c, DaemonStatus);
      assert Adds(old(daemon.log), daemon.log, number, |daemon.log| - |old(daemon.log)|);
      if reply.Err? {
        return Refused(reply.error);
      }
      var version := if reply.value.version.Some? then reply.value.version.value else 1;
      if version >= PROTOCOL {
        return Refused(Server(AUTH_UNAVAILABLE + ": cannot authenticate to this daemon"));
      }
      return Open(c);
  }
}
