/** The byte strings both sides of the handshake sign. Strings here hold one byte per
    character, so a length is a byte length. */
module HandshakeMessages {
  import opened Options

  const PREFIX := "unidrive-ipc-v2|"
  const SCOPE := "full"

  function Digit(d: nat): (c: char)
    requires d < 10
    ensures '0' <= c <= '9' && c as int == '0' as int + d
  {
    ('0' as int + d) as char
  }

  function Decimal(n: nat): (s: string)
    ensures s != "" && forall i :: 0 <= i < |s| ==> '0' <= s[i] <= '9'
  {
    if n < 10 then [Digit(n)] else Decimal(n / 10) + [Digit(n % 10)]
  }

  function ClientMessage(profile: string, nonce: string, snonce: string): string {
    PREFIX + "client|" + SCOPE + "|" + Decimal(|profile|) + ":" + profile + "|" + nonce + "|" + snonce
  }

  function ServerMessage(profile: string, nonce: string, snonce: string, clientProof: string): string {
    PREFIX + "server|" + SCOPE + "|" + Decimal(|profile|) + ":" + profile + "|" + nonce + "|" + snonce + "|" +
    clientProof
  }

  /** The messages byte for byte, on a profile of two bytes. */
  lemma KnownClientMessage()
    ensures ClientMessage("p1", "n", "s") == "unidrive-ipc-v2|client|full|2:p1|n|s"
  {
    assert Decimal(2) == "2";
    hide Decimal;
    assert PREFIX + "client|" + SCOPE + "|" == "unidrive-ipc-v2|client|full|";
    assert "2:" + "p1" + "|" + "n" + "|" + "s" == "2:p1|n|s";
  }

  lemma KnownServerMessage()
    ensures ServerMessage("p1", "n", "s", "c") == "unidrive-ipc-v2|server|full|2:p1|n|s|c"
  {
    assert Decimal(2) == "2";
    hide Decimal;
    assert PREFIX + "server|" + SCOPE + "|" == "unidrive-ipc-v2|server|full|";
    assert "2:" + "p1" + "|" + "n" + "|" + "s" + "|" + "c" == "2:p1|n|s|c";
  }

  // ---------------------------------------------------------------- reading them back

  function Number(s: string): Option<nat> {
    if s == "" then Some(0)
    else
      var c, front := s[|s| - 1], Number(s[..|s| - 1]);
      if '0' <= c <= '9' && front.Some? then Some(front.value * 10 + (c as int - '0' as int)) else None
  }

  datatype Halves = Halves(before: string, after: string)

  /** `s` on either side of the first `c`. */
  function CutFirst(s: string, c: char): Option<Halves> {
    if s == "" then None
    else if s[0] == c then Some(Halves("", s[1..]))
    else match CutFirst(s[1..], c)
      case None => None
      case Some(h) => Some(Halves([s[0]] + h.before, h.after))
  }

  /** `s` on either side of the last `c`. */
  function CutLast(s: string, c: char): Option<Halves> {
    if s == "" then None
    else if s[|s| - 1] == c then Some(Halves(s[..|s| - 1], ""))
    else match CutLast(s[..|s| - 1], c)
      case None => None
      case Some(h) => Some(Halves(h.before, h.after + [s[|s| - 1]]))
  }

  /** A profile with its length, and what follows it after a bar. */
  function ReadProfile(s: string): Option<Halves> {
    match CutFirst(s, ':')
    case None => None
    case Some(h) =>
      match Number(h.before)
      case None => None
      case Some(n) =>
        if n < |h.after| && h.after[n] == '|' then Some(Halves(h.after[..n], h.after[n + 1..])) else None
  }

  datatype Client = Client(profile: string, nonce: string, snonce: string)

  datatype Server = Server(profile: string, nonce: string, snonce: string, clientProof: string)

  /** `s` without `prefix`, if it has that prefix. */
  function Without(s: string, prefix: string): Option<string> {
    if prefix <= s then Some(s[|prefix|..]) else None
  }

  function ReadClient(m: string): Option<Client> {
    var body := Without(m, PREFIX + "client|" + SCOPE + "|");
    if body.None? then None
    else
      var p := ReadProfile(body.value);
      if p.None? then None
      else
        var n := CutFirst(p.value.after, '|');
        if n.None? then None else Some(Client(p.value.before, n.value.before, n.value.after))
  }

  function ReadServer(m: string): Option<Server> {
    var body := Without(m, PREFIX + "server|" + SCOPE + "|");
    if body.None? then None
    else
      var p := ReadProfile(body.value);
      if p.None? then None
      else
        var n := CutFirst(p.value.after, '|');
        if n.None? then None
        else
          var last := CutLast(n.value.after, '|');
          if last.None? then None else Some(Server(p.value.before, n.value.before, last.value.before, last.value.after))
  }

  lemma {:induction false} DecimalReadsBack(n: nat)
    ensures Number(Decimal(n)) == Some(n)
  {
    hide Digit;
    var s, d := Decimal(n), Digit(n % 10);
    if n < 10 {
      assert s == [d] && s[..0] == "";
    } else {
      DecimalReadsBack(n / 10);
      assert s == Decimal(n / 10) + [d] && s[..|s| - 1] == Decimal(n / 10);
    }
  }

  lemma {:induction false} CutFirstAt(a: string, c: char, b: string)
    requires c !in a
    ensures CutFirst(a + [c] + b, c) == Some(Halves(a, b))
  {
    var s := a + [c] + b;
    if a == "" {
      assert s[1..] == b;
    } else {
      CutFirstAt(a[1..], c, b);
      assert s[1..] == a[1..] + [c] + b && a == [s[0]] + a[1..];
    }
  }

  lemma {:induction false} CutLastAt(a: string, c: char, b: string)
    requires c !in b
    ensures CutLast(a + [c] + b, c) == Some(Halves(a, b))
  {
    var s := a + [c] + b;
    if b == "" {
      assert s[..|s| - 1] == a;
    } else {
      CutLastAt(a, c, b[..|b| - 1]);
      assert s[..|s| - 1] == a + [c] + b[..|b| - 1] && b == b[..|b| - 1] + [s[|s| - 1]];
    }
  }

  lemma Regrouped(length: string, profile: string, rest: string)
    ensures length + ":" + profile + "|" + rest == length + [':'] + (profile + "|" + rest)
  {
  }

  /** Whatever bytes the profile holds, its length tells where it ends. */
  lemma ProfileReadsBack(profile: string, rest: string)
    ensures ReadProfile(Decimal(|profile|) + ":" + profile + "|" + rest) == Some(Halves(profile, rest))
  {
    hide CutFirst, Number, Decimal;
    var after := profile + "|" + rest;
    Regrouped(Decimal(|profile|), profile, rest);
    CutFirstAt(Decimal(|profile|), ':', after);
    DecimalReadsBack(|profile|);
    assert after[..|profile|] == profile && after[|profile| + 1..] == rest;
  }

  /** A client message tells its profile, nonce and server nonce, for any profile and
      server nonce, and a nonce without a bar, as base64url is. */
  lemma ClientMessageReadsBack(profile: string, nonce: string, snonce: string)
    requires '|' !in nonce
    ensures ReadClient(ClientMessage(profile, nonce, snonce)) == Some(Client(profile, nonce, snonce))
  {
    hide CutFirst, Number, Decimal, ReadProfile;
    var head, rest := PREFIX + "client|" + SCOPE + "|", nonce + "|" + snonce;
    var body := Decimal(|profile|) + ":" + profile + "|" + rest;
    assert ClientMessage(profile, nonce, snonce) == head + body;
    ProfileReadsBack(profile, rest);
    CutFirstAt(nonce, '|', snonce);
  }

  /** A server message also tells the client proof it answers. */
  lemma ServerMessageReadsBack(profile: string, nonce: string, snonce: string, clientProof: string)
    requires '|' !in nonce && '|' !in clientProof
    ensures ReadServer(ServerMessage(profile, nonce, snonce, clientProof)) ==
            Some(Server(profile, nonce, snonce, clientProof))
  {
    hide CutFirst, CutLast, Number, Decimal, ReadProfile;
    var tail := snonce + "|" + clientProof;
    var head, rest := PREFIX + "server|" + SCOPE + "|", nonce + "|" + tail;
    var body := Decimal(|profile|) + ":" + profile + "|" + rest;
    assert ServerMessage(profile, nonce, snonce, clientProof) == head + body;
    ProfileReadsBack(profile, rest);
    CutFirstAt(nonce, '|', tail);
    CutLastAt(snonce, '|', clientProof);
  }

  /** A proof of one side is never a proof of the other, whatever the fields hold. */
  lemma SidesDiffer(c: Client, s: Server)
    ensures ClientMessage(c.profile, c.nonce, c.snonce) != ServerMessage(s.profile, s.nonce, s.snonce, s.clientProof)
  {
    assert ClientMessage(c.profile, c.nonce, c.snonce)[|PREFIX|] == 'c';
    assert ServerMessage(s.profile, s.nonce, s.snonce, s.clientProof)[|PREFIX|] == 's';
  }

  /** Messages signed for different fields differ. */
  lemma MessagesTellFieldsApart(c: Client, d: Client, s: Server, t: Server)
    requires '|' !in c.nonce && '|' !in d.nonce && '|' !in s.nonce && '|' !in t.nonce
    requires '|' !in s.clientProof && '|' !in t.clientProof
    ensures ClientMessage(c.profile, c.nonce, c.snonce) == ClientMessage(d.profile, d.nonce, d.snonce) ==> c == d
    ensures (ServerMessage(s.profile, s.nonce, s.snonce, s.clientProof) ==
             ServerMessage(t.profile, t.nonce, t.snonce, t.clientProof)) ==> s == t
  {
    hide ReadClient, ReadServer, ClientMessage, ServerMessage;
    ClientMessageReadsBack(c.profile, c.nonce, c.snonce);
    ClientMessageReadsBack(d.profile, d.nonce, d.snonce);
    ServerMessageReadsBack(s.profile, s.nonce, s.snonce, s.clientProof);
    ServerMessageReadsBack(t.profile, t.nonce, t.snonce, t.clientProof);
  }

  /** The bar matters: with one in a nonce, two sets of fields share a message. */
  lemma BarsConfuse()
    ensures ClientMessage("p", "n|x", "s") == ClientMessage("p", "n", "x|s")
  {
    var head := PREFIX + "client|" + SCOPE + "|" + Decimal(|"p"|) + ":" + "p" + "|";
    assert ClientMessage("p", "n|x", "s") == head + "n|x|s" == ClientMessage("p", "n", "x|s");
  }
}
