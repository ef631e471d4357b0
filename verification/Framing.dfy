/** Reading one newline-terminated line of bounded length from a buffered stream that
    delivers its bytes in chunks of any size. */
module Framing {
  newtype Byte = x: int | 0 <= x < 256
  type Bytes = seq<Byte>

  const NEWLINE: Byte := 10

  datatype Inbound = Eof | Line(buf: Bytes) | TooLong | IoError

  function Join(chunks: seq<Bytes>): Bytes {
    if chunks == [] then [] else chunks[0] + Join(chunks[1..])
  }

  /** Where the first line of `s` ends: just after its first newline, or at the end. */
  function LineEnd(s: Bytes): (n: nat)
    ensures n <= |s| && (s != [] ==> n > 0) && forall i :: 0 <= i < n - 1 ==> s[i] != NEWLINE
    ensures n < |s| ==> s[n - 1] == NEWLINE
  {
    if s == [] then 0
    else if s[0] == NEWLINE then 1
    else 1 + LineEnd(s[1..])
  }

  predicate Ends(line: Bytes) {
    line != [] && line[|line| - 1] == NEWLINE
  }

  /** What one read makes of the bytes still to come, which end in a read error if
      `reset` and in an end of file otherwise. */
  function Read(s: Bytes, reset: bool, limit: nat): Inbound {
    var line := s[..LineEnd(s)];
    if Ends(line) then (if |line| <= limit then Line(line) else TooLong)
    else if reset then IoError
    else if line == [] then Eof
    else if |line| < limit then Line(line)
    else IoError
  }

  lemma {:induction false} LineEndAppend(a: Bytes, b: Bytes)
    ensures LineEnd(a + b) == if Ends(a[..LineEnd(a)]) then LineEnd(a) else |a| + LineEnd(b)
  {
    if a == [] {
      assert a + b == b;
    } else if a[0] != NEWLINE {
      LineEndAppend(a[1..], b);
      assert (a + b)[1..] == a[1..] + b;
      assert a[1..][..LineEnd(a[1..])] == a[..LineEnd(a)][1..];
    }
  }

  /** `taken` has been taken off `all`, leaving `rest`, and no newline was passed. */
  ghost predicate Within(all: Bytes, taken: Bytes, rest: Bytes) {
    all == taken + rest && LineEnd(all) == if Ends(taken) then |taken| else |taken| + LineEnd(rest)
  }

  lemma Regroup(taken: Bytes, rest: Bytes, n: nat)
    requires n <= |rest|
    ensures taken + rest == taken + rest[..n] + rest[n..]
  {
  }

  /** The first line of a part of `rest` that has a newline is that of `rest`. */
  lemma LineEndOfPart(rest: Bytes, m: nat, n: nat)
    requires m <= |rest| && n == LineEnd(rest[..m])
    ensures LineEnd(rest) == if Ends(rest[..n]) then n else m + LineEnd(rest[m..])
    ensures Ends(rest[..n]) || n == m
  {
    LineEndAppend(rest[..m], rest[m..]);
    assert rest == rest[..m] + rest[m..];
    assert rest[..m][..n] == rest[..n];
  }

  /** Taking what is up to the first newline of a part of the rest passes none. */
  lemma TakeMore(all: Bytes, taken: Bytes, rest: Bytes, m: nat, n: nat)
    requires Within(all, taken, rest) && !Ends(taken) && m <= |rest| && n == LineEnd(rest[..m]) && n > 0
    ensures n <= m && Within(all, taken + rest[..n], rest[n..])
    ensures Ends(taken + rest[..n]) <==> rest[n - 1] == NEWLINE
  {
    hide LineEnd;
    LineEndOfPart(rest, m, n);
    Regroup(taken, rest, n);
    var more := taken + rest[..n];
    assert more[|more| - 1] == rest[n - 1];
    assert |more| == |taken| + n;
  }

  lemma NothingTaken(all: Bytes)
    ensures Within(all, [], all) && !Ends([])
  {
  }

  /** A buffered reader: bytes filled but not consumed, and the chunks of the fills
      still to come. */
  class LineReader {
    var buffer: Bytes
    var fills: seq<Bytes>
    var reset: bool

    ghost predicate Valid()
      reads this
    {
      forall i :: 0 <= i < |fills| ==> fills[i] != []
    }

    /** All bytes still to be read. */
    ghost function Stream(): Bytes
      reads this
    {
      buffer + Join(fills)
    }

    constructor ()
      ensures Valid() && Stream() == [] && !reset
    {
      buffer, fills, reset := [], [], false;
    }

    /** The unconsumed bytes, from a further chunk when there are none; none at the end. */
    method FillBuf() returns (ok: bool, chunk: Bytes)
      requires Valid()
      modifies this
      ensures Valid() && Stream() == old(Stream()) && reset == old(reset)
      ensures chunk == buffer && (chunk == [] <==> Stream() == [])
      ensures ok <==> (Stream() == [] ==> !reset)
    {
      if buffer == [] && fills != [] {
        buffer, fills := fills[0], fills[1..];
      }
      chunk := buffer;
      ok := chunk != [] || !reset;
    }

    method Consume(n: nat)
      requires Valid() && n <= |buffer|
      modifies this
      ensures Valid() && Stream() == old(Stream())[n..] && reset == old(reset)
    {
      buffer := buffer[n..];
    }

    /** `take(limit).read_until(newline)`: appends chunks up to a newline, the limit
        or the end. */
    method ReadUntil(limit: nat) returns (ok: bool, buf: Bytes)
      requires Valid()
      modifies this
      ensures Valid() && reset == old(reset)
      ensures |buf| <= limit && Within(old(Stream()), buf, Stream())
      ensures !ok ==> reset && Stream() == [] && !Ends(buf)
      ensures ok && !Ends(buf) ==> |buf| == limit || (Stream() == [] && !reset)
    {
      hide Join, Within, LineEnd, Ends;
      ok, buf := true, [];
      NothingTaken(Stream());
      while |buf| < limit && !Ends(buf)
        invariant Valid() && reset == old(reset)
        invariant ok && |buf| <= limit && Within(old(Stream()), buf, Stream())
        decreases limit - |buf|
      {
        var chunk;
        ok, chunk := FillBuf();
        if !ok || chunk == [] {
          return;
        }
        var room := if limit - |buf| < |chunk| then limit - |buf| else |chunk|;
        var n := LineEnd(chunk[..room]);
        assert chunk[..room] == Stream()[..room];
        TakeMore(old(Stream()), buf, Stream(), room, n);
        assert chunk[..n] == Stream()[..n];
        buf := buf + chunk[..n];
        Consume(n);
      }
    }

    /** One line of at most `limit` bytes. Whatever the chunks, the bytes up to and
        including the first newline are consumed and the outcome depends on them
        alone; never more than `limit` of them are held. */
    method ReadInboundLine(limit: nat) returns (r: Inbound)
      requires Valid() && limit > 0
      modifies this
      ensures Valid() && reset == old(reset)
      ensures r == Read(old(Stream()), reset, limit)
      ensures Stream() == old(Stream())[LineEnd(old(Stream()))..]
      ensures r.Line? ==> |r.buf| <= limit
    {
      var ok, buf := ReadUntil(limit);
      ghost var all := old(Stream());
      if !ok {
        return IoError;
      }
      if buf == [] {
        return Eof;
      }
      if buf[|buf| - 1] == NEWLINE || |buf| < limit {
        return Line(buf);
      }
      ghost var dropped := buf;
      while true
        invariant Valid() && reset == old(reset)
        invariant Within(all, dropped, Stream()) && |dropped| >= limit && !Ends(dropped)
        decreases |Stream()|
      {
        var chunk;
        ok, chunk := FillBuf();
        if !ok || chunk == [] {
          return IoError;
        }
        var n := LineEnd(chunk);
        assert chunk == Stream()[..|chunk|] && chunk[..n] == Stream()[..n];
        TakeMore(all, dropped, Stream(), |chunk|, n);
        dropped := dropped + chunk[..n];
        Consume(n);
        if chunk[n - 1] == NEWLINE {
          return TooLong;
        }
      }
    }
  }

  // ---------------------------------------------------------------- staying in step

  /** Messages as a peer writes them, each line with its newline. */
  function Wire(lines: seq<Bytes>): Bytes {
    if lines == [] then [] else lines[0] + [NEWLINE] + Wire(lines[1..])
  }

  /** What `n` reads leave. */
  function Rest(s: Bytes, n: nat): Bytes {
    if n == 0 then s else Rest(s[LineEnd(s)..], n - 1)
  }

  lemma FirstLine(line: Bytes, tail: Bytes)
    requires NEWLINE !in line
    ensures LineEnd(line + [NEWLINE] + tail) == |line| + 1
    ensures (line + [NEWLINE] + tail)[..|line| + 1] == line + [NEWLINE]
    ensures (line + [NEWLINE] + tail)[|line| + 1..] == tail
  {
    var s := line + [NEWLINE] + tail;
    assert s[|line|] == NEWLINE && forall i :: 0 <= i < |line| ==> s[i] == line[i];
  }

  /** The n-th read returns the n-th message, or says that it was too long; an
      oversized message does not disturb the ones after it. */
  lemma {:induction false} ReadsStayInStep(lines: seq<Bytes>, tail: Bytes, reset: bool, limit: nat, k: nat)
    requires k < |lines| && forall i :: 0 <= i < |lines| ==> NEWLINE !in lines[i]
    ensures Rest(Wire(lines) + tail, k) == Wire(lines[k..]) + tail
    ensures Read(Rest(Wire(lines) + tail, k), reset, limit) ==
            if |lines[k]| + 1 <= limit then Line(lines[k] + [NEWLINE]) else TooLong
  {
    var more := Wire(lines[1..]) + tail;
    assert Wire(lines) + tail == lines[0] + [NEWLINE] + more;
    FirstLine(lines[0], more);
    if k == 0 {
      assert lines[0..] == lines;
    } else {
      ReadsStayInStep(lines[1..], tail, reset, limit, k - 1);
      assert lines[1..][k - 1..] == lines[k..];
    }
  }
}
