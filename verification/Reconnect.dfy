/** The request client that survives engine restarts: it reconnects within a budget,
    repeats only what may be repeated, and gives up for good once it is refused. */
module Reconnect {
  import opened Options
  import opened Ipc

  /** The verbs that are sent again after a lost connection. */
  predicate Repeatable(name: string) {
    || name == "hydration.open_read" || name == "hydration.close_handle" || name == "hydration.hydrate"
    || name == "hydration.dehydrate" || name == "hydration.last_synced" || name == "hydration.list"
    || name == "daemon.status"
  }

  /** The verbs that change something at the engine each time they are served. */
  const MUTATING: set<string> := {"hydration.open_write", "hydration.open_write_begin", "hydration.mkdir",
                                  "hydration.unlink", "hydration.rmdir", "hydration.create", "hydration.rename"}

  /** The verbs that do no more when served twice. */
  const IDEMPOTENT: set<string> := {"hydration.open_read", "hydration.close_handle", "hydration.hydrate",
                                    "hydration.dehydrate", "hydration.last_synced", "hydration.list", "daemon.status"}

  /** An attempt to connect: when it began, how the dial went, what was sent on it, and
      whether it gave a connection or was refused for good. */
  datatype Try = Try(began: nat, dial: Dial, sent: seq<Exchange>, connected: bool, refused: bool)

  /** A dial that opens is taken, and one that does not open has been carried as far as
      the engine let it. */
  ghost predicate Truthful(codec: Codec, auth: bool, t: Try) {
    && DialSends(codec, auth, t.dial, t.sent) && (t.connected <==> Opens(codec, auth, t.dial, t.sent))
    && (t.refused <==> TurnsAway(codec, auth, t.dial, t.sent))
  }

  /** The attempts went through the script of dials in order. */
  ghost predicate Dialled(tries: seq<Try>, before: seq<Dial>, after: seq<Dial>) {
    && (|tries| <= |before| ==> after == before[|tries|..]) && (|tries| > |before| ==> after == [])
    && forall i :: 0 <= i < |tries| ==> tries[i].dial == if i < |before| then before[i] else NO_DIAL
  }

  /** `tries` adds attempts to `was`, truthful and in the script's order, none of which has
      given a connection or was refused for good but the last if `connected` or `refused`. */
  ghost predicate Tried(codec: Codec, auth: bool, was: seq<Try>, tries: seq<Try>, before: seq<Dial>, after: seq<Dial>,
                        connected: bool, refused: bool)
  {
    && was <= tries && Dialled(tries[|was|..], before, after) && (connected || refused ==> |was| < |tries|)
    && forall i :: |was| <= i < |tries| ==>
         && Truthful(codec, auth, tries[i])
         && (tries[i].connected <==> connected && i == |tries| - 1)
         && (tries[i].refused <==> refused && i == |tries| - 1)
  }

  lemma NothingTried(codec: Codec, auth: bool, tries: seq<Try>, dials: seq<Dial>)
    ensures Tried(codec, auth, tries, tries, dials, dials, false, false)
  {
  }

  lemma TriedOnce(codec: Codec, auth: bool, was: seq<Try>, tries: seq<Try>, before: seq<Dial>, after: seq<Dial>, t: Try)
    requires Tried(codec, auth, was, tries, before, after, false, false) && Truthful(codec, auth, t)
    requires t.dial == if after == [] then NO_DIAL else after[0]
    ensures Tried(codec, auth, was, tries + [t], before, if after == [] then [] else after[1..], t.connected,
                  t.refused)
  {
    hide Truthful;
    assert (tries + [t])[|was|..] == tries[|was|..] + [t];
  }

  lemma NoneConnected(codec: Codec, auth: bool, was: seq<Try>, tries: seq<Try>, before: seq<Dial>, after: seq<Dial>,
                      budget: nat, now: nat)
    requires Tried(codec, auth, was, tries, before, after, false, false)
    requires |was| < |tries| && tries[|was|].began + budget <= now
    ensures Exhausted(tries, |was|, budget, now)
  {
  }

  /** `n` attempts, the first at `start` and each after a pause, keep within a budget:
      that is at most one more than the pauses that fit in it, rounded up. */
  ghost predicate WithinBudget(n: nat, interval: nat, budget: nat) {
    n >= 2 ==> Pauses(n - 2, interval) < budget
  }

  ghost function Pauses(n: nat, interval: nat): nat {
    if n == 0 then 0 else Pauses(n - 1, interval) + interval
  }

  lemma PausesMonotone(m: nat, n: nat, interval: nat)
    requires m <= n
    ensures Pauses(m, interval) <= Pauses(n, interval)
  {
  }

  lemma OneMoreTry(n: nat, interval: nat, budget: nat)
    requires n > 0 ==> Pauses(n - 1, interval) < budget
    ensures WithinBudget(n + 1, interval, budget)
  {
  }

  lemma PausedAgain(n: nat, interval: nat)
    ensures Pauses(n + 1, interval) == Pauses(n, interval) + interval && Pauses(0, interval) == 0
  {
  }

  /** How many pauses fill the budget: their quotient, rounded up. */
  function Ceiling(budget: nat, interval: nat): nat
    requires interval > 0
  {
    if budget == 0 then 0
    else if budget <= interval then 1
    else Ceiling(budget - interval, interval) + 1
  }

  lemma {:induction false} CeilingFills(budget: nat, interval: nat)
    requires interval > 0
    ensures budget <= Pauses(Ceiling(budget, interval), interval) < budget + interval
  {
    if budget > interval {
      CeilingFills(budget - interval, interval);
    }
  }

  lemma AttemptsBound(n: nat, interval: nat, budget: nat)
    requires interval > 0
    ensures WithinBudget(n, interval, budget) <==> n <= Ceiling(budget, interval) + 1
  {
    var q := Ceiling(budget, interval);
    CeilingFills(budget, interval);
    if n >= 2 {
      if n - 2 < q {
        PausesMonotone(n - 2, q - 1, interval);
      } else {
        PausesMonotone(q, n - 2, interval);
      }
    }
  }

  /** Attempts since `from` end in a series that failed until the budget was spent. */
  ghost predicate Exhausted(tries: seq<Try>, from: nat, budget: nat, now: nat) {
    exists k :: from <= k < |tries| && tries[k].began + budget <= now &&
                forall i :: k <= i < |tries| ==> !tries[i].connected
  }

  /** Every verb sent between `before` and `after` is `req`. */
  ghost predicate SendsOnly(before: seq<Exchange>, after: seq<Exchange>, req: Request) {
    && |before| <= |after| && after[..|before|] == before
    && forall i :: |before| <= i < |after| ==> after[i].req.Verb? ==> after[i].req == req
  }

  /** A refused client answers every call with the refusal. */
  predicate Stopped(refusal: string, r: Result) {
    r == Err(Server(refusal))
  }

  lemma ExhaustedSince(tries: seq<Try>, from: nat, later: nat, budget: nat, now: nat)
    requires from <= later && Exhausted(tries, later, budget, now)
    ensures Exhausted(tries, from, budget, now)
  {
  }

  lemma NoVerbYet(log: seq<Exchange>)
    ensures SendsNoVerb(log, log)
  {
  }

  lemma NoVerbStill(before: seq<Exchange>, log: seq<Exchange>, after: seq<Exchange>)
    requires SendsNoVerb(before, log) && SendsNoVerb(log, after)
    ensures SendsNoVerb(before, after)
  {
    assert after[..|before|] == log[..|before|];
    assert forall i :: 0 <= i < |log| ==> after[i] == log[i];
  }

  lemma OneVerb(before: seq<Exchange>, after: seq<Exchange>, req: Request)
    requires |before| <= |after|
    requires SendsNoVerb(before, after) || (SendsNoVerb(before, after[..|after| - 1]) && after[|after| - 1].req == req)
    ensures SendsOnly(before, after, req)
    ensures forall i, j :: |before| <= i < j < |after| ==> !(after[i].req.Verb? && after[j].req.Verb?)
  {
    if !SendsNoVerb(before, after) {
      var first := after[..|after| - 1];
      assert after[..|before|] == first[..|before|];
      assert forall i :: |before| <= i < |first| ==> after[i] == first[i];
    }
  }

  lemma RequestAdded(before: seq<Exchange>, log0: seq<Exchange>, log1: seq<Exchange>, log2: seq<Exchange>, conn: nat,
                     req: Request)
    requires SendsOnly(before, log0, req) && SendsNoVerb(log0, log1)
    requires log2 == log1 || (Adds(log1, log2, conn, 1) && log2[|log1|].req == req)
    ensures SendsOnly(before, log2, req)
  {
    assert log1[..|before|] == log0[..|before|];
    assert log2[..|before|] == log1[..|before|];
    assert forall i :: 0 <= i < |log0| ==> log1[i] == log1[..|log0|][i];
    assert forall i :: 0 <= i < |log1| ==> log2[i] == log2[..|log1|][i];
  }

  /** How a verb's call ends while there is a connection: by the reply to its last exchange,
      if the request can be sent at all. */
  ghost predicate EndsBy(codec: Codec, before: seq<Exchange>, after: seq<Exchange>, req: Request, r: Result) {
    if Fits(codec, req)
    then |after| > |before| && after[|after| - 1].req == req && r == ReplyOf(codec, after[|after| - 1])
    else r == Err(Malformed) && SendsNoVerb(before, after)
  }

  /** How it ends when there is none: refused for good, or the budget is spent. */
  ghost predicate GivenUp(r: Result, refusal: Option<string>, tries: seq<Try>, from: nat, budget: nat, now: nat) {
    r.Err? && if r.error.Server? then refusal == Some(r.error.msg) else Exhausted(tries, from, budget, now)
  }

  class ReconnectingIpcClient {
    const daemon: Daemon
    const auth: bool
    const interval: nat
    const budget: nat
    var inner: Option<Connection>
    var authFailure: Option<string>
    ghost var tries: seq<Try>

    /** Between calls a connection has nothing left to be read, and a client that has
        been refused has none. */
    ghost predicate Valid()
      reads this, daemon, if inner.Some? then {inner.value.reader} else {}
    {
      && daemon.Valid() && interval > 0
      && (inner.Some? ==>
            inner.value.reader.Valid() && inner.value.reader.Stream() == [] && inner.value.number < daemon.dialed)
      && (authFailure.Some? ==> inner.None? && IsAuthTerminal(Server(authFailure.value)))
    }

    constructor (daemon: Daemon, auth: bool, interval: nat, budget: nat, inner: Option<Connection>)
      requires daemon.Valid() && interval > 0
      requires inner.Some? ==>
                 inner.value.reader.Valid() && inner.value.reader.Stream() == [] && inner.value.number < daemon.dialed
      ensures Valid() && this.daemon == daemon && this.inner == inner && authFailure.None? && tries == []
    {
      this.daemon, this.auth, this.interval, this.budget := daemon, auth, interval, budget;
      this.inner, authFailure, tries := inner, None, [];
    }

    /** One attempt to connect. */
    method Attempt() returns (r: Opening)
      requires daemon.Valid()
      modifies this`tries, daemon
      ensures daemon.Valid() && daemon.dialed == old(daemon.dialed) + 1 && daemon.clock >= old(daemon.clock)
      ensures daemon.dials == if old(daemon.dials) == [] then [] else old(daemon.dials)[1..]
      ensures SendsNoVerb(old(daemon.log), daemon.log)
      ensures |tries| == |old(tries)| + 1 && tries[..|old(tries)|] == old(tries)
      ensures var t := tries[|old(tries)|];
              && t.began == old(daemon.clock) && Truthful(daemon.codec, auth, t) && (t.connected <==> r.Open?)
              && (t.refused <==> r.Refused? && r.error.Server?)
              && t.dial == (if old(daemon.dials) == [] then NO_DIAL else old(daemon.dials)[0])
              && t.sent == daemon.log[|old(daemon.log)|..]
      ensures r.Open? ==> old(daemon.dials) != [] && r.conn.number == old(daemon.dialed) && fresh(r.conn.reader)
                          && r.conn.reader.Valid() && r.conn.reader.Stream() == []
      ensures r.Refused? ==> (r.error.Server? <==> IsAuthTerminal(r.error))
    {
      hide DialSends, Adds, Proven, OldEngine, TurnsAway;
      ghost var dial := if daemon.dials == [] then NO_DIAL else daemon.dials[0];
      r := Connect(daemon, auth);
      tries := tries + [Try(old(daemon.clock), dial, daemon.log[|old(daemon.log)|..], r.Open?,
                            r.Refused? && r.error.Server?)];
    }

    /** A connection, or the error to report. With none at hand it connects again
        until that works, is refused for good, or the budget has elapsed: never
        earlier, and never in more attempts than fit. */
    method EnsureConnected() returns (e: Option<Error>)
      requires Valid()
      modifies this, daemon
      ensures Valid() && daemon.dialed >= old(daemon.dialed)
      ensures SendsNoVerb(old(daemon.log), daemon.log)
      ensures old(authFailure).Some? || old(inner).Some? ==>
                && daemon.log == old(daemon.log) && daemon.dialed == old(daemon.dialed) && tries == old(tries)
                && daemon.dials == old(daemon.dials) && inner == old(inner) && authFailure == old(authFailure)
      ensures old(authFailure).Some? ==> e == Some(Server(old(authFailure).value))
      ensures old(inner).Some? && old(authFailure).None? ==> e.None?
      ensures old(inner).None? && old(authFailure).None? ==>
                && 0 < daemon.dialed - old(daemon.dialed)
                && WithinBudget(daemon.dialed - old(daemon.dialed), interval, budget)
      ensures e.None? ==> inner.Some? && authFailure.None?
      ensures e.None? && old(inner).None? ==> fresh(inner.value.reader) && |daemon.dials| < |old(daemon.dials)|
      ensures |daemon.dials| <= |old(daemon.dials)| && old(tries) <= tries
      ensures Tried(daemon.codec, auth, old(tries), tries, old(daemon.dials), daemon.dials,
                    e.None? && old(inner).None?, e.Some? && e.value.Server? && old(authFailure).None?)
      ensures e.Some? ==> inner.None? && (e.value.Server? <==> IsAuthTerminal(e.value))
      ensures e.Some? && IsAuthTerminal(e.value) ==> authFailure == Some(e.value.msg)
      ensures e.Some? && !IsAuthTerminal(e.value) ==>
                authFailure.None? && !e.value.Server? && Exhausted(tries, |old(tries)|, budget, daemon.clock)
    {
      hide Tried, Dialled, SendsNoVerb, Truthful, IsAuthTerminal;
      NoVerbYet(daemon.log);
      NothingTried(daemon.codec, auth, tries, daemon.dials);
      if authFailure.Some? {
        return Some(Server(authFailure.value));
      }
      if inner.Some? {
        return None;
      }
      hide Exhausted, Pauses, WithinBudget;
      PausedAgain(0, interval);
      var start, n := daemon.clock, 0;
      while true
        invariant Valid() && inner.None? && authFailure.None? && daemon.dialed == old(daemon.dialed) + n
        invariant SendsNoVerb(old(daemon.log), daemon.log)
        invariant |daemon.dials| <= |old(daemon.dials)| && old(tries) <= tries && |tries| == |old(tries)| + n
        invariant Tried(daemon.codec, auth, old(tries), tries, old(daemon.dials), daemon.dials, false, false)
        invariant if n == 0 then daemon.clock == start else tries[|old(tries)|].began == start
        invariant n > 0 ==> Pauses(n - 1, interval) < budget
        invariant start + Pauses(n, interval) <= daemon.clock
        decreases |daemon.dials|, if daemon.clock < start + budget then start + budget - daemon.clock else 0
      {
        ghost var before, dials, log := tries, daemon.dials, daemon.log;
        var r := Attempt();
        NoVerbStill(old(daemon.log), log, daemon.log);
        OneMoreTry(n, interval, budget);
        PausedAgain(n, interval);
        n := n + 1;
        assert tries == before + [tries[|before|]];
        TriedOnce(daemon.codec, auth, old(tries), before, old(daemon.dials), dials, tries[|before|]);
        match r
        case Open(c) =>
          inner := Some(c);
          return None;
        case Refused(error) =>
          if IsAuthTerminal(error) {
            authFailure := Some(error.msg);
            return Some(error);
          }
          if daemon.clock - start >= budget {
            NoneConnected(daemon.codec, auth, old(tries), tries, old(daemon.dials), daemon.dials, budget, daemon.clock);
            return Some(error);
          }
          Sleep(interval);
      }
    }

    /** A verb sent until it is answered: it reports an `Io` error only when
        reconnecting has been given up. */
    method RetryIo(req: Request) returns (r: Result)
      requires Valid() && req.Verb?
      modifies this, daemon, if inner.Some? then {inner.value.reader} else {}
      ensures Valid() && SendsOnly(old(daemon.log), daemon.log, req)
      ensures r.Got? ==>
                |daemon.log| > |old(daemon.log)| && Answers(daemon.codec, daemon.log[|daemon.log| - 1], req, r.value)
      ensures r == Err(Io) ==> inner.None? && Exhausted(tries, |old(tries)|, budget, daemon.clock)
      ensures if inner.Some? then EndsBy(daemon.codec, old(daemon.log), daemon.log, req, r)
              else GivenUp(r, authFailure, tries, |old(tries)|, budget, daemon.clock)
      ensures old(authFailure).Some? ==> Stopped(old(authFailure).value, r) && daemon.dialed == old(daemon.dialed)
                                         && daemon.log == old(daemon.log) && authFailure == old(authFailure)
    {
      hide ReplyOf, Parsed, Dialled, Truthful, IsAuthTerminal, Exhausted;
      while true
        invariant Valid() && SendsOnly(old(daemon.log), daemon.log, req) && old(tries) <= tries
        invariant Fits(daemon.codec, req) || daemon.log == old(daemon.log)
        invariant inner == old(inner) || inner.None? || fresh(inner.value.reader)
        invariant old(authFailure).Some? ==>
                    && daemon.dialed == old(daemon.dialed) && daemon.log == old(daemon.log)
                    && authFailure == old(authFailure)
        decreases |daemon.dials|, inner.Some?
      {
        ghost var log0, tries0 := daemon.log, tries;
        var e := EnsureConnected();
        ghost var log1 := daemon.log;
        if e.Some? {
          RequestAdded(old(daemon.log), log0, log1, log1, 0, req);
          if !e.value.Server? {
            ExhaustedSince(tries, |old(tries)|, |tries0|, budget, daemon.clock);
          }
          return Err(e.value);
        }
        r := RoundTrip(daemon, inner.value, req);
        RequestAdded(old(daemon.log), log0, log1, daemon.log, inner.value.number, req);
        if r != Err(Io) {
          return;
        }
        inner := None;
      }
    }

    /** A verb sent at most once: an `Io` error is reported, the connection dropped. */
    method NoRetryOnIo(req: Request) returns (r: Result)
      requires Valid() && req.Verb?
      modifies this, daemon, if inner.Some? then {inner.value.reader} else {}
      ensures Valid() && |old(daemon.log)| <= |daemon.log|
      ensures SendsNoVerb(old(daemon.log), daemon.log) ||
              (SendsNoVerb(old(daemon.log), daemon.log[..|daemon.log| - 1]) && daemon.log[|daemon.log| - 1].req == req)
      ensures r.Got? ==>
                |daemon.log| > |old(daemon.log)| && Answers(daemon.codec, daemon.log[|daemon.log| - 1], req, r.value)
      ensures r == Err(Io) ==> inner.None?
      ensures || (EndsBy(daemon.codec, old(daemon.log), daemon.log, req, r) && (inner.None? <==> r == Err(Io)))
              || (SendsNoVerb(old(daemon.log), daemon.log) && inner.None?
                  && GivenUp(r, authFailure, tries, |old(tries)|, budget, daemon.clock))
      ensures old(authFailure).Some? ==> Stopped(old(authFailure).value, r) && daemon.dialed == old(daemon.dialed)
                                         && daemon.log == old(daemon.log) && authFailure == old(authFailure)
    {
      hide ReplyOf, Parsed, Dialled, Truthful, IsAuthTerminal, Exhausted;
      var e := EnsureConnected();
      if e.Some? {
        return Err(e.value);
      }
      ghost var log0 := daemon.log;
      r := RoundTrip(daemon, inner.value, req);
      assert daemon.log == log0 || daemon.log[..|daemon.log| - 1] == log0;
      if r == Err(Io) {
        inner := None;
      }
    }

    /** Each verb with its own retry policy. Whatever happened in earlier calls, a
        reply acted on is the engine's line for this call's own latest request; and
        a verb that must not be repeated is sent at most once. */
    method Call(name: string, args: string) returns (r: Result)
      requires Valid()
      modifies this, daemon, if inner.Some? then {inner.value.reader} else {}
      ensures Valid() && SendsOnly(old(daemon.log), daemon.log, Verb(name, args))
      ensures r.Got? ==>
                && |daemon.log| > |old(daemon.log)|
                && Answers(daemon.codec, daemon.log[|daemon.log| - 1], Verb(name, args), r.value)
      ensures !Repeatable(name) ==>
                forall i, j :: |old(daemon.log)| <= i < j < |daemon.log| ==>
                  !(daemon.log[i].req.Verb? && daemon.log[j].req.Verb?)
      ensures name in MUTATING ==>
                forall i, j :: |old(daemon.log)| <= i < j < |daemon.log| ==>
                  !(daemon.log[i].req.Verb? && daemon.log[j].req.Verb?)
      ensures r == Err(Io) ==>
                inner.None? && (Repeatable(name) ==> Exhausted(tries, |old(tries)|, budget, daemon.clock))
      ensures r == Err(Io) && name in IDEMPOTENT ==> Exhausted(tries, |old(tries)|, budget, daemon.clock)
      ensures || EndsBy(daemon.codec, old(daemon.log), daemon.log, Verb(name, args), r)
              || (inner.None? && GivenUp(r, authFailure, tries, |old(tries)|, budget, daemon.clock))
      ensures old(authFailure).Some? ==> Stopped(old(authFailure).value, r) && daemon.dialed == old(daemon.dialed)
                                         && daemon.log == old(daemon.log) && authFailure == old(authFailure)
    {
      hide EndsBy, GivenUp, Exhausted;
      if Repeatable(name) {
        r := RetryIo(Verb(name, args));
      } else {
        r := NoRetryOnIo(Verb(name, args));
        OneVerb(old(daemon.log), daemon.log, Verb(name, args));
      }
    }

    method Sleep(ms: nat)
      modifies daemon
      ensures daemon.clock == old(daemon.clock) + ms
      ensures daemon.dials == old(daemon.dials) && daemon.answers == old(daemon.answers)
      ensures daemon.log == old(daemon.log)
      ensures daemon.live == old(daemon.live) && daemon.dialed == old(daemon.dialed)
    {
      daemon.clock := daemon.clock + ms;
    }
  }
}
