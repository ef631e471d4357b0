/** The change-event stream: kept established across drops, with one gap reported for
    each re-establishment, and what an event says about the cached view. */
module Subscription {
  import opened Options
  import opened PathText
  import opened MountState

  datatype Event = Line(text: string) | Gap

  /** How an attempt to establish the stream goes. An established stream delivers
      lines and is then dropped. */
  datatype Attempt = ConnectFails | AuthRefused | SubscribeRefused | Stream(lines: seq<string>)

  // ---------------------------------------------------------------- the trace

  function Lines(lines: seq<string>): (es: seq<Event>)
    ensures |es| == |lines| && forall i :: 0 <= i < |es| ==> es[i] == Line(lines[i])
  {
    seq(|lines|, i requires 0 <= i < |lines| => Line(lines[i]))
  }

  /** The streams that get established before authentication is refused. */
  function Established(attempts: seq<Attempt>): seq<seq<string>> {
    if attempts == [] || attempts[0].AuthRefused? then []
    else (if attempts[0].Stream? then [attempts[0].lines] else []) + Established(attempts[1..])
  }

  /** One attempt after the other: a stream counts, a failure does not, and after a refused
      authentication nothing does. */
  lemma {:induction false} EstablishedInTurn(before: seq<Attempt>, attempt: Attempt, after: seq<Attempt>)
    requires forall i :: 0 <= i < |before| ==> !before[i].AuthRefused?
    ensures Established(before + [attempt] + after) ==
            match attempt
            case Stream(lines) => Established(before) + [lines] + Established(after)
            case AuthRefused => Established(before)
            case _ => Established(before) + Established(after)
    ensures Established([]) == []
  {
    var all := before + [attempt] + after;
    if before == [] {
      assert all[1..] == after;
    } else {
      EstablishedInTurn(before[1..], attempt, after);
      assert all[1..] == before[1..] + [attempt] + after;
    }
  }

  /** Every stream's lines in order, one gap between two streams. */
  function Trace(streams: seq<seq<string>>): seq<Event> {
    if streams == [] then []
    else Trace(streams[..|streams| - 1]) + (if |streams| == 1 then [] else [Gap]) + Lines(streams[|streams| - 1])
  }

  /** The consumer stops at the first event it answers with `false`. */
  ghost predicate SeenBy(goOn: seq<Event> -> bool, seen: seq<Event>, all: seq<Event>) {
    && seen <= all
    && (forall n :: 0 < n < |seen| ==> goOn(seen[..n]))
    && (seen == all || (seen != [] && !goOn(seen)))
  }

  ghost predicate AllGood(goOn: seq<Event> -> bool, seen: seq<Event>) {
    forall n :: 0 < n <= |seen| ==> goOn(seen[..n])
  }

  lemma GoodStep(goOn: seq<Event> -> bool, seen: seq<Event>, e: Event)
    requires AllGood(goOn, seen)
    ensures forall n :: 0 < n < |seen| + 1 ==> goOn((seen + [e])[..n])
    ensures goOn(seen + [e]) ==> AllGood(goOn, seen + [e])
  {
    var more := seen + [e];
    forall n | 0 < n <= |seen|
      ensures goOn(more[..n])
    {
      assert more[..n] == seen[..n];
    }
    assert more[..|more|] == more;
  }

  /** One stream's lines, handed over until it drops or the consumer stops. */
  method ReadEvents(lines: seq<string>, goOn: seq<Event> -> bool, start: seq<Event>)
    returns (more: bool, seen: seq<Event>)
    requires AllGood(goOn, start)
    ensures seen <= start + Lines(lines)
    ensures if more then seen == start + Lines(lines) && AllGood(goOn, seen)
            else seen != [] && !goOn(seen) && forall n :: 0 < n < |seen| ==> goOn(seen[..n])
  {
    seen := start;
    for k := 0 to |lines|
      invariant seen == start + Lines(lines)[..k] && AllGood(goOn, seen)
    {
      var e := Line(lines[k]);
      GoodStep(goOn, seen, e);
      assert Lines(lines)[..k + 1] == Lines(lines)[..k] + [e];
      assert start + (Lines(lines)[..k] + [e]) == seen + [e];
      seen := seen + [e];
      if !goOn(seen) {
        assert start + Lines(lines) == seen + Lines(lines)[k + 1..];
        return false, seen;
      }
    }
    assert Lines(lines)[..|lines|] == Lines(lines);
    more := true;
  }

  lemma Prefixes(a: seq<Event>, b: seq<Event>, c: seq<Event>)
    requires a <= b <= c
    ensures a <= c
  {
  }

  /** Keeps the stream established: a failed connect or subscribe and a dropped
      stream are tried again, a refused authentication ends it. `goOn` is the
      consumer's answer after each event. */
  method RunSubscription(attempts: seq<Attempt>, goOn: seq<Event> -> bool) returns (seen: seq<Event>)
    ensures SeenBy(goOn, seen, Trace(Established(attempts)))
  {
    hide Lines, Trace;
    var hadStream := false;
    seen := [];
    var i := 0;
    ghost var before: seq<seq<string>> := [];
    NoTrace();
    while i < |attempts|
      invariant i <= |attempts| && Established(attempts) == before + Established(attempts[i..])
      invariant seen == Trace(before) && AllGood(goOn, seen) && (hadStream <==> before != [])
    {
      var attempt := attempts[i];
      EstablishedFrom(attempts, before, i);
      i := i + 1;
      if attempt.AuthRefused? {
        return;
      }
      if attempt.ConnectFails? || attempt.SubscribeRefused? {
        continue;
      }
      before := before + [attempt.lines];
      TraceOfPrefix(before, Established(attempts[i..]));
      TraceOfNext(before);
      if hadStream {
        GoodStep(goOn, seen, Gap);
        seen := seen + [Gap];
        if !goOn(seen) {
          Prefixes(seen, Trace(before), Trace(Established(attempts)));
          return;
        }
      }
      hadStream := true;
      var more;
      more, seen := ReadEvents(attempt.lines, goOn, seen);
      if !more {
        Prefixes(seen, Trace(before), Trace(Established(attempts)));
        return;
      }
    }
    assert attempts[i..] == [] && before + [] == before;
  }

  lemma NoTrace()
    ensures Trace([]) == []
  {
  }

  lemma TraceOfNext(streams: seq<seq<string>>)
    requires streams != []
    ensures var before := streams[..|streams| - 1];
            Trace(streams) == Trace(before) + (if before == [] then [] else [Gap]) + Lines(streams[|streams| - 1])
  {
  }

  lemma EstablishedFrom(attempts: seq<Attempt>, before: seq<seq<string>>, i: nat)
    requires i < |attempts|
    ensures var rest := Established(attempts[i + 1..]);
            before + Established(attempts[i..]) ==
            if attempts[i].AuthRefused? then before
            else if attempts[i].Stream? then (before + [attempts[i].lines]) + rest
            else before + rest
  {
    assert attempts[i..][1..] == attempts[i + 1..];
  }

  lemma {:induction false} TraceOfPrefix(streams: seq<seq<string>>, more: seq<seq<string>>)
    ensures Trace(streams) <= Trace(streams + more)
  {
    if more == [] {
      assert streams + more == streams;
    } else {
      var n := |more| - 1;
      TraceOfPrefix(streams, more[..n]);
      assert (streams + more)[..|streams| + n] == streams + more[..n];
    }
  }

  // ---------------------------------------------------------------- what the consumer can tell

  /** A trace cut at its gaps. */
  function Split(es: seq<Event>): (r: seq<seq<string>>)
    ensures |r| > 0
  {
    if es == [] then [[]]
    else
      var r := Split(es[..|es| - 1]);
      match es[|es| - 1]
      case Gap => r + [[]]
      case Line(text) => Continued(r, [text])
  }

  /** `r` with `lines` added to its last stream. */
  function Continued(r: seq<seq<string>>, lines: seq<string>): seq<seq<string>>
    requires |r| > 0
  {
    r[..|r| - 1] + [r[|r| - 1] + lines]
  }

  lemma ContinuedTwice(r: seq<seq<string>>, lines: seq<string>, more: seq<string>)
    requires |r| > 0
    ensures |Continued(r, lines)| > 0 && Continued(Continued(r, lines), more) == Continued(r, lines + more)
  {
    assert r[|r| - 1] + lines + more == r[|r| - 1] + (lines + more);
  }

  lemma ContinuedByNothing(r: seq<seq<string>>)
    requires |r| > 0
    ensures Continued(r, []) == r
  {
    assert r[|r| - 1] + [] == r[|r| - 1];
  }

  lemma ContinuedNew(front: seq<seq<string>>, lines: seq<string>)
    ensures Continued(front + [[]], lines) == front + [lines]
  {
    assert [] + lines == lines;
    assert (front + [[]])[..|front|] == front;
  }

  lemma {:induction false} SplitLines(es: seq<Event>, lines: seq<string>)
    ensures Split(es + Lines(lines)) == Continued(Split(es), lines)
  {
    hide Continued;
    var all := es + Lines(lines);
    if lines == [] {
      assert all == es;
      ContinuedByNothing(Split(es));
    } else {
      var n := |lines| - 1;
      SplitLines(es, lines[..n]);
      assert all[..|all| - 1] == es + Lines(lines[..n]);
      assert lines == lines[..n] + [lines[n]];
      ContinuedTwice(Split(es), lines[..n], [lines[n]]);
    }
  }

  /** The gaps tell the streams apart: cutting the trace there gives back every
      established stream with its lines in order. So there is exactly one gap
      between two streams, none before the first. */
  lemma {:induction false} TraceTellsStreams(streams: seq<seq<string>>)
    requires streams != []
    ensures Split(Trace(streams)) == streams
  {
    hide Continued, Lines;
    var n := |streams| - 1;
    var start := Trace(streams[..n]) + if n == 0 then [] else [Gap];
    SplitLines(start, streams[n]);
    if n > 0 {
      TraceTellsStreams(streams[..n]);
      assert start[..|start| - 1] == Trace(streams[..n]);
    }
    assert Split(start) == streams[..n] + [[]];
    ContinuedNew(streams[..n], streams[n]);
    assert streams == streams[..n] + [streams[n]];
  }

  function Gaps(es: seq<Event>): nat {
    if es == [] then 0 else Gaps(es[..|es| - 1]) + if es[|es| - 1].Gap? then 1 else 0
  }

  lemma {:induction false} GapsSplit(es: seq<Event>)
    ensures Gaps(es) == |Split(es)| - 1
  {
    if es != [] {
      GapsSplit(es[..|es| - 1]);
    }
  }

  /** Gaps are the established streams minus one. */
  lemma GapsAreStreamsMinusOne(attempts: seq<Attempt>)
    ensures Gaps(Trace(Established(attempts))) == if Established(attempts) == [] then 0 else |Established(attempts)| - 1
  {
    if Established(attempts) != [] {
      TraceTellsStreams(Established(attempts));
    }
    GapsSplit(Trace(Established(attempts)));
  }

  // ---------------------------------------------------------------- what an event means

  /** A parsed event line; `paths` has `None` for what is not a string. */
  datatype Json = Json(event: Option<string>, full: Option<bool>, paths: Option<seq<Option<string>>>)

  /** A path an invalidation can be narrowed to: not the root. */
  predicate Narrow(p: Option<string>) {
    p.Some? && p.value != "" && p.value != "/"
  }

  /** The invalidation an event calls for; `parse` reads a line. */
  function InvalidationFor(parse: string -> Option<Json>, ev: Event): Option<Invalidation> {
    if ev.Gap? then Some(All)
    else
      var j := parse(ev.text);
      if j.None? || j.value.event.None? then None
      else if j.value.event.value == "lost" then Some(All)
      else if j.value.event.value != "view.invalidated" then None
      else if j.value.full == Some(true) || j.value.paths.None? then Some(All)
      else
        var listed := j.value.paths.value;
        if forall i :: 0 <= i < |listed| ==> Narrow(listed[i])
        then Some(Paths(seq(|listed|, i requires 0 <= i < |listed| => listed[i].value)))
        else Some(All)
  }

  method InvalidationOf(parse: string -> Option<Json>, ev: Event) returns (r: Option<Invalidation>)
    ensures r == InvalidationFor(parse, ev)
  {
    if ev.Gap? {
      return Some(All);
    }
    var j := parse(ev.text);
    if j.None? || j.value.event.None? {
      return None;
    }
    match j.value.event.value
    case "lost" =>
      return Some(All);
    case "view.invalidated" =>
      if j.value.full == Some(true) || j.value.paths.None? {
        return Some(All);
      }
      var listed := j.value.paths.value;
      var paths := [];
      for k := 0 to |listed|
        invariant |paths| == k && forall i :: 0 <= i < k ==> Narrow(listed[i]) && paths[i] == listed[i].value
      {
        if listed[k].None? || listed[k].value == "" || listed[k].value == "/" {
          assert !Narrow(listed[k]);
          return Some(All);
        }
        paths := paths + [listed[k].value];
      }
      assert paths == seq(|listed|, i requires 0 <= i < |listed| => listed[i].value);
      return Some(Paths(paths));
    case _ =>
      return None;
  }

  /** A listed path is `path` or a folder above it, the root, or not a path at all. */
  ghost predicate Concerns(p: Option<string>, path: string) {
    match p
    case None => true
    case Some(text) => text == "" || text == "/" || path == text || text + "/" <= path
  }

  /** What an event says about `path`: that it, a folder above it, or anything may
      have changed. */
  ghost predicate Says(j: Json, path: string) {
    || j.event == Some("lost")
    || (j.event == Some("view.invalidated") &&
        (j.full == Some(true) || j.paths.None? || exists p :: p in j.paths.value && Concerns(p, path)))
  }

  /** An event calls for an invalidation that hits a path exactly when it says that
      the path may have changed, or a gap hides what happened. */
  lemma HitsWhatIsSaid(parse: string -> Option<Json>, ev: Event, path: string)
    ensures var r := InvalidationFor(parse, ev);
            (r.Some? && Hits(r.value, path)) <==> ev.Gap? || (parse(ev.text).Some? && Says(parse(ev.text).value, path))
  {
    var r := InvalidationFor(parse, ev);
    if r.Some? && r.value.Paths? {
      var listed := parse(ev.text).value.paths.value;
      assert forall i :: 0 <= i < |listed| ==> r.value.roots[i] == listed[i].value;
      if p :| p in listed && Concerns(p, path) {
        var i :| 0 <= i < |listed| && listed[i] == p;
        assert r.value.roots[i] in (set x | x in r.value.roots);
      }
      if x :| x in r.value.roots && AtOrBelow(path, x) {
        var i :| 0 <= i < |listed| && r.value.roots[i] == x;
        assert listed[i] in listed && Concerns(listed[i], path);
      }
    } else if r == Some(All) && ev.Line? && parse(ev.text).value.paths.Some? {
      var j := parse(ev.text).value;
      if j.event == Some("view.invalidated") && j.full != Some(true) {
        var i :| 0 <= i < |j.paths.value| && !Narrow(j.paths.value[i]);
        assert j.paths.value[i] in j.paths.value && Concerns(j.paths.value[i], path);
      }
    }
  }
}
