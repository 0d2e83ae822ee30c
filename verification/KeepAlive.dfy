/** What a kept-alive, pipelined connection serves, whatever events its bytes arrive in. */
module KeepAlive {
  import opened Text
  import opened HttpRequests
  import opened HttpParsing
  import opened Fragmentation
  import opened HttpServing

  const FRESH := Context(ExpectRequestLine, EMPTY)
  const OPENED := Session(FRESH, "", [], 0)

  /** The requests without their receive times. */
  function Strip(rs: seq<Request>): (us: seq<Request>)
    ensures |us| == |rs|
    ensures forall i :: 0 <= i < |rs| ==> us[i] == UntimedRequest(rs[i])
  {
    seq(|rs|, i requires 0 <= i < |rs| => UntimedRequest(rs[i]))
  }

  /** The reference: parse, reset, and go on with what is left, for as long as requests are complete. */
  function AllRequests(c: Context, b: string): seq<Request>
    requires !c.state.GotAll?
    decreases |b|, !c.state.ExpectRequestLine?
  {
    var o := Parse(c, b, 0);
    ParseEatsFromTheFront(c, b, 0);
    CompleteEats(c, b, 0);
    if o.Complete() then [UntimedRequest(o.context.request)] + AllRequests(ResetContext(o.context), o.rest) else []
  }

  /** How the reference ends: `Good` if it runs out of bytes, otherwise what stopped it. */
  function LastVerdict(c: Context, b: string): Verdict
    requires !c.state.GotAll?
    decreases |b|, !c.state.ExpectRequestLine?
  {
    var o := Parse(c, b, 0);
    ParseEatsFromTheFront(c, b, 0);
    CompleteEats(c, b, 0);
    if o.Complete() then LastVerdict(ResetContext(o.context), o.rest) else o.verdict
  }

  lemma {:induction false} CompleteEats(c: Context, b: string, now: int)
    requires !c.state.GotAll?
    ensures var o := Parse(c, b, now);
            c.state.ExpectRequestLine? && o.Complete() ==> |o.rest| < |b|
  {
    var turn := OneTurn(c, b, now);
    TurnShrinks(c, b, now);
    if turn.hasMore {
      ParseEatsFromTheFront(turn.outcome.context, turn.outcome.rest, now);
    } else if c.state.ExpectRequestLine? {
      var crlf := FindCrlf(b);
      if crlf.Some? {
        TakeRequestLineShrinks(c, b, crlf.value, now);
      }
    }
  }

  /** The requests of a session that have arrived but have not been dispatched. */
  function Pending(s: Session): seq<Request>
    requires !s.context.state.GotAll?
  {
    if s.rejected > 0 then [] else AllRequests(s.context, s.buffer)
  }

  /** Outcomes that differ in the receive time alone are told apart by nothing that goes on. */
  lemma {:induction false} ResetUntimed(o: Outcome, o': Outcome)
    requires UntimedOutcome(o) == UntimedOutcome(o')
    ensures o.verdict == o'.verdict && o.rest == o'.rest && o.context.state == o'.context.state
    ensures ResetContext(o.context) == ResetContext(o'.context)
    ensures UntimedRequest(o.context.request) == UntimedRequest(o'.context.request)
  {
    var r, r' := o.context.request, o'.context.request;
    assert UntimedOutcome(o).context.request == UntimedRequest(r);
    assert r.content == UntimedRequest(r).content && r.contentLength == UntimedRequest(r).contentLength;
    assert r'.content == UntimedRequest(r').content && r'.contentLength == UntimedRequest(r').contentLength;
  }

  lemma {:induction false} AllRequestsUntimed(c: Context, d: Context, b: string)
    requires !c.state.GotAll? && Untimed(c) == Untimed(d)
    ensures AllRequests(c, b) == AllRequests(d, b)
  {
    ParseUntimed(c, d, b, 0, 0);
    ResetUntimed(Parse(c, b, 0), Parse(d, b, 0));
  }

  /** A call that finishes a request, against the reference on a longer stream. */
  lemma {:induction false} ReferenceCompletes(c: Context, b: string, more: string, now: int)
    requires !c.state.GotAll? && Parse(c, b, now).Complete()
    ensures var o := Parse(c, b, now);
            && AllRequests(c, b + more) ==
               [UntimedRequest(o.context.request)] + AllRequests(ResetContext(o.context), o.rest + more)
            && LastVerdict(c, b + more) == LastVerdict(ResetContext(o.context), o.rest + more)
  {
    hide Parse;
    var o, o0 := Parse(c, b, now), Parse(c, b, 0);
    ParseUntimed(c, c, b, now, 0);
    ParseExtend(c, b, more, 0);
    ResetUntimed(o, o0);
  }

  lemma {:induction false} ReferenceWaits(c: Context, b: string, more: string, now: int)
    requires !c.state.GotAll? && Parse(c, b, now).Waiting()
    ensures var o := Parse(c, b, now);
            && AllRequests(c, b + more) == AllRequests(o.context, o.rest + more)
            && LastVerdict(c, b + more) == LastVerdict(o.context, o.rest + more)
  {
    hide Parse;
    var o, o0 := Parse(c, b, now), Parse(c, b, 0);
    ParseUntimed(c, c, b, now, 0);
    ParseExtend(c, b, more, 0);
    ResetUntimed(o, o0);
    assert AllRequests(c, b + more) == AllRequests(o0.context, o0.rest + more);
    assert LastVerdict(c, b + more) == LastVerdict(o0.context, o0.rest + more);
    AllRequestsUntimed(o0.context, o.context, o.rest + more);
    LastVerdictUntimed(o0.context, o.context, o.rest + more);
  }

  lemma {:induction false} ReferenceStops(c: Context, b: string, more: string, now: int)
    requires !c.state.GotAll? && !Parse(c, b, now).verdict.Good?
    ensures AllRequests(c, b + more) == [] && !LastVerdict(c, b + more).Good?
  {
    hide Parse;
    ParseUntimed(c, c, b, now, 0);
    ParseExtend(c, b, more, 0);
    ResetUntimed(Parse(c, b, now), Parse(c, b, 0));
  }

  /** One event against the reference, with any bytes still to come. */
  lemma {:induction false} MessageServes(s: Session, event: Chunk, more: string)
    requires !s.context.state.GotAll? && s.rejected == 0
    ensures var s', all := AfterMessage(s, event), s.buffer + event.bytes + more;
            && !s'.context.state.GotAll? && s'.rejected <= 1
            && Strip(s.dispatched) + AllRequests(s.context, all) ==
               Strip(s'.dispatched) + (if s'.rejected > 0 then [] else AllRequests(s'.context, s'.buffer + more))
            && if s'.rejected > 0 then !LastVerdict(s.context, all).Good?
               else LastVerdict(s.context, all) == LastVerdict(s'.context, s'.buffer + more)
  {
    hide Parse, AllRequests, LastVerdict;
    var b := s.buffer + event.bytes;
    var o := Parse(s.context, b, event.time);
    ParseNeverLeaks(s.context, b, event.time);
    if o.Complete() {
      ReferenceCompletes(s.context, b, more, event.time);
      assert Strip(AfterMessage(s, event).dispatched) == Strip(s.dispatched) + [UntimedRequest(o.context.request)];
    } else if o.Waiting() {
      ReferenceWaits(s.context, b, more, event.time);
    } else {
      ReferenceStops(s.context, b, more, event.time);
    }
  }

  /** Conservation over a whole run, errors included: the requests in the bytes received are
      those dispatched, in order, followed by those still pending. */
  lemma {:induction false} RunServes(s: Session, events: seq<Chunk>)
    requires !s.context.state.GotAll? && s.rejected == 0
    ensures var f := Run(s, events);
            Strip(s.dispatched) + AllRequests(s.context, s.buffer + Concat(events)) == Strip(f.dispatched) + Pending(f)
    decreases |events|
  {
    if events == [] {
      assert s.buffer + Concat(events) == s.buffer;
    } else {
      var s' := AfterMessage(s, events[0]);
      assert s.buffer + Concat(events) == s.buffer + events[0].bytes + Concat(events[1..]);
      MessageServes(s, events[0], Concat(events[1..]));
      if s'.rejected == 0 {
        RunServes(s', events[1..]);
      }
    }
  }

  /** Every dispatched request is the next one of the stream: dispatches are a prefix. */
  lemma {:induction false} DispatchesAreAPrefix(events: seq<Chunk>)
    ensures Strip(Run(OPENED, events).dispatched) <= AllRequests(FRESH, Concat(events))
    ensures Run(OPENED, events).rejected > 0 ==>
              Strip(Run(OPENED, events).dispatched) == AllRequests(FRESH, Concat(events))
  {
    FreshRunServes(events);
  }

  lemma {:induction false} FreshRunServes(events: seq<Chunk>)
    ensures var f := Run(OPENED, events);
            AllRequests(FRESH, Concat(events)) == Strip(f.dispatched) + Pending(f)
  {
    RunServes(OPENED, events);
    assert "" + Concat(events) == Concat(events);
    assert Strip([]) + AllRequests(FRESH, Concat(events)) == AllRequests(FRESH, Concat(events));
  }

  /** Nothing received is lost or read twice: what has been eaten, then the buffer, is what was
      read; a run reads all its events unless it rejects one. */
  lemma {:induction false} RunConservesBytes(s: Session, events: seq<Chunk>) returns (read: nat, eaten: string)
    requires !s.context.state.GotAll?
    ensures read <= |events|
    ensures s.buffer + Concat(events[..read]) == eaten + Run(s, events).buffer
    ensures Run(s, events).rejected == 0 ==> read == |events|
    decreases |events|
  {
    if events == [] || s.rejected > 0 {
      read, eaten := 0, "";
      assert Concat(events[..0]) == "";
    } else {
      var s' := AfterMessage(s, events[0]);
      var first := MessageEats(s, events[0]);
      var read', eaten' := RunConservesBytes(s', events[1..]);
      read, eaten := read' + 1, first + eaten';
      var later := Concat(events[1..][..read']);
      assert events[..read][1..] == events[1..][..read'];
      Reassociate(s.buffer, events[0].bytes, later, first, s'.buffer, eaten', Run(s', events[1..]).buffer);
    }
  }

  lemma {:induction false} MessageEats(s: Session, event: Chunk) returns (eaten: string)
    requires !s.context.state.GotAll?
    ensures var s' := AfterMessage(s, event);
            !s'.context.state.GotAll? && s.buffer + event.bytes == eaten + s'.buffer
  {
    var b, s' := s.buffer + event.bytes, AfterMessage(s, event);
    ParseNeverLeaks(s.context, b, event.time);
    ParseEatsFromTheFront(s.context, b, event.time);
    eaten := b[..|b| - |s'.buffer|];
  }

  lemma {:induction false} Reassociate(
      buffer: string, bytes: string, later: string, first: string, buffer': string, eaten': string, left: string)
    requires buffer + bytes == first + buffer' && buffer' + later == eaten' + left
    ensures buffer + (bytes + later) == first + eaten' + left
  {
    assert buffer + (bytes + later) == buffer + bytes + later == first + (buffer' + later);
  }

  lemma {:induction false} LastVerdictUntimed(c: Context, d: Context, b: string)
    requires !c.state.GotAll? && Untimed(c) == Untimed(d)
    ensures LastVerdict(c, b) == LastVerdict(d, b)
  {
    ParseUntimed(c, d, b, 0, 0);
    ResetUntimed(Parse(c, b, 0), Parse(d, b, 0));
  }

  /** A run that rejects nothing leaves the reference's verdict to what is still in the buffer; a
      connection is rejected only for a stream that the reference rejects. */
  lemma {:induction false} RunVerdict(s: Session, events: seq<Chunk>)
    requires !s.context.state.GotAll? && s.rejected == 0
    ensures var f, verdict := Run(s, events), LastVerdict(s.context, s.buffer + Concat(events));
            && f.rejected <= 1
            && if f.rejected > 0 then !verdict.Good? else verdict == LastVerdict(f.context, f.buffer)
    decreases |events|
  {
    hide LastVerdict, AllRequests;
    if events == [] {
      assert s.buffer + Concat(events) == s.buffer;
    } else {
      var s' := AfterMessage(s, events[0]);
      assert s.buffer + Concat(events) == s.buffer + events[0].bytes + Concat(events[1..]);
      MessageServes(s, events[0], Concat(events[1..]));
      if s'.rejected == 0 {
        RunVerdict(s', events[1..]);
      }
    }
  }

  /** How many requests are complete in the bytes of the events. */
  function CompleteCount(events: seq<Chunk>): nat {
    |AllRequests(FRESH, Concat(events))|
  }

  function DispatchCount(events: seq<Chunk>): nat {
    |Run(OPENED, events).dispatched|
  }

  lemma {:induction false} RunSnoc(s: Session, events: seq<Chunk>, last: Chunk)
    requires !s.context.state.GotAll?
    ensures var f := Run(s, events);
            Run(s, events + [last]) == if f.rejected > 0 then f else AfterMessage(f, last)
    decreases |events|
  {
    if s.rejected == 0 {
      if events == [] {
        assert events + [last] == [last];
        ParseNeverLeaks(s.context, s.buffer + last.bytes, last.time);
      } else {
        ParseNeverLeaks(s.context, s.buffer + events[0].bytes, events[0].time);
        assert (events + [last])[1..] == events[1..] + [last];
        RunSnoc(AfterMessage(s, events[0]), events[1..], last);
      }
    }
  }

  /** A parser that waits keeps waiting until bytes arrive. */
  lemma {:induction false} WaitingIsStable(c: Context, b: string, now: int)
    requires !c.state.GotAll? && Parse(c, b, now).Waiting()
    ensures var o := Parse(c, b, now);
            AllRequests(o.context, o.rest) == []
  {
    var o := Parse(c, b, now);
    ParseExtend(c, b, "", now);
    assert b + "" == b && o.rest + "" == o.rest;
    ParseUntimed(o.context, o.context, o.rest, now, 0);
  }

  /** The exact law of dispatching: an event serves one more request if one is there, and never two. */
  lemma {:induction false} DispatchLaw(events: seq<Chunk>, last: Chunk)
    ensures DispatchCount(events + [last]) ==
            var c, d := CompleteCount(events + [last]), DispatchCount(events) + 1;
            if c <= d then c else d
  {
    var f, g := Run(OPENED, events), Run(OPENED, events + [last]);
    RunSnoc(OPENED, events, last);
    FreshRunServes(events + [last]);
    assert CompleteCount(events + [last]) == |g.dispatched| + |Pending(g)|;
    if f.rejected == 0 {
      var o := Parse(f.context, f.buffer + last.bytes, last.time);
      if o.Waiting() {
        WaitingIsStable(f.context, f.buffer + last.bytes, last.time);
      }
    }
  }

  /** The law of rejection: an event is answered 400 exactly when the bytes received are bad and every
      complete request among them was dispatched before. */
  lemma {:induction false} RejectionLaw(events: seq<Chunk>, last: Chunk)
    ensures Run(OPENED, events + [last]).rejected > 0 <==>
            Run(OPENED, events).rejected > 0 || MeetsBadPart(events, last)
  {
    hide AllRequests, LastVerdict;
    var f, g := Run(OPENED, events), Run(OPENED, events + [last]);
    RunSnoc(OPENED, events, last);
    RunVerdict(OPENED, events + [last]);
    FreshRunServes(events + [last]);
    assert "" + Concat(events + [last]) == Concat(events + [last]);
    if f.rejected == 0 && g.rejected == 0 {
      var o := Parse(f.context, f.buffer + last.bytes, last.time);
      if o.Waiting() {
        WaitingIsGood(f.context, f.buffer + last.bytes, last.time);
      }
    }
  }

  predicate MeetsBadPart(events: seq<Chunk>, last: Chunk) {
    && !LastVerdict(FRESH, Concat(events + [last])).Good?
    && DispatchCount(events) == CompleteCount(events + [last])
  }

  lemma {:induction false} WaitingIsGood(c: Context, b: string, now: int)
    requires !c.state.GotAll? && Parse(c, b, now).Waiting()
    ensures var o := Parse(c, b, now);
            LastVerdict(o.context, o.rest).Good?
  {
    hide Parse;
    var o := Parse(c, b, now);
    ParseExtend(c, b, "", now);
    assert b + "" == b && o.rest + "" == o.rest;
    ParseUntimed(o.context, o.context, o.rest, now, 0);
    ResetUntimed(Parse(o.context, o.rest, now), Parse(o.context, o.rest, 0));
  }

  /** Over a whole run: a connection is rejected, once, if and only if one of its events meets the bad
      part. */
  lemma {:induction false} RejectedIff(events: seq<Chunk>)
    ensures Run(OPENED, events).rejected ==
            if exists i :: 0 <= i < |events| && MeetsBadPart(events[..i], events[i]) then 1 else 0
    decreases |events|
  {
    hide MeetsBadPart;
    RunVerdict(OPENED, events);
    if events != [] {
      var n := |events| - 1;
      var front := events[..n];
      assert events == front + [events[n]];
      RejectionLaw(front, events[n]);
      RejectedIff(front);
      forall i | 0 <= i < n
        ensures events[..i] == front[..i] && events[i] == front[i]
      {
      }
    }
  }

  /** The closed form of a whole run: what has been dispatched is the minimum, over all earlier
      points, of the requests complete there plus one for every event since. */
  lemma {:induction false} DispatchClosedForm(events: seq<Chunk>, n: nat) returns (tight: nat)
    requires n <= |events|
    ensures forall j :: 0 <= j <= n ==> DispatchCount(events[..n]) <= CompleteCount(events[..j]) + n - j
    ensures tight <= n && DispatchCount(events[..n]) == CompleteCount(events[..tight]) + n - tight
  {
    hide DispatchCount, CompleteCount;
    if n == 0 {
      assert events[..0] == [];
      NothingFromNothing();
      tight := 0;
    } else {
      var tight' := DispatchClosedForm(events, n - 1);
      DispatchLawAt(events, n - 1);
      tight := if DispatchCount(events[..n]) == CompleteCount(events[..n]) then n else tight';
    }
  }

  predicate CaughtUp(events: seq<Chunk>) {
    DispatchCount(events) == CompleteCount(events)
  }

  predicate AtMostOneMore(events: seq<Chunk>, i: nat)
    requires i < |events|
  {
    CompleteCount(events[..i + 1]) <= CompleteCount(events[..i]) + 1
  }

  /** Requests are never left waiting for a later event if and only if no event completes two. */
  lemma {:induction false} NoStallIff(events: seq<Chunk>)
    ensures (forall i :: 0 <= i <= |events| ==> CaughtUp(events[..i])) <==>
            (forall i :: 0 <= i < |events| ==> AtMostOneMore(events, i))
  {
    if forall i :: 0 <= i <= |events| ==> CaughtUp(events[..i]) {
      forall i | 0 <= i < |events|
        ensures AtMostOneMore(events, i)
      {
        assert CaughtUp(events[..i]) && CaughtUp(events[..i + 1]);
        DispatchLawAt(events, i);
      }
    }
    if forall i :: 0 <= i < |events| ==> AtMostOneMore(events, i) {
      forall i | 0 <= i <= |events|
        ensures CaughtUp(events[..i])
      {
        CatchesUp(events, i);
      }
    }
  }

  lemma {:induction false} CatchesUp(events: seq<Chunk>, n: nat)
    requires n <= |events|
    requires forall i :: 0 <= i < n ==> AtMostOneMore(events, i)
    ensures CaughtUp(events[..n])
  {
    if n == 0 {
      assert events[..0] == [];
      NothingFromNothing();
    } else {
      CatchesUp(events, n - 1);
      assert AtMostOneMore(events, n - 1);
      DispatchLawAt(events, n - 1);
    }
  }

  lemma {:induction false} DispatchLawAt(events: seq<Chunk>, i: nat)
    requires i < |events|
    ensures DispatchCount(events[..i + 1]) ==
            var c, d := CompleteCount(events[..i + 1]), DispatchCount(events[..i]) + 1;
            if c <= d then c else d
  {
    assert events[..i + 1] == events[..i] + [events[i]];
    DispatchLaw(events[..i], events[i]);
  }

  lemma {:induction false} NothingFromNothing()
    ensures CaughtUp([])
  {
    assert Parse(FRESH, "", 0) == Outcome(Good, FRESH, "");
  }
}
