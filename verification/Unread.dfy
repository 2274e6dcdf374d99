/**
 A stream read on behind the messages that end it for Chunking.Parse, and what a reader leaves of it
 unread. Nothing here depends on how the bytes were cut or when they came.
 */
module Unread {
  import opened Wrappers
  import opened Bytes
  import opened Wire
  import opened Framing
  import opened Chunking

  // ----- reading on -------------------------------------------------------------------------

  /** Some messages of a stream, and what stands behind them. */
  datatype Place = Place(messages: seq<Message>, phase: Phase, rest: seq<byte>)

  /**
   The first n messages, those that halt or throw included. A startup packet that cannot be read is
   found again at the same place, as often as one looks.
   */
  function Reading(password: Text, phase: Phase, buf: seq<byte>, n: nat): Option<Place>
    decreases n
  {
    if n == 0 then Some(Place([], phase, buf))
    else
      var t := Take(password, phase, buf);
      if t.Incomplete? || !LengthFits(phase, buf) then None
      else
        var more := Reading(password, t.phase, t.rest, n - 1);
        if more.None? then None else Some(more.value.(messages := [t.message] + more.value.messages))
  }

  /** One of the first n messages has an impossible length. */
  predicate Garbled(password: Text, phase: Phase, buf: seq<byte>, n: nat)
    decreases n
  {
    var t := Take(password, phase, buf);
    n > 0 && t.Took? && (!LengthFits(phase, buf) || Garbled(password, t.phase, t.rest, n - 1))
  }

  function Behind(before: seq<Message>, p: Option<Place>): Option<Place> {
    if p.None? then None else Some(p.value.(messages := before + p.value.messages))
  }

  /** Bytes that come later change nothing about the messages before them. */
  lemma {:induction false} ReadingExtends(password: Text, phase: Phase, b: seq<byte>, c: seq<byte>, n: nat)
    ensures var p := Reading(password, phase, b, n);
      p.Some? ==> Reading(password, phase, b + c, n) == Some(p.value.(rest := p.value.rest + c))
    ensures Garbled(password, phase, b, n) ==> Garbled(password, phase, b + c, n)
    decreases n
  {
    hide Take, LengthFits;
    var t := Take(password, phase, b);
    if n == 0 || t.Incomplete? {
    } else if LengthFits(phase, b) {
      TakeExtends(password, phase, b, c);
      ReadingExtends(password, t.phase, t.rest, c, n - 1);
    } else {
      BadLengthStays(password, phase, b, c);
    }
  }

  /** Reading n messages and then m more is reading n + m. */
  lemma {:induction false} ReadingOn(password: Text, phase: Phase, buf: seq<byte>, n: nat, m: nat)
    requires Reading(password, phase, buf, n).Some?
    ensures var p := Reading(password, phase, buf, n).value;
      && Reading(password, phase, buf, n + m) == Behind(p.messages, Reading(password, p.phase, p.rest, m))
      && Garbled(password, phase, buf, n + m) == Garbled(password, p.phase, p.rest, m)
    decreases n
  {
    hide Take, LengthFits;
    if n == 0 {
      var p := Reading(password, phase, buf, m);
      assert p.Some? ==> [] + p.value.messages == p.value.messages;
    } else {
      var t := Take(password, phase, buf);
      ReadingOn(password, t.phase, t.rest, n - 1, m);
      var p := Reading(password, t.phase, t.rest, n - 1).value;
      var q := Reading(password, p.phase, p.rest, m);
      assert q.Some? ==> [t.message] + (p.messages + q.value.messages) == ([t.message] + p.messages) + q.value.messages;
    }
  }

  lemma {:induction false} GarbledMore(password: Text, phase: Phase, buf: seq<byte>, n: nat, m: nat)
    requires Garbled(password, phase, buf, n) && n <= m
    ensures Garbled(password, phase, buf, m)
    decreases n
  {
    hide Take, LengthFits;
    if LengthFits(phase, buf) {
      var t := Take(password, phase, buf);
      GarbledMore(password, t.phase, t.rest, n - 1, m - 1);
    }
  }

  /** One run of the loop reads on. */
  lemma {:induction false} PumpedReads(password: Text, phase: Phase, buf: seq<byte>)
    ensures var s := Pumped(password, phase, buf);
      || Garbled(password, phase, buf, |s.messages|)
      || Reading(password, phase, buf, |s.messages|) == Some(Place(s.messages, s.phase, s.rest))
    decreases |buf|, Rank(phase)
  {
    hide Take, LengthFits;
    var t := Take(password, phase, buf);
    if t.Took? && t.next.Continue? && Progress(phase, buf, t) {
      PumpedReads(password, t.phase, t.rest);
    } else if t.Took? {
      assert Reading(password, t.phase, t.rest, 0) == Some(Place([], t.phase, t.rest));
      assert [t.message] + [] == [t.message];
    }
  }

  /** The handled messages are the first of the stream, and the buffer is what stands behind them. */
  ghost predicate InPlace(password: Text, w: Whole) {
    || Garbled(password, First, w.received, |w.handled|)
    || Reading(password, First, w.received, |w.handled|) == Some(Place(w.handled, w.reader.phase, w.reader.buf))
  }

  lemma PumpInPlace(password: Text, w: Whole)
    requires InPlace(password, w)
    ensures var s := Pump(password, w.reader); InPlace(password, Whole(s.reader, w.handled + s.messages, w.received))
  {
    hide Pumped, Reading, Garbled;
    var n, s := |w.handled|, Pumped(password, w.reader.phase, w.reader.buf);
    if Garbled(password, First, w.received, n) {
      GarbledMore(password, First, w.received, n, n + |s.messages|);
    } else {
      PumpedReads(password, w.reader.phase, w.reader.buf);
      ReadingOn(password, First, w.received, n, |s.messages|);
    }
  }

  lemma StepInPlace(password: Text, w: Whole, e: Event)
    requires Enabled(w.reader, e) && InPlace(password, w)
    ensures var s := Apply(password, w.reader, e);
      InPlace(password, Whole(s.reader, w.handled + s.messages, w.received + if e.Chunk? then e.bytes else []))
  {
    hide Pump, Reading, Garbled;
    var c := if e.Chunk? then e.bytes else [];
    var r := w.reader.(buf := w.reader.buf + c);
    var w' := Whole(r, w.handled, w.received + c);
    ReadingExtends(password, First, w.received, c, |w.handled|);
    assert InPlace(password, w');
    assert w.handled + [] == w.handled && w.reader.buf + [] == w.reader.buf;
    PumpInPlace(password, w');
    PumpInPlace(password, w'.(reader := r.(needPump := false)));
  }

  /**
   In every run, errors included: unless an impossible length was among them, the handled messages are
   the first of the received stream, and the buffer holds exactly the bytes behind them.
   */
  lemma {:induction false} RunInPlace(password: Text, events: seq<Event>)
    requires RunOf(password, events).Some?
    ensures InPlace(password, RunOf(password, events).value)
    decreases |events|
  {
    assert InPlace(password, Whole(START, [], []));
    hide Take, Apply, Enabled, InPlace;
    if events == [] {
    } else {
      RunInPlace(password, events[..|events| - 1]);
      StepInPlace(password, RunOf(password, events[..|events| - 1]).value, events[|events| - 1]);
    }
  }

  /** What the protocol's reading finds is found, so a stream that a malformed body ends is not garbled before it. */
  lemma {:induction false} ParsedIsRead(password: Text, phase: Phase, buf: seq<byte>)
    ensures var ms := Parse(password, phase, buf).messages;
      Reading(password, phase, buf, |ms|).Some? && Reading(password, phase, buf, |ms|).value.messages == ms
    decreases |buf|
  {
    hide Take, LengthFits;
    var t := Take(password, phase, buf);
    if t.Incomplete? || !LengthFits(phase, buf) {
    } else if t.next.Halt? || t.next.Throw? {
      assert Reading(password, t.phase, t.rest, 0) == Some(Place([], t.phase, t.rest));
    } else {
      FitShrinks(password, phase, buf);
      ParsedIsRead(password, t.phase, t.rest);
    }
  }

  lemma {:induction false} ReadIsNotGarbled(password: Text, phase: Phase, buf: seq<byte>, n: nat)
    requires Reading(password, phase, buf, n).Some?
    ensures !Garbled(password, phase, buf, n)
    decreases n
  {
    hide Take, LengthFits;
    if n == 0 {
    } else {
      var t := Take(password, phase, buf);
      ReadIsNotGarbled(password, t.phase, t.rest, n - 1);
    }
  }

  // ----- where the loop stops ---------------------------------------------------------------

  /** What the loop does after the message that stands behind the first n, if there is one. */
  function NextBehind(password: Text, phase: Phase, buf: seq<byte>, n: nat): Option<Next> {
    var p := Reading(password, phase, buf, n);
    if p.None? then None
    else
      var t := Take(password, p.value.phase, p.value.rest);
      if t.Incomplete? then None else Some(t.next)
  }

  /** The n-th message stops the loop, or throws. */
  ghost predicate StopsAt(password: Text, phase: Phase, buf: seq<byte>, n: nat) {
    (n > 0 && NextBehind(password, phase, buf, n - 1) == Some(Halt)) || ThrowsAt(password, phase, buf, n)
  }

  ghost predicate ThrowsAt(password: Text, phase: Phase, buf: seq<byte>, n: nat) {
    n > 0 && NextBehind(password, phase, buf, n - 1) == Some(Throw)
  }

  /** A run of the loop ends where nothing complete is left, or at a message that stops it. */
  lemma {:induction false} PumpedStops(password: Text, phase: Phase, buf: seq<byte>)
    ensures var s := Pumped(password, phase, buf); var n := |s.messages|;
      && (s.stop.Waiting? ==> Take(password, s.phase, s.rest).Incomplete?)
      && (!Garbled(password, phase, buf, n) && s.stop.Halted? ==> StopsAt(password, phase, buf, n))
      && (!Garbled(password, phase, buf, n) && s.stop.Threw? ==> ThrowsAt(password, phase, buf, n))
    decreases |buf|, Rank(phase)
  {
    hide Take, LengthFits;
    var t := Take(password, phase, buf);
    if t.Took? && t.next.Continue? && Progress(phase, buf, t) {
      PumpedStops(password, t.phase, t.rest);
      var s := Pumped(password, t.phase, t.rest);
      if LengthFits(phase, buf) && s.messages != [] {
        OneThenMore(password, phase, buf, |s.messages| - 1);
      }
    } else if t.Took? {
      assert Reading(password, phase, buf, 0) == Some(Place([], phase, buf));
    }
  }

  lemma OneThenMore(password: Text, phase: Phase, buf: seq<byte>, n: nat)
    requires Take(password, phase, buf).Took? && LengthFits(phase, buf)
    ensures var t := Take(password, phase, buf);
      NextBehind(password, phase, buf, n + 1) == NextBehind(password, t.phase, t.rest, n)
  {
    hide Take, LengthFits;
  }

  lemma NextBehindOn(password: Text, phase: Phase, buf: seq<byte>, n: nat, m: nat)
    requires Reading(password, phase, buf, n).Some?
    ensures var p := Reading(password, phase, buf, n).value;
      NextBehind(password, phase, buf, n + m) == NextBehind(password, p.phase, p.rest, m)
  {
    hide Take, LengthFits, Reading, Garbled;
    ReadingOn(password, phase, buf, n, m);
  }

  /** What follows a message that is complete does not change it. */
  lemma NextBehindExtends(password: Text, phase: Phase, b: seq<byte>, c: seq<byte>, n: nat)
    requires Reading(password, phase, b, n + 1).Some?
    ensures NextBehind(password, phase, b + c, n) == NextBehind(password, phase, b, n)
  {
    hide Take, LengthFits, Garbled;
    ShorterReads(password, phase, b, n);
    ReadingExtends(password, phase, b, c, n);
    ReadingOn(password, phase, b, n, 1);
    var p := Reading(password, phase, b, n).value;
    assert Reading(password, p.phase, p.rest, 1).Some?;
    TakeExtends(password, p.phase, p.rest, c);
  }

  lemma {:induction false} ShorterReads(password: Text, phase: Phase, buf: seq<byte>, n: nat)
    requires Reading(password, phase, buf, n + 1).Some?
    ensures Reading(password, phase, buf, n).Some?
    decreases n
  {
    hide Take, LengthFits;
    if n == 0 {
    } else {
      var t := Take(password, phase, buf);
      ShorterReads(password, t.phase, t.rest, n - 1);
    }
  }

  /** A rejected reader has just thrown, and one at rest has nothing complete left or was stopped. */
  ghost predicate Stopped(password: Text, w: Whole) {
    var r, n := w.reader, |w.handled|;
    !Garbled(password, First, w.received, n) ==>
      && (r.pending.Rejected? ==> ThrowsAt(password, First, w.received, n))
      && (r.pending.Idle? || (r.pending.Returned? && !r.needPump) ==>
            Take(password, r.phase, r.buf).Incomplete? || StopsAt(password, First, w.received, n))
  }

  lemma PumpStopped(password: Text, w: Whole)
    requires InPlace(password, w)
    ensures var s := Pump(password, w.reader); Stopped(password, Whole(s.reader, w.handled + s.messages, w.received))
  {
    hide Pumped, Take, Reading, Garbled;
    var n, s := |w.handled|, Pumped(password, w.reader.phase, w.reader.buf);
    var m := |s.messages|;
    if Garbled(password, First, w.received, n) {
      GarbledMore(password, First, w.received, n, n + m);
    } else {
      PumpedStops(password, w.reader.phase, w.reader.buf);
      ReadingOn(password, First, w.received, n, m);
      if m > 0 {
        NextBehindOn(password, First, w.received, n, m - 1);
      }
    }
  }

  lemma StopsExtends(password: Text, b: seq<byte>, c: seq<byte>, n: nat)
    requires Reading(password, First, b, n).Some?
    ensures StopsAt(password, First, b, n) ==> StopsAt(password, First, b + c, n)
    ensures ThrowsAt(password, First, b, n) ==> ThrowsAt(password, First, b + c, n)
  {
    hide Take, Reading;
    if n > 0 {
      NextBehindExtends(password, First, b, c, n - 1);
    }
  }

  lemma StepStopped(password: Text, w: Whole, e: Event)
    requires Enabled(w.reader, e) && InPlace(password, w) && Stopped(password, w)
    ensures var s := Apply(password, w.reader, e);
      Stopped(password, Whole(s.reader, w.handled + s.messages, w.received + if e.Chunk? then e.bytes else []))
  {
    hide Pump, Reading, Garbled, Take, ThrowsAt, NextBehind;
    var c := if e.Chunk? then e.bytes else [];
    var r := w.reader.(buf := w.reader.buf + c);
    var w' := Whole(r, w.handled, w.received + c);
    ReadingExtends(password, First, w.received, c, |w.handled|);
    assert InPlace(password, w');
    assert w.handled + [] == w.handled && w.reader.buf + [] == w.reader.buf && w.received + [] == w.received;
    var s := Apply(password, w.reader, e);
    var after := Whole(s.reader, w.handled + s.messages, w.received + c);
    if s == Pump(password, r) {
      PumpStopped(password, w');
    } else if s == Pump(password, r.(needPump := false)) {
      PumpStopped(password, w'.(reader := r.(needPump := false)));
    } else {
      assert after == Whole(s.reader, w.handled, w'.received);
      if !Garbled(password, First, w'.received, |w.handled|) {
        StopsExtends(password, w.received, c, |w.handled|);
      }
    }
  }

  lemma {:induction false} RunStopped(password: Text, events: seq<Event>)
    requires RunOf(password, events).Some?
    ensures InPlace(password, RunOf(password, events).value) && Stopped(password, RunOf(password, events).value)
    decreases |events|
  {
    StartStopped(password);
    hide Take, Apply, Enabled, InPlace, Stopped;
    if events == [] {
    } else {
      var before := RunOf(password, events[..|events| - 1]).value;
      RunStopped(password, events[..|events| - 1]);
      StepInPlace(password, before, events[|events| - 1]);
      StepStopped(password, before, events[|events| - 1]);
    }
  }

  lemma StartStopped(password: Text)
    ensures InPlace(password, Whole(START, [], [])) && Stopped(password, Whole(START, [], []))
  {
  }

  // ----- the theorems -----------------------------------------------------------------------

  /** The received bytes hold a message behind the first n. */
  ghost predicate HoldsMore(password: Text, received: seq<byte>, n: nat) {
    NextBehind(password, First, received, n).Some?
  }

  /**
   In every run without impossible lengths, a reader at rest leaves a whole message unread exactly when
   the received bytes hold one behind the handled messages, and then only because the last of these
   threw, or was a Terminate or a wrong password.
   */
  lemma RestLeavesExactly(password: Text, events: seq<Event>)
    requires RunOf(password, events).Some? && RunOf(password, events).value.reader.pending.Idle?
    requires var w := RunOf(password, events).value; !Garbled(password, First, w.received, |w.handled|)
    ensures var w := RunOf(password, events).value; var n := |w.handled|;
      && Reading(password, First, w.received, n) == Some(Place(w.handled, w.reader.phase, w.reader.buf))
      && (Take(password, w.reader.phase, w.reader.buf).Took? <==> HoldsMore(password, w.received, n))
      && (HoldsMore(password, w.received, n) ==> StopsAt(password, First, w.received, n))
  {
    hide Take, RunOf, Garbled, Reading;
    RunStopped(password, events);
  }

  /**
   In every run a reader that has thrown was thrown by the last message it handled, holds exactly the
   received bytes behind it, and after its callback waits for a further chunk, whatever was noted
   before; so a message stays unread exactly when the received bytes hold more than was handled.
   */
  lemma ThrowLeavesExactly(password: Text, events: seq<Event>)
    requires RunOf(password, events).Some? && RunOf(password, events).value.reader.pending.Rejected?
    ensures var w := RunOf(password, events).value; var n := |w.handled|;
      && RunOf(password, events + [Settled]).Some?
      && var w' := RunOf(password, events + [Settled]).value;
      && w'.handled == w.handled && w'.received == w.received
      && !Enabled(w'.reader, Settled) && !Enabled(w'.reader, Resumed)
      && (!Garbled(password, First, w.received, n) ==>
            && ThrowsAt(password, First, w.received, n)
            && Reading(password, First, w.received, n) == Some(Place(w.handled, w'.reader.phase, w'.reader.buf))
            && (Take(password, w'.reader.phase, w'.reader.buf).Took? <==> HoldsMore(password, w.received, n)))
  {
    hide Take, Garbled, Reading;
    RunStopped(password, events);
    var w := RunOf(password, events).value;
    assert (events + [Settled])[..|events|] == events;
    assert w.handled + [] == w.handled && w.received + [] == w.received;
  }

  /** The bytes behind the first message that ends a stream, found as the protocol's reading finds it. */
  function BehindEnd(password: Text, phase: Phase, buf: seq<byte>): Option<seq<byte>>
    decreases |buf|
  {
    var t := Take(password, phase, buf);
    if t.Incomplete? || !LengthFits(phase, buf) then None
    else if t.next.Halt? || t.next.Throw? then Some(t.rest)
    else
      FitShrinks(password, phase, buf);
      BehindEnd(password, t.phase, t.rest)
  }

  lemma {:induction false} BehindEndIsRead(password: Text, phase: Phase, buf: seq<byte>)
    ensures var ms := Parse(password, phase, buf).messages; var p := Reading(password, phase, buf, |ms|);
      && p.Some? && p.value.messages == ms && !Garbled(password, phase, buf, |ms|)
      && (StopsAt(password, phase, buf, |ms|) ==> BehindEnd(password, phase, buf) == Some(p.value.rest))
    decreases |buf|
  {
    hide Take, LengthFits;
    ParsedIsRead(password, phase, buf);
    ReadIsNotGarbled(password, phase, buf, |Parse(password, phase, buf).messages|);
    var t := Take(password, phase, buf);
    if t.Incomplete? || !LengthFits(phase, buf) {
    } else if t.next.Halt? || t.next.Throw? {
      assert Reading(password, t.phase, t.rest, 0) == Some(Place([], t.phase, t.rest));
    } else {
      FitShrinks(password, phase, buf);
      BehindEndIsRead(password, t.phase, t.rest);
      var ms := Parse(password, t.phase, t.rest).messages;
      if ms != [] {
        OneThenMore(password, phase, buf, |ms| - 1);
      } else {
        assert Reading(password, phase, buf, 0) == Some(Place([], phase, buf));
      }
    }
  }

  /** After the first error of a stream the reader holds the bytes behind it, however and whenever they came. */
  lemma FirstThrowLeaves(password: Text, events: seq<Event>)
    requires RunOf(password, events).Some? && RunOf(password, events).value.reader.pending.Rejected?
    requires var w := RunOf(password, events).value; w.handled == Parse(password, First, w.received).messages
    ensures var w := RunOf(password, events).value;
      && BehindEnd(password, First, w.received) == Some(w.reader.buf)
      && (Take(password, w.reader.phase, w.reader.buf).Took? <==> HoldsMore(password, w.received, |w.handled|))
  {
    hide Take, Garbled, Reading, Parse, RunOf, BehindEnd;
    RunStopped(password, events);
    BehindEndIsRead(password, First, RunOf(password, events).value.received);
  }

  // ----- a wake-up that is lost -------------------------------------------------------------

  /** A frame whose body is malformed. */
  predicate Malformed(m: Message) {
    m.Frame? && |m.payload| + 4 < TWO_31 && NextOf(m.kind, m.payload).Throw?
  }

  lemma MalformedExactly(m: Message)
    requires m.Frame? && |m.payload| + 4 < TWO_31
    ensures Malformed(m) <==>
      (m.kind == PARSE && ParseBody(m.payload).None?) || (m.kind == BIND && BindBody(m.payload).None?)
  {
  }

  /** A client that comes in with a startup packet and the password, if one is configured. */
  ghost predicate Opens(password: Text, startup: seq<byte>) {
    && 4 <= |startup| && |startup| + 4 < TWO_31 && StartupBody(PutStartup(startup)).Some?
    && !(|startup| == 4 && I32(startup, 0) == SSL_REQUEST)
    && |password| + 5 < TWO_31 && (password == [] || password[|password| - 1] != 0)
  }

  function OpeningMessages(password: Text, startup: seq<byte>, query: seq<byte>): seq<Message>
    requires |startup| + 4 < TWO_31
  {
    [Startup(PutStartup(startup))] + (PasswordMessages(password) + [Frame(QUERY, query)])
  }

  function PutOpening(password: Text, startup: seq<byte>, query: seq<byte>): seq<byte>
    requires |startup| + 4 < TWO_31 && |password| + 5 < TWO_31 && |query| + 4 < TWO_31
  {
    PutStartup(startup) + (PutPassword(password) + PutFrame(Frame(QUERY, query)))
  }

  /** Bytes come while the first query is suspended, and the message at their front throws. */
  function LosingRun(password: Text, startup: seq<byte>, query: seq<byte>, bad: Message, behind: seq<byte>): seq<Event>
    requires |startup| + 4 < TWO_31 && |password| + 5 < TWO_31 && |query| + 4 < TWO_31 && Malformed(bad)
  {
    [Chunk(PutOpening(password, startup, query)), Chunk(PutFrame(bad) + behind), Resumed, Settled]
  }

  lemma PumpOne(password: Text, phase: Phase, buf: seq<byte>)
    requires var t := Take(password, phase, buf); t.Took? && t.next.Continue? && |t.rest| < |buf|
    ensures var t := Take(password, phase, buf); var s := Pumped(password, t.phase, t.rest);
      Pumped(password, phase, buf) == s.(messages := [t.message] + s.messages)
  {
    hide Take;
  }

  lemma QueryPumped(password: Text, query: seq<byte>)
    requires |query| + 4 < TWO_31
    ensures Pumped(password, Ready, PutFrame(Frame(QUERY, query)))
         == Segment([Frame(QUERY, query)], Ready, [], Suspended)
  {
    hide Take, PutFrame;
    var q := Frame(QUERY, query);
    FrameTaken(password, q, []);
    assert PutFrame(q) + [] == PutFrame(q);
  }

  lemma OpeningPumped(password: Text, startup: seq<byte>, query: seq<byte>)
    requires Opens(password, startup) && |query| + 4 < TWO_31
    ensures Pumped(password, First, PutOpening(password, startup, query))
         == Segment(OpeningMessages(password, startup, query), Ready, [], Suspended)
  {
    hide Take, LengthFits, StartupBody, PutStartup, Pumped, StripNuls, PutFrame, PasswordMessages, PutPassword;
    var q := Frame(QUERY, query);
    QueryPumped(password, query);
    StartupTaken(password, startup, PutPassword(password) + PutFrame(q));
    assert |PutStartup(startup)| > 0 by { StartupLength(startup); }
    PumpOne(password, First, PutOpening(password, startup, query));
    PasswordPumped(password, q);
  }

  lemma StartupLength(startup: seq<byte>)
    requires |startup| + 4 < TWO_31
    ensures |PutStartup(startup)| == 4 + |startup|
  {
  }

  lemma PasswordPumped(password: Text, q: Message)
    requires q.Frame? && |q.payload| + 4 < TWO_31 && |password| + 5 < TWO_31
    requires password == [] || password[|password| - 1] != 0
    requires Pumped(password, Ready, PutFrame(q)) == Segment([q], Ready, [], Suspended)
    ensures Pumped(password, if password == [] then Ready else Auth, PutPassword(password) + PutFrame(q))
         == Segment(PasswordMessages(password) + [q], Ready, [], Suspended)
  {
    hide Take, LengthFits, Pumped, StripNuls, PutFrame;
    if password == [] {
      assert PutPassword(password) + PutFrame(q) == PutFrame(q) && PasswordMessages(password) + [q] == [q];
    } else {
      var m := Frame(PASSWORD, password + [0]);
      OneNulStripped(password);
      PasswordTaken(password, password + [0], PutFrame(q));
      assert |PutFrame(m)| > 0 by { FrameLength(m); }
      PumpOne(password, Auth, PutFrame(m) + PutFrame(q));
    }
  }

  lemma FrameLength(m: Message)
    requires m.Frame? && |m.payload| + 4 < TWO_31
    ensures |PutFrame(m)| == 5 + |m.payload|
  {
  }

  /** The two chunks, the second while the query is suspended. */
  lemma FirstTwoEvents(password: Text, first: seq<byte>, second: seq<byte>, done: seq<Message>)
    requires Pumped(password, First, first) == Segment(done, Ready, [], Suspended)
    ensures Extend(password, Extend(password, Some(Whole(START, [], [])), Chunk(first)), Chunk(second))
         == Some(Whole(Reader(second, Ready, true, Awaiting), done, first + second))
  {
    hide Pumped;
    assert [] + first == first && [] + done == done && [] + second == second && done + [] == done;
  }

  /** The resumed pump throws, and its callback ends the run. */
  lemma LastTwoEvents(password: Text, second: seq<byte>, behind: seq<byte>, bad: Message, done: seq<Message>,
                      received: seq<byte>)
    requires Pumped(password, Ready, second) == Segment([bad], Ready, behind, Threw)
    ensures var suspended := Some(Whole(Reader(second, Ready, true, Awaiting), done, received));
      Extend(password, Extend(password, suspended, Resumed), Settled)
      == Some(Whole(Reader(behind, Ready, true, Idle), done + [bad], received))
  {
    hide Pumped;
    assert received + [] == received && done + [bad] + [] == done + [bad];
  }

  lemma BadPumped(password: Text, bad: Message, behind: seq<byte>)
    requires Malformed(bad)
    ensures Pumped(password, Ready, PutFrame(bad) + behind) == Segment([bad], Ready, behind, Threw)
  {
    hide Take, PutFrame;
    FrameTaken(password, bad, behind);
  }

  /** Behind any malformed Parse or Bind, whatever it is, the bytes stay in the buffer and the wake-up is forgotten. */
  lemma ThrowLosesWakeUp(password: Text, startup: seq<byte>, query: seq<byte>, bad: Message, behind: seq<byte>)
    requires Opens(password, startup) && |query| + 4 < TWO_31 && Malformed(bad)
    ensures RunOf(password, LosingRun(password, startup, query, bad, behind))
         == Some(Whole(Reader(behind, Ready, true, Idle), OpeningMessages(password, startup, query) + [bad],
                       PutOpening(password, startup, query) + (PutFrame(bad) + behind)))
  {
    hide StartupBody, PutStartup, PutOpening, OpeningMessages, PutFrame, RunOf, Extend, Pumped, NextOf;
    var first, second := PutOpening(password, startup, query), PutFrame(bad) + behind;
    var done := OpeningMessages(password, startup, query);
    OpeningPumped(password, startup, query);
    BadPumped(password, bad, behind);
    RunOfFour(password, Chunk(first), Chunk(second), Resumed, Settled);
    FirstTwoEvents(password, first, second, done);
    LastTwoEvents(password, second, behind, bad, done, first + second);
  }

  /** One such run: an empty Parse body, and a whole Sync behind it. */
  lemma LosingRunExists()
    ensures Malformed(Frame(PARSE, []))
    ensures var sync := PutFrame(Frame(83, []));
      var w := RunOf([], LosingRun([], [0, 3, 0, 0], [0], Frame(PARSE, []), sync));
      w.Some? && w.value.reader == Reader(sync, Ready, true, Idle) && Take([], Ready, sync).Took?
  {
    hide RunOf, Take;
    var sync := PutFrame(Frame(83, []));
    ThrowLosesWakeUp([], [0, 3, 0, 0], [0], Frame(PARSE, []), sync);
    FrameTaken([], Frame(83, []), []);
    assert sync + [] == sync;
  }

  /** A run of four events, one after the other. */
  lemma RunOfFour(password: Text, a: Event, b: Event, c: Event, d: Event)
    ensures var two := Extend(password, Extend(password, Some(Whole(START, [], [])), a), b);
      RunOf(password, [a, b, c, d]) == Extend(password, Extend(password, two, c), d)
  {
    hide Apply, Enabled;
    assert [a, b, c, d][..3] == [a, b, c] && [a, b, c][..2] == [a, b] && [a, b][..1] == [a] && [a][..0] == [];
    assert RunOf(password, [a]) == Extend(password, RunOf(password, []), a);
    assert RunOf(password, [a, b]) == Extend(password, RunOf(password, [a]), b);
    assert RunOf(password, [a, b, c]) == Extend(password, RunOf(password, [a, b]), c);
  }

  function Extend(password: Text, before: Option<Whole>, e: Event): Option<Whole> {
    if before.None? || !Enabled(before.value.reader, e) then None
    else
      var step := Apply(password, before.value.reader, e);
      Some(Whole(step.reader, before.value.handled + step.messages,
                 before.value.received + if e.Chunk? then e.bytes else []))
  }
}
