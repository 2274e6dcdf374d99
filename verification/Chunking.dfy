/** However a byte stream is cut into chunks, and whenever they arrive, the same messages are handled. */
module Chunking {
  import opened Wrappers
  import opened Bytes
  import opened Wire
  import opened Framing

  // ----- the stream in one piece ------------------------------------------------------------

  /** The messages of a stream: all of them so far, or up to the first that ends it. */
  datatype Parsed = Open(messages: seq<Message>, phase: Phase, rest: seq<byte>) | Ended(messages: seq<Message>)

  /** A startup packet is at least 8 bytes long, and the length of a later message counts itself. */
  predicate LengthFits(phase: Phase, buf: seq<byte>)
    requires HeaderSize(phase) <= |buf|
  {
    if phase.First? then I32(buf, 0) >= 8 else I32(buf, 1) >= 4
  }

  function Before(messages: seq<Message>, p: Parsed): Parsed { p.(messages := messages + p.messages) }

  /**
   The protocol's reading of a stream. A Terminate, a wrong password, a malformed body or an
   impossible length ends it.
   */
  function Parse(password: Text, phase: Phase, buf: seq<byte>): Parsed
    decreases |buf|
  {
    var t := Take(password, phase, buf);
    if t.Incomplete? then Open([], phase, buf)
    else if !LengthFits(phase, buf) then Ended([])
    else if t.next.Halt? || t.next.Throw? then Ended([t.message])
    else
      FitShrinks(password, phase, buf);
      Before([t.message], Parse(password, t.phase, t.rest))
  }

  /** A message with a fitting length is cut off the front of the buffer. */
  lemma FitShrinks(password: Text, phase: Phase, buf: seq<byte>)
    requires var t := Take(password, phase, buf); t.Took? && LengthFits(phase, buf) && !t.next.Throw?
    ensures |Take(password, phase, buf).rest| < |buf|
  {
  }

  lemma WordExtends(b: seq<byte>, c: seq<byte>, at: nat)
    requires at + 4 <= |b|
    ensures I32(b + c, at) == I32(b, at)
  {
  }

  lemma CutExtends(b: seq<byte>, c: seq<byte>, from: nat, to: nat)
    requires from <= to <= |b|
    ensures Subarray(b + c, from, to) == Subarray(b, from, to)
    ensures SubarrayFrom(b + c, to) == SubarrayFrom(b, to) + c
  {
    assert (b + c)[from..to] == b[from..to];
    assert (b + c)[to..] == b[to..] + c;
  }

  /** More bytes behind a complete message change nothing about it. */
  lemma TakeExtends(password: Text, phase: Phase, b: seq<byte>, c: seq<byte>)
    requires Take(password, phase, b).Took? && LengthFits(phase, b)
    ensures var t := Take(password, phase, b);
      Take(password, phase, b + c) == Took(t.message, t.phase, t.rest + c, t.next)
    ensures LengthFits(phase, b + c)
  {
    hide StartupBody, NextOf, StripNuls, I32, Subarray, SubarrayFrom;
    if phase.First? {
      WordExtends(b, c, 0);
      WordExtends(b, c, 4);
      assert (b + c)[8..] == b[8..] + c;
      CutExtends(b, c, 0, I32(b, 0));
    } else {
      WordExtends(b, c, 1);
      CutExtends(b, c, 5, 1 + I32(b, 1));
    }
  }

  lemma BadLengthStays(password: Text, phase: Phase, b: seq<byte>, c: seq<byte>)
    requires Take(password, phase, b).Took? && !LengthFits(phase, b)
    ensures Take(password, phase, b + c).Took? && !LengthFits(phase, b + c)
  {
    hide StartupBody, NextOf, StripNuls, I32, Subarray, SubarrayFrom;
    WordExtends(b, c, if phase.First? then 0 else 1);
  }

  lemma {:induction false} ParseExtends(password: Text, phase: Phase, b: seq<byte>, c: seq<byte>)
    ensures var p := Parse(password, phase, b);
      Parse(password, phase, b + c) == if p.Ended? then p else Before(p.messages, Parse(password, p.phase, p.rest + c))
    decreases |b|
  {
    hide Take, LengthFits;
    var t := Take(password, phase, b);
    if t.Incomplete? {
      assert [] + Parse(password, phase, b + c).messages == Parse(password, phase, b + c).messages;
    } else if !LengthFits(phase, b) {
      BadLengthStays(password, phase, b, c);
    } else {
      TakeExtends(password, phase, b, c);
      if !t.next.Halt? && !t.next.Throw? {
        FitShrinks(password, phase, b);
        ParseExtends(password, t.phase, t.rest, c);
        var p := Parse(password, t.phase, t.rest);
        BeforeTwice([t.message], p.messages, if p.Ended? then p else Parse(password, p.phase, p.rest + c));
      }
    }
  }

  lemma BeforeTwice(a: seq<Message>, b: seq<Message>, p: Parsed)
    ensures Before(a, Before(b, p)) == Before(a + b, p)
  {
    assert a + (b + p.messages) == a + b + p.messages;
  }

  // ----- one run of the loop against the stream ---------------------------------------------

  /** Nothing complete is left in the buffer. */
  ghost predicate Drained(password: Text, phase: Phase, buf: seq<byte>) {
    Parse(password, phase, buf) == Open([], phase, buf)
  }

  lemma {:induction false} PumpedAgrees(password: Text, phase: Phase, buf: seq<byte>)
    ensures var s := Pumped(password, phase, buf); var p := Parse(password, phase, buf);
      || (p.Ended? && p.messages <= s.messages)
      || (&& p == Before(s.messages, Parse(password, s.phase, s.rest))
          && (s.stop.Suspended? || (s.stop.Waiting? && Drained(password, s.phase, s.rest))))
    decreases |buf|
  {
    hide Take, LengthFits;
    var t := Take(password, phase, buf);
    if t.Incomplete? {
      assert [] + Parse(password, phase, buf).messages == Parse(password, phase, buf).messages;
    } else if LengthFits(phase, buf) && !t.next.Halt? && !t.next.Throw? {
      FitShrinks(password, phase, buf);
      if t.next.Continue? {
        PumpedAgrees(password, t.phase, t.rest);
        var s := Pumped(password, t.phase, t.rest);
        BeforeTwice([t.message], s.messages, Parse(password, s.phase, s.rest));
      }
    }
  }

  // ----- whole runs -------------------------------------------------------------------------

  datatype Whole = Whole(reader: Reader, handled: seq<Message>, received: seq<byte>)

  /** The state after any events, or None when one of them cannot happen. */
  function RunOf(password: Text, events: seq<Event>): Option<Whole> {
    if events == [] then Some(Whole(START, [], []))
    else
      var before := RunOf(password, events[..|events| - 1]);
      var e := events[|events| - 1];
      if before.None? || !Enabled(before.value.reader, e) then None
      else
        var step := Apply(password, before.value.reader, e);
        Some(Whole(step.reader, before.value.handled + step.messages,
                   before.value.received + if e.Chunk? then e.bytes else []))
  }

  /** The handled messages and the buffer make up the stream, or the stream has been handled to its end. */
  ghost predicate InStep(password: Text, w: Whole) {
    var p := Parse(password, First, w.received);
    var r := w.reader;
    || (p.Ended? && p.messages <= w.handled)
    || (&& p == Before(w.handled, Parse(password, r.phase, r.buf))
        && !r.pending.Looping? && !r.pending.Rejected?
        && (r.pending.Idle? ==> !r.needPump)
        && (r.pending.Idle? || (r.pending.Returned? && !r.needPump) ==> Drained(password, r.phase, r.buf)))
  }

  lemma PumpInStep(password: Text, w: Whole)
    requires Parse(password, First, w.received) == Before(w.handled, Parse(password, w.reader.phase, w.reader.buf))
    ensures var s := Pump(password, w.reader); InStep(password, Whole(s.reader, w.handled + s.messages, w.received))
  {
    hide Take, Parse, Pumped;
    PumpedAgrees(password, w.reader.phase, w.reader.buf);
    var s := Pumped(password, w.reader.phase, w.reader.buf);
    BeforeTwice(w.handled, s.messages, Parse(password, s.phase, s.rest));
  }

  lemma EndedStaysInStep(password: Text, w: Whole, e: Event)
    requires Enabled(w.reader, e) && Parse(password, First, w.received).Ended?
      && Parse(password, First, w.received).messages <= w.handled
    ensures var s := Apply(password, w.reader, e);
      InStep(password, Whole(s.reader, w.handled + s.messages, w.received + if e.Chunk? then e.bytes else []))
  {
    hide Parse, Pumped;
    var c := if e.Chunk? then e.bytes else [];
    ParseExtends(password, First, w.received, c);
  }

  lemma StepInStep(password: Text, w: Whole, e: Event)
    requires Enabled(w.reader, e) && InStep(password, w)
    ensures var s := Apply(password, w.reader, e);
      InStep(password, Whole(s.reader, w.handled + s.messages, w.received + if e.Chunk? then e.bytes else []))
  {
    hide Parse, Pumped, Pump;
    var p := Parse(password, First, w.received);
    var r := w.reader;
    if p.Ended? && p.messages <= w.handled {
      EndedStaysInStep(password, w, e);
    } else if e.Chunk? {
      ParseExtends(password, First, w.received, e.bytes);
      ParseExtends(password, r.phase, r.buf, e.bytes);
      var q := Parse(password, r.phase, r.buf);
      if q.Open? {
        BeforeTwice(w.handled, q.messages, Parse(password, q.phase, q.rest + e.bytes));
      }
      var w' := Whole(r.(buf := r.buf + e.bytes), w.handled, w.received + e.bytes);
      assert Parse(password, First, w'.received) == Before(w.handled, Parse(password, r.phase, w'.reader.buf));
      if r.pending.Idle? {
        PumpInStep(password, w');
      } else {
        assert w.handled + [] == w.handled;
      }
    } else {
      assert w.received + [] == w.received && w.handled + [] == w.handled;
      if e.Resumed? {
        PumpInStep(password, w);
      } else if r.needPump {
        PumpInStep(password, w.(reader := r.(needPump := false)));
      }
    }
  }

  lemma {:induction false} RunInStep(password: Text, events: seq<Event>)
    requires RunOf(password, events).Some?
    ensures InStep(password, RunOf(password, events).value)
    decreases |events|
  {
    assert InStep(password, Whole(START, [], []));
    hide Take, Apply, Enabled, InStep;
    if events == [] {
    } else {
      RunInStep(password, events[..|events| - 1]);
      StepInStep(password, RunOf(password, events[..|events| - 1]).value, events[|events| - 1]);
    }
  }

  /**
   For any bytes, any chunks and any interleaving with handlers and callbacks: the messages handled
   so far and the messages of the whole stream agree as far as both go, and a reader at rest has
   handled all of them.
   */
  lemma ChunkingIsHarmless(password: Text, events: seq<Event>)
    requires RunOf(password, events).Some?
    ensures var w := RunOf(password, events).value; var p := Parse(password, First, w.received);
      && (w.handled <= p.messages || p.messages <= w.handled)
      && (p.Open? ==> w.handled <= p.messages)
      && (w.reader.pending.Idle? ==> p.messages <= w.handled)
      && (w.reader.pending.Idle? && p.Open? ==>
            p == Open(w.handled, w.reader.phase, w.reader.buf) && !w.reader.needPump)
  {
    hide Take, RunOf, Parse;
    RunInStep(password, events);
    var w := RunOf(password, events).value;
    assert w.handled + [] == w.handled;
  }

  /** Two runs over the same open stream that are both at rest have handled the same messages. */
  lemma SameStreamSameMessages(password: Text, events: seq<Event>, others: seq<Event>)
    requires RunOf(password, events).Some? && RunOf(password, others).Some?
    requires RunOf(password, events).value.received == RunOf(password, others).value.received
    requires RunOf(password, events).value.reader.pending.Idle? && RunOf(password, others).value.reader.pending.Idle?
    requires Parse(password, First, RunOf(password, events).value.received).Open?
    ensures RunOf(password, events) == RunOf(password, others)
  {
    hide RunOf, Parse;
    ChunkingIsHarmless(password, events);
    ChunkingIsHarmless(password, others);
  }

  // ----- coming to rest ---------------------------------------------------------------------

  /** What is left to do before the reader rests, if no more bytes come. */
  function Work(r: Reader): nat {
    4 * |r.buf| + (if r.needPump then 2 else 0) + (if r.pending.Idle? then 0 else if r.pending.Awaiting? then 2 else 1)
  }

  lemma {:induction false} PumpedShrinks(password: Text, phase: Phase, buf: seq<byte>)
    requires Parse(password, phase, buf).Open?
    ensures var s := Pumped(password, phase, buf);
      (s.stop.Waiting? && |s.rest| <= |buf|) || (s.stop.Suspended? && |s.rest| < |buf|)
    decreases |buf|
  {
    hide Take, LengthFits;
    var t := Take(password, phase, buf);
    if t.Took? {
      FitShrinks(password, phase, buf);
      if t.next.Continue? {
        PumpedShrinks(password, t.phase, t.rest);
      }
    }
  }

  /** On an open stream every resumption and every callback brings the reader closer to rest. */
  lemma ComesToRest(password: Text, events: seq<Event>, e: Event)
    requires RunOf(password, events).Some? && Parse(password, First, RunOf(password, events).value.received).Open?
    requires !e.Chunk? && Enabled(RunOf(password, events).value.reader, e)
    ensures var r := RunOf(password, events).value.reader; Work(Apply(password, r, e).reader) < Work(r)
  {
    hide Take, RunOf, Parse, Pumped;
    RunInStep(password, events);
    var r := RunOf(password, events).value.reader;
    assert Parse(password, r.phase, r.buf).Open?;
    PumpedShrinks(password, r.phase, r.buf);
  }

  /** The loop repeats a turn for ever exactly on a length word of -1, or on one below that by the whole buffer. */
  lemma SpinsExactly(password: Text, phase: Phase, buf: seq<byte>)
    requires Take(password, phase, buf).Took? && Take(password, phase, buf).next.Continue?
    ensures !Progress(phase, buf, Take(password, phase, buf))
      <==> !phase.First? && (I32(buf, 1) == -1 || I32(buf, 1) <= -1 - |buf|)
  {
    hide StartupBody, NextOf, StripNuls;
  }

  // ----- streams that a client writes -------------------------------------------------------

  /** encodeMessage. */
  function PutFrame(m: Message): seq<byte>
    requires m.Frame? && |m.payload| + 4 < TWO_31
  {
    [m.kind] + PutI32(4 + |m.payload|) + m.payload
  }

  lemma FrameTaken(password: Text, m: Message, rest: seq<byte>)
    requires m.Frame? && |m.payload| + 4 < TWO_31
    ensures Take(password, Ready, PutFrame(m) + rest) == Took(m, Ready, rest, NextOf(m.kind, m.payload))
    ensures LengthFits(Ready, PutFrame(m) + rest)
  {
    hide NextOf, PutI32, I32;
    var b := PutFrame(m) + rest;
    assert b[1..5] == PutI32(4 + |m.payload|);
    I32Inverse(4 + |m.payload|, b, 1);
    assert b[5..5 + |m.payload|] == m.payload && b[5 + |m.payload|..] == rest;
  }

  /** A frame the client may send in the middle of a session. */
  predicate Ordinary(m: Message) {
    m.Frame? && |m.payload| + 4 < TWO_31 && !NextOf(m.kind, m.payload).Halt? && !NextOf(m.kind, m.payload).Throw?
  }

  function PutFrames(ms: seq<Message>): seq<byte>
    requires forall m <- ms :: Ordinary(m)
  {
    if ms == [] then []
    else
      assert Ordinary(ms[0]);
      PutFrame(ms[0]) + PutFrames(ms[1..])
  }

  lemma {:induction false} FramesReadBack(password: Text, ms: seq<Message>)
    requires forall m <- ms :: Ordinary(m)
    ensures Parse(password, Ready, PutFrames(ms)) == Open(ms, Ready, [])
    decreases |ms|
  {
    hide NextOf, PutFrame;
    if ms == [] {
    } else {
      hide Take, LengthFits;
      assert ms[0] in ms;
      FrameTaken(password, ms[0], PutFrames(ms[1..]));
      FramesReadBack(password, ms[1..]);
      assert [ms[0]] + ms[1..] == ms;
    }
  }

  function PutStartup(body: seq<byte>): seq<byte>
    requires |body| + 4 < TWO_31
  {
    PutI32(4 + |body|) + body
  }

  lemma StartupTaken(password: Text, body: seq<byte>, rest: seq<byte>)
    requires 4 <= |body| && |body| + 4 < TWO_31 && StartupBody(PutStartup(body)).Some?
    requires !(|body| == 4 && I32(body, 0) == SSL_REQUEST)
    ensures Take(password, First, PutStartup(body) + rest)
         == Took(Startup(PutStartup(body)), if password == [] then Ready else Auth, rest, Continue)
    ensures LengthFits(First, PutStartup(body) + rest)
  {
    hide StartupBody, PutI32;
    var b := PutStartup(body) + rest;
    assert b[0..4] == PutI32(4 + |body|);
    I32Inverse(4 + |body|, b, 0);
    assert b[4..8] == body[..4];
    assert I32(b, 4) == I32(body, 0) by {
      assert b[4] == body[0] && b[5] == body[1] && b[6] == body[2] && b[7] == body[3];
    }
    assert b[0..4 + |body|] == PutStartup(body) && b[4 + |body|..] == rest;
  }

  /** What a client that knows the password sends between its startup packet and its first statement. */
  function PasswordMessages(password: Text): seq<Message> {
    if password == [] then [] else [Frame(PASSWORD, password + [0])]
  }

  function PutPassword(password: Text): seq<byte>
    requires |password| + 5 < TWO_31
  {
    if password == [] then [] else PutFrame(Frame(PASSWORD, password + [0]))
  }

  lemma {:induction false} OneNulStripped(s: Text)
    requires s == [] || s[|s| - 1] != 0
    ensures StripNuls(s + [0]) == s
  {
    assert (s + [0])[..|s|] == s;
  }

  /** What a client that wants TLS sends first, byte by byte. */
  const SSL_PACKET: seq<byte> := [0, 0, 0, 8, 4, 210, 22, 47]

  /** The request for TLS is answered and read over: the startup packet is still to come. */
  lemma SslTaken(password: Text, rest: seq<byte>)
    ensures Take(password, First, SSL_PACKET + rest) == Took(SslRequest, First, rest, Continue)
    ensures LengthFits(First, SSL_PACKET + rest)
  {
    hide StartupBody;
    var b := SSL_PACKET + rest;
    assert b[0] == 0 && b[1] == 0 && b[2] == 0 && b[3] == 8 && b[4] == 4 && b[5] == 210 && b[6] == 22 && b[7] == 47;
    assert I32(b, 0) == 8 && I32(b, 4) == SSL_REQUEST;
    assert b[8..] == rest;
  }

  lemma SslReadsOver(password: Text, rest: seq<byte>)
    ensures Parse(password, First, SSL_PACKET + rest) == Before([SslRequest], Parse(password, First, rest))
  {
    hide Take, LengthFits, Parse;
    SslTaken(password, rest);
    ParseOne(password, First, SSL_PACKET + rest);
  }

  function SslPackets(n: nat): seq<byte> {
    if n == 0 then [] else SSL_PACKET + SslPackets(n - 1)
  }

  function SslMessages(n: nat): seq<Message> { seq(n, _ => SslRequest) }

  lemma {:induction false} SslsReadOver(password: Text, n: nat, rest: seq<byte>)
    ensures Parse(password, First, SslPackets(n) + rest) == Before(SslMessages(n), Parse(password, First, rest))
  {
    hide Parse;
    if n == 0 {
      assert [] + rest == rest && [] + Parse(password, First, rest).messages == Parse(password, First, rest).messages;
    } else {
      assert SslPackets(n) + rest == SSL_PACKET + (SslPackets(n - 1) + rest);
      SslReadsOver(password, SslPackets(n - 1) + rest);
      SslsReadOver(password, n - 1, rest);
      assert [SslRequest] + SslMessages(n - 1) == SslMessages(n);
      BeforeTwice([SslRequest], SslMessages(n - 1), Parse(password, First, rest));
    }
  }

  /** What a client writes: requests for TLS, a startup packet, the password if there is one, and frames. */
  ghost predicate Writes(password: Text, body: seq<byte>, ms: seq<Message>) {
    && 4 <= |body| && |body| + 4 < TWO_31 && StartupBody(PutStartup(body)).Some?
    && !(|body| == 4 && I32(body, 0) == SSL_REQUEST)
    && |password| + 5 < TWO_31 && (password == [] || password[|password| - 1] != 0)
    && forall m <- ms :: Ordinary(m)
  }

  function PutClient(password: Text, requests: nat, body: seq<byte>, ms: seq<Message>): seq<byte>
    requires |body| + 4 < TWO_31 && |password| + 5 < TWO_31 && forall m <- ms :: Ordinary(m)
  {
    SslPackets(requests) + (PutStartup(body) + (PutPassword(password) + PutFrames(ms)))
  }

  function ClientMessages(password: Text, requests: nat, body: seq<byte>, ms: seq<Message>): seq<Message>
    requires |body| + 4 < TWO_31
  {
    SslMessages(requests) + ([Startup(PutStartup(body))] + (PasswordMessages(password) + ms))
  }

  /** The protocol reads just these messages. */
  lemma ClientStreamParses(password: Text, requests: nat, body: seq<byte>, ms: seq<Message>)
    requires Writes(password, body, ms)
    ensures Parse(password, First, PutClient(password, requests, body, ms))
         == Open(ClientMessages(password, requests, body, ms), Ready, [])
  {
    hide Take, LengthFits, StartupBody, PutStartup, Parse, StripNuls, PutFrame, PutFrames, SslPackets;
    var rest := PutPassword(password) + PutFrames(ms);
    SslsReadOver(password, requests, PutStartup(body) + rest);
    StartupTaken(password, body, rest);
    ParseOne(password, First, PutStartup(body) + rest);
    FramesReadBack(password, ms);
    if password == [] {
      assert rest == PutFrames(ms);
      assert [] + ms == ms;
    } else {
      OneNulStripped(password);
      PasswordReadsBack(password, password + [0], PutFrames(ms));
    }
  }

  /** In any run over such a stream that has come to rest, all its messages were handled, in order. */
  lemma SessionReadsBack(password: Text, events: seq<Event>, requests: nat, body: seq<byte>, ms: seq<Message>)
    requires Writes(password, body, ms)
    requires RunOf(password, events).Some? && RunOf(password, events).value.reader.pending.Idle?
    requires RunOf(password, events).value.received == PutClient(password, requests, body, ms)
    ensures RunOf(password, events).value.handled == ClientMessages(password, requests, body, ms)
    ensures RunOf(password, events).value.reader.phase.Ready? && RunOf(password, events).value.reader.buf == []
  {
    hide Take, LengthFits, RunOf, Writes, Parse, PutClient, ClientMessages;
    ClientStreamParses(password, requests, body, ms);
    ChunkingIsHarmless(password, events);
  }

  // ----- the password -----------------------------------------------------------------------

  /** A password message with the configured password. */
  predicate Unlocks(password: Text, m: Message) {
    m.Frame? && m.kind == PASSWORD && StripNuls(m.payload) == password
  }

  lemma {:induction false} PumpedNeedsPassword(password: Text, phase: Phase, buf: seq<byte>)
    requires password != [] && !phase.Ready?
    ensures var s := Pumped(password, phase, buf); s.phase.Ready? ==> exists m <- s.messages :: Unlocks(password, m)
    decreases |buf|, Rank(phase)
  {
    hide StripNuls, StartupBody, NextOf, I32, Subarray, SubarrayFrom;
    var t := Take(password, phase, buf);
    if t.Took? {
      assert t.phase.Ready? ==> Unlocks(password, t.message);
      if t.next.Continue? && Progress(phase, buf, t) && !t.phase.Ready? {
        PumpedNeedsPassword(password, t.phase, t.rest);
      }
      assert t.message in Pumped(password, phase, buf).messages;
    }
  }

  /** With a password configured, no session becomes ready before a message with that password was handled. */
  lemma {:induction false} ReadyNeedsPassword(password: Text, events: seq<Event>)
    requires password != [] && RunOf(password, events).Some? && RunOf(password, events).value.reader.phase.Ready?
    ensures exists m <- RunOf(password, events).value.handled :: Unlocks(password, m)
    decreases |events|
  {
    hide Unlocks, Pumped;
    if events == [] {
    } else {
      var before := RunOf(password, events[..|events| - 1]).value;
      var e := events[|events| - 1];
      if before.reader.phase.Ready? {
        ReadyNeedsPassword(password, events[..|events| - 1]);
      } else {
        PumpedNeedsPassword(password, before.reader.phase, before.reader.buf + if e.Chunk? then e.bytes else []);
        assert before.reader.buf + [] == before.reader.buf;
      }
    }
  }

  /** Before the password is there, the same bytes make the same message. */
  lemma AuthTaken(password: Text, buf: seq<byte>)
    requires Take(password, Ready, buf).Took?
    ensures var t := Take(password, Ready, buf); var m := t.message;
      m.Frame? && Take(password, Auth, buf)
      == if m.kind != PASSWORD then Took(m, Auth, t.rest, Continue)
         else if StripNuls(m.payload) == password then Took(m, Ready, t.rest, Continue)
         else Took(m, Auth, t.rest, Halt)
    ensures LengthFits(Ready, buf) == LengthFits(Auth, buf)
  {
    hide NextOf, I32, StripNuls, Subarray, SubarrayFrom;
  }

  lemma PasswordTaken(password: Text, p: Text, rest: seq<byte>)
    requires |p| + 4 < TWO_31
    ensures var m := Frame(PASSWORD, p);
      Take(password, Auth, PutFrame(m) + rest)
      == if StripNuls(p) == password then Took(m, Ready, rest, Continue) else Took(m, Auth, rest, Halt)
    ensures LengthFits(Auth, PutFrame(Frame(PASSWORD, p)) + rest)
  {
    hide Take, LengthFits, StripNuls, PutFrame, NextOf;
    FrameTaken(password, Frame(PASSWORD, p), rest);
    AuthTaken(password, PutFrame(Frame(PASSWORD, p)) + rest);
  }

  /** A password message opens the session if it carries the password, and ends the stream otherwise. */
  lemma PasswordReadsBack(password: Text, p: Text, rest: seq<byte>)
    requires |p| + 4 < TWO_31
    ensures var m := Frame(PASSWORD, p);
      Parse(password, Auth, PutFrame(m) + rest)
      == if StripNuls(p) == password then Before([m], Parse(password, Ready, rest)) else Ended([m])
  {
    hide Take, LengthFits, StripNuls, Parse, PutFrame;
    PasswordTaken(password, p, rest);
    ParseOne(password, Auth, PutFrame(Frame(PASSWORD, p)) + rest);
  }

  /** The first message of a stream decides how it goes on. */
  lemma ParseOne(password: Text, phase: Phase, buf: seq<byte>)
    requires Take(password, phase, buf).Took? && LengthFits(phase, buf)
    ensures var t := Take(password, phase, buf);
      Parse(password, phase, buf)
      == if t.next.Halt? || t.next.Throw? then Ended([t.message])
         else Before([t.message], Parse(password, t.phase, t.rest))
  {
    hide Take, LengthFits;
  }
}
