/**
 The incremental frame reader of a session (`start`, `enqueuePump` and `pump` of src/proxy/session.ts).
 Bytes arrive in chunks, also while a handler is suspended or a promise callback is still due.
 */
module Framing {
  import opened Wrappers
  import opened Bytes
  import opened Wire

  datatype Phase = First | Auth | Ready

  /** What reaches the code that acts on it. */
  datatype Message =
    | SslRequest
    | Startup(packet: seq<byte>)
    | Frame(kind: byte, payload: seq<byte>)

  const SSL_REQUEST := 80877103
  const TERMINATE: byte := 88       // X
  const QUERY: byte := 81           // Q
  const PARSE: byte := 80           // P
  const BIND: byte := 66            // B
  const EXECUTE: byte := 69         // E
  const PASSWORD: byte := 112       // p

  /** What the loop does after a message. */
  datatype Next = Continue | Suspend | Halt | Throw

  datatype Taken = Incomplete | Took(message: Message, phase: Phase, rest: seq<byte>, next: Next)

  function StripNuls(s: Text): Text {
    if s != [] && s[|s| - 1] == 0 then StripNuls(s[..|s| - 1]) else s
  }

  function NextOf(kind: byte, payload: seq<byte>): Next {
    if kind == TERMINATE then Halt
    else if kind == QUERY || kind == EXECUTE then Suspend
    else if kind == PARSE && ParseBody(payload).None? then Throw
    else if kind == BIND && BindBody(payload).None? then Throw
    else Continue
  }

  function TakeFirst(password: Text, buf: seq<byte>): (t: Taken)
    ensures t.Took? ==> 8 <= |buf| && |t.rest| <= |buf|
  {
    if |buf| < 8 then Incomplete
    else
      var len := I32(buf, 0);
      if len == 8 && I32(buf, 4) == SSL_REQUEST then Took(SslRequest, First, buf[8..], Continue)
      else if |buf| < len then Incomplete
      else
        var packet := Subarray(buf, 0, len);
        if StartupBody(packet).None? then Took(Startup(packet), First, buf, Throw)
        else Took(Startup(packet), if password == [] then Ready else Auth, SubarrayFrom(buf, len), Continue)
  }

  function TakeFrame(password: Text, phase: Phase, buf: seq<byte>): (t: Taken)
    requires !phase.First?
    ensures t.Took? ==> 5 <= |buf| && |t.rest| <= |buf|
  {
    if |buf| < 5 then Incomplete
    else
      var total := 1 + I32(buf, 1);
      if |buf| < total then Incomplete
      else
        var kind, payload, rest := buf[0], Subarray(buf, 5, total), SubarrayFrom(buf, total);
        var message := Frame(kind, payload);
        if phase.Ready? then Took(message, Ready, rest, NextOf(kind, payload))
        else if kind != PASSWORD then Took(message, Auth, rest, Continue)
        else if StripNuls(payload) == password then Took(message, Ready, rest, Continue)
        else Took(message, Auth, rest, Halt)
  }

  function HeaderSize(phase: Phase): nat { if phase.First? then 8 else 5 }

  /** One turn of the loop. */
  function Take(password: Text, phase: Phase, buf: seq<byte>): (t: Taken)
    ensures t.Took? ==> HeaderSize(phase) <= |buf| && |t.rest| <= |buf|
  {
    if phase.First? then TakeFirst(password, buf) else TakeFrame(password, phase, buf)
  }

  function Rank(phase: Phase): nat { if phase.First? then 1 else 0 }

  /** The turn changed the buffer or ended the first phase. */
  predicate Progress(phase: Phase, buf: seq<byte>, t: Taken)
    requires t.Took?
  {
    |t.rest| < |buf| || (|t.rest| == |buf| && Rank(t.phase) < Rank(phase))
  }

  // ----- one run of the loop ----------------------------------------------------------------

  /** Why the loop stopped; Spinning stands for a loop that repeats the same turn for ever. */
  datatype Stop = Waiting | Suspended | Halted | Threw | Spinning

  datatype Segment = Segment(messages: seq<Message>, phase: Phase, rest: seq<byte>, stop: Stop)

  function StopOf(next: Next): Stop {
    match next
    case Continue => Spinning
    case Suspend => Suspended
    case Halt => Halted
    case Throw => Threw
  }

  /** The loop from here to the point where it stops or awaits. */
  function Pumped(password: Text, phase: Phase, buf: seq<byte>): Segment
    decreases |buf|, Rank(phase)
  {
    var t := Take(password, phase, buf);
    if t.Incomplete? then Segment([], phase, buf, Waiting)
    else if t.next.Continue? && Progress(phase, buf, t) then
      var s := Pumped(password, t.phase, t.rest);
      s.(messages := [t.message] + s.messages)
    else Segment([t.message], t.phase, t.rest, StopOf(t.next))
  }

  // ----- the reader between turns of the event loop -----------------------------------------

  /** What is pending: nothing, a handler's await, the callback of a settled pump, or nothing ever again. */
  datatype Pending = Idle | Awaiting | Returned | Rejected | Looping

  datatype Reader = Reader(buf: seq<byte>, phase: Phase, needPump: bool, pending: Pending)

  const START := Reader([], First, false, Idle)

  datatype Event = Chunk(bytes: seq<byte>) | Resumed | Settled

  datatype Step = Step(reader: Reader, messages: seq<Message>)

  function PendingAfter(stop: Stop): Pending {
    match stop
    case Suspended => Awaiting
    case Threw => Rejected
    case Spinning => Looping
    case _ => Returned
  }

  function Pump(password: Text, r: Reader): Step {
    var s := Pumped(password, r.phase, r.buf);
    Step(r.(buf := s.rest, phase := s.phase, pending := PendingAfter(s.stop)), s.messages)
  }

  predicate Enabled(r: Reader, e: Event) {
    match e
    case Chunk(_) => !r.pending.Looping?
    case Resumed => r.pending.Awaiting?
    case Settled => r.pending.Returned? || r.pending.Rejected?
  }

  function Apply(password: Text, r: Reader, e: Event): Step
    requires Enabled(r, e)
  {
    match e
    case Chunk(bytes) =>
      var r' := r.(buf := r.buf + bytes);
      if r.pending.Idle? then Pump(password, r') else Step(r'.(needPump := true), [])
    case Resumed => Pump(password, r)
    case Settled =>
      if r.pending.Rejected? then Step(r.(pending := Idle), [])
      else if r.needPump then Pump(password, r.(needPump := false))
      else Step(r.(pending := Idle), [])
  }

  /** The session's side of the stream, with every message that reached a handler. */
  class FrameReader {
    const password: Text
    var buf: seq<byte>
    var phase: Phase
    var pumping: bool
    var needPump: bool
    var pending: Pending
    ghost var handled: seq<Message>

    constructor (password: Text)
      ensures this.password == password && Now() == START && Valid() && handled == []
    {
      this.password := password;
      buf, phase, pumping, needPump, pending := [], First, false, false, Idle;
      handled := [];
    }

    ghost function Now(): Reader
      reads this
    {
      Reader(buf, phase, needPump, pending)
    }

    ghost predicate Valid()
      reads this
    {
      pumping <==> !pending.Idle?
    }

    method OnData(chunk: seq<byte>)
      requires Valid() && Enabled(Now(), Chunk(chunk))
      modifies this
      ensures Valid() && Now() == Apply(password, old(Now()), Chunk(chunk)).reader
      ensures handled == old(handled) + Apply(password, old(Now()), Chunk(chunk)).messages
    {
      buf := buf + chunk;
      if pumping {
        needPump := true;
      } else {
        pumping := true;
        RunPump();
      }
    }

    method OnResumed()
      requires Valid() && Enabled(Now(), Resumed)
      modifies this
      ensures Valid() && Now() == Apply(password, old(Now()), Resumed).reader
      ensures handled == old(handled) + Apply(password, old(Now()), Resumed).messages
    {
      RunPump();
    }

    /** The then and catch callbacks of enqueuePump. */
    method OnSettled()
      requires Valid() && Enabled(Now(), Settled)
      modifies this
      ensures Valid() && Now() == Apply(password, old(Now()), Settled).reader
      ensures handled == old(handled) + Apply(password, old(Now()), Settled).messages
    {
      if pending.Returned? && needPump {
        needPump := false;
        RunPump();
      } else {
        pumping := false;
        pending := Idle;
      }
    }

    /** The loop of pump, up to an await, its end, an error, or a turn that would repeat for ever. */
    method RunPump()
      requires pumping
      modifies this
      ensures Valid() && Now() == Pump(password, old(Now())).reader
      ensures handled == old(handled) + Pump(password, old(Now())).messages
    {
      ghost var before: seq<Message> := [];
      ghost var whole := PutBefore([], Pumped(password, phase, buf));
      PutNothingBefore(Pumped(password, phase, buf));
      hide Take, Pumped, PutBefore;
      while true
        invariant pumping && needPump == old(needPump) && handled == old(handled) + before
        invariant PutBefore(before, Pumped(password, phase, buf)) == whole
        decreases |buf|, Rank(phase)
      {
        PumpedStep(password, phase, buf, before);
        var t := Take(password, phase, buf);
        if t.Incomplete? {
          pending := Returned;
          return;
        }
        var moved := Progress(phase, buf, t);
        buf, phase := t.rest, t.phase;
        handled := handled + [t.message];
        before := before + [t.message];
        if !t.next.Continue? || !moved {
          pending := PendingAfter(StopOf(t.next));
          return;
        }
      }
    }
  }

  function PutBefore(before: seq<Message>, s: Segment): Segment { s.(messages := before + s.messages) }

  lemma PutNothingBefore(s: Segment)
    ensures PutBefore([], s) == s
  {
    assert [] + s.messages == s.messages;
  }

  lemma PumpedStep(password: Text, phase: Phase, buf: seq<byte>, before: seq<Message>)
    ensures var t := Take(password, phase, buf);
      PutBefore(before, Pumped(password, phase, buf)) ==
      if t.Incomplete? then Segment(before, phase, buf, Waiting)
      else if t.next.Continue? && Progress(phase, buf, t)
        then PutBefore(before + [t.message], Pumped(password, t.phase, t.rest))
      else Segment(before + [t.message], t.phase, t.rest, StopOf(t.next))
  {
    hide Take;
    var t := Take(password, phase, buf);
    if t.Took? && t.next.Continue? && Progress(phase, buf, t) {
      var s := Pumped(password, t.phase, t.rest);
      assert before + ([t.message] + s.messages) == before + [t.message] + s.messages;
    } else {
      assert before + [] == before;
    }
  }
}
