/** Messages byte by byte, as PostgreSQL writes them: what the readers and writers of the wire agree with. */
module WireLiterals {
  import opened Wrappers
  import opened Bytes
  import opened Wire
  import opened Framing
  import opened Chunking
  import opened Replies

  // ----- what a client sends ----------------------------------------------------------------

  /** A Query `x`, a Sync and a Terminate. */
  lemma QuerySyncTerminate(rest: seq<byte>)
    ensures Take([], Ready, [81, 0, 0, 0, 6, 120, 0] + rest) == Took(Frame(81, [120, 0]), Ready, rest, Suspend)
    ensures Take([], Ready, [83, 0, 0, 0, 4] + rest) == Took(Frame(83, []), Ready, rest, Continue)
    ensures Take([], Ready, [88, 0, 0, 0, 4] + rest) == Took(Frame(88, []), Ready, rest, Halt)
  {
    Literal([81, 0, 0, 0, 6, 120, 0], 81, [120, 0], rest);
    Literal([83, 0, 0, 0, 4], 83, [], rest);
    Literal([88, 0, 0, 0, 4], 88, [], rest);
  }

  /** A short frame: its kind, its length with itself, most significant byte first, and its payload. */
  lemma ShortFrame(kind: byte, payload: seq<byte>)
    requires |payload| < 200
    ensures PutFrame(Frame(kind, payload)) == [kind, 0, 0, 0, 4 + |payload|] + payload
  {
    assert PutI32(4 + |payload|) == [0, 0, 0, 4 + |payload|];
  }

  lemma Literal(b: seq<byte>, kind: byte, payload: seq<byte>, rest: seq<byte>)
    requires |payload| < 200 && b == [kind, 0, 0, 0, 4 + |payload|] + payload
    ensures Take([], Ready, b + rest) == Took(Frame(kind, payload), Ready, rest, NextOf(kind, payload))
  {
    hide NextOf, PutFrame, Take;
    ShortFrame(kind, payload);
    FrameTaken([], Frame(kind, payload), rest);
  }

  /** A startup packet of protocol 3.0 for the user `u`. */
  const STARTUP: seq<byte> := [0, 0, 0, 16, 0, 3, 0, 0, 117, 115, 101, 114, 0, 117, 0, 0]

  lemma UserPair()
    ensures Writable([Pair(USER, [117])]) && PutPairs([Pair(USER, [117])]) == STARTUP[8..]
    ensures LastUser([Pair(USER, [117])], None) == Some([117])
  {
    assert [Pair(USER, [117])][1..] == [];
    assert PutPairs([]) == [0];
  }

  lemma StartupOfUser()
    ensures StartupBody(STARTUP) == Some(Some([117]))
  {
    hide StartupBody, PutPairs, Writable, LastUser;
    UserPair();
    assert STARTUP[..8] + STARTUP[8..] == STARTUP;
    StartupReadsBack(STARTUP[..8], [Pair(USER, [117])]);
  }

  lemma StartupTakesPhase()
    ensures Take([], First, STARTUP) == Took(Startup(STARTUP), Ready, [], Continue)
    ensures Take([112], First, STARTUP) == Took(Startup(STARTUP), Auth, [], Continue)
  {
    hide StartupBody;
    StartupOfUser();
    assert I32(STARTUP, 0) == 16 && I32(STARTUP, 4) == 196608;
    assert STARTUP[0..16] == STARTUP && STARTUP[16..] == [];
  }

  lemma StrippedOnes()
    ensures StripNuls([112, 0]) == [112] && StripNuls([113, 0]) != [112]
  {
    OneNulStripped([112]);
    OneNulStripped([113]);
    hide StripNuls;
    assert [112] + [0] == [112, 0] && [113] + [0] == [113, 0];
    assert [112][0] != [113][0];
  }

  /** A password message `p`, and one with another password; other messages are passed over. */
  lemma Passwords(rest: seq<byte>)
    ensures Take([112], Auth, [112, 0, 0, 0, 6, 112, 0] + rest) == Took(Frame(112, [112, 0]), Ready, rest, Continue)
    ensures Take([112], Auth, [112, 0, 0, 0, 6, 113, 0] + rest) == Took(Frame(112, [113, 0]), Auth, rest, Halt)
    ensures Take([112], Auth, [83, 0, 0, 0, 4] + rest) == Took(Frame(83, []), Auth, rest, Continue)
  {
    hide NextOf, PutI32, Take, StripNuls;
    StrippedOnes();
    LiteralTaken([112, 0, 0, 0, 6, 112, 0], 112, [112, 0], rest);
    LiteralTaken([112, 0, 0, 0, 6, 113, 0], 112, [113, 0], rest);
    LiteralTaken([83, 0, 0, 0, 4], 83, [], rest);
  }

  lemma LiteralTaken(b: seq<byte>, kind: byte, payload: seq<byte>, rest: seq<byte>)
    requires |payload| < 200 && b == [kind, 0, 0, 0, 4 + |payload|] + payload
    ensures var t := Take([112], Auth, b + rest);
      t == if kind != PASSWORD then Took(Frame(kind, payload), Auth, rest, Continue)
           else if StripNuls(payload) == [112] then Took(Frame(kind, payload), Ready, rest, Continue)
           else Took(Frame(kind, payload), Auth, rest, Halt)
  {
    hide NextOf, StripNuls, Take, LengthFits, PutFrame;
    ShortFrame(kind, payload);
    FrameTaken([112], Frame(kind, payload), rest);
    AuthTaken([112], b + rest);
  }

  /** A reader with nothing pending. */
  function AtRest(phase: Phase): Reader { Reader([], phase, false, Pending.Idle) }

  lemma OneTurn(password: Text, phase: Phase, buf: seq<byte>)
    requires var t := Take(password, phase, buf); t.Took? && !t.next.Continue?
    ensures var t := Take(password, phase, buf);
      Apply(password, AtRest(phase), Chunk(buf))
      == Step(Reader(t.rest, t.phase, false,
                     if t.next.Suspend? then Awaiting else if t.next.Halt? then Returned else Rejected), [t.message])
  {
    hide Take;
    assert [] + buf == buf;
  }

  /** A Query and an Execute suspend the reader, a Terminate lets it return, and an empty Parse makes it throw. */
  lemma ReadyReader(rest: seq<byte>)
    ensures Apply([], AtRest(Ready), Chunk([81, 0, 0, 0, 6, 120, 0] + rest))
         == Step(Reader(rest, Ready, false, Awaiting), [Frame(81, [120, 0])])
    ensures Apply([], AtRest(Ready), Chunk([69, 0, 0, 0, 9, 0, 0, 0, 0, 0] + rest))
         == Step(Reader(rest, Ready, false, Awaiting), [Frame(69, [0, 0, 0, 0, 0])])
    ensures Apply([], AtRest(Ready), Chunk([88, 0, 0, 0, 4] + rest))
         == Step(Reader(rest, Ready, false, Returned), [Frame(88, [])])
    ensures Apply([], AtRest(Ready), Chunk([80, 0, 0, 0, 4] + rest))
         == Step(Reader(rest, Ready, false, Rejected), [Frame(80, [])])
  {
    Literal([81, 0, 0, 0, 6, 120, 0], 81, [120, 0], rest);
    Literal([69, 0, 0, 0, 9, 0, 0, 0, 0, 0], 69, [0, 0, 0, 0, 0], rest);
    Literal([88, 0, 0, 0, 4], 88, [], rest);
    Literal([80, 0, 0, 0, 4], 80, [], rest);
    hide Take, Apply;
    OneTurn([], Ready, [81, 0, 0, 0, 6, 120, 0] + rest);
    OneTurn([], Ready, [69, 0, 0, 0, 9, 0, 0, 0, 0, 0] + rest);
    OneTurn([], Ready, [88, 0, 0, 0, 4] + rest);
    OneTurn([], Ready, [80, 0, 0, 0, 4] + rest);
  }

  /** After a wrong password the reader returns, and bytes that were still behind it stay in the buffer. */
  lemma RefusedReader(rest: seq<byte>)
    ensures Apply([112], AtRest(Auth), Chunk([112, 0, 0, 0, 6, 113, 0] + rest))
         == Step(Reader(rest, Auth, false, Returned), [Frame(112, [113, 0])])
  {
    hide Take, Apply;
    Passwords(rest);
    OneTurn([112], Auth, [112, 0, 0, 0, 6, 113, 0] + rest);
  }

  /** A length word of -1 keeps the reader on the same bytes for ever. */
  lemma LoopingReader()
    ensures Apply([], AtRest(Ready), Chunk([83, 255, 255, 255, 255])).reader
         == Reader([83, 255, 255, 255, 255], Ready, false, Looping)
  {
    assert I32([83, 255, 255, 255, 255], 1) == -1;
    assert [] + [83, 255, 255, 255, 255] == [83, 255, 255, 255, 255];
    hide Subarray, SubarrayFrom, I32, U32;
  }

  const NULL_AND_AB: Params := [None, Some([97, 98])]

  lemma TwoParams()
    ensures Sendable(NULL_AND_AB)
    ensures PutParams(NULL_AND_AB) == [255, 255, 255, 255] + [0, 0, 0, 2, 97, 98]
  {
    assert NULL_AND_AB[1..] == [Some([97, 98])] && NULL_AND_AB[1..][1..] == [];
    assert PutI32(2) == [0, 0, 0, 2] && PutI32(-1) == [255, 255, 255, 255];
  }

  /** Bind: an empty portal, statement `s`, no formats, NULL and `ab`, one result format. */
  lemma BindOfTwo()
    ensures BindBody([0, 115, 0, 0, 0, 0, 2] + ([255, 255, 255, 255] + [0, 0, 0, 2, 97, 98]) + [0, 1, 0, 0])
         == Some(NULL_AND_AB)
  {
    hide PutParams, BindBody, PutI16, Sendable;
    TwoParams();
    Zero();
    NoFormats();
    var text: Text := [115];
    assert NulFree([]) && NulFree(text);
    BindReadsBack([], text, [], NULL_AND_AB, [0, 1, 0, 0]);
    assert BindMessage([], text, [], NULL_AND_AB, [0, 1, 0, 0])
        == [0, 115, 0, 0, 0, 0, 2] + ([255, 255, 255, 255] + [0, 0, 0, 2, 97, 98]) + [0, 1, 0, 0];
  }

  lemma Zero()
    ensures PutI16(0) == [0, 0] && PutI16(2) == [0, 2] && PutI16(1) == [0, 1] && PutI16(-1) == [255, 255]
  {
  }

  lemma NoFormats()
    ensures PutI16s([]) == []
  {
  }

  // ----- what the proxy sends ---------------------------------------------------------------

  lemma LiteralColumn()
    ensures PutColumn(Column([97], 23))
         == [97, 0] + [0, 0, 0, 0, 0, 0, 0, 0, 0, 23, 255, 255, 255, 255, 255, 255, 0, 0]
  {
    Zero();
    assert PutI32(0) == [0, 0, 0, 0] && PutI32(23) == [0, 0, 0, 23] && PutI32(-1) == [255, 255, 255, 255];
    hide PutI16, PutI32;
  }

  /** One int4 column `a`. */
  lemma LiteralDescription()
    ensures PutFrame(RowDescription([Column([97], 23)]))
         == [84, 0, 0, 0, 26]
            + ([0, 1] + ([97, 0] + [0, 0, 0, 0, 0, 0, 0, 0, 0, 23, 255, 255, 255, 255, 255, 255, 0, 0]))
  {
    hide PutI16, PutColumn, PutFrame;
    Zero();
    LiteralColumn();
    OneColumn(Column([97], 23));
    ShortFrame(84, RowDescription([Column([97], 23)]).payload);
  }

  lemma OneColumn(column: Column)
    ensures PutColumns([column]) == PutColumn(column)
  {
    hide PutColumn;
    assert [column][1..] == [] && PutColumns([]) == [];
    assert PutColumn(column) + [] == PutColumn(column);
  }

  /** A row with NULL and `1`. */
  lemma LiteralRow()
    ensures PutFrame(DataRow([None, Some([49])]))
         == [68, 0, 0, 0, 15, 0, 2, 255, 255, 255, 255, 0, 0, 0, 1, 49]
  {
    hide PutI16, PutFrame, PutParams;
    Zero();
    NullAndOne();
    ShortFrame(68, DataRow([None, Some([49])]).payload);
  }

  lemma NullAndOne()
    ensures Sendable([None, Some([49])])
    ensures PutParams([None, Some([49])]) == [255, 255, 255, 255, 0, 0, 0, 1, 49]
  {
    assert PutI32(1) == [0, 0, 0, 1] && PutI32(-1) == [255, 255, 255, 255];
    hide PutI32;
    var values: Params := [None, Some([49])];
    assert values[1..] == [Some([49])] && values[1..][1..] == [];
  }

  /** What an INSERT of two rows, ten selected rows and a SET report. */
  lemma LiteralTags()
    ensures TagOf(Result(INSERT, 2, [], [])) == Ascii("INSERT 0 2")
    ensures TagOf(Result([], 10, [], [])) == Ascii("SELECT 10")
    ensures TagOf(Result(SET, 1, [], [])) == Ascii("SET")
    ensures PutFrame(CommandComplete(SET)) == [67, 0, 0, 0, 8, 83, 69, 84, 0]
  {
    hide PutFrame;
    assert INSERT != SET && SELECT != SET && |INSERT| == |SELECT| == 6 && INSERT[0] != SELECT[0];
    assert Ascii("INSERT 0 2") == INSERT + [32, 48, 32] + [50];
    assert Ascii("SELECT 10") == SELECT + [32] + [49, 48];
    ShortFrame(67, SET + [0]);
  }
}
