/** Frontend message bodies, and the frames the proxy writes (src/proxy/pg-wire.ts and the handlers of session.ts). */
module Wire {
  import opened Wrappers
  import opened Bytes

  type Text = seq<byte>

  /** indexOf(0, at): the first NUL at or after a position. */
  function IndexOfNul(b: seq<byte>, at: nat): (r: Option<nat>)
    ensures r.Some? ==> at <= r.value < |b| && b[r.value] == 0 && forall k :: at <= k < r.value ==> b[k] != 0
    ensures r.None? ==> forall k :: at <= k < |b| ==> b[k] != 0
    decreases |b| - at
  {
    if at >= |b| then None else if b[at] == 0 then Some(at) else IndexOfNul(b, at + 1)
  }

  datatype CString = CString(value: Text, next: nat)

  /** readCString; None where it throws. */
  function ReadCString(b: seq<byte>, at: nat): (r: Option<CString>)
    ensures r.Some? ==> at < r.value.next <= |b|
  {
    var end := IndexOfNul(b, at);
    if end.None? then None else Some(CString(b[at..end.value], end.value + 1))
  }

  /** The query text of a Parse body. */
  function ParseBody(payload: seq<byte>): Option<Text> {
    var name := ReadCString(payload, 0);
    if name.None? then None
    else
      var query := ReadCString(payload, name.value.next);
      if query.None? then None else Some(query.value.value)
  }

  /** readInt16BE and readInt32BE throw outside the buffer, also below it. */
  function ReadI16(b: seq<byte>, at: int): Option<int> {
    if 0 <= at && at + 2 <= |b| then Some(I16(b, at)) else None
  }

  function ReadI32(b: seq<byte>, at: int): Option<int> {
    if 0 <= at && at + 4 <= |b| then Some(I32(b, at)) else None
  }

  type Params = seq<Option<Text>>

  /** The loop over the parameters; a length past the end is clamped, as toString clamps it. */
  function ReadParams(b: seq<byte>, at: int, count: nat): Option<Params>
    decreases count
  {
    if count == 0 then Some([])
    else
      var len := ReadI32(b, at);
      if len.None? then None
      else
        var value := if len.value < 0 then None else Some(Subarray(b, at + 4, at + 4 + len.value));
        var rest := ReadParams(b, at + 4 + Max(len.value, 0), count - 1);
        if rest.None? then None else Some([value] + rest.value)
  }

  /** The parameter values of a Bind body. */
  function BindBody(payload: seq<byte>): Option<Params> {
    var portal := ReadCString(payload, 0);
    if portal.None? then None
    else
      var statement := ReadCString(payload, portal.value.next);
      if statement.None? then None
      else
        var formats := ReadI16(payload, statement.value.next);
        if formats.None? then None
        else
          var at := statement.value.next + 2 + formats.value * 2;
          var count := ReadI16(payload, at);
          if count.None? then None else ReadParams(payload, at + 2, Max(count.value, 0))
  }

  /** handleBind: the loop with its moving offset; false where it throws. */
  method HandleBind(payload: seq<byte>) returns (ok: bool, values: Params)
    ensures ok == BindBody(payload).Some?
    ensures ok ==> values == BindBody(payload).value
  {
    ok, values := false, [];
    var portal := ReadCString(payload, 0);
    if portal.None? { return; }
    var statement := ReadCString(payload, portal.value.next);
    if statement.None? { return; }
    var offset: int := statement.value.next;
    var formats := ReadI16(payload, offset);
    if formats.None? { return; }
    offset := offset + 2 + formats.value * 2;
    var count := ReadI16(payload, offset);
    if count.None? { return; }
    ok, values := ReadValues(payload, offset + 2, count.value);
  }

  method ReadValues(payload: seq<byte>, start: int, count: int) returns (ok: bool, values: Params)
    ensures ok == ReadParams(payload, start, Max(count, 0)).Some?
    ensures ok ==> values == ReadParams(payload, start, Max(count, 0)).value
  {
    hide ReadI32, Subarray;
    ok, values := false, [];
    var offset := start;
    var i := 0;
    ghost var whole := ReadParams(payload, start, Max(count, 0));
    EmptyJoined(whole);
    while i < count
      invariant 0 <= i <= Max(count, 0)
      invariant whole == Joined(values, ReadParams(payload, offset, Max(count, 0) - i))
    {
      var len := ReadI32(payload, offset);
      if len.None? { return; }
      offset := offset + 4;
      ghost var rest := ReadParams(payload, offset + Max(len.value, 0), Max(count, 0) - i - 1);
      if len.value < 0 {
        JoinedOnce(values, None, rest);
        values := values + [None];
      } else {
        JoinedOnce(values, Some(Subarray(payload, offset, offset + len.value)), rest);
        values := values + [Some(Subarray(payload, offset, offset + len.value))];
        offset := offset + len.value;
      }
      i := i + 1;
    }
    assert values + [] == values;
    ok := true;
  }

  function Joined(values: Params, rest: Option<Params>): Option<Params> {
    if rest.None? then None else Some(values + rest.value)
  }

  lemma EmptyJoined(rest: Option<Params>)
    ensures Joined([], rest) == rest
  {
    if rest.Some? {
      assert [] + rest.value == rest.value;
    }
  }

  lemma JoinedOnce(values: Params, v: Option<Text>, rest: Option<Params>)
    ensures Joined(values, if rest.None? then None else Some([v] + rest.value)) == Joined(values + [v], rest)
  {
    if rest.Some? {
      assert values + ([v] + rest.value) == values + [v] + rest.value;
    }
  }

  /** The keys and values of a startup packet from an offset on: the user, or None where it throws. */
  function StartupFrom(packet: seq<byte>, at: nat, user: Option<Text>): (r: Option<Option<Text>>)
    decreases |packet| - at
  {
    if at >= |packet| - 1 then Some(user)
    else
      var key := ReadCString(packet, at);
      if key.None? then None
      else if key.value.value == [] then Some(user)
      else
        var val := ReadCString(packet, key.value.next);
        if val.None? then None
        else StartupFrom(packet, val.value.next, if key.value.value == USER then Some(val.value.value) else user)
  }

  const USER: Text := [117, 115, 101, 114]

  function StartupBody(packet: seq<byte>): Option<Option<Text>> { StartupFrom(packet, 8, None) }

  method HandleStartup(packet: seq<byte>) returns (ok: bool, user: Option<Text>)
    ensures ok == StartupBody(packet).Some?
    ensures ok ==> user == StartupBody(packet).value
  {
    ok, user := false, None;
    var offset := 8;
    while offset < |packet| - 1
      invariant offset >= 8 && StartupBody(packet) == StartupFrom(packet, offset, user)
      decreases |packet| - offset
    {
      var key := ReadCString(packet, offset);
      if key.None? { return; }
      if key.value.value == [] { break; }
      var val := ReadCString(packet, key.value.next);
      if val.None? { return; }
      if key.value.value == USER {
        user := Some(val.value.value);
      }
      offset := val.value.next;
    }
    ok := true;
  }

  // ----- startup packets read back ----------------------------------------------------------

  predicate NulFree(s: Text) { 0 !in s }

  lemma CStringInverse(b: seq<byte>, at: nat, s: Text)
    requires NulFree(s) && at + |s| < |b| && b[at..at + |s|] == s && b[at + |s|] == 0
    ensures ReadCString(b, at) == Some(CString(s, at + |s| + 1))
  {
    forall k | at <= k < at + |s| ensures b[k] != 0 {
      assert b[k] == b[at..at + |s|][k - at] == s[k - at];
    }
  }

  datatype Pair = Pair(key: Text, value: Text)

  /** Keys and values as a client writes them, each ended by a NUL, and one NUL behind all. */
  function PutPairs(pairs: seq<Pair>): (r: seq<byte>)
    ensures r != []
  {
    if pairs == [] then [0] else pairs[0].key + [0] + pairs[0].value + [0] + PutPairs(pairs[1..])
  }

  /** The value of the last pair with the key `user`, or what was known before. */
  function LastUser(pairs: seq<Pair>, before: Option<Text>): Option<Text> {
    if pairs == [] then before
    else if pairs[|pairs| - 1].key == USER then Some(pairs[|pairs| - 1].value)
    else LastUser(pairs[..|pairs| - 1], before)
  }

  lemma {:induction false} LastUserFirst(pairs: seq<Pair>, before: Option<Text>)
    requires pairs != []
    ensures LastUser(pairs, before)
         == LastUser(pairs[1..], if pairs[0].key == USER then Some(pairs[0].value) else before)
    decreases |pairs|
  {
    var n := |pairs| - 1;
    if n > 0 && pairs[n].key != USER {
      LastUserFirst(pairs[..n], before);
      assert pairs[1..][n - 1] == pairs[n];
      assert pairs[..n][1..] == pairs[1..][..n - 1];
    } else if n > 0 {
      assert pairs[1..][n - 1] == pairs[n];
    }
  }

  ghost predicate Writable(pairs: seq<Pair>) {
    forall p <- pairs :: p.key != [] && NulFree(p.key) && NulFree(p.value)
  }

  lemma {:induction false} PairsReadBack(packet: seq<byte>, at: nat, pairs: seq<Pair>, user: Option<Text>)
    requires Writable(pairs) && at <= |packet| && packet[at..] == PutPairs(pairs)
    ensures StartupFrom(packet, at, user) == Some(LastUser(pairs, user))
    decreases |pairs|
  {
    hide ReadCString, NulFree, LastUser;
    if pairs == [] {
      NoPairs(user);
      assert |packet| == at + 1;
    } else {
      var p, rest := pairs[0], PutPairs(pairs[1..]);
      assert p in pairs && forall q <- pairs[1..] :: q in pairs;
      PairReadBack(packet, at, p, rest);
      LastUserFirst(pairs, user);
      PairsReadBack(packet, at + |p.key| + |p.value| + 2, pairs[1..], if p.key == USER then Some(p.value) else user);
    }
  }

  lemma NoPairs(user: Option<Text>)
    ensures LastUser([], user) == user
  {
  }

  lemma PairReadBack(packet: seq<byte>, at: nat, p: Pair, rest: seq<byte>)
    requires NulFree(p.key) && NulFree(p.value) && at <= |packet|
    requires packet[at..] == p.key + [0] + p.value + [0] + rest
    ensures ReadCString(packet, at) == Some(CString(p.key, at + |p.key| + 1))
    ensures ReadCString(packet, at + |p.key| + 1) == Some(CString(p.value, at + |p.key| + |p.value| + 2))
    ensures packet[at + |p.key| + |p.value| + 2..] == rest
  {
    hide ReadCString, NulFree;
    var k := |p.key|;
    assert packet[at..] == p.key + [0] + (p.value + [0] + rest);
    TextReadBack(packet, at, p.key, p.value + [0] + rest);
    TextReadBack(packet, at + k + 1, p.value, rest);
  }

  /** A text and its terminator, with more behind them. */
  lemma TextReadBack(packet: seq<byte>, at: nat, text: Text, rest: seq<byte>)
    requires NulFree(text) && at <= |packet| && packet[at..] == text + [0] + rest
    ensures ReadCString(packet, at) == Some(CString(text, at + |text| + 1))
    ensures at + |text| + 1 <= |packet| && packet[at + |text| + 1..] == rest
  {
    hide ReadCString, NulFree;
    assert packet[at..] == text + ([0] + rest);
    CutOff(packet, at, text, [0] + rest);
    CutOff(packet, at + |text|, [0], rest);
    CStringInverse(packet, at, text);
  }

  /** What stands at an offset, and what stands behind it. */
  lemma CutOff(packet: seq<byte>, at: nat, front: seq<byte>, rest: seq<byte>)
    requires at <= |packet| && packet[at..] == front + rest
    ensures at + |front| <= |packet| && packet[at..at + |front|] == front && packet[at + |front|..] == rest
    ensures front != [] ==> packet[at] == front[0]
  {
    var tail := packet[at..];
    assert packet[at..at + |front|] == tail[..|front|];
    assert packet[at + |front|..] == tail[|front|..];
    assert front != [] ==> packet[at] == tail[0];
  }

  /** A startup packet gives the value of its last `user` key. */
  lemma StartupReadsBack(header: seq<byte>, pairs: seq<Pair>)
    requires |header| == 8 && Writable(pairs)
    ensures StartupBody(header + PutPairs(pairs)) == Some(LastUser(pairs, None))
  {
    assert (header + PutPairs(pairs))[8..] == PutPairs(pairs);
    PairsReadBack(header + PutPairs(pairs), 8, pairs, None);
  }

  /** A Parse body gives its query text, whatever the name before it and the types behind it. */
  lemma ParseReadsBack(name: Text, query: Text, types: seq<byte>)
    requires NulFree(name) && NulFree(query)
    ensures ParseBody(name + [0] + query + [0] + types) == Some(query)
  {
    hide ReadCString, NulFree;
    var b := name + [0] + query + [0] + types;
    assert b[0..] == b == name + [0] + (query + [0] + types);
    TextReadBack(b, 0, name, query + [0] + types);
    TextReadBack(b, |name| + 1, query, types);
  }

  /** A Parse body throws exactly when it has fewer than two terminators. */
  lemma ParseThrowsExactly(payload: seq<byte>)
    ensures ParseBody(payload).None? <==> !exists i, j :: 0 <= i < j < |payload| && payload[i] == 0 && payload[j] == 0
  {
    var name := IndexOfNul(payload, 0);
    if i, j :| 0 <= i < j < |payload| && payload[i] == 0 && payload[j] == 0 {
      assert name.Some? && name.value <= i;
    }
    if ParseBody(payload).Some? {
      var query := IndexOfNul(payload, name.value + 1);
      assert payload[name.value] == 0 && payload[query.value] == 0;
    }
  }

  // ----- Bind messages read back ------------------------------------------------------------

  /** A parameter as a client writes it. */
  function PutParam(v: Option<Text>): seq<byte>
    requires v.Some? ==> |v.value| < TWO_31
  {
    if v.None? then PutI32(-1) else PutI32(|v.value|) + v.value
  }

  /** Every length fits its field. */
  ghost predicate ShortValues(values: Params) {
    forall k :: 0 <= k < |values| && values[k].Some? ==> |values[k].value| < TWO_31
  }

  ghost predicate Sendable(values: Params) { |values| < 0x8000 && ShortValues(values) }

  function PutParams(values: Params): seq<byte>
    requires ShortValues(values)
  {
    if values == [] then [] else PutParam(values[0]) + PutParams(values[1..])
  }

  function PutI16s(formats: seq<int16>): (r: seq<byte>)
    ensures |r| == 2 * |formats|
  {
    if formats == [] then [] else PutI16(formats[0]) + PutI16s(formats[1..])
  }

  /** A Bind body of the protocol: portal, statement, format codes, values, and the result formats after them. */
  function BindMessage(portal: Text, statement: Text, formats: seq<int16>, values: Params,
                       results: seq<byte>): seq<byte>
    requires |formats| < 0x8000 && Sendable(values)
  {
    portal + [0] + statement + [0] + PutI16(|formats|) + PutI16s(formats) + PutI16(|values|) + PutParams(values)
      + results
  }

  lemma ParamInverse(b: seq<byte>, at: nat, v: Option<Text>)
    requires v.Some? ==> |v.value| < TWO_31
    requires at + |PutParam(v)| <= |b| && b[at..at + |PutParam(v)|] == PutParam(v)
    ensures ReadI32(b, at) == Some(if v.None? then -1 else |v.value|)
    ensures v.Some? ==> Subarray(b, at + 4, at + 4 + |v.value|) == v.value
  {
    hide PutI32, I32;
    var put := PutParam(v);
    PartOfPart(b, at, |put|, 0, 4);
    assert put[0..4] == PutI32(if v.None? then -1 else |v.value|);
    I32Inverse(if v.None? then -1 else |v.value|, b, at);
    if v.Some? {
      PartOfPart(b, at, |put|, 4, |put|);
      assert put[4..|put|] == v.value;
    }
  }

  lemma ParamLength(v: Option<Text>)
    requires v.Some? ==> |v.value| < TWO_31
    ensures |PutParam(v)| == 4 + if v.None? then 0 else |v.value|
  {
  }

  lemma {:induction false} ParamsInverse(b: seq<byte>, at: nat, values: Params)
    requires ShortValues(values)
    requires at <= |b| && PutParams(values) <= b[at..]
    ensures ReadParams(b, at, |values|) == Some(values)
    decreases |values|
  {
    hide PutI32, ReadI32, Subarray, PutParam;
    if values == [] {
    } else {
      var v := values[0];
      var put := PutParam(v);
      var rest := PutParams(values[1..]);
      FrontAndRest(b, at, put, rest);
      ParamInverse(b, at, v);
      ParamsInverse(b, at + |put|, values[1..]);
      ParamLength(v);
      assert [v] + values[1..] == values;
    }
  }

  /** The parameters of any Bind message come back, whatever formats are asked for. */
  lemma BindReadsBack(portal: Text, statement: Text, formats: seq<int16>, values: Params, results: seq<byte>)
    requires NulFree(portal) && NulFree(statement) && Sendable(values)
    requires |formats| < 0x8000
    ensures BindBody(BindMessage(portal, statement, formats, values, results)) == Some(values)
  {
    hide ReadParams, PutParams, PutI16s, PutI16, PutParam;
    var b := BindMessage(portal, statement, formats, values, results);
    var p1 := |portal| + 1;
    var p2 := p1 + |statement| + 1;
    var p3 := p2 + 2 + 2 * |formats|;
    CStringInverse(b, 0, portal);
    assert b[p1..p1 + |statement|] == statement;
    CStringInverse(b, p1, statement);
    assert b[p2..p2 + 2] == PutI16(|formats|);
    I16Inverse(|formats|, b, p2);
    assert b[p3..p3 + 2] == PutI16(|values|);
    I16Inverse(|values|, b, p3);
    assert b[p3 + 2..] == PutParams(values) + results;
    ParamsInverse(b, p3 + 2, values);
  }
}
