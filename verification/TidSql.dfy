/** Which statements bind a tid or steer a transaction (src/proxy/tid-sql.ts), and the text of a bound SET. */
module TidSql {
  import opened Wrappers
  import opened Splitter
  import opened Session

  // ----- the regular expressions, as readers of the text that is left ------------------------

  predicate SameWord(a: string, b: string) {
    |a| == |b| && forall i :: 0 <= i < |a| ==> FoldCase(a[i]) == FoldCase(b[i])
  }

  /** A literal part, in either case. */
  function Word(s: string, w: string): Option<string> {
    if |w| <= |s| && SameWord(s[..|w|], w) then Some(s[|w|..]) else None
  }

  /** `\s+`, which nothing after it can share. */
  function Gap(s: string): Option<string> {
    if s != "" && IsSpace(s[0]) then Some(TrimStart(s)) else None
  }

  function Then(s: Option<string>, w: string): Option<string> {
    if s.None? then None else Word(s.value, w)
  }

  function ThenGap(s: Option<string>): Option<string> {
    if s.None? then None else Gap(s.value)
  }

  /** `((?:\\q|[^q])*)`: each character other than q, or q behind a backslash. */
  predicate QuotedBody(s: string, q: char) {
    || s == ""
    || (s[0] != q && QuotedBody(s[1..], q))
    || (|s| >= 2 && s[0] == '\\' && s[1] == q && QuotedBody(s[2..], q))
  }

  predicate NoSpaces(s: string) {
    forall i :: 0 <= i < |s| ==> !IsSpace(s[i])
  }

  predicate InQuotes(s: string, q: char) {
    |s| >= 2 && s[0] == q && s[|s| - 1] == q && QuotedBody(s[1..|s| - 1], q)
  }

  /** The three alternatives for the value, in order; the text ends where the value ends. */
  function SetValue(s: string): Option<string> {
    if InQuotes(s, '\'') || InQuotes(s, '"') then Some(s[1..|s| - 1])
    else if s != "" && NoSpaces(s) then Some(s)
    else None
  }

  /** What a trimmed SET mtdd.tid statement gives as its value. */
  function SetTidValue(text: string): Option<string> {
    var name := Then(ThenGap(Word(text, "SET")), "mtdd.tid");
    if name.None? then None
    else
      var rest := TrimStart(name.value);
      var equals := Word(rest, "=");
      var value := if equals.Some? then equals else Word(rest, "TO");
      if value.None? then None else SetValue(TrimStart(value.value))
  }

  function ReplacePair(s: string, a: char, b: char, r: char): string {
    if |s| < 2 then s
    else if s[0] == a && s[1] == b then [r] + ReplacePair(s[2..], a, b, r)
    else [s[0]] + ReplacePair(s[1..], a, b, r)
  }

  function Unquote(raw: string): string {
    ReplacePair(ReplacePair(ReplacePair(raw, '\\', '\'', '\''), '\'', '\'', '\''), '\\', '"', '"')
  }

  predicate IsLineEnd(c: char) { c == '\n' || c == '\r' || c == '\U{2028}' || c == '\U{2029}' }

  /** `(\s+.*)?$`: nothing, or white space and then one line. */
  predicate LineAfter(s: string) {
    s == "" || (IsSpace(s[0]) && forall i :: 0 <= i < |TrimStart(s)| ==> !IsLineEnd(TrimStart(s)[i]))
  }

  predicate IsBegin(text: string) {
    var start := Then(ThenGap(Word(text, "START")), "TRANSACTION");
    (Word(text, "BEGIN").Some? && LineAfter(Word(text, "BEGIN").value)) || (start.Some? && LineAfter(start.value))
  }

  predicate IsCommit(text: string) {
    var rest := Word(text, "COMMIT");
    rest == Some("") || Then(ThenGap(rest), "TRANSACTION") == Some("")
  }

  predicate IsSavepoint(rest: Option<string>) {
    var name := ThenGap(Then(ThenGap(Then(ThenGap(rest), "TO")), "SAVEPOINT"));
    name.Some? && name.value != "" && NoSpaces(name.value)
  }

  predicate IsRollback(text: string) {
    var rest := Word(text, "ROLLBACK");
    var long := Then(ThenGap(rest), "TRANSACTION");
    rest == Some("") || long == Some("") || IsSavepoint(rest) || IsSavepoint(long)
  }

  function Classify(sql: string): Kind {
    var text := Trim(sql);
    if text == "" then Data(text)
    else if SetTidValue(text).Some? then SetTid(Unquote(SetTidValue(text).value))
    else if Then(ThenGap(Word(text, "RESET")), "mtdd.tid") == Some("") then ResetTid
    else if IsBegin(text) then Begin
    else if IsCommit(text) then Commit
    else if IsRollback(text) then Rollback
    else Data(text)
  }

  function ClassifyAll(pieces: seq<string>): (r: seq<Kind>)
    ensures |r| == |pieces|
  {
    if pieces == [] then [] else [Classify(pieces[0])] + ClassifyAll(pieces[1..])
  }

  /** The statements of a query string, as the session dispatches them. */
  function Kinds(sql: string): seq<Kind> { ClassifyAll(Pieces(sql)) }

  // ----- a SET whose value is a bound parameter ---------------------------------------------

  /** Every single quote written twice. */
  function Doubled(s: string): string {
    if s == "" then "" else (if s[0] == '\'' then "''" else [s[0]]) + Doubled(s[1..])
  }

  const SET_HEAD := "SET mtdd.tid = "

  function SetText(tid: string): string { SET_HEAD + "'" + Doubled(tid) + "'" }

  /** The statement begins as a SET of the tid, whatever follows. */
  predicate LooksLikeSetTid(sql: string) {
    Then(ThenGap(Word(TrimStart(sql), "SET")), "mtdd.tid").Some?
  }

  /** The text that Execute runs: a SET with a first parameter is rebuilt around that parameter. */
  function ExecuteText(sql: string, values: seq<Option<string>>): string {
    if LooksLikeSetTid(sql) && values != [] && values[0].Some? then SetText(values[0].value) else sql
  }

  /** Inside the quotation only quote characters are ever read in plain mode. */
  lemma {:induction false} QuotationIsOpaque(sql: string, off: nat, tid: string, k: nat)
    requires off <= k < |sql| && sql[off..] == Doubled(tid) + "'" && ModeAt(sql, off).Single?
    ensures !Cut(sql, k) && !CommentAt(sql, k) && ModeAt(sql, |sql|).Plain?
    decreases tid
  {
    hide IsSpace;
    if tid == "" {
      assert sql[off] == sql[off..][0] == '\'';
    } else if tid[0] == '\'' {
      assert sql[off] == sql[off..][0] == '\'' && sql[off + 1] == sql[off..][1] == '\'';
      assert sql[off + 2..] == sql[off..][2..] == Doubled(tid[1..]) + "'";
      assert ModeAt(sql, off + 1).Plain? && ModeAt(sql, off + 2).Single?;
      QuotationIsOpaque(sql, off + 2, tid[1..], if k < off + 2 then off + 2 else k);
    } else {
      assert sql[off] == sql[off..][0] == tid[0];
      assert sql[off + 1..] == sql[off..][1..] == Doubled(tid[1..]) + "'";
      assert ModeAt(sql, off + 1).Single?;
      QuotationIsOpaque(sql, off + 1, tid[1..], if k < off + 1 then off + 1 else k);
    }
  }

  lemma {:induction false} PlainPrefix(sql: string, k: nat)
    requires |SET_HEAD| <= |sql| && sql[..|SET_HEAD|] == SET_HEAD && k <= |SET_HEAD|
    requires |SET_HEAD| < |sql| && sql[|SET_HEAD|] == '\''
    ensures ModeAt(sql, k).Plain?
  {
    if k > 0 {
      PlainPrefix(sql, k - 1);
      assert sql[k - 1] == SET_HEAD[k - 1];
      assert SET_HEAD[k - 1] !in "$'\"-/";
    }
  }

  lemma QuotationOpens(sql: string)
    requires |SET_HEAD| < |sql| && sql[..|SET_HEAD|] == SET_HEAD && sql[|SET_HEAD|] == '\''
    ensures ModeAt(sql, |SET_HEAD| + 1).Single?
  {
    PlainPrefix(sql, |SET_HEAD|);
  }

  /** Whatever the tid holds, the text of a bound SET is one statement. */
  lemma BoundSetIsOneStatement(tid: string)
    ensures Pieces(SetText(tid)) == [SetText(tid)]
  {
    hide ModeAt, Pieces, IsSpace;
    var sql := SetText(tid);
    var off := |SET_HEAD| + 1;
    assert sql[..|SET_HEAD|] == SET_HEAD && sql[|SET_HEAD|] == '\'';
    assert sql[off..] == Doubled(tid) + "'";
    PlainPrefix(sql, |SET_HEAD|);
    QuotationOpens(sql);
    forall k | 0 <= k < |sql| ensures !Cut(sql, k) && !CommentAt(sql, k) {
      if k < off {
        if k < |SET_HEAD| { assert sql[k] == SET_HEAD[k]; }
        assert sql[k] !in ";-/";
      } else {
        QuotationIsOpaque(sql, off, tid, k);
      }
    }
    TextIsTrimmed(tid);
    OnePiece(sql);
  }

  lemma TextIsTrimmed(tid: string)
    ensures Trim(SetText(tid)) == SetText(tid) && SetText(tid) != ""
  {
    var sql := SetText(tid);
    assert sql[0] == 'S' && sql[|sql| - 1] == '\'';
    TrimmedIsFixed(sql);
  }

  lemma OneSpace(rest: string)
    requires rest != "" && !IsSpace(rest[0])
    ensures Gap(" " + rest) == Some(rest)
  {
    assert (" " + rest)[1..] == rest;
    assert TrimStart(" " + rest) == TrimStart(rest) == rest;
  }

  /** A word is cut off the text that it begins. */
  lemma CaseCut(w: string, word: string, rest: string)
    requires SameWord(w, word)
    ensures Word(w + rest, word) == Some(rest)
  {
    assert (w + rest)[..|word|] == w && (w + rest)[|word|..] == rest;
  }

  lemma WordCut(w: string, rest: string)
    ensures Word(w + rest, w) == Some(rest)
  {
    CaseCut(w, w, rest);
  }

  lemma NoWord(s: string, w: string, k: nat)
    requires k < |w| && k < |s| && FoldCase(s[k]) != FoldCase(w[k])
    ensures Word(s, w).None?
  {
    if |w| <= |s| {
      assert s[..|w|][k] == s[k];
    }
  }

  /** The value read back is read from the quoted text alone. */
  lemma ValueOfSetText(tid: string)
    ensures SetTidValue(SetText(tid)) == SetValue("'" + Doubled(tid) + "'")
  {
    hide Word, Gap, TrimStart, SetValue, Doubled;
    var q := "'" + Doubled(tid) + "'";
    var equals := "=" + (" " + q);
    var name := "mtdd.tid" + (" " + equals);
    assert SetText(tid) == "SET" + (" " + name);
    WordCut("SET", " " + name);
    OneSpace(name);
    WordCut("mtdd.tid", " " + equals);
    OneSpace(equals);
    assert TrimStart(" " + equals) == equals && TrimStart(" " + q) == q by { SpaceTrimmed(equals); SpaceTrimmed(q); }
    WordCut("=", " " + q);
  }

  lemma SpaceTrimmed(rest: string)
    requires rest != "" && !IsSpace(rest[0])
    ensures TrimStart(" " + rest) == rest
  {
    assert (" " + rest)[1..] == rest;
    assert TrimStart(" " + rest) == TrimStart(rest) == rest;
  }

  // ----- which values come back -------------------------------------------------------------

  function Quotes(s: string): nat {
    if s == "" then 0 else (if s[0] == '\'' then 1 else 0) + Quotes(s[1..])
  }

  predicate HasPair(s: string, a: char, b: char) {
    exists i :: 0 <= i < |s| - 1 && s[i] == a && s[i + 1] == b
  }

  lemma {:induction false} QuotesAppend(s: string, t: string)
    ensures Quotes(s + t) == Quotes(s) + Quotes(t)
  {
    if s == "" {
      assert s + t == t;
    } else {
      assert (s + t)[1..] == s[1..] + t;
      QuotesAppend(s[1..], t);
    }
  }

  lemma {:induction false} QuotesDoubled(s: string)
    ensures Quotes(Doubled(s)) == 2 * Quotes(s)
  {
    if s != "" {
      QuotesDoubled(s[1..]);
      QuotesAppend(if s[0] == '\'' then "''" else [s[0]], Doubled(s[1..]));
      assert "''"[1..] == "'" && "'"[1..] == "";
      assert [s[0]][1..] == "";
    }
  }

  lemma {:induction false} QuotesAfterReplace(s: string, a: char, b: char, r: char)
    requires (a == '\\' && b == '\'' && r == '\'') || (a == '\'' && b == '\'' && r == '\'')
      || (a == '\\' && b == '"' && r == '"')
    ensures a == '\\' ==> Quotes(ReplacePair(s, a, b, r)) == Quotes(s)
    ensures 2 * Quotes(ReplacePair(s, a, b, r)) >= Quotes(s)
    decreases |s|
  {
    if |s| >= 2 {
      if s[0] == a && s[1] == b {
        QuotesAfterReplace(s[2..], a, b, r);
        QuotesAppend([r], ReplacePair(s[2..], a, b, r));
        assert s[1..][1..] == s[2..];
        assert [r][1..] == "";
      } else {
        QuotesAfterReplace(s[1..], a, b, r);
        QuotesAppend([s[0]], ReplacePair(s[1..], a, b, r));
        assert [s[0]][1..] == "";
      }
    }
  }

  /** Unquoting drops at most every other single quote. */
  lemma QuotesAfterUnquote(raw: string)
    ensures 2 * Quotes(Unquote(raw)) >= Quotes(raw)
  {
    var once := ReplacePair(raw, '\\', '\'', '\'');
    QuotesAfterReplace(raw, '\\', '\'', '\'');
    QuotesAfterReplace(once, '\'', '\'', '\'');
    QuotesAfterReplace(ReplacePair(once, '\'', '\'', '\''), '\\', '"', '"');
  }

  lemma {:induction false} ReplaceExact(s: string, a: char, b: char, r: char)
    ensures |ReplacePair(s, a, b, r)| <= |s|
    ensures ReplacePair(s, a, b, r) == s <==> !HasPair(s, a, b)
    decreases |s|
  {
    if |s| >= 2 {
      if s[0] == a && s[1] == b {
        ReplaceExact(s[2..], a, b, r);
        assert HasPair(s, a, b);
      } else {
        ReplaceExact(s[1..], a, b, r);
        PairAfterFirst(s, a, b);
        assert s == [s[0]] + s[1..];
      }
    }
  }

  lemma PairAfterFirst(s: string, a: char, b: char)
    requires |s| >= 2 && !(s[0] == a && s[1] == b)
    ensures HasPair(s, a, b) <==> HasPair(s[1..], a, b)
  {
    if HasPair(s, a, b) {
      var i :| 0 <= i < |s| - 1 && s[i] == a && s[i + 1] == b;
      assert s[1..][i - 1] == a && s[1..][i] == b;
    }
    if HasPair(s[1..], a, b) {
      var i :| 0 <= i < |s[1..]| - 1 && s[1..][i] == a && s[1..][i + 1] == b;
      assert s[i + 1] == a && s[i + 2] == b;
    }
  }

  lemma {:induction false} NoQuotes(s: string)
    ensures '\'' !in s <==> Quotes(s) == 0
    ensures '\'' !in s ==> Doubled(s) == s && QuotedBody(s, '\'')
  {
    if s != "" {
      NoQuotes(s[1..]);
      assert s == [s[0]] + s[1..];
    }
  }

  /** A quote written twice is never behind a backslash. */
  lemma {:induction false} DoubledIsNoBody(s: string)
    requires '\'' in s
    ensures !QuotedBody(Doubled(s), '\'')
  {
    var d := Doubled(s);
    var rest := Doubled(s[1..]);
    if s[0] == '\'' {
      assert d[0] == '\'';
    } else {
      assert '\'' in s[1..];
      DoubledIsNoBody(s[1..]);
      assert d[1..] == rest;
      if |d| >= 2 && d[1] == '\'' {
        assert rest[0] == '\'' && s[1] == '\'' == s[1..][0];
        assert d[2..] == rest[1..] && rest[1..][0] == '\'';
      }
    }
  }

  /** The value is taken with its quotation marks when it holds a quote, and then never equals the tid. */
  lemma QuotedTidIsLost(tid: string)
    requires '\'' in tid
    ensures SetValue("'" + Doubled(tid) + "'").Some? ==> Unquote(SetValue("'" + Doubled(tid) + "'").value) != tid
  {
    hide IsSpace, Unquote;
    var s := "'" + Doubled(tid) + "'";
    assert s[1..|s| - 1] == Doubled(tid);
    DoubledIsNoBody(tid);
    assert !InQuotes(s, '\'');
    if SetValue(s).Some? {
      assert SetValue(s).value == s;
      QuotesAfterUnquote(s);
      QuotesAppend("'" + Doubled(tid), "'");
      QuotesAppend("'", Doubled(tid));
      QuotesDoubled(tid);
      assert "'"[1..] == "";
    }
  }

  lemma NoPairWithoutQuote(s: string, a: char)
    requires '\'' !in s
    ensures !HasPair(s, a, '\'')
  {
    assert forall i :: 0 <= i < |s| ==> s[i] in s;
  }

  /** Without single quotes only the last replacement can change anything. */
  lemma UnquotePlain(tid: string)
    requires '\'' !in tid
    ensures Unquote(tid) == tid <==> !HasPair(tid, '\\', '"')
  {
    hide ReplacePair, HasPair;
    NoPairWithoutQuote(tid, '\\');
    NoPairWithoutQuote(tid, '\'');
    ReplaceExact(tid, '\\', '\'', '\'');
    ReplaceExact(tid, '\'', '\'', '\'');
    ReplaceExact(tid, '\\', '"', '"');
  }

  lemma UnquotedTid(tid: string)
    requires '\'' !in tid
    ensures SetValue("'" + Doubled(tid) + "'") == Some(tid)
    ensures Unquote(tid) == tid <==> !HasPair(tid, '\\', '"')
  {
    hide IsSpace, Unquote, Doubled, QuotedBody, HasPair;
    NoQuotes(tid);
    UnquotePlain(tid);
    var s := "'" + Doubled(tid) + "'";
    assert s[1..|s| - 1] == tid;
  }

  /**
   A bound SET puts exactly the parameter in force if and only if the parameter has no single quote
   and no double quote behind a backslash; semicolons, comment marks and line breaks do no harm.
   */
  lemma BoundSetExact(tid: string)
    ensures Kinds(SetText(tid)) == [SetTid(tid)] <==> '\'' !in tid && !HasPair(tid, '\\', '"')
  {
    hide IsSpace, Trim, Pieces, SetTidValue, SetValue, Unquote, SetText;
    BoundSetIsOneStatement(tid);
    TextIsTrimmed(tid);
    ValueOfSetText(tid);
    var text := SetText(tid);
    assert [text][1..] == [];
    assert Kinds(text) == [Classify(text)];
    if '\'' in tid {
      QuotedTidIsLost(tid);
    } else {
      UnquotedTid(tid);
    }
  }

  // ----- what the session then does ---------------------------------------------------------

  /** A SET with a bound parameter is all that runs, whatever else stood in the prepared text. */
  lemma OnlyTheSetRuns(sql: string, values: seq<Option<string>>)
    requires LooksLikeSetTid(sql) && values != [] && values[0].Some?
    ensures Kinds(ExecuteText(sql, values)) == [Classify(SetText(values[0].value))]
  {
    hide Classify, Pieces, SetText;
    var text := SetText(values[0].value);
    BoundSetIsOneStatement(values[0].value);
    assert [text][1..] == [];
  }

  /** Executing a bound SET outside a pinned transaction binds exactly the parameter, if it can be read back. */
  lemma BoundSetBinds(s: State, sql: string, values: seq<Option<string>>, env: Env, shardCount: nat)
    requires Coherent(s) && !(s.inTx && s.pinned.Some?)
    requires LooksLikeSetTid(sql) && values != [] && values[0].Some? && values[0].value != ""
    requires '\'' !in values[0].value && !HasPair(values[0].value, '\\', '"')
    ensures |Kinds(ExecuteText(sql, values))| == 1
    ensures RunSqlSpec(s, Kinds(ExecuteText(sql, values)), [env], shardCount).ok
    ensures RunSqlSpec(s, Kinds(ExecuteText(sql, values)), [env], shardCount).state.pendingTid == values[0]
  {
    hide Kinds, SetText, LooksLikeSetTid, HasPair;
    var tid := values[0].value;
    BoundSetExact(tid);
    var t := DispatchSpec(s, SetTid(tid), env, shardCount);
    assert t == Turn(s.(pendingTid := Some(tid)), Idle, [Ended(SetTid(tid), true)]);
    assert [SetTid(tid)][1..] == [] && [env][1..] == [];
    assert RunStatements(t.state, [], [], shardCount).ok && !Threw(t, SetTid(tid));
  }

  // ----- ROLLBACK and what may stand behind it ----------------------------------------------

  ghost predicate Spaces(g: string) { g != "" && forall i :: 0 <= i < |g| ==> IsSpace(g[i]) }

  /** The tail is white space, the word in either case, and the rest. */
  ghost predicate Behind(tail: string, word: string, rest: string) {
    exists g, w :: tail == g + w + rest && Spaces(g) && SameWord(w, word)
  }

  /** White space and a name without white space in it. */
  ghost predicate BehindName(tail: string) {
    exists g, name :: tail == g + name && Spaces(g) && name != "" && NoSpaces(name)
  }

  /** TO SAVEPOINT and a name. */
  ghost predicate BehindSavepoint(tail: string) {
    exists to, savepoint :: Behind(tail, "TO", to) && Behind(to, "SAVEPOINT", savepoint) && BehindName(savepoint)
  }

  /** What may stand behind ROLLBACK in a statement that ends the transaction. */
  ghost predicate EndsRollback(tail: string) {
    || tail == ""
    || Behind(tail, "TRANSACTION", "")
    || BehindSavepoint(tail)
    || exists rest :: Behind(tail, "TRANSACTION", rest) && BehindSavepoint(rest)
  }

  lemma {:induction false} SpacesTrimmed(g: string, rest: string)
    requires (forall i :: 0 <= i < |g| ==> IsSpace(g[i])) && (rest == "" || !IsSpace(rest[0]))
    ensures TrimStart(g + rest) == rest
  {
    hide IsSpace;
    if g == "" {
      assert g + rest == rest;
    } else {
      assert (g + rest)[1..] == g[1..] + rest;
      SpacesTrimmed(g[1..], rest);
    }
  }

  lemma {:induction false} TrimmedSpaces(s: string) returns (g: string)
    ensures s == g + TrimStart(s) && forall i :: 0 <= i < |g| ==> IsSpace(g[i])
    ensures TrimStart(s) == "" || !IsSpace(TrimStart(s)[0])
    ensures s != "" && IsSpace(s[0]) ==> g != ""
  {
    hide IsSpace;
    if s != "" && IsSpace(s[0]) {
      var h := TrimmedSpaces(s[1..]);
      g := [s[0]] + h;
      assert s == [s[0]] + s[1..];
    } else {
      g := "";
    }
  }

  predicate IsLetter(c: char) { 'A' <= c <= 'Z' }

  lemma LetterIsNoSpace(c: char)
    requires IsLetter(FoldCase(c))
    ensures !IsSpace(c)
  {
  }

  /** Reading white space and a word succeeds exactly when the tail has that form. */
  lemma BehindExact(tail: string, word: string, rest: string)
    requires word != "" && IsLetter(word[0])
    ensures Then(Gap(tail), word) == Some(rest) <==> Behind(tail, word, rest)
  {
    hide IsSpace, TrimStart, FoldCase;
    if Then(Gap(tail), word) == Some(rest) {
      var g := TrimmedSpaces(tail);
      var t := TrimStart(tail);
      assert tail == g + t[..|word|] + rest && Spaces(g) && SameWord(t[..|word|], word);
    }
    if Behind(tail, word, rest) {
      var g, w :| tail == g + w + rest && Spaces(g) && SameWord(w, word) by { assert Behind(tail, word, rest); }
      FirstLetter(w, word);
      assert tail == g + (w + rest) && tail[0] == g[0];
      SpacesTrimmed(g, w + rest);
      assert (w + rest)[..|word|] == w && (w + rest)[|word|..] == rest;
    }
  }

  lemma FirstLetter(w: string, word: string)
    requires word != "" && IsLetter(word[0]) && SameWord(w, word)
    ensures w != "" && !IsSpace(w[0])
  {
    assert FoldCase(w[0]) == FoldCase(word[0]) == word[0];
    LetterIsNoSpace(w[0]);
  }

  lemma NameExact(tail: string)
    ensures var name := Gap(tail); (name.Some? && name.value != "" && NoSpaces(name.value)) <==> BehindName(tail)
  {
    hide IsSpace, TrimStart;
    var read := Gap(tail);
    if read.Some? && read.value != "" && NoSpaces(read.value) {
      var g := TrimmedSpaces(tail);
      assert tail == g + read.value && Spaces(g);
    }
    if BehindName(tail) {
      var g, name :| tail == g + name && Spaces(g) && name != "" && NoSpaces(name);
      assert tail[0] == g[0];
      SpacesTrimmed(g, name);
    }
  }

  lemma SavepointReadExact(tail: string)
    ensures IsSavepoint(Some(tail)) <==> BehindSavepoint(tail)
  {
    hide Behind, BehindName, Gap, Word, NoSpaces;
    if IsSavepoint(Some(tail)) {
      var to := Then(Gap(tail), "TO").value;
      var savepoint := Then(Gap(to), "SAVEPOINT").value;
      BehindExact(tail, "TO", to);
      BehindExact(to, "SAVEPOINT", savepoint);
      NameExact(savepoint);
    }
    if BehindSavepoint(tail) {
      var to, savepoint :| Behind(tail, "TO", to) && Behind(to, "SAVEPOINT", savepoint) && BehindName(savepoint);
      BehindExact(tail, "TO", to);
      BehindExact(to, "SAVEPOINT", savepoint);
      NameExact(savepoint);
    }
  }

  lemma RollbackReadExact(word: string, tail: string)
    requires SameWord(word, "ROLLBACK")
    ensures IsRollback(word + tail) <==> EndsRollback(tail)
  {
    hide Behind, BehindSavepoint, IsSavepoint, Gap, Word;
    CaseCut(word, "ROLLBACK", tail);
    var long := Then(Gap(tail), "TRANSACTION");
    BehindExact(tail, "TRANSACTION", "");
    SavepointReadExact(tail);
    if long.Some? {
      BehindExact(tail, "TRANSACTION", long.value);
      SavepointReadExact(long.value);
    } else {
      NoSavepointWithout();
    }
    forall rest | Behind(tail, "TRANSACTION", rest) ensures long == Some(rest) {
      BehindExact(tail, "TRANSACTION", rest);
    }
  }

  lemma NoSavepointWithout()
    ensures !IsSavepoint(None)
  {
  }

  /**
   A statement that begins with ROLLBACK, in any case, ends the transaction exactly when nothing,
   TRANSACTION, or TO SAVEPOINT and a name stand behind it; ROLLBACK TO a name without the word
   SAVEPOINT, which PostgreSQL takes too, is an ordinary statement.
   */
  lemma RollbackExact(word: string, tail: string)
    requires SameWord(word, "ROLLBACK") && (tail == "" || !IsSpace(tail[|tail| - 1]))
    ensures Classify(word + tail) == if EndsRollback(tail) then Rollback else Data(word + tail)
  {
    hide TrimStart, TrimEnd, Trim, Gap, Word, IsRollback, EndsRollback, IsSpace, FoldCase, SameWord;
    RollbackText(word, tail);
    NoKeyword(word + tail);
    RollbackReadExact(word, tail);
  }

  lemma RollbackText(word: string, tail: string)
    requires SameWord(word, "ROLLBACK") && (tail == "" || !IsSpace(tail[|tail| - 1]))
    ensures |word + tail| > 1 && Trim(word + tail) == word + tail
    ensures FoldCase((word + tail)[0]) == 'R' && FoldCase((word + tail)[1]) == 'O'
  {
    hide TrimStart, TrimEnd, Trim, IsSpace, FoldCase;
    var text := word + tail;
    KeywordEnds(word, "ROLLBACK");
    KeywordStart(word);
    assert text[0] == word[0] && text[1] == word[1];
    assert text[|text| - 1] == if tail == "" then word[|word| - 1] else tail[|tail| - 1];
    TrimmedIsFixed(text);
  }

  lemma KeywordStart(word: string)
    requires SameWord(word, "ROLLBACK")
    ensures |word| == 8 && FoldCase(word[0]) == 'R' && FoldCase(word[1]) == 'O'
  {
  }

  lemma NoKeyword(text: string)
    requires |text| > 1 && FoldCase(text[0]) == 'R' && FoldCase(text[1]) == 'O'
    ensures Word(text, "SET") == Word(text, "RESET") == Word(text, "START") == None
    ensures Word(text, "BEGIN") == Word(text, "COMMIT") == None
  {
    NoWord(text, "SET", 0);
    NoWord(text, "RESET", 1);
    NoWord(text, "START", 0);
    NoWord(text, "BEGIN", 0);
    NoWord(text, "COMMIT", 0);
  }

  /** A keyword begins and ends with a letter. */
  lemma KeywordEnds(w: string, word: string)
    requires SameWord(w, word) && word != "" && IsLetter(word[0]) && IsLetter(word[|word| - 1])
    ensures w != "" && !IsSpace(w[0]) && !IsSpace(w[|w| - 1])
  {
    assert FoldCase(word[0]) == word[0] && FoldCase(word[|word| - 1]) == word[|word| - 1];
    LetterIsNoSpace(w[0]);
    LetterIsNoSpace(w[|w| - 1]);
  }

  /**
   What a ROLLBACK statement does to an open transaction on a shard that is still the tid's: it ends
   it, releasing the client and forgetting the tid, or it reaches the client as it stands and keeps it.
   */
  lemma RollbackEffect(s: State, word: string, tail: string, env: Env, shardCount: nat)
    requires Coherent(s) && s.txClient.Some? && s.pendingTid.Some? && env.query
    requires env.lookup == HostIndex(s.pinned.value) && s.pinned.value < shardCount
    requires SameWord(word, "ROLLBACK") && (tail == "" || !IsSpace(tail[|tail| - 1]))
    ensures var t := DispatchSpec(s, Classify(word + tail), env, shardCount);
      if EndsRollback(tail) then
        && Sent(s.pinned.value, s.txClient.value, EndCmd(Rollback)) in t.events
        && Release(s.txClient.value) in t.events
        && !t.state.inTx && t.state.pendingTid == None && t.state.txClient == None
      else
        && Sent(s.pinned.value, s.txClient.value, DataCmd(word + tail)) in t.events
        && t.state == s
  {
    hide Classify, EndsRollback, IsSpace, SameWord;
    RollbackExact(word, tail);
    if EndsRollback(tail) {
      var t := Start(s, Rollback);
      CompleteStep(t, env, shardCount);
      CompleteStep(Step(t, env, shardCount), env, shardCount);
    } else {
      DataInTransaction(s, word + tail, env, shardCount);
    }
  }

  lemma DataInTransaction(s: State, sql: string, env: Env, shardCount: nat)
    requires Coherent(s) && s.txClient.Some? && s.pendingTid.Some? && env.query
    requires env.lookup == HostIndex(s.pinned.value) && s.pinned.value < shardCount
    ensures var t := DispatchSpec(s, Data(sql), env, shardCount);
      Sent(s.pinned.value, s.txClient.value, DataCmd(sql)) in t.events && t.state == s
  {
    var t := Start(s, Data(sql));
    CompleteStep(t, env, shardCount);
    var u := Step(t, env, shardCount);
    CompleteStep(u, env, shardCount);
    CompleteStep(Step(u, env, shardCount), env, shardCount);
  }

  /** The two ways to roll back to a savepoint. */
  lemma SavepointForms(name: string)
    requires name != "" && NoSpaces(name)
    ensures EndsRollback(" TO SAVEPOINT " + name) && !EndsRollback(" TO " + name)
  {
    hide IsSpace, EndsRollback, IsRollback, TrimStart, Gap, Word;
    BothForms(name);
    RollbackReadExact("ROLLBACK", " TO SAVEPOINT " + name);
    RollbackReadExact("ROLLBACK", " TO " + name);
  }

  lemma BothForms(name: string)
    requires name != "" && NoSpaces(name)
    ensures IsRollback("ROLLBACK" + (" TO SAVEPOINT " + name)) && !IsRollback("ROLLBACK" + (" TO " + name))
  {
    hide IsSpace, TrimStart, Gap, Word;
    OneSpace(name);
    var savepoint := "SAVEPOINT" + (" " + name);
    OneSpaceLetter(savepoint);
    var to := "TO" + (" " + savepoint);
    OneSpaceLetter(to);
    assert " TO SAVEPOINT " + name == " " + to;
    WordCut("ROLLBACK", " " + to);
    WordCut("TO", " " + savepoint);
    WordCut("SAVEPOINT", " " + name);
    var short := "TO" + (" " + name);
    OneSpaceLetter(short);
    assert " TO " + name == " " + short;
    WordCut("ROLLBACK", " " + short);
    WordCut("TO", " " + name);
    NoWord(short, "TRANSACTION", 1);
    SavepointThenNothing(name);
  }

  lemma OneSpaceLetter(rest: string)
    requires rest != "" && IsLetter(rest[0])
    ensures Gap(" " + rest) == Some(rest)
  {
    OneSpace(rest);
  }

  /** A name without white space has no gap behind its first letters. */
  lemma SavepointThenNothing(name: string)
    requires NoSpaces(name)
    ensures ThenGap(Word(name, "SAVEPOINT")) == None
  {
    hide IsSpace, TrimStart;
    if Word(name, "SAVEPOINT").Some? && |name| > 9 {
      assert name[9..][0] == name[9];
    }
  }

  /** The runSql of a session: split the text, classify each statement and dispatch it. */
  method RunText(session: ProxySession, sql: string, envs: seq<Env>) returns (ok: bool)
    requires session.Valid() && |envs| == |Kinds(sql)|
    modifies session
    ensures session.Valid()
    ensures session.Now() == RunSqlSpec(old(session.Now()), Kinds(sql), envs, session.shardCount).state
    ensures session.trace == old(session.trace) +
                             RunSqlSpec(old(session.Now()), Kinds(sql), envs, session.shardCount).events
    ensures ok == RunSqlSpec(old(session.Now()), Kinds(sql), envs, session.shardCount).ok
  {
    hide Pieces, Classify, RunSqlSpec;
    var statements := SplitStatements(sql);
    var kinds: seq<Kind> := [];
    assert statements[0..] == statements && [] + ClassifyAll(statements) == ClassifyAll(statements);
    for i := 0 to |statements|
      invariant kinds + ClassifyAll(statements[i..]) == ClassifyAll(statements)
    {
      assert statements[i..][1..] == statements[i + 1..];
      assert kinds + ([Classify(statements[i])] + ClassifyAll(statements[i + 1..]))
          == kinds + [Classify(statements[i])] + ClassifyAll(statements[i + 1..]);
      kinds := kinds + [Classify(statements[i])];
    }
    assert kinds + [] == kinds;
    ok := session.RunSql(kinds, envs);
  }

  // ----- the other classes ------------------------------------------------------------------

  lemma WholeWord(text: string, w: string)
    requires SameWord(text, w)
    ensures Word(text, w) == Some("")
  {
    assert text[..|w|] == text && text[|w|..] == "";
  }

  /** A lone keyword, in any case, is that statement. */
  lemma KeywordsClassify(text: string)
    requires text != "" && !IsSpace(text[0]) && !IsSpace(text[|text| - 1])
    ensures SameWord(text, "BEGIN") ==> Classify(text) == Begin
    ensures SameWord(text, "COMMIT") ==> Classify(text) == Commit
    ensures SameWord(text, "ROLLBACK") ==> Classify(text) == Rollback
  {
    TrimmedIsFixed(text);
    hide TrimStart, TrimEnd, Trim, Gap, Word, IsSpace;
    if SameWord(text, "BEGIN") {
      WholeWord(text, "BEGIN");
    } else if SameWord(text, "COMMIT") {
      WholeWord(text, "COMMIT");
    } else if SameWord(text, "ROLLBACK") {
      WholeWord(text, "ROLLBACK");
      NoWord(text, "RESET", 1);
    } else {
      return;
    }
    var c := FoldCase(text[0]);
    assert c == 'B' || c == 'C' || c == 'R';
    NoWord(text, "SET", 0);
    NoWord(text, "START", 0);
    if c != 'R' { NoWord(text, "RESET", 0); }
    if c != 'B' { NoWord(text, "BEGIN", 0); }
    if c != 'C' { NoWord(text, "COMMIT", 0); }
  }

  // ----- BEGIN, START TRANSACTION and their options -----------------------------------------

  /** BEGIN, or START and TRANSACTION, in any case and with any white space between. */
  ghost predicate BeginHead(head: string) {
    || SameWord(head, "BEGIN")
    || exists w, g, v :: head == w + g + v && SameWord(w, "START") && Spaces(g) && SameWord(v, "TRANSACTION")
  }

  /** Nothing, or white space and options that stand on one line. */
  ghost predicate OneLine(tail: string) {
    || tail == ""
    || exists g, options :: tail == g + options && Spaces(g) && (options == "" || !IsSpace(options[0]))
                            && forall i :: 0 <= i < |options| ==> !IsLineEnd(options[i])
  }

  lemma LineAfterExact(tail: string)
    ensures LineAfter(tail) <==> OneLine(tail)
  {
    hide IsSpace, TrimStart, IsLineEnd;
    if tail != "" && LineAfter(tail) {
      var g := TrimmedSpaces(tail);
      assert tail == g + TrimStart(tail) && Spaces(g);
    }
    if tail != "" && OneLine(tail) {
      var g, options :| tail == g + options && Spaces(g) && (options == "" || !IsSpace(options[0]))
                        && forall i :: 0 <= i < |options| ==> !IsLineEnd(options[i]);
      assert tail[0] == g[0];
      SpacesTrimmed(g, options);
    }
  }

  lemma BeginReadExact(head: string, tail: string)
    requires BeginHead(head)
    ensures IsBegin(head + tail) <==> OneLine(tail)
    ensures head != "" && !IsSpace(head[0]) && !IsSpace(head[|head| - 1])
    ensures |head| > 1 && (FoldCase(head[0]) == 'B' || (FoldCase(head[0]) == 'S' && FoldCase(head[1]) == 'T'))
  {
    LineAfterExact(tail);
    if SameWord(head, "BEGIN") {
      KeywordEnds(head, "BEGIN");
      CaseCut(head, "BEGIN", tail);
      assert FoldCase(head[0]) == 'B' && (head + tail)[0] == head[0];
      hide Word, LineAfter, OneLine, IsSpace;
      NoWord(head + tail, "START", 0);
    } else {
      var w, g, v :| head == w + g + v && SameWord(w, "START") && Spaces(g) && SameWord(v, "TRANSACTION");
      KeywordEnds(w, "START");
      KeywordEnds(v, "TRANSACTION");
      assert FoldCase(w[0]) == 'S' && FoldCase(w[1]) == 'T' && head[0] == w[0] && head[1] == w[1];
      assert head[|head| - 1] == v[|v| - 1];
      StartTransactionReads(w, g, v, tail);
      hide Word, LineAfter, OneLine, IsSpace;
      NoWord(head + tail, "BEGIN", 0);
    }
  }

  lemma StartTransactionReads(w: string, g: string, v: string, tail: string)
    requires SameWord(w, "START") && Spaces(g) && SameWord(v, "TRANSACTION")
    ensures Then(ThenGap(Word(w + g + v + tail, "START")), "TRANSACTION") == Some(tail)
  {
    assert w + g + v + tail == w + (g + v + tail);
    CaseCut(w, "START", g + v + tail);
    assert Behind(g + v + tail, "TRANSACTION", tail);
    BehindExact(g + v + tail, "TRANSACTION", tail);
  }

  lemma BeginOrData(text: string)
    requires |text| > 1 && Trim(text) == text
    requires FoldCase(text[0]) == 'B' || (FoldCase(text[0]) == 'S' && FoldCase(text[1]) == 'T')
    ensures Classify(text) == if IsBegin(text) then Begin else Data(text)
  {
    hide Gap, Word, Trim, IsSpace, IsBegin, FoldCase;
    NoBeginKeyword(text);
  }

  lemma NoBeginKeyword(text: string)
    requires |text| > 1 && (FoldCase(text[0]) == 'B' || (FoldCase(text[0]) == 'S' && FoldCase(text[1]) == 'T'))
    ensures Word(text, "SET") == Word(text, "RESET") == Word(text, "COMMIT") == Word(text, "ROLLBACK") == None
  {
    NoWord(text, "SET", if FoldCase(text[0]) == 'B' then 0 else 1);
    NoWord(text, "RESET", 0);
    NoWord(text, "COMMIT", 0);
    NoWord(text, "ROLLBACK", 0);
  }

  /**
   BEGIN and START TRANSACTION, in any spelling, are recognised exactly when their options stand on
   one line, which need not be the first; otherwise they are sent as data.
   */
  lemma BeginExact(head: string, tail: string)
    requires BeginHead(head) && (tail == "" || !IsSpace(tail[|tail| - 1]))
    ensures Classify(head + tail) == if OneLine(tail) then Begin else Data(head + tail)
  {
    hide TrimStart, TrimEnd, Trim, Gap, Word, Classify, OneLine, IsSpace, IsBegin, FoldCase, BeginHead;
    BeginReadExact(head, tail);
    var text := head + tail;
    assert text[0] == head[0] && text[1] == head[1];
    assert text[|text| - 1] == if tail == "" then head[|head| - 1] else tail[|tail| - 1];
    TrimmedIsFixed(text);
    BeginOrData(text);
  }

  // ----- COMMIT, RESET and the spellings of SET ---------------------------------------------

  lemma CaseEnds(w: string, word: string, tail: string)
    requires SameWord(w, word) && word != "" && (IsLetter(word[0]) || word[0] == 'm') && |word| > 1
    requires tail == "" || !IsSpace(tail[|tail| - 1])
    requires tail == "" ==> !IsSpace(w[|w| - 1])
    ensures !IsSpace(w[0])
    ensures Trim(w + tail) == w + tail && (w + tail)[0] == w[0] && (w + tail)[1] == w[1]
  {
    hide TrimStart, TrimEnd, Trim;
    assert FoldCase(w[0]) == FoldCase(word[0]);
    LetterIsNoSpace(w[0]);
    var text := w + tail;
    assert text[|text| - 1] == if tail == "" then w[|w| - 1] else tail[|tail| - 1];
    TrimmedIsFixed(text);
  }

  /** A statement that begins with COMMIT is one exactly when nothing or TRANSACTION stands behind it. */
  lemma CommitExact(word: string, tail: string)
    requires SameWord(word, "COMMIT") && (tail == "" || !IsSpace(tail[|tail| - 1]))
    ensures Classify(word + tail) == if tail == "" || Behind(tail, "TRANSACTION", "") then Commit else Data(word + tail)
  {
    KeywordEnds(word, "COMMIT");
    CaseEnds(word, "COMMIT", tail);
    CaseCut(word, "COMMIT", tail);
    BehindExact(tail, "TRANSACTION", "");
    assert FoldCase((word + tail)[0]) == 'C';
    hide TrimStart, TrimEnd, Trim, Gap, Word, IsSpace, FoldCase, Behind;
    NoWord(word + tail, "SET", 0);
    NoWord(word + tail, "RESET", 0);
    NoWord(word + tail, "START", 0);
    NoWord(word + tail, "BEGIN", 0);
    NoWord(word + tail, "ROLLBACK", 0);
  }

  /** A statement that begins with RESET is a reset of the tid exactly when just its name stands behind it. */
  lemma ResetExact(word: string, tail: string)
    requires SameWord(word, "RESET") && (tail == "" || !IsSpace(tail[|tail| - 1]))
    ensures Classify(word + tail)
         == if (exists g, n :: tail == g + n && Spaces(g) && SameWord(n, "mtdd.tid")) then ResetTid
           else Data(word + tail)
  {
    ResetRead(word, tail);
    NameBehind(tail);
    hide TrimStart, TrimEnd, Trim, Gap, Word, IsSpace, FoldCase, Spaces, SameWord;
    NoWord(word + tail, "SET", 0);
    NoWord(word + tail, "START", 0);
    NoWord(word + tail, "BEGIN", 0);
    NoWord(word + tail, "COMMIT", 0);
    NoWord(word + tail, "ROLLBACK", 1);
  }

  lemma ResetRead(word: string, tail: string)
    requires SameWord(word, "RESET") && (tail == "" || !IsSpace(tail[|tail| - 1]))
    ensures Trim(word + tail) == word + tail && Word(word + tail, "RESET") == Some(tail)
    ensures |word + tail| > 1 && FoldCase((word + tail)[0]) == 'R' && FoldCase((word + tail)[1]) == 'E'
    ensures FoldCase('R') == 'R' && FoldCase('S') == 'S' && FoldCase('B') == 'B'
    ensures FoldCase('C') == 'C' && FoldCase('O') == 'O'
  {
    KeywordEnds(word, "RESET");
    CaseEnds(word, "RESET", tail);
    CaseCut(word, "RESET", tail);
    hide TrimStart, TrimEnd, Trim, Gap, Word, IsSpace;
  }

  lemma NameBehind(tail: string)
    ensures Then(Gap(tail), "mtdd.tid") == Some("")
       <==> exists g, n :: tail == g + n && Spaces(g) && SameWord(n, "mtdd.tid")
  {
    hide IsSpace, TrimStart, FoldCase;
    if Then(Gap(tail), "mtdd.tid") == Some("") {
      var g := TrimmedSpaces(tail);
      var t := TrimStart(tail);
      assert t == t[..8] + t[8..];
      assert tail == g + t[..8] && Spaces(g) && SameWord(t[..8], "mtdd.tid");
    }
    if g, n :| tail == g + n && Spaces(g) && SameWord(n, "mtdd.tid") {
      NameRead(g, n, "");
      assert n + "" == n;
    }
  }

  /** The name of the setting, in any case, behind white space. */
  lemma NameRead(g: string, n: string, rest: string)
    requires Spaces(g) && SameWord(n, "mtdd.tid")
    ensures Then(Gap(g + (n + rest)), "mtdd.tid") == Some(rest)
  {
    assert FoldCase(n[0]) == FoldCase('m') == 'M';
    LetterIsNoSpace(n[0]);
    hide IsSpace, TrimStart, FoldCase;
    assert (n + rest)[0] == n[0] && (g + (n + rest))[0] == g[0];
    SpacesTrimmed(g, n + rest);
    CaseCut(n, "mtdd.tid", rest);
  }

  ghost predicate Blank(g: string) { forall i :: 0 <= i < |g| ==> IsSpace(g[i]) }

  /** SET, the name of the setting, and `=` or TO, in any case and with any white space. */
  ghost predicate SetHead(head: string) {
    exists w, g, n, h, op, k ::
      && head == w + (g + (n + (h + (op + k))))
      && SameWord(w, "SET") && Spaces(g) && SameWord(n, "mtdd.tid") && Blank(h) && Blank(k)
      && (op == "=" || SameWord(op, "TO"))
  }

  lemma OperatorRead(h: string, op: string, k: string, value: string)
    requires Blank(h) && Blank(k) && (op == "=" || SameWord(op, "TO")) && value != "" && !IsSpace(value[0])
    ensures var rest := TrimStart(h + (op + (k + value)));
      var equals := Word(rest, "="); var to := Word(rest, "TO");
      (equals.Some? && TrimStart(equals.value) == value) || (equals.None? && to.Some? && TrimStart(to.value) == value)
  {
    assert !IsSpace(op[0]) by {
      if op != "=" {
        assert FoldCase(op[0]) == FoldCase('T') == 'T';
        LetterIsNoSpace(op[0]);
      }
    }
    assert op != "=" ==> FoldCase(op[0]) == 'T';
    assert FoldCase('=') == '=';
    hide IsSpace, TrimStart, FoldCase;
    assert (op + (k + value))[0] == op[0];
    SpacesTrimmed(h, op + (k + value));
    SpacesTrimmed(k, value);
    if op == "=" {
      WordCut("=", k + value);
    } else {
      CaseCut(op, "TO", k + value);
      NoWord(op + (k + value), "=", 0);
    }
  }

  /** Behind such a head the value is what the quotes hold, or the whole rest if it has no white space. */
  lemma SetRead(head: string, value: string)
    requires SetHead(head) && value != "" && !IsSpace(value[0]) && !IsSpace(value[|value| - 1])
    ensures SetTidValue(head + value) == SetValue(value)
    ensures Trim(head + value) == head + value && head + value != ""
  {
    hide IsSpace, Trim, SetTidValue, SetValue;
    var w, g, n, h, op, k :|
      && head == w + (g + (n + (h + (op + k))))
      && SameWord(w, "SET") && Spaces(g) && SameWord(n, "mtdd.tid") && Blank(h) && Blank(k)
      && (op == "=" || SameWord(op, "TO"));
    var tail := g + (n + (h + (op + (k + value))));
    HeadAndValue(w, g, n, h, op, k, value);
    KeywordEnds(w, "SET");
    CaseEnds(w, "SET", tail);
    ValueRead(w, g, n, h, op, k, value);
  }

  lemma HeadAndValue(w: string, g: string, n: string, h: string, op: string, k: string, value: string)
    requires value != ""
    ensures var tail := g + (n + (h + (op + (k + value))));
      && w + (g + (n + (h + (op + k)))) + value == w + tail
      && tail != "" && tail[|tail| - 1] == value[|value| - 1]
  {
  }

  lemma ValueRead(w: string, g: string, n: string, h: string, op: string, k: string, value: string)
    requires SameWord(w, "SET") && Spaces(g) && SameWord(n, "mtdd.tid") && Blank(h) && Blank(k)
    requires (op == "=" || SameWord(op, "TO")) && value != "" && !IsSpace(value[0])
    ensures SetTidValue(w + (g + (n + (h + (op + (k + value)))))) == SetValue(value)
  {
    hide IsSpace, TrimStart, Gap, Word, SetValue, Spaces, SameWord, Blank;
    var rest := h + (op + (k + value));
    CaseCut(w, "SET", g + (n + rest));
    NameRead(g, n, rest);
    OperatorRead(h, op, k, value);
  }

  /** A plain tid: no quotes, no backslashes, no white space. */
  ghost predicate PlainTid(tid: string) {
    tid != "" && NoSpaces(tid) && forall c <- tid :: c != '\'' && c != '"' && c != '\\'
  }

  lemma {:induction false} PlainBody(tid: string, q: char)
    requires forall c <- tid :: c != '\'' && c != '"' && c != '\\'
    requires q == '\'' || q == '"'
    ensures QuotedBody(tid, q)
  {
    if tid == "" {
    } else {
      assert tid[0] in tid && forall c <- tid[1..] :: c in tid;
      PlainBody(tid[1..], q);
    }
  }

  /** Bare, in single and in double quotes, behind `=` and TO: all spellings of a SET bind the same tid. */
  lemma SetSpellings(head: string, tid: string)
    requires SetHead(head) && PlainTid(tid)
    ensures Classify(head + tid) == SetTid(tid)
    ensures Classify(head + ("'" + tid + "'")) == SetTid(tid)
    ensures Classify(head + ("\"" + tid + "\"")) == SetTid(tid)
  {
    hide TrimStart, Gap, Word, Trim, IsSpace, SetTidValue, Unquote, SetHead;
    PlainUnquoted(tid);
    SpellingRead(head, tid, tid);
    SpellingRead(head, "'" + tid + "'", tid);
    SpellingRead(head, "\"" + tid + "\"", tid);
  }

  lemma PlainUnquoted(tid: string)
    requires PlainTid(tid)
    ensures Unquote(tid) == tid
  {
    NoPair(tid, '\\', '\'', '\'');
    NoPair(tid, '\'', '\'', '\'');
    NoPair(tid, '\\', '"', '"');
  }

  lemma {:induction false} NoPair(s: string, a: char, b: char, r: char)
    requires a !in s
    ensures ReplacePair(s, a, b, r) == s
  {
    if |s| < 2 {
    } else {
      assert s[0] in s && forall c <- s[1..] :: c in s;
      NoPair(s[1..], a, b, r);
      assert s == [s[0]] + s[1..];
    }
  }

  lemma SpellingRead(head: string, value: string, tid: string)
    requires SetHead(head) && PlainTid(tid) && Unquote(tid) == tid
    requires value == tid || value == "'" + tid + "'" || value == "\"" + tid + "\""
    ensures Classify(head + value) == SetTid(tid)
  {
    hide TrimStart, Gap, Word, Trim, SetTidValue, Unquote, SetHead;
    assert !IsSpace('\'') && !IsSpace('"');
    assert value[0] == tid[0] || value[0] == '\'' || value[0] == '"';
    SetRead(head, value);
    PlainBody(tid, '\'');
    PlainBody(tid, '"');
    if value == tid {
      assert tid[0] in tid;
    } else {
      assert value[1..|value| - 1] == tid;
    }
  }

  /** In quotes any text without quotes and backslashes is bound, white space and all, the empty one too. */
  lemma SetQuoted(head: string, tid: string)
    requires SetHead(head) && forall c <- tid :: c != '\'' && c != '"' && c != '\\'
    ensures Classify(head + ("'" + tid + "'")) == SetTid(tid)
    ensures Classify(head + ("\"" + tid + "\"")) == SetTid(tid)
  {
    hide TrimStart, Gap, Word, Trim, SetTidValue, SetHead;
    assert !IsSpace('\'') && !IsSpace('"');
    NoPair(tid, '\\', '\'', '\'');
    NoPair(tid, '\'', '\'', '\'');
    NoPair(tid, '\\', '"', '"');
    PlainBody(tid, '\'');
    PlainBody(tid, '"');
    SetRead(head, "'" + tid + "'");
    SetRead(head, "\"" + tid + "\"");
    assert ("'" + tid + "'")[1..|tid| + 1] == tid && ("\"" + tid + "\"")[1..|tid| + 1] == tid;
  }

  /** Without quotes a value with white space in it makes the statement no SET of the tid: it is sent as data. */
  lemma SetSpaced(head: string, value: string)
    requires SetHead(head) && value != "" && !NoSpaces(value)
    requires !IsSpace(value[0]) && !IsSpace(value[|value| - 1]) && value[0] != '\'' && value[0] != '"'
    ensures Classify(head + value) == Data(head + value)
  {
    hide TrimStart, Gap, Trim, SetTidValue, IsSpace, SetHead;
    SetRead(head, value);
    SetBegins(head);
    hide FoldCase;
    NoWord(head + value, "RESET", 0);
    NoWord(head + value, "START", 1);
    NoWord(head + value, "BEGIN", 0);
    NoWord(head + value, "COMMIT", 0);
    NoWord(head + value, "ROLLBACK", 0);
  }

  lemma SetBegins(head: string)
    requires SetHead(head)
    ensures |head| >= 2 && FoldCase(head[0]) == 'S' && FoldCase(head[1]) == 'E'
  {
    hide Spaces, Blank;
    var w, g, n, h, op, k :|
      && head == w + (g + (n + (h + (op + k))))
      && SameWord(w, "SET") && Spaces(g) && SameWord(n, "mtdd.tid") && Blank(h) && Blank(k)
      && (op == "=" || SameWord(op, "TO"));
    assert head[0] == w[0] && head[1] == w[1];
    assert FoldCase(w[0]) == FoldCase("SET"[0]) && FoldCase(w[1]) == FoldCase("SET"[1]);
  }

  /** A bound SET is looked for in texts that begin with SET and the name of the setting, and in no others. */
  lemma LooksExactly(sql: string)
    ensures LooksLikeSetTid(sql) <==>
      exists b, w, g, n, rest ::
        sql == b + (w + (g + (n + rest))) && Blank(b) && SameWord(w, "SET") && Spaces(g) && SameWord(n, "mtdd.tid")
  {
    if LooksLikeSetTid(sql) {
      LooksLike(sql);
    }
    if b, w, g, n, rest :|
      sql == b + (w + (g + (n + rest))) && Blank(b) && SameWord(w, "SET") && Spaces(g) && SameWord(n, "mtdd.tid")
    {
      LooksFrom(b, w, g, n, rest);
    }
  }

  lemma LooksLike(sql: string)
    requires LooksLikeSetTid(sql)
    ensures exists b, w, g, n, rest ::
        sql == b + (w + (g + (n + rest))) && Blank(b) && SameWord(w, "SET") && Spaces(g) && SameWord(n, "mtdd.tid")
  {
    hide IsSpace, TrimStart, FoldCase, SameWord;
    var b := TrimmedSpaces(sql);
    var t := TrimStart(sql);
    var tail := t[3..];
    var g := TrimmedSpaces(tail);
    var u := TrimStart(tail);
    assert t == t[..3] + tail && u == u[..8] + u[8..];
    assert sql == b + (t[..3] + (g + (u[..8] + u[8..])));
    assert Blank(b) && Spaces(g);
  }

  lemma LooksFrom(b: string, w: string, g: string, n: string, rest: string)
    requires Blank(b) && SameWord(w, "SET") && Spaces(g) && SameWord(n, "mtdd.tid")
    ensures LooksLikeSetTid(b + (w + (g + (n + rest))))
  {
    KeywordEnds(w, "SET");
    NameRead(g, n, rest);
    CaseCut(w, "SET", g + (n + rest));
    hide IsSpace, TrimStart, FoldCase, SameWord, Gap;
    assert (w + (g + (n + rest)))[0] == w[0];
    SpacesTrimmed(b, w + (g + (n + rest)));
  }

  lemma LineEndExactly(c: char)
    ensures IsLineEnd(c) <==> c in "\n\r\U{2028}\U{2029}"
  {
    var ends := "\n\r\U{2028}\U{2029}";
    assert ends[0] == '\n' && ends[1] == '\r' && ends[2] == '\U{2028}' && ends[3] == '\U{2029}';
  }
}
