/** Splitting a query string into statements (src/proxy/tid-sql.ts). */
module Splitter {
  import opened Wrappers

  // ----- characters -------------------------------------------------------------------------

  /** Upper case, for the letters that keywords are made of. */
  function FoldCase(c: char): char {
    if 'a' <= c <= 'z' then c - 'a' + 'A' else c
  }

  /** What `\s` and `trim` treat as white space. */
  predicate IsSpace(c: char) {
    || c == ' ' || ('\t' <= c <= '\r') || c == '\U{00A0}' || c == '\U{1680}' || ('\U{2000}' <= c <= '\U{200A}')
    || c == '\U{2028}' || c == '\U{2029}' || c == '\U{202F}' || c == '\U{205F}' || c == '\U{3000}' || c == '\U{FEFF}'
  }

  const LOWER := "abcdefghijklmnopqrstuvwxyz"
  const UPPER := "ABCDEFGHIJKLMNOPQRSTUVWXYZ"
  const SPACES := "\t\n\U{000B}\U{000C}\r \U{00A0}\U{1680}\U{2000}\U{2001}\U{2002}\U{2003}\U{2004}\U{2005}\U{2006}"
                  + "\U{2007}\U{2008}\U{2009}\U{200A}\U{2028}\U{2029}\U{202F}\U{205F}\U{3000}\U{FEFF}"

  /** A letter in lower case becomes the letter at its place in the alphabet, and nothing else changes. */
  lemma FoldExactly(c: char)
    ensures forall i :: 0 <= i < 26 ==> FoldCase(LOWER[i]) == UPPER[i]
    ensures c !in LOWER ==> FoldCase(c) == c
  {
    hide FoldCase;
    forall i | 0 <= i < 26 ensures FoldCase(LOWER[i]) == UPPER[i] {
      FoldsAt(i);
    }
    if FoldCase(c) != c {
      NoLetter(c);
    }
  }

  lemma FoldsAt(i: nat)
    requires i < 26
    ensures FoldCase(LOWER[i]) == UPPER[i]
  {
    AlphabetAt(i);
  }

  lemma NoLetter(c: char)
    requires FoldCase(c) != c
    ensures c in LOWER
  {
    AlphabetAt((c - 'a') as int);
    assert LOWER[(c - 'a') as int] == c;
  }

  lemma AlphabetAt(i: nat)
    requires i < 26
    ensures LOWER[i] == 'a' + i as char && UPPER[i] == 'A' + i as char
  {
    if i < 13 {
      LowerHalf(i);
    }
  }

  lemma LowerHalf(i: nat)
    requires i < 13
    ensures LOWER[i] == 'a' + i as char && UPPER[i] == 'A' + i as char
  {
  }

  /** White space is these characters and no others. */
  lemma SpaceExactly(c: char)
    ensures IsSpace(c) <==> c in SPACES
  {
    if IsSpace(c) {
      SpaceAt(c);
    }
  }

  lemma SpaceAt(c: char)
    requires IsSpace(c)
    ensures c in SPACES
  {
    var n := c as int;
    var at :=
      if n <= 13 then n - 9 else if n == 32 then 5 else if n == 0xA0 then 6 else if n == 0x1680 then 7
      else if n <= 0x200A then n - 0x2000 + 8 else if n <= 0x2029 then n - 0x2028 + 19
      else if n == 0x202F then 21 else if n == 0x205F then 22 else if n == 0x3000 then 23 else 24;
    assert SPACES[at] == c;
  }

  function TrimStart(s: string): string {
    if s != "" && IsSpace(s[0]) then TrimStart(s[1..]) else s
  }

  function TrimEnd(s: string): string {
    if s != "" && IsSpace(s[|s| - 1]) then TrimEnd(s[..|s| - 1]) else s
  }

  function Trim(s: string): string { TrimEnd(TrimStart(s)) }

  // ----- the specification: one character at a time -----------------------------------------

  /** The lexical mode just before a character. */
  datatype Mode =
    | Plain | Single | Double
    | OpenDollar | Dollar | CloseDollar
    | LineComment | OpenBlock | Block | CloseBlock

  function Peek(sql: string, i: nat): Option<char> {
    if i < |sql| then Some(sql[i]) else None
  }

  /** The mode after character c in mode m, when `next` follows it. */
  function NextMode(m: Mode, c: char, next: Option<char>): Mode {
    match m
    case Plain =>
      if c == '$' && next == Some('$') then OpenDollar
      else if c == '\'' then Single
      else if c == '"' then Double
      else if c == '-' && next == Some('-') then LineComment
      else if c == '/' && next == Some('*') then OpenBlock
      else Plain
    case Single => if c == '\'' then Plain else Single
    case Double => if c == '"' then Plain else Double
    case OpenDollar => Dollar
    case Dollar => if c == '$' && next == Some('$') then CloseDollar else Dollar
    case CloseDollar => Plain
    case LineComment => if c == '\n' then Plain else LineComment
    case OpenBlock => Block
    case Block => if c == '*' && next == Some('/') then CloseBlock else Block
    case CloseBlock => Plain
  }

  function ModeAt(sql: string, i: nat): Mode
    requires i <= |sql|
  {
    if i == 0 then Plain else NextMode(ModeAt(sql, i - 1), sql[i - 1], Peek(sql, i))
  }

  /** Character i begins a comment. */
  predicate CommentAt(sql: string, i: nat)
    requires i < |sql|
  {
    && ModeAt(sql, i).Plain?
    && ((sql[i] == '-' && Peek(sql, i + 1) == Some('-')) || (sql[i] == '/' && Peek(sql, i + 1) == Some('*')))
  }

  /** Character i is not part of a comment. */
  predicate Kept(sql: string, i: nat)
    requires i < |sql|
  {
    var m := ModeAt(sql, i);
    !CommentAt(sql, i) && !m.LineComment? && !m.OpenBlock? && !m.Block? && !m.CloseBlock?
  }

  /** A semicolon outside quotes and comments. */
  predicate Cut(sql: string, i: nat)
    requires i < |sql|
  {
    sql[i] == ';' && ModeAt(sql, i).Plain?
  }

  /** The text between two positions, without comments. */
  function Text(sql: string, start: nat, end: nat): string
    requires start <= end <= |sql|
  {
    if start == end then "" else Text(sql, start, end - 1) + if Kept(sql, end - 1) then [sql[end - 1]] else ""
  }

  function Keep(s: string): seq<string> {
    if Trim(s) == "" then [] else [Trim(s)]
  }

  /** The nonempty trimmed texts between the cuts from i on, the first beginning at `start`. */
  function PiecesFrom(sql: string, start: nat, i: nat): seq<string>
    requires start <= i <= |sql|
    decreases |sql| - i
  {
    if i == |sql| then Keep(Text(sql, start, i))
    else if Cut(sql, i) then Keep(Text(sql, start, i)) + PiecesFrom(sql, i + 1, i + 1)
    else PiecesFrom(sql, start, i + 1)
  }

  function Pieces(sql: string): seq<string> { PiecesFrom(sql, 0, 0) }

  // ----- the scanner ------------------------------------------------------------------------

  /** indexOf: the first occurrence of a newline at or after i, or the length. */
  function FindNewline(sql: string, i: nat): (n: nat)
    requires i <= |sql|
    ensures i <= n <= |sql|
    decreases |sql| - i
  {
    if i == |sql| || sql[i] == '\n' then i else FindNewline(sql, i + 1)
  }

  function FindBlockEnd(sql: string, i: nat): (n: nat)
    requires i <= |sql|
    ensures i <= n <= |sql|
    ensures n < |sql| ==> n + 2 <= |sql|
    decreases |sql| - i
  {
    if i + 2 > |sql| then |sql| else if sql[i] == '*' && sql[i + 1] == '/' then i else FindBlockEnd(sql, i + 1)
  }

  /** Nothing up to the end of a line comment is kept or cut. */
  lemma {:induction false} SkipLine(sql: string, start: nat, i: nat)
    requires start <= i <= |sql| && ModeAt(sql, i).LineComment?
    ensures var n := FindNewline(sql, i); var end := if n == |sql| then n else n + 1;
      && (n < |sql| ==> ModeAt(sql, end).Plain?)
      && Text(sql, start, end) == Text(sql, start, i)
      && PiecesFrom(sql, start, end) == PiecesFrom(sql, start, i)
    decreases |sql| - i
  {
    if i < |sql| && sql[i] != '\n' {
      SkipLine(sql, start, i + 1);
    }
  }

  lemma {:induction false} SkipBlock(sql: string, start: nat, i: nat)
    requires start <= i <= |sql| && ModeAt(sql, i).Block?
    ensures var n := FindBlockEnd(sql, i); var end := if n == |sql| then n else n + 2;
      && (n < |sql| ==> ModeAt(sql, end).Plain?)
      && Text(sql, start, end) == Text(sql, start, i)
      && PiecesFrom(sql, start, end) == PiecesFrom(sql, start, i)
    decreases |sql| - i
  {
    if i < |sql| {
      if i + 2 <= |sql| && sql[i] == '*' && sql[i + 1] == '/' {
        assert ModeAt(sql, i + 1).CloseBlock?;
        assert ModeAt(sql, i + 2).Plain?;
        assert !Kept(sql, i) && !Kept(sql, i + 1);
        assert Text(sql, start, i + 1) == Text(sql, start, i);
        assert PiecesFrom(sql, start, i) == PiecesFrom(sql, start, i + 1) == PiecesFrom(sql, start, i + 2);
      } else {
        assert ModeAt(sql, i + 1).Block?;
        SkipBlock(sql, start, i + 1);
      }
    }
  }

  /** One kept character that is not a cut. */
  lemma Advance(sql: string, start: nat, i: nat)
    requires start <= i < |sql| && Kept(sql, i) && !Cut(sql, i)
    ensures Text(sql, start, i + 1) == Text(sql, start, i) + [sql[i]]
    ensures PiecesFrom(sql, start, i + 1) == PiecesFrom(sql, start, i)
  {
  }

  /** Positions i and j are the same place in the result, except for the text added between them. */
  ghost predicate Moved(sql: string, start: nat, i: nat, j: nat, added: string, m: Mode) {
    && start <= i <= j <= |sql|
    && ModeAt(sql, j) == m
    && Text(sql, start, j) == Text(sql, start, i) + added
    && PiecesFrom(sql, start, j) == PiecesFrom(sql, start, i)
  }

  lemma MoveTwice(sql: string, start: nat, i: nat)
    requires start <= i && i + 1 < |sql| && Kept(sql, i) && !Cut(sql, i) && Kept(sql, i + 1) && !Cut(sql, i + 1)
    ensures Moved(sql, start, i, i + 2, [sql[i], sql[i + 1]], ModeAt(sql, i + 2))
  {
    Advance(sql, start, i);
    Advance(sql, start, i + 1);
    assert Text(sql, start, i) + [sql[i]] + [sql[i + 1]] == Text(sql, start, i) + [sql[i], sql[i + 1]];
  }

  lemma DollarMove(sql: string, start: nat, i: nat)
    requires start <= i < |sql| && ModeAt(sql, i).Dollar?
    ensures if sql[i] == '$' && Peek(sql, i + 1) == Some('$') then Moved(sql, start, i, i + 2, "$$", Plain)
            else Moved(sql, start, i, i + 1, [sql[i]], Dollar)
  {
    Advance(sql, start, i);
    if sql[i] == '$' && Peek(sql, i + 1) == Some('$') {
      assert ModeAt(sql, i + 1).CloseDollar? && ModeAt(sql, i + 2).Plain?;
      MoveTwice(sql, start, i);
    }
  }

  lemma QuoteMove(sql: string, start: nat, i: nat, q: char)
    requires start <= i < |sql| && ((q == '\'' && ModeAt(sql, i).Single?) || (q == '"' && ModeAt(sql, i).Double?))
    ensures if sql[i] == q && q == '\'' && Peek(sql, i + 1) == Some('\'') then Moved(sql, start, i, i + 2, "''", Single)
            else Moved(sql, start, i, i + 1, [sql[i]], if sql[i] == q then Plain else ModeAt(sql, i))
  {
    Advance(sql, start, i);
    if sql[i] == q && q == '\'' && Peek(sql, i + 1) == Some('\'') {
      assert ModeAt(sql, i + 1).Plain? && ModeAt(sql, i + 2).Single?;
      MoveTwice(sql, start, i);
    }
  }

  /** From plain text: open a quotation, or add one character. */
  lemma PlainMove(sql: string, start: nat, i: nat)
    requires start <= i < |sql| && ModeAt(sql, i).Plain? && !CommentAt(sql, i) && sql[i] != ';'
    ensures if sql[i] == '$' && Peek(sql, i + 1) == Some('$') then Moved(sql, start, i, i + 2, "$$", Dollar)
            else Moved(sql, start, i, i + 1, [sql[i]],
                       if sql[i] == '\'' then Single else if sql[i] == '"' then Double else Plain)
  {
    Advance(sql, start, i);
    if sql[i] == '$' && Peek(sql, i + 1) == Some('$') {
      assert ModeAt(sql, i + 1).OpenDollar? && ModeAt(sql, i + 2).Dollar?;
      MoveTwice(sql, start, i);
    }
  }

  lemma LineCommentMove(sql: string, start: nat, i: nat)
    requires start <= i < |sql| && CommentAt(sql, i) && sql[i] == '-'
    ensures var n := FindNewline(sql, i);
      Moved(sql, start, i, if n == |sql| then n else n + 1, "", if n < |sql| then Plain else ModeAt(sql, n))
  {
    hide Trim;
    assert !Kept(sql, i) && !Cut(sql, i);
    assert Text(sql, start, i + 1) == Text(sql, start, i) && PiecesFrom(sql, start, i + 1) == PiecesFrom(sql, start, i);
    assert ModeAt(sql, i + 1).LineComment?;
    SkipLine(sql, start, i + 1);
  }

  lemma BlockCommentMove(sql: string, start: nat, i: nat)
    requires start <= i < |sql| && CommentAt(sql, i) && sql[i] == '/'
    ensures var n := FindBlockEnd(sql, i + 2);
      Moved(sql, start, i, if n == |sql| then n else n + 2, "", if n < |sql| then Plain else ModeAt(sql, n))
  {
    hide Trim, FindBlockEnd;
    assert !Kept(sql, i) && !Cut(sql, i);
    assert Text(sql, start, i + 1) == Text(sql, start, i) && PiecesFrom(sql, start, i + 1) == PiecesFrom(sql, start, i);
    assert ModeAt(sql, i + 1).OpenBlock? && ModeAt(sql, i + 2).Block?;
    assert !Kept(sql, i + 1) && !Cut(sql, i + 1);
    assert Text(sql, start, i + 2) == Text(sql, start, i) && PiecesFrom(sql, start, i + 2) == PiecesFrom(sql, start, i);
    SkipBlock(sql, start, i + 2);
  }

  lemma CutMove(sql: string, start: nat, i: nat)
    requires start <= i < |sql| && Cut(sql, i)
    ensures ModeAt(sql, i + 1).Plain? && Text(sql, i + 1, i + 1) == ""
    ensures PiecesFrom(sql, start, i) == Keep(Text(sql, start, i)) + PiecesFrom(sql, i + 1, i + 1)
  {
  }

  lemma LastPiece(sql: string, start: nat)
    requires start <= |sql|
    ensures PiecesFrom(sql, start, |sql|) == Keep(Text(sql, start, |sql|))
  {
  }

  method SplitStatements(sql: string) returns (out: seq<string>)
    ensures out == Pieces(sql)
  {
    hide ModeAt, NextMode, Kept, Cut, Text, PiecesFrom, Trim, TrimStart, TrimEnd, IsSpace, FindNewline, FindBlockEnd;
    hide Pieces;
    out := [];
    var buf := "";
    var i := 0;
    var quote: Option<char> := None;
    var dollar := false;
    ghost var start := 0;
    FromStart(sql);
    while i < |sql|
      invariant start <= i <= |sql|
      invariant i < |sql| ==> ModeAt(sql, i) == ModeOf(quote, dollar)
      invariant quote == None || (!dollar && (quote == Some('\'') || quote == Some('"')))
      invariant buf == Text(sql, start, i)
      invariant out + PiecesFrom(sql, start, i) == Pieces(sql)
    {
      var c := sql[i];
      if dollar {
        DollarMove(sql, start, i);
        if c == '$' && Peek(sql, i + 1) == Some('$') {
          buf := buf + "$$";
          i := i + 2;
          dollar := false;
          continue;
        }
        buf := buf + [c];
        i := i + 1;
        continue;
      }
      if quote.Some? {
        QuoteMove(sql, start, i, quote.value);
        buf := buf + [c];
        if c == quote.value {
          if quote == Some('\'') && Peek(sql, i + 1) == Some('\'') {
            buf := buf + "'";
            i := i + 2;
            continue;
          }
          quote := None;
        }
        i := i + 1;
        continue;
      }
      if c == '$' && Peek(sql, i + 1) == Some('$') {
        PlainMove(sql, start, i);
        dollar := true;
        buf := buf + "$$";
        i := i + 2;
        continue;
      }
      if c == '\'' || c == '"' {
        PlainMove(sql, start, i);
        quote := Some(c);
        buf := buf + [c];
        i := i + 1;
        continue;
      }
      if c == '-' && Peek(sql, i + 1) == Some('-') {
        LineCommentMove(sql, start, i);
        var nl := FindNewline(sql, i);
        i := if nl == |sql| then |sql| else nl + 1;
        continue;
      }
      if c == '/' && Peek(sql, i + 1) == Some('*') {
        BlockCommentMove(sql, start, i);
        var end := FindBlockEnd(sql, i + 2);
        i := if end == |sql| then |sql| else end + 2;
        continue;
      }
      if c == ';' {
        CutMove(sql, start, i);
        var piece := Trim(buf);
        if piece != "" {
          out := out + [piece];
        }
        buf := "";
        i := i + 1;
        start := i;
        continue;
      }
      PlainMove(sql, start, i);
      buf := buf + [c];
      i := i + 1;
    }
    LastPiece(sql, start);
    var last := Trim(buf);
    if last != "" {
      out := out + [last];
    }
  }

  function ModeOf(quote: Option<char>, dollar: bool): Mode {
    if dollar then Dollar else if quote == Some('\'') then Single else if quote == Some('"') then Double else Plain
  }

  lemma FromStart(sql: string)
    ensures ModeAt(sql, 0).Plain? && Text(sql, 0, 0) == "" && [] + PiecesFrom(sql, 0, 0) == Pieces(sql)
  {
  }

  // ----- queries without comments -----------------------------------------------------------

  ghost predicate CommentFree(sql: string) {
    forall i :: 0 <= i < |sql| ==> !CommentAt(sql, i)
  }

  /** Comment modes are entered only by comments. */
  lemma {:induction false} NoCommentModes(sql: string, i: nat)
    requires i <= |sql| && CommentFree(sql)
    ensures var m := ModeAt(sql, i); !m.LineComment? && !m.OpenBlock? && !m.Block? && !m.CloseBlock?
  {
    if i > 0 {
      NoCommentModes(sql, i - 1);
      assert !CommentAt(sql, i - 1);
    }
  }

  /** Then the text between two positions is just that part of the query. */
  lemma {:induction false} TextIsSlice(sql: string, start: nat, end: nat)
    requires start <= end <= |sql| && CommentFree(sql)
    ensures Text(sql, start, end) == sql[start..end]
  {
    if start < end {
      TextIsSlice(sql, start, end - 1);
      NoCommentModes(sql, end - 1);
      assert Kept(sql, end - 1);
    }
  }

  /** A piece is a nonempty trimmed slice, with no cut inside, beginning in plain text. */
  ghost predicate IsPiece(sql: string, a: nat, b: nat) {
    && a < b <= |sql|
    && ModeAt(sql, a).Plain?
    && Trim(sql[a..b]) == sql[a..b]
    && forall i :: a <= i < b ==> !Cut(sql, i)
  }

  lemma {:induction false} TrimStartSlice(sql: string, a: nat, b: nat)
    requires a <= b <= |sql| && ModeAt(sql, a).Plain?
    ensures exists c: nat :: a <= c <= b && TrimStart(sql[a..b]) == sql[c..b] && ModeAt(sql, c).Plain?
    ensures TrimStart(sql[a..b]) == "" || !IsSpace(TrimStart(sql[a..b])[0])
    decreases b - a
  {
    if a < b && IsSpace(sql[a]) {
      assert sql[a..b][1..] == sql[a + 1..b];
      TrimStartSlice(sql, a + 1, b);
    } else {
      assert sql[a..b] == sql[a..b];
    }
  }

  lemma {:induction false} TrimEndSlice(sql: string, a: nat, b: nat)
    requires a <= b <= |sql|
    ensures exists c: nat :: a <= c <= b && TrimEnd(sql[a..b]) == sql[a..c]
    ensures TrimEnd(sql[a..b]) == "" || !IsSpace(TrimEnd(sql[a..b])[|TrimEnd(sql[a..b])| - 1])
    decreases b - a
  {
    if a < b && IsSpace(sql[b - 1]) {
      assert sql[a..b][..b - a - 1] == sql[a..b - 1];
      TrimEndSlice(sql, a, b - 1);
    } else {
      assert sql[a..b] == sql[a..b];
    }
  }

  lemma TrimmedIsFixed(s: string)
    requires s == "" || (!IsSpace(s[0]) && !IsSpace(s[|s| - 1]))
    ensures Trim(s) == s
  {
  }

  /** Trimming a stretch without cuts leaves nothing, or one piece. */
  lemma KeepIsPiece(sql: string, start: nat, i: nat)
    requires start <= i <= |sql| && CommentFree(sql) && ModeAt(sql, start).Plain?
    requires forall j :: start <= j < i ==> !Cut(sql, j)
    ensures Keep(Text(sql, start, i)) == []
         || exists a: nat, b: nat :: IsPiece(sql, a, b) && Keep(Text(sql, start, i)) == [sql[a..b]]
  {
    hide IsSpace, TrimStart, TrimEnd, ModeAt, Text, CommentFree;
    TextIsSlice(sql, start, i);
    TrimStartSlice(sql, start, i);
    var a: nat :| start <= a <= i && TrimStart(sql[start..i]) == sql[a..i] && ModeAt(sql, a).Plain?;
    TrimEndSlice(sql, a, i);
    var b: nat :| a <= b <= i && TrimEnd(sql[a..i]) == sql[a..b];
    assert Trim(sql[start..i]) == sql[a..b];
    if sql[a..b] != "" {
      assert TrimStart(sql[start..i]) != "" && TrimEnd(sql[a..i]) != "";
      PieceBounds(sql, start, i, a, b);
    }
  }

  lemma PieceBounds(sql: string, start: nat, i: nat, a: nat, b: nat)
    requires start <= a <= b <= i <= |sql| && sql[a..b] != "" && ModeAt(sql, a).Plain?
    requires !IsSpace(sql[a..i][0]) && !IsSpace(sql[a..b][b - a - 1])
    requires forall j :: start <= j < i ==> !Cut(sql, j)
    ensures IsPiece(sql, a, b)
  {
    hide IsSpace, TrimStart, TrimEnd, ModeAt;
    assert sql[a..b][0] == sql[a] == sql[a..i][0];
    TrimmedIsFixed(sql[a..b]);
  }

  lemma {:induction false} EveryPiece(sql: string, start: nat, i: nat, p: string)
    requires start <= i <= |sql| && CommentFree(sql) && ModeAt(sql, start).Plain?
    requires forall j :: start <= j < i ==> !Cut(sql, j)
    requires p in PiecesFrom(sql, start, i)
    ensures exists a: nat, b: nat :: IsPiece(sql, a, b) && p == sql[a..b]
    decreases |sql| - i
  {
    hide ModeAt, Text, Trim;
    if i == |sql| {
      KeepIsPiece(sql, start, i);
    } else if Cut(sql, i) {
      KeepIsPiece(sql, start, i);
      if p !in Keep(Text(sql, start, i)) {
        CutMove(sql, start, i);
        EveryPiece(sql, i + 1, i + 1, p);
      }
    } else {
      EveryPiece(sql, start, i + 1, p);
    }
  }

  /** Modes inside a slice that begins in plain text are the modes of the slice. */
  lemma {:induction false} ModeOfSlice(sql: string, a: nat, b: nat, k: nat)
    requires a <= b <= |sql| && ModeAt(sql, a).Plain? && (k < b - a || (k == b - a && b == |sql|))
    ensures ModeAt(sql[a..b], k) == ModeAt(sql, a + k)
  {
    if k > 0 {
      ModeOfSlice(sql, a, b, k - 1);
      assert sql[a..b][k - 1] == sql[a + k - 1];
      assert Peek(sql[a..b], k) == Peek(sql, a + k);
    }
  }

  lemma {:induction false} NoCutsOnePiece(p: string, i: nat)
    requires i <= |p| && forall j :: i <= j < |p| ==> !Cut(p, j)
    ensures PiecesFrom(p, 0, i) == Keep(Text(p, 0, |p|))
    decreases |p| - i
  {
    if i < |p| {
      NoCutsOnePiece(p, i + 1);
    }
  }

  /** A comment-free string without cuts is one piece. */
  lemma OnePiece(p: string)
    requires CommentFree(p) && p != "" && Trim(p) == p && forall j :: 0 <= j < |p| ==> !Cut(p, j)
    ensures Pieces(p) == [p]
  {
    NoCutsOnePiece(p, 0);
    TextIsSlice(p, 0, |p|);
    assert p[0..|p|] == p;
  }

  /** Splitting a piece gives back just that piece. */
  lemma SplittingAPiece(sql: string, p: string)
    requires CommentFree(sql) && p in Pieces(sql)
    ensures Pieces(p) == [p]
  {
    hide ModeAt, Text, PiecesFrom, Trim, Peek;
    FromStart(sql);
    EveryPiece(sql, 0, 0, p);
    var a: nat, b: nat :| IsPiece(sql, a, b) && p == sql[a..b];
    forall k | 0 <= k < |p| ensures !Cut(p, k) && !CommentAt(p, k) {
      SliceIsClean(sql, a, b, k);
    }
    OnePiece(p);
  }

  lemma SliceIsClean(sql: string, a: nat, b: nat, k: nat)
    requires IsPiece(sql, a, b) && CommentFree(sql) && k < b - a
    ensures !Cut(sql[a..b], k) && !CommentAt(sql[a..b], k)
  {
    hide Trim, ModeAt;
    ModeOfSlice(sql, a, b, k);
    assert !Cut(sql, a + k) && !CommentAt(sql, a + k);
    assert sql[a..b][k] == sql[a + k];
    if k + 1 < b - a {
      assert Peek(sql[a..b], k + 1) == Peek(sql, a + k + 1);
    }
  }

  // ----- joining ----------------------------------------------------------------------------

  /** A statement that can stand before a semicolon: one piece, with all its quotations closed. */
  ghost predicate Closed(p: string) {
    && p != "" && Trim(p) == p && CommentFree(p)
    && (forall j :: 0 <= j < |p| ==> !Cut(p, j))
    && ModeAt(p, |p|).Plain?
  }

  function Join(ps: seq<string>): string {
    if ps == [] then "" else if |ps| == 1 then ps[0] else ps[0] + ";" + Join(ps[1..])
  }

  /** Before a semicolon, the modes of a statement are the same as on its own. */
  lemma {:induction false} ModeOfPrefix(p: string, rest: string, k: nat)
    requires k <= |p|
    ensures ModeAt(p + ";" + rest, k) == ModeAt(p, k)
  {
    if k > 0 {
      ModeOfPrefix(p, rest, k - 1);
      assert (p + ";" + rest)[k - 1] == p[k - 1];
      if k < |p| {
        assert Peek(p + ";" + rest, k) == Peek(p, k);
      } else {
        assert Peek(p + ";" + rest, k) == Some(';') && Peek(p, k) == None;
      }
    }
  }

  /** After a cut the rest is scanned as if it stood alone. */
  lemma {:induction false} PiecesOfRest(sql: string, off: nat, start: nat, i: nat)
    requires off <= |sql| && ModeAt(sql, off).Plain? && start <= i <= |sql| - off && CommentFree(sql)
      && CommentFree(sql[off..])
    ensures PiecesFrom(sql, off + start, off + i) == PiecesFrom(sql[off..], start, i)
    decreases |sql| - off - i
  {
    hide Trim, ModeAt, Text, CommentFree;
    var rest := sql[off..];
    assert rest == sql[off..|sql|];
    ModeOfSlice(sql, off, |sql|, i);
    TextIsSlice(sql, off + start, off + i);
    TextIsSlice(rest, start, i);
    assert rest[start..i] == sql[off + start..off + i];
    if off + i < |sql| {
      assert rest[i] == sql[off + i];
      if Cut(rest, i) {
        PiecesOfRest(sql, off, i + 1, i + 1);
      } else {
        PiecesOfRest(sql, off, start, i + 1);
      }
    }
  }

  lemma JoinedPrefix(p: string, rest: string, k: nat)
    requires Closed(p) && k < |p|
    ensures !Cut(p + ";" + rest, k) && !CommentAt(p + ";" + rest, k)
  {
    hide ModeAt, Trim;
    ModeOfPrefix(p, rest, k);
    assert !Cut(p, k) && !CommentAt(p, k);
    assert (p + ";" + rest)[k] == p[k];
    if k + 1 < |p| {
      assert Peek(p + ";" + rest, k + 1) == Peek(p, k + 1);
    } else {
      assert Peek(p + ";" + rest, k + 1) == Some(';');
    }
  }

  lemma JoinedCut(p: string, rest: string)
    requires Closed(p)
    ensures var sql := p + ";" + rest; Cut(sql, |p|) && !CommentAt(sql, |p|) && ModeAt(sql, |p| + 1).Plain?
  {
    hide Trim;
    ModeOfPrefix(p, rest, |p|);
  }

  lemma JoinedClean(p: string, rest: string)
    requires Closed(p) && CommentFree(rest)
    ensures CommentFree(p + ";" + rest)
  {
    hide ModeAt, Trim, Closed;
    var sql := p + ";" + rest;
    var off := |p| + 1;
    assert sql[off..] == sql[off..|sql|] == rest;
    JoinedCut(p, rest);
    forall k | 0 <= k < |sql| ensures !CommentAt(sql, k) {
      if k < |p| {
        JoinedPrefix(p, rest, k);
      } else if k > |p| {
        ModeOfSlice(sql, off, |sql|, k - off);
        assert rest[k - off] == sql[k] && Peek(rest, k - off + 1) == Peek(sql, k + 1);
        assert !CommentAt(rest, k - off);
      }
    }
  }

  lemma {:induction false} NoCutsUntil(sql: string, i: nat, end: nat)
    requires i <= end <= |sql| && forall j :: i <= j < end ==> !Cut(sql, j)
    ensures PiecesFrom(sql, 0, i) == PiecesFrom(sql, 0, end)
    decreases end - i
  {
    if i < end {
      NoCutsUntil(sql, i + 1, end);
    }
  }

  /** A semicolon after a closed statement separates it from the rest. */
  lemma ClosedThenRest(p: string, rest: string)
    requires Closed(p) && CommentFree(rest)
    ensures Pieces(p + ";" + rest) == [p] + Pieces(rest)
  {
    hide ModeAt, Text, PiecesFrom, Cut;
    var sql := p + ";" + rest;
    JoinedClean(p, rest);
    JoinedCut(p, rest);
    forall k | 0 <= k < |p| ensures !Cut(sql, k) {
      JoinedPrefix(p, rest, k);
    }
    NoCutsUntil(sql, 0, |p|);
    CutMove(sql, 0, |p|);
    TextIsSlice(sql, 0, |p|);
    assert sql[0..|p|] == p;
    assert sql[|p| + 1..] == rest;
    FromStart(rest);
    PiecesOfRest(sql, |p| + 1, 0, 0);
  }

  lemma {:induction false} JoinIsClean(ps: seq<string>)
    requires forall p <- ps :: Closed(p)
    ensures CommentFree(Join(ps))
  {
    if |ps| == 1 {
      assert ps[0] in ps;
    } else if |ps| > 1 {
      JoinIsClean(ps[1..]);
      JoinedClean(ps[0], Join(ps[1..]));
    }
  }

  /** Joining closed statements with semicolons and splitting the text gives them back. */
  lemma {:induction false} SplitUndoesJoin(ps: seq<string>)
    requires forall p <- ps :: Closed(p)
    ensures Pieces(Join(ps)) == ps
  {
    if |ps| == 1 {
      assert ps[0] in ps;
      OnePiece(ps[0]);
    } else if |ps| > 1 {
      JoinIsClean(ps[1..]);
      ClosedThenRest(ps[0], Join(ps[1..]));
      SplitUndoesJoin(ps[1..]);
    }
  }
}
