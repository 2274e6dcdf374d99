/**
 The status letter that a session reports: to a Sync, and behind the error for a message it cannot
 read or does not support. (A simple query that fails reports E or I by itself.)
 */
module StatusRuns {
  import opened Wrappers
  import opened Session

  /** The letter tells the truth about the transaction. */
  ghost predicate Agree(s: State) { s.txStatus == 'T' <==> s.inTx }

  // ----- one statement ----------------------------------------------------------------------

  /** The dispatch of the statement that is suspended here. */
  predicate Waits(a: Await, kind: Kind) {
    match a
    case Idle => false
    case SetLookup(tid) => kind == SetTid(tid)
    case PinLookup(_, next) => kind == KindAfter(next)
    case PinConnect(_, next) => kind == KindAfter(next)
    case PinBegin(_, next) => kind == KindAfter(next)
    case TxQuery(sql) => kind == Data(sql)
    case AutoLookup(_, sql) => kind == Data(sql)
    case AutoQuery(sql) => kind == Data(sql)
    case EndQuery(k) => kind == k && (k.Commit? || k.Rollback?)
    case CleanupRollback => false
  }

  /** While a statement is suspended only BEGIN has opened the transaction, and the status is the old one. */
  ghost predicate Midway(s: State, kind: Kind, t: Turn) {
    Waits(t.await, kind) && t.state.txStatus == s.txStatus && t.state.inTx == (s.inTx || kind.Begin?)
  }

  /** What a statement does to the letter and the transaction. */
  ghost predicate StatusAfter(s: State, kind: Kind, t: Turn) {
    if Threw(t, kind) then t.state.txStatus == s.txStatus && t.state.inTx == (s.inTx || kind.Begin?)
    else if kind.Begin? then t.state.txStatus == 'T' && t.state.inTx
    else if kind.Commit? || kind.Rollback? then t.state.txStatus == 'I' && !t.state.inTx
    else t.state.txStatus == s.txStatus && t.state.inTx == s.inTx
  }

  lemma StepStatus(s: State, kind: Kind, t: Turn, env: Env, shardCount: nat)
    requires Coherent(t.state) && Suspended(t.state, t.await) && Midway(s, kind, t)
    ensures var u := Step(t, env, shardCount); if u.await.Idle? then StatusAfter(s, kind, u) else Midway(s, kind, u)
  {
    if t.await.PinLookup? {
      hide Step, Midway, StatusAfter;
      LookupStatus(s, kind, t, env, shardCount);
    } else {
      var r := Resume(t.state, t.await, AnswerFor(t.await, env), shardCount);
      LastOf(t.events, r.events);
    }
  }

  lemma LookupStatus(s: State, kind: Kind, t: Turn, env: Env, shardCount: nat)
    requires Coherent(t.state) && Suspended(t.state, t.await) && Midway(s, kind, t) && t.await.PinLookup?
    ensures var u := Step(t, env, shardCount); if u.await.Idle? then StatusAfter(s, kind, u) else Midway(s, kind, u)
  {
    var r := Resume(t.state, t.await, AnswerFor(t.await, env), shardCount);
    LastOf(t.events, r.events);
  }

  lemma LastOf(before: seq<Event>, events: seq<Event>)
    ensures events != [] ==> (before + events)[|before + events| - 1] == events[|events| - 1]
  {
  }

  lemma {:induction false} CompleteStatus(s: State, kind: Kind, t: Turn, env: Env, shardCount: nat)
    requires Coherent(t.state) && Suspended(t.state, t.await) && Midway(s, kind, t)
    ensures StatusAfter(s, kind, Complete(t, env, shardCount))
    decreases Rank(t.await)
  {
    hide Coherent, Suspended, StatusAfter, Midway;
    StepStatus(s, kind, t, env, shardCount);
    var u := Step(t, env, shardCount);
    NotIdle(s, kind, t);
    if !u.await.Idle? {
      CompleteStatus(s, kind, u, env, shardCount);
    }
  }

  lemma NotIdle(s: State, kind: Kind, t: Turn)
    requires Midway(s, kind, t)
    ensures !t.await.Idle?
  {
  }

  lemma DispatchStatus(s: State, kind: Kind, env: Env, shardCount: nat)
    requires Coherent(s)
    ensures StatusAfter(s, kind, DispatchSpec(s, kind, env, shardCount))
  {
    var t := Start(s, kind);
    if t.await.Idle? {
      CompleteStep(t, env, shardCount);
    } else {
      CompleteStatus(s, kind, t, env, shardCount);
    }
  }

  // ----- what a client sees of a run --------------------------------------------------------

  /** A statement returned or threw, or a query string ended without an error. */
  datatype Mark = Done(kind: Kind, ok: bool) | StringDone

  /** A query string, classified, with what its statements meet. */
  datatype QueryString = QueryString(kinds: seq<Kind>, envs: seq<Env>)

  ghost predicate WellFormed(q: QueryString) { |q.envs| == |q.kinds| }

  function StatementMarks(s: State, kinds: seq<Kind>, envs: seq<Env>, shardCount: nat): seq<Mark>
    requires Coherent(s) && |envs| == |kinds|
    decreases |kinds|
  {
    if kinds == [] then [StringDone]
    else
      var t := DispatchSpec(s, kinds[0], envs[0], shardCount);
      if Threw(t, kinds[0]) then [Done(kinds[0], false)]
      else [Done(kinds[0], true)] + StatementMarks(t.state, kinds[1..], envs[1..], shardCount)
  }

  /** An empty query string leaves no mark: it does not set the letter. */
  function MarksOf(s: State, q: QueryString, shardCount: nat): seq<Mark>
    requires Coherent(s) && WellFormed(q)
  {
    if q.kinds == [] then [] else StatementMarks(s, q.kinds, q.envs, shardCount)
  }

  datatype Run = Run(state: State, marks: seq<Mark>)

  /** A session after some query strings, one after the other. */
  function RunOf(strings: seq<QueryString>, shardCount: nat): (r: Run)
    requires forall q <- strings :: WellFormed(q)
    ensures Coherent(r.state)
  {
    if strings == [] then Run(INITIAL, [])
    else
      var before := RunOf(strings[..|strings| - 1], shardCount);
      var q := strings[|strings| - 1];
      assert WellFormed(q);
      Run(RunSqlSpec(before.state, q.kinds, q.envs, shardCount).state,
          before.marks + MarksOf(before.state, q, shardCount))
  }

  // ----- reading the marks ------------------------------------------------------------------

  predicate Closes(m: Mark) { m.Done? && m.ok && (m.kind.Commit? || m.kind.Rollback?) }

  /** What brings letter and transaction together again. */
  predicate Settles(m: Mark) { m.StringDone? || Closes(m) || (m.Done? && m.ok && m.kind.Begin?) }

  predicate BeginsAt(marks: seq<Mark>, i: nat) { i < |marks| && marks[i].Done? && marks[i].kind.Begin? }

  /** A BEGIN came, thrown or not, and no COMMIT or ROLLBACK has been accepted since. */
  ghost predicate InTransaction(marks: seq<Mark>) {
    exists i: nat :: BeginsAt(marks, i) && forall j :: i < j < |marks| ==> !Closes(marks[j])
  }

  /** A BEGIN outside a transaction threw, and since then nothing has settled the letter. */
  ghost predicate Misreported(marks: seq<Mark>) {
    exists i: nat :: BeginsAt(marks, i) && !marks[i].ok && !InTransaction(marks[..i])
                && forall j :: i < j < |marks| ==> !Settles(marks[j])
  }

  /** The fields say what the marks say. */
  ghost predicate Tracks(s: State, marks: seq<Mark>) {
    && (s.inTx <==> InTransaction(marks))
    && (Misreported(marks) ==> s.inTx && s.txStatus == 'I')
    && (!Misreported(marks) ==> s.txStatus == if s.inTx then 'T' else 'I')
  }

  lemma InTransactionSnoc(marks: seq<Mark>, m: Mark)
    ensures InTransaction(marks + [m]) <==> (m.Done? && m.kind.Begin?) || (InTransaction(marks) && !Closes(m))
  {
    var longer := marks + [m];
    if m.Done? && m.kind.Begin? {
      assert BeginsAt(longer, |marks|);
    } else if InTransaction(marks) && !Closes(m) {
      var i: nat :| BeginsAt(marks, i) && forall j :: i < j < |marks| ==> !Closes(marks[j]);
      assert BeginsAt(longer, i);
    } else if InTransaction(longer) {
      var i: nat :| BeginsAt(longer, i) && forall j :: i < j < |longer| ==> !Closes(longer[j]);
      assert longer[|marks|] == m;
      assert BeginsAt(marks, i);
      forall j | i < j < |marks| ensures !Closes(marks[j]) {
        assert longer[j] == marks[j];
      }
      assert false;
    }
  }

  lemma MisreportedSnoc(marks: seq<Mark>, m: Mark)
    ensures Misreported(marks + [m])
       <==> (m.Done? && m.kind.Begin? && !m.ok && !InTransaction(marks)) || (Misreported(marks) && !Settles(m))
  {
    hide InTransaction, Settles;
    var longer := marks + [m];
    assert longer[..|marks|] == marks;
    if m.Done? && m.kind.Begin? && !m.ok && !InTransaction(marks) {
      assert BeginsAt(longer, |marks|);
    } else if Misreported(marks) && !Settles(m) {
      var i: nat :| BeginsAt(marks, i) && !marks[i].ok && !InTransaction(marks[..i])
               && forall j :: i < j < |marks| ==> !Settles(marks[j]);
      assert BeginsAt(longer, i) && longer[..i] == marks[..i];
    } else if Misreported(longer) {
      var i: nat :| BeginsAt(longer, i) && !longer[i].ok && !InTransaction(longer[..i])
               && forall j :: i < j < |longer| ==> !Settles(longer[j]);
      assert longer[|marks|] == m;
      assert BeginsAt(marks, i) && longer[..i] == marks[..i];
      forall j | i < j < |marks| ensures !Settles(marks[j]) {
        assert longer[j] == marks[j];
      }
      assert false;
    }
  }

  // ----- the theorem ------------------------------------------------------------------------

  lemma StatementTracks(s: State, kind: Kind, env: Env, shardCount: nat, marks: seq<Mark>)
    requires Coherent(s) && Tracks(s, marks)
    ensures var t := DispatchSpec(s, kind, env, shardCount); Tracks(t.state, marks + [Done(kind, !Threw(t, kind))])
  {
    hide DispatchSpec, Coherent, Threw, InTransaction, Misreported;
    DispatchStatus(s, kind, env, shardCount);
    var m := Done(kind, !Threw(DispatchSpec(s, kind, env, shardCount), kind));
    InTransactionSnoc(marks, m);
    MisreportedSnoc(marks, m);
  }

  lemma EndTracks(s: State, marks: seq<Mark>)
    requires Tracks(s, marks)
    ensures Tracks(s.(txStatus := if s.inTx then 'T' else 'I'), marks + [StringDone])
  {
    hide InTransaction, Misreported;
    InTransactionSnoc(marks, StringDone);
    MisreportedSnoc(marks, StringDone);
  }

  lemma {:induction false} StatementsTrack(s: State, kinds: seq<Kind>, envs: seq<Env>, shardCount: nat,
                                           marks: seq<Mark>)
    requires Coherent(s) && Tracks(s, marks) && |envs| == |kinds|
    ensures var r := RunStatements(s, kinds, envs, shardCount); var more := StatementMarks(s, kinds, envs, shardCount);
      && Tracks(r.state, marks + more)
      && more != [] && (r.ok <==> more[|more| - 1] == StringDone)
    decreases |kinds|
  {
    hide DispatchSpec, Coherent, Threw, Tracks;
    if kinds == [] {
      EndTracks(s, marks);
    } else {
      var t := DispatchSpec(s, kinds[0], envs[0], shardCount);
      StatementTracks(s, kinds[0], envs[0], shardCount, marks);
      if !Threw(t, kinds[0]) {
        var first, rest := [Done(kinds[0], true)], StatementMarks(t.state, kinds[1..], envs[1..], shardCount);
        StatementsTrack(t.state, kinds[1..], envs[1..], shardCount, marks + first);
        assert marks + first + rest == marks + (first + rest);
      }
    }
  }

  /**
   After any query strings, with any failures: the letter is wrong exactly when a BEGIN outside a
   transaction threw and since then no query string ended without an error and no BEGIN, COMMIT or
   ROLLBACK was accepted; it is then I inside a transaction, and otherwise T or I as it should be. The
   session is in a transaction exactly when a BEGIN came, thrown or not, and nothing has closed it.
   */
  lemma StatusExact(strings: seq<QueryString>, shardCount: nat)
    requires forall q <- strings :: WellFormed(q)
    ensures var r := RunOf(strings, shardCount);
      && (r.state.inTx <==> InTransaction(r.marks))
      && (Agree(r.state) <==> !Misreported(r.marks))
      && (r.state.txStatus == if r.state.inTx && !Misreported(r.marks) then 'T' else 'I')
  {
    hide RunSqlSpec, Coherent, InTransaction, Misreported;
    RunTracks(strings, shardCount);
  }

  lemma NothingYet()
    ensures Tracks(INITIAL, [])
  {
  }

  lemma {:induction false} RunTracks(strings: seq<QueryString>, shardCount: nat)
    requires forall q <- strings :: WellFormed(q)
    ensures var r := RunOf(strings, shardCount); Tracks(r.state, r.marks)
    decreases |strings|
  {
    hide Coherent, RunStatements, StatementMarks, WellFormed;
    if strings == [] {
      NothingYet();
    } else {
      var q, before := strings[|strings| - 1], RunOf(strings[..|strings| - 1], shardCount);
      RunTracks(strings[..|strings| - 1], shardCount);
      LastIsWellFormed(strings);
      hide Tracks;
      if q.kinds == [] {
        assert before.marks + [] == before.marks;
      } else {
        StatementsTrack(before.state, q.kinds, q.envs, shardCount, before.marks);
      }
    }
  }

  lemma LastIsWellFormed(strings: seq<QueryString>)
    requires strings != [] && forall q <- strings :: WellFormed(q)
    ensures |strings[|strings| - 1].envs| == |strings[|strings| - 1].kinds|
  {
    assert WellFormed(strings[|strings| - 1]);
  }

  datatype FailurePoint = FailurePoint(before: State, kind: Kind)

  /** The first statement of a query string that throws, and the state in which it began. */
  function FailureOf(s: State, kinds: seq<Kind>, envs: seq<Env>, shardCount: nat): Option<FailurePoint>
    requires Coherent(s) && |envs| == |kinds|
    decreases |kinds|
  {
    if kinds == [] then None
    else
      var t := DispatchSpec(s, kinds[0], envs[0], shardCount);
      if Threw(t, kinds[0]) then Some(FailurePoint(s, kinds[0]))
      else FailureOf(t.state, kinds[1..], envs[1..], shardCount)
  }

  lemma FailedStatement(s: State, marks: seq<Mark>, kind: Kind, env: Env, shardCount: nat)
    requires Coherent(s) && Tracks(s, marks) && Threw(DispatchSpec(s, kind, env, shardCount), kind)
    ensures Agree(DispatchSpec(s, kind, env, shardCount).state) <==> Agree(s) && !(kind.Begin? && !s.inTx)
  {
    hide DispatchSpec, Coherent, Threw, InTransaction, Misreported;
    DispatchStatus(s, kind, env, shardCount);
  }

  lemma {:induction false} FailedStatements(s: State, marks: seq<Mark>, kinds: seq<Kind>, envs: seq<Env>,
                                            shardCount: nat)
    requires Coherent(s) && Tracks(s, marks) && |envs| == |kinds|
    ensures var r := RunStatements(s, kinds, envs, shardCount); var f := FailureOf(s, kinds, envs, shardCount);
      && (r.ok <==> f.None?)
      && (r.ok ==> Agree(r.state))
      && (f.Some? ==>
            (Agree(r.state) <==> Agree(f.value.before) && !(f.value.kind.Begin? && !f.value.before.inTx)))
    decreases |kinds|
  {
    hide DispatchSpec, Coherent, Threw, Tracks;
    if kinds == [] {
    } else {
      var t := DispatchSpec(s, kinds[0], envs[0], shardCount);
      StatementTracks(s, kinds[0], envs[0], shardCount, marks);
      if Threw(t, kinds[0]) {
        FailedStatement(s, marks, kinds[0], envs[0], shardCount);
      } else {
        FailedStatements(t.state, marks + [Done(kinds[0], true)], kinds[1..], envs[1..], shardCount);
      }
    }
  }

  /**
   In any run a query string fails exactly when one of its statements throws. The letter is then wrong
   exactly when it was wrong already before that statement, or the statement was a BEGIN outside a
   transaction; a query string with statements that does not fail sets it right.
   */
  lemma ErrorStatusExact(strings: seq<QueryString>, q: QueryString, shardCount: nat)
    requires WellFormed(q) && forall p <- strings :: WellFormed(p)
    ensures var s := RunOf(strings, shardCount).state;
      var r := RunSqlSpec(s, q.kinds, q.envs, shardCount); var f := FailureOf(s, q.kinds, q.envs, shardCount);
      && (r.ok <==> f.None?)
      && (r.ok && q.kinds != [] ==> Agree(r.state))
      && (f.Some? ==>
            (Agree(r.state) <==> Agree(f.value.before) && !(f.value.kind.Begin? && !f.value.before.inTx)))
  {
    hide Coherent, RunStatements, RunOf, Tracks;
    RunTracks(strings, shardCount);
    var r := RunOf(strings, shardCount);
    FailedStatements(r.state, r.marks, q.kinds, q.envs, shardCount);
  }

  const NO_CLIENT := Env(HostIndex(0), None, true, true)

  function One(kind: Kind): QueryString { QueryString([kind], [NO_CLIENT]) }

  lemma OneString(s: State, kind: Kind)
    requires Coherent(s)
    ensures var t := DispatchSpec(s, kind, NO_CLIENT, 1); var r := RunSqlSpec(s, [kind], [NO_CLIENT], 1);
      if Threw(t, kind) then r.state == t.state && MarksOf(s, One(kind), 1) == [Done(kind, false)]
      else r.state == t.state.(txStatus := if t.state.inTx then 'T' else 'I')
           && MarksOf(s, One(kind), 1) == [Done(kind, true), StringDone]
  {
    hide DispatchSpec, Coherent, Threw;
    assert [kind][1..] == [] && [NO_CLIENT][1..] == [];
    var t := DispatchSpec(s, kind, NO_CLIENT, 1);
    assert RunStatements(t.state, [], [], 1).state == t.state.(txStatus := if t.state.inTx then 'T' else 'I');
    assert StatementMarks(t.state, [], [], 1) == [StringDone];
    assert One(kind).kinds == [kind] && One(kind).envs == [NO_CLIENT];
  }

  lemma OneMore(strings: seq<QueryString>, kind: Kind)
    requires forall q <- strings :: WellFormed(q)
    ensures WellFormed(One(kind))
    ensures var s := RunOf(strings, 1);
      RunOf(strings + [One(kind)], 1)
      == Run(RunSqlSpec(s.state, [kind], [NO_CLIENT], 1).state, s.marks + MarksOf(s.state, One(kind), 1))
  {
    hide RunSqlSpec, MarksOf, Coherent;
    assert (strings + [One(kind)])[..|strings|] == strings;
  }

  const BOUND := State(Some("a"), false, None, None, false, 'I')
  const DENIED := State(Some("a"), true, Some(0), None, false, 'I')
  const SELECT := Data("SELECT 1")

  lemma FailedBegin()
    ensures Coherent(BOUND) && Coherent(DENIED)
    ensures DispatchSpec(BOUND, Begin, NO_CLIENT, 1).state == DENIED
    ensures Threw(DispatchSpec(BOUND, Begin, NO_CLIENT, 1), Begin)
    ensures DispatchSpec(DENIED, SELECT, NO_CLIENT, 1).state == DENIED
    ensures Threw(DispatchSpec(DENIED, SELECT, NO_CLIENT, 1), SELECT)
  {
  }

  lemma AfterSet()
    ensures WellFormed(One(SetTid("a")))
    ensures RunOf([One(SetTid("a"))], 1) == Run(BOUND, [Done(SetTid("a"), true), StringDone])
  {
    assert DispatchSpec(INITIAL, SetTid("a"), NO_CLIENT, 1)
        == Turn(INITIAL.(pendingTid := Some("a")), Idle, [Ended(SetTid("a"), true)]);
    hide DispatchSpec, RunOf, Coherent, MarksOf, RunSqlSpec;
    OneMore([], SetTid("a"));
    StartsThere();
    OneString(INITIAL, SetTid("a"));
    assert [] + [One(SetTid("a"))] == [One(SetTid("a"))];
  }

  lemma AfterBegin()
    ensures WellFormed(One(SetTid("a"))) && WellFormed(One(Begin))
    ensures RunOf([One(SetTid("a")), One(Begin)], 1)
         == Run(DENIED, [Done(SetTid("a"), true), StringDone, Done(Begin, false)])
  {
    hide DispatchSpec, RunOf, Coherent, MarksOf, RunSqlSpec;
    AfterSet();
    FailedBegin();
    OneMore([One(SetTid("a"))], Begin);
    StartsThere();
    OneString(BOUND, Begin);
    assert [One(SetTid("a"))] + [One(Begin)] == [One(SetTid("a")), One(Begin)];
  }

  /** A BEGIN that gets no client, and then a SELECT: the session is in a transaction that the letter denies. */
  lemma MisreportedRunExists()
    ensures var strings := [One(SetTid("a")), One(Begin), One(SELECT)];
      && (forall q <- strings :: WellFormed(q))
      && RunOf(strings, 1)
         == Run(DENIED, [Done(SetTid("a"), true), StringDone, Done(Begin, false), Done(SELECT, false)])
  {
    hide DispatchSpec, RunOf, Coherent, MarksOf, RunSqlSpec;
    AfterBegin();
    FailedBegin();
    OneMore([One(SetTid("a")), One(Begin)], SELECT);
    OneString(DENIED, SELECT);
    assert [One(SetTid("a")), One(Begin)] + [One(SELECT)] == [One(SetTid("a")), One(Begin), One(SELECT)];
  }

  lemma StartsThere()
    ensures RunOf([], 1) == Run(INITIAL, []) && Coherent(INITIAL)
  {
  }
}
