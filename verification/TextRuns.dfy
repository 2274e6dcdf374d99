/** Over whole runs of a session: what is sent is the statement being dispatched, and how it ends. */
module TextRuns {
  import opened Wrappers
  import opened Session
  import opened SessionRuns
  import StatusRuns

  /** The statement that the last n actions are about, unless it is a cleanup. */
  function StatementAt(actions: seq<Action>): Option<Kind> {
    if actions == [] then None
    else match actions[|actions| - 1]
      case Statement(kind) => Some(kind)
      case Close => None
      case Reply(_) => StatementAt(actions[..|actions| - 1])
  }

  /** What an event says of the statement it belongs to. */
  ghost predicate Tells(e: Event, statement: Option<Kind>) {
    match e
    case Pooled(_, sql) => statement == Some(Data(sql))
    case Sent(_, _, DataCmd(sql)) => statement == Some(Data(sql))
    case Acked(_, DataCmd(sql), _) => statement == Some(Data(sql))
    case Sent(_, _, EndCmd(kind)) => statement == Some(kind) && (kind.Commit? || kind.Rollback?)
    case Sent(_, _, BeginCmd) => statement.Some? && (statement.value.Begin? || statement.value.Data?)
    case Unsent(_) => statement.Some? && statement.value.Data?
    case LookedUp(tid, _) => statement.Some? && (statement.value.SetTid? ==> statement == Some(SetTid(tid)))
    case Ended(kind, _) => statement == Some(kind)
    case CleanupSent(_) => statement == None
    case Cleaned => statement == None
    case _ => true
  }

  /** The dispatch that is suspended is that of the statement. */
  ghost predicate Dispatching(a: Await, statement: Option<Kind>) {
    || a.Idle?
    || (if a.CleanupRollback? then statement == None else statement.Some? && StatusRuns.Waits(a, statement.value))
  }

  /** One action, with what it adds to the trace. */
  function Added(p: Proxy, a: Action, shardCount: nat): Turn
    requires WellFormed(p) && Enabled(p, a)
  {
    match a
    case Statement(kind) => Start(p.state, kind)
    case Close => StartCleanup(p.state)
    case Reply(answer) => Resume(p.state, p.await, answer, shardCount)
  }

  lemma ReplyTells(p: Proxy, answer: Answer, statement: Option<Kind>, shardCount: nat)
    requires WellFormed(p) && Enabled(p, Reply(answer)) && Dispatching(p.await, statement)
    ensures var t := Resume(p.state, p.await, answer, shardCount);
      && Dispatching(t.await, statement)
      && forall k :: 0 <= k < |t.events| ==> Tells(t.events[k], statement)
  {
    hide PhaseOf;
  }

  lemma StartTells(p: Proxy, a: Action, shardCount: nat)
    requires WellFormed(p) && Enabled(p, a) && !a.Reply?
    ensures var statement := if a.Close? then None else Some(a.kind); var t := Added(p, a, shardCount);
      && Dispatching(t.await, statement)
      && forall k :: 0 <= k < |t.events| ==> Tells(t.events[k], statement)
  {
    hide PhaseOf;
  }

  lemma {:induction false} RunDispatches(run: seq<Proxy>, actions: seq<Action>, shardCount: nat, i: nat)
    requires IsRun(run, actions, shardCount) && i <= |actions|
    ensures Dispatching(run[i].await, StatementAt(actions[..i]))
    ensures i > 0 ==> Dispatching(run[i - 1].await, StatementAt(actions[..i - 1]))
  {
    hide PhaseOf, Dispatching, Coherent, Suspended;
    if i == 0 {
      assert Dispatching(run[0].await, None) by { IdleDispatches(); }
    } else {
      RunDispatches(run, actions, shardCount, i - 1);
      assert actions[..i][..i - 1] == actions[..i - 1];
      if actions[i - 1].Reply? {
        ReplyTells(run[i - 1], actions[i - 1].answer, StatementAt(actions[..i - 1]), shardCount);
      } else {
        StartTells(run[i - 1], actions[i - 1], shardCount);
      }
    }
  }

  lemma IdleDispatches()
    ensures Dispatching(Idle, None)
  {
  }

  /**
   In every run each event of the trace that the i-th action adds belongs to the statement that the
   action is about: a text is sent only as that statement's own, a COMMIT or ROLLBACK for itself, a
   BEGIN for a BEGIN or a data statement, and what ends is that statement.
   */
  lemma TextIsTheStatement(run: seq<Proxy>, actions: seq<Action>, shardCount: nat, i: nat, k: nat)
    requires IsRun(run, actions, shardCount) && i < |actions|
    requires |run[i].trace| <= k < |run[i + 1].trace|
    ensures run[i].trace <= run[i + 1].trace
    ensures Tells(run[i + 1].trace[k], StatementAt(actions[..i + 1]))
  {
    hide PhaseOf, Dispatching, Tells, Coherent, Suspended, Start, Resume, StartCleanup;
    RunDispatches(run, actions, shardCount, i);
    var p, a, statement := run[i], actions[i], StatementAt(actions[..i + 1]);
    assert actions[..i + 1][..i] == actions[..i];
    var t := Added(p, a, shardCount);
    assert run[i + 1].trace == p.trace + t.events && run[i + 1].trace[k] == t.events[k - |p.trace|];
    if a.Reply? {
      ReplyTells(p, a.answer, statement, shardCount);
    } else {
      StartTells(p, a, shardCount);
    }
  }

  // ----- how a statement ends ---------------------------------------------------------------

  /** The event sends the command of the statement. */
  ghost predicate Asks(e: Event, kind: Kind) {
    match e
    case Pooled(_, sql) => kind == Data(sql)
    case Sent(_, _, DataCmd(sql)) => kind == Data(sql)
    case Sent(_, _, EndCmd(end)) => kind == end
    case _ => false
  }

  /** The command that was sent for a statement and is not answered yet. */
  ghost predicate Waiting(trace: seq<Event>, kind: Kind) { trace != [] && Asks(trace[|trace| - 1], kind) }

  /** A suspended query is the last thing that was sent. */
  ghost predicate Queried(p: Proxy) {
    match p.await
    case TxQuery(sql) => forall kind :: Waiting(p.trace, kind) <==> kind == Data(sql)
    case AutoQuery(sql) => forall kind :: Waiting(p.trace, kind) <==> kind == Data(sql)
    case EndQuery(end) => forall kind :: Waiting(p.trace, kind) <==> kind == end
    case _ => forall kind :: !Waiting(p.trace, kind)
  }

  /** The same for an await and the last event before it. */
  ghost predicate QueriedBy(a: Await, e: Event) {
    match a
    case TxQuery(sql) => forall kind :: Asks(e, kind) <==> kind == Data(sql)
    case AutoQuery(sql) => forall kind :: Asks(e, kind) <==> kind == Data(sql)
    case EndQuery(end) => forall kind :: Asks(e, kind) <==> kind == end
    case _ => forall kind :: !Asks(e, kind)
  }

  predicate Querying(a: Await) { a.TxQuery? || a.AutoQuery? || a.EndQuery? }

  lemma ReplyQueries(p: Proxy, answer: Answer, shardCount: nat)
    requires WellFormed(p) && Enabled(p, Reply(answer))
    ensures var t := Resume(p.state, p.await, answer, shardCount);
      if t.events == [] then !Querying(p.await) && !Querying(t.await)
      else QueriedBy(t.await, t.events[|t.events| - 1])
  {
    hide PhaseOf;
  }

  lemma StartQueries(p: Proxy, a: Action, shardCount: nat)
    requires WellFormed(p) && Enabled(p, a) && !a.Reply?
    ensures var t := Added(p, a, shardCount);
      if t.events == [] then !Querying(p.await) && !Querying(t.await)
      else QueriedBy(t.await, t.events[|t.events| - 1])
  {
    hide PhaseOf;
  }

  lemma ActQueries(p: Proxy, a: Action, shardCount: nat)
    requires WellFormed(p) && Enabled(p, a) && Queried(p)
    ensures Queried(Act(p, a, shardCount))
  {
    if a.Reply? {
      ReplyQueries(p, a.answer, shardCount);
    } else {
      StartQueries(p, a, shardCount);
    }
    hide PhaseOf, Start, Resume, StartCleanup, Coherent, Suspended, Asks;
    var t := Added(p, a, shardCount);
    var trace := p.trace + t.events;
    assert t.events != [] ==> trace[|trace| - 1] == t.events[|t.events| - 1];
    assert t.events == [] ==> trace == p.trace;
  }

  lemma {:induction false} RunQueries(run: seq<Proxy>, actions: seq<Action>, shardCount: nat, i: nat)
    requires IsRun(run, actions, shardCount) && i <= |actions|
    ensures Queried(run[i])
  {
    hide PhaseOf, Coherent, Suspended, Act;
    if i > 0 {
      hide Queried;
      RunQueries(run, actions, shardCount, i - 1);
      ActQueries(run[i - 1], actions[i - 1], shardCount);
    }
  }

  /**
   In every run the answer to a data statement, a COMMIT or a ROLLBACK decides how it ends: the next
   action is the answer, and the statement returns exactly when the backend accepted it.
   */
  lemma AnswerDecides(run: seq<Proxy>, actions: seq<Action>, shardCount: nat, i: nat, kind: Kind)
    requires IsRun(run, actions, shardCount) && i < |actions| && Waiting(run[i].trace, kind)
    ensures actions[i].Reply? && actions[i].answer.QueryAnswer?
    ensures run[i + 1].await.Idle? && run[i + 1].trace != []
    ensures run[i + 1].trace[|run[i + 1].trace| - 1] == Ended(kind, actions[i].answer.ok)
  {
    hide PhaseOf;
    RunQueries(run, actions, shardCount, i);
    var p := run[i];
    var t := Resume(p.state, p.await, actions[i].answer, shardCount);
    var trace := p.trace + t.events;
    assert trace[|trace| - 1] == t.events[|t.events| - 1];
  }

  /** In every run a data statement returns only with the accepted answer to its own text. */
  lemma ReturnedWasSent(run: seq<Proxy>, actions: seq<Action>, shardCount: nat, i: nat, sql: string)
    requires IsRun(run, actions, shardCount) && i < |actions| && |run[i + 1].trace| > |run[i].trace|
    requires run[i + 1].trace[|run[i + 1].trace| - 1] == Ended(Data(sql), true)
    ensures Waiting(run[i].trace, Data(sql)) && actions[i] == Reply(QueryAnswer(true))
  {
    hide PhaseOf;
    RunQueries(run, actions, shardCount, i);
    var p := run[i];
    var t := Added(p, actions[i], shardCount);
    var trace := p.trace + t.events;
    assert t.events != [] && trace[|trace| - 1] == t.events[|t.events| - 1];
  }
}
