/**
 One proxy session: which tid is bound, which shard a transaction is pinned to and which backend
 client it holds. `Start` and `Resume` are the code between two awaits; Lookup, checkout and
 backend queries are answered by the environment and may fail.
 */
module Session {
  import opened Wrappers

  datatype Kind = SetTid(tid: string) | ResetTid | Begin | Commit | Rollback | Data(sql: string)

  type ClientId = nat

  datatype State = State(
    pendingTid: Option<string>,
    inTx: bool,
    pinned: Option<nat>,
    txClient: Option<ClientId>,
    backendInTx: bool,
    txStatus: char)

  const INITIAL := State(None, false, None, None, false, 'I')

  datatype Command = BeginCmd | EndCmd(kind: Kind) | DataCmd(sql: string)

  /** What a session does that others can see, in order. */
  datatype Event =
    | LookedUp(tid: string, shard: nat)              // Lookup answered with a shard
    | Checkout(shard: nat, client: ClientId)         // a client leaves the pool of the shard
    | NoClient(shard: nat)                           // the pool gives no client
    | Sent(shard: nat, client: ClientId, command: Command)  // counted, then sent on the client
    | Unsent(shard: nat)                             // counted, but there is no client to send on
    | Acked(client: ClientId, command: Command, ok: bool)
    | Pooled(shard: nat, sql: string)                // counted, then run on any pooled connection
    | CleanupSent(client: ClientId)                  // ROLLBACK sent by cleanup, not counted
    | Release(client: ClientId)
    | Ended(kind: Kind, ok: bool)                    // the statement returned or threw
    | Cleaned

  datatype AfterPin = ThenBegin | ThenData(sql: string)

  /** Where a dispatch is suspended. */
  datatype Await =
    | Idle
    | SetLookup(tid: string)
    | PinLookup(tid: string, next: AfterPin)
    | PinConnect(shard: nat, next: AfterPin)
    | PinBegin(shard: nat, next: AfterPin)
    | TxQuery(sql: string)
    | AutoLookup(tid: string, sql: string)
    | AutoQuery(sql: string)
    | EndQuery(kind: Kind)
    | CleanupRollback

  datatype LookupReply = HttpError | NotAnInteger | HostIndex(index: int)

  datatype Answer = LookupAnswer(reply: LookupReply) | ConnectAnswer(client: Option<ClientId>) | QueryAnswer(ok: bool)

  datatype Turn = Turn(state: State, await: Await, events: seq<Event>)

  /** The reply of the lookup service, checked as the proxy checks it. */
  function LookupHostIndex(reply: LookupReply, shardCount: nat): (r: Option<nat>)
    ensures r.Some? <==> reply.HostIndex? && 0 <= reply.index < shardCount
    ensures r.Some? ==> r.value == reply.index
  {
    match reply
    case HostIndex(i) => if i < 0 || i >= shardCount then None else Some(i)
    case _ => None
  }

  /** What holds of the fields in every run, even with failures. */
  ghost predicate Coherent(s: State) {
    && (s.backendInTx ==> s.txClient.Some?)
    && (s.txClient.Some? ==> s.pinned.Some?)
    && (s.pinned.Some? ==> s.inTx)
    && s.pendingTid != Some("")
  }

  /** What a suspended dispatch relies on. */
  ghost predicate Suspended(s: State, a: Await) {
    match a
    case Idle => true
    case SetLookup(tid) => s.inTx && s.pinned.Some? && tid != ""
    case PinLookup(tid, next) => s.inTx && s.pendingTid == Some(tid)
    case PinConnect(shard, next) => s.inTx && s.pinned == Some(shard) && s.txClient == None && s.pendingTid.Some?
    case PinBegin(shard, next) => s.pinned == Some(shard) && s.txClient.Some? && !s.backendInTx && s.pendingTid.Some?
    case TxQuery(_) => s.txClient.Some?
    case AutoLookup(tid, _) => !s.inTx && s.pendingTid == Some(tid)
    case AutoQuery(_) => !s.inTx && s.pendingTid == None
    case EndQuery(kind) => s.txClient.Some? && (kind.Commit? || kind.Rollback?)
    case CleanupRollback => s.txClient.Some?
  }

  function Finish(s: State, kind: Kind, events: seq<Event>): Turn { Turn(s, Idle, events + [Ended(kind, true)]) }

  function Fail(s: State, kind: Kind, events: seq<Event>): Turn { Turn(s, Idle, events + [Ended(kind, false)]) }

  function KindAfter(next: AfterPin): Kind {
    match next
    case ThenBegin => Begin
    case ThenData(sql) => Data(sql)
  }

  function TransactionOver(s: State): State {
    s.(inTx := false, backendInTx := false, pinned := None, txClient := None, pendingTid := None)
  }

  /** The code of `dispatch` up to its first await. */
  function Start(s: State, kind: Kind): (t: Turn)
    requires Coherent(s)
    ensures Coherent(t.state) && Suspended(t.state, t.await)
  {
    match kind
    case SetTid(tid) =>
      if tid == "" then Fail(s, kind, [])
      else if s.inTx && s.pinned.Some? then Turn(s, SetLookup(tid), [])
      else Finish(s.(pendingTid := Some(tid)), kind, [])
    case ResetTid =>
      if s.inTx then Fail(s, kind, []) else Finish(s.(pendingTid := None), kind, [])
    case Begin =>
      var s' := s.(inTx := true);
      if s.pendingTid.Some? then Turn(s', PinLookup(s.pendingTid.value, ThenBegin), [])
      else Finish(s'.(txStatus := 'T'), kind, [])
    case Data(sql) =>
      if s.pendingTid.None? then Fail(s, kind, [])
      else if s.inTx then Turn(s, PinLookup(s.pendingTid.value, ThenData(sql)), [])
      else Turn(s, AutoLookup(s.pendingTid.value, sql), [])
    case _ =>
      if s.txClient.Some? then Turn(s, EndQuery(kind), [Sent(s.pinned.value, s.txClient.value, EndCmd(kind))])
      else Finish(TransactionOver(s).(txStatus := 'I'), kind, [])
  }

  /** The code after `ensurePinned` has returned. */
  function Continue(s: State, next: AfterPin, events: seq<Event>): (t: Turn)
    requires Coherent(s) && s.pinned.Some?
    ensures Coherent(t.state) && Suspended(t.state, t.await)
  {
    match next
    case ThenBegin => Finish(s.(txStatus := 'T'), Begin, events)
    case ThenData(sql) =>
      if s.txClient.None? then Fail(s, Data(sql), events + [Unsent(s.pinned.value)])
      else Turn(s, TxQuery(sql), events + [Sent(s.pinned.value, s.txClient.value, DataCmd(sql))])
  }

  predicate Matches(a: Await, answer: Answer) {
    match a
    case Idle => false
    case SetLookup(_) => answer.LookupAnswer?
    case PinLookup(_, _) => answer.LookupAnswer?
    case AutoLookup(_, _) => answer.LookupAnswer?
    case PinConnect(_, _) => answer.ConnectAnswer?
    case _ => answer.QueryAnswer?
  }

  /** The code from one await to the next. */
  function Resume(s: State, a: Await, answer: Answer, shardCount: nat): (t: Turn)
    requires Coherent(s) && Suspended(s, a) && Matches(a, answer)
    ensures Coherent(t.state) && Suspended(t.state, t.await)
  {
    match a
    case SetLookup(tid) =>
      var h := LookupHostIndex(answer.reply, shardCount);
      if h.None? then Fail(s, SetTid(tid), [])
      else if h != s.pinned then Fail(s, SetTid(tid), [LookedUp(tid, h.value)])
      else Finish(s.(pendingTid := Some(tid)), SetTid(tid), [LookedUp(tid, h.value)])
    case PinLookup(tid, next) =>
      var h := LookupHostIndex(answer.reply, shardCount);
      if h.None? then Fail(s, KindAfter(next), [])
      else if s.pinned.Some? && s.pinned != h then Fail(s, KindAfter(next), [LookedUp(tid, h.value)])
      else if s.pinned.None? then Turn(s.(pinned := h), PinConnect(h.value, next), [LookedUp(tid, h.value)])
      else Continue(s, next, [LookedUp(tid, h.value)])
    case PinConnect(shard, next) =>
      if answer.client.None? then Fail(s, KindAfter(next), [NoClient(shard)])
      else
        var c := answer.client.value;
        // the backend is in no transaction yet, so BEGIN is always due here
        Turn(s.(txClient := Some(c)), PinBegin(shard, next), [Checkout(shard, c), Sent(shard, c, BeginCmd)])
    case PinBegin(_, next) =>
      var ack := Acked(s.txClient.value, BeginCmd, answer.ok);
      if !answer.ok then Fail(s, KindAfter(next), [ack])
      else Continue(s.(backendInTx := true), next, [ack])
    case TxQuery(sql) =>
      var ack := Acked(s.txClient.value, DataCmd(sql), answer.ok);
      if answer.ok then Finish(s, Data(sql), [ack]) else Fail(s, Data(sql), [ack])
    case AutoLookup(tid, sql) =>
      var h := LookupHostIndex(answer.reply, shardCount);
      if h.None? then Fail(s, Data(sql), [])
      else Turn(s.(pendingTid := None), AutoQuery(sql), [LookedUp(tid, h.value), Pooled(h.value, sql)])
    case AutoQuery(sql) =>
      if answer.ok then Finish(s, Data(sql), []) else Fail(s, Data(sql), [])
    case EndQuery(kind) =>
      var ack := Acked(s.txClient.value, EndCmd(kind), answer.ok);
      if answer.ok then Finish(TransactionOver(s).(txStatus := 'I'), kind, [ack, Release(s.txClient.value)])
      else Fail(s, kind, [ack])
    case CleanupRollback =>
      Turn(TransactionOver(s), Idle, [Release(s.txClient.value), Cleaned])
  }

  /** `cleanup` up to its await, for a session that is between statements. */
  function StartCleanup(s: State): (t: Turn)
    requires Coherent(s)
    ensures Coherent(t.state) && Suspended(t.state, t.await)
  {
    if s.txClient.Some? then Turn(s, CleanupRollback, [CleanupSent(s.txClient.value)])
    else Turn(TransactionOver(s), Idle, [Cleaned])
  }

  // ----- a whole dispatch -------------------------------------------------------------------

  /** The answers one dispatch can ask for; each is used at most once. */
  datatype Env = Env(lookup: LookupReply, checkout: Option<ClientId>, begin: bool, query: bool)

  function AnswerFor(a: Await, env: Env): (answer: Answer)
    requires !a.Idle?
    ensures Matches(a, answer)
  {
    match a
    case SetLookup(_) => LookupAnswer(env.lookup)
    case PinLookup(_, _) => LookupAnswer(env.lookup)
    case AutoLookup(_, _) => LookupAnswer(env.lookup)
    case PinConnect(_, _) => ConnectAnswer(env.checkout)
    case PinBegin(_, _) => QueryAnswer(env.begin)
    case _ => QueryAnswer(env.query)
  }

  function Rank(a: Await): nat {
    match a
    case Idle => 0
    case PinLookup(_, _) => 4
    case PinConnect(_, _) => 3
    case PinBegin(_, _) => 2
    case AutoLookup(_, _) => 2
    case _ => 1
  }

  /** From one await to the next, keeping the events so far. */
  function Step(t: Turn, env: Env, shardCount: nat): (r: Turn)
    requires Coherent(t.state) && Suspended(t.state, t.await) && !t.await.Idle?
    ensures Coherent(r.state) && Suspended(r.state, r.await) && Rank(r.await) < Rank(t.await)
  {
    var r := Resume(t.state, t.await, AnswerFor(t.await, env), shardCount);
    r.(events := t.events + r.events)
  }

  /** Run a suspended dispatch to its end, answering every await from env. */
  function Complete(t: Turn, env: Env, shardCount: nat): (r: Turn)
    requires Coherent(t.state) && Suspended(t.state, t.await)
    ensures Coherent(r.state) && r.await.Idle?
    decreases Rank(t.await)
  {
    if t.await.Idle? then t else Complete(Step(t, env, shardCount), env, shardCount)
  }

  /** One more step does not change where a dispatch ends. */
  lemma CompleteStep(t: Turn, env: Env, shardCount: nat)
    requires Coherent(t.state) && Suspended(t.state, t.await)
    ensures Complete(t, env, shardCount)
         == if t.await.Idle? then t else Complete(Step(t, env, shardCount), env, shardCount)
  {
  }

  function DispatchSpec(s: State, kind: Kind, env: Env, shardCount: nat): (r: Turn)
    requires Coherent(s)
    ensures Coherent(r.state)
  {
    Complete(Start(s, kind), env, shardCount)
  }

  /** The statement threw. */
  predicate Threw(t: Turn, kind: Kind) {
    t.events != [] && t.events[|t.events| - 1] == Ended(kind, false)
  }

  datatype Outcome = Outcome(state: State, events: seq<Event>, ok: bool)

  /** The statements of one query string, in order, up to the first that throws. */
  function RunStatements(s: State, kinds: seq<Kind>, envs: seq<Env>, shardCount: nat): (r: Outcome)
    requires Coherent(s) && |envs| == |kinds|
    ensures Coherent(r.state)
    decreases kinds
  {
    if kinds == [] then Outcome(s.(txStatus := if s.inTx then 'T' else 'I'), [], true)
    else
      var t := DispatchSpec(s, kinds[0], envs[0], shardCount);
      if Threw(t, kinds[0]) then Outcome(t.state, t.events, false)
      else
        var rest := RunStatements(t.state, kinds[1..], envs[1..], shardCount);
        rest.(events := t.events + rest.events)
  }

  /** A query string without statements changes nothing, not even the reported status. */
  function RunSqlSpec(s: State, kinds: seq<Kind>, envs: seq<Env>, shardCount: nat): (r: Outcome)
    requires Coherent(s) && |envs| == |kinds|
    ensures Coherent(r.state)
  {
    if kinds == [] then Outcome(s, [], true) else RunStatements(s, kinds, envs, shardCount)
  }

  function RestOfSql(s: State, kinds: seq<Kind>, envs: seq<Env>, i: nat, before: seq<Event>,
                     shardCount: nat): (r: Outcome)
    requires Coherent(s) && |envs| == |kinds| && i <= |kinds|
  {
    var rest := RunStatements(s, kinds[i..], envs[i..], shardCount);
    rest.(events := before + rest.events)
  }

  lemma RunSqlStep(s: State, kinds: seq<Kind>, envs: seq<Env>, i: nat, before: seq<Event>, shardCount: nat)
    requires Coherent(s) && |envs| == |kinds| && i < |kinds|
    ensures var t := DispatchSpec(s, kinds[i], envs[i], shardCount);
      RestOfSql(s, kinds, envs, i, before, shardCount)
      == if Threw(t, kinds[i]) then Outcome(t.state, before + t.events, false)
         else RestOfSql(t.state, kinds, envs, i + 1, before + t.events, shardCount)
  {
    hide DispatchSpec, Coherent, Threw;
    assert kinds[i..][1..] == kinds[i + 1..] && envs[i..][1..] == envs[i + 1..];
    var t := DispatchSpec(s, kinds[i], envs[i], shardCount);
    if !Threw(t, kinds[i]) {
      var rest := RunStatements(t.state, kinds[i + 1..], envs[i + 1..], shardCount);
      assert before + (t.events + rest.events) == before + t.events + rest.events;
    }
  }

  lemma RunFromStart(s: State, kinds: seq<Kind>, envs: seq<Env>, shardCount: nat)
    requires Coherent(s) && |envs| == |kinds|
    ensures RestOfSql(s, kinds, envs, 0, [], shardCount) == RunStatements(s, kinds, envs, shardCount)
  {
    assert kinds[0..] == kinds && envs[0..] == envs;
    assert [] + RunStatements(s, kinds, envs, shardCount).events == RunStatements(s, kinds, envs, shardCount).events;
  }

  lemma RunNothing(s: State, kinds: seq<Kind>, envs: seq<Env>, before: seq<Event>, shardCount: nat)
    requires Coherent(s) && |envs| == |kinds|
    ensures RestOfSql(s, kinds, envs, |kinds|, before, shardCount)
      == Outcome(s.(txStatus := if s.inTx then 'T' else 'I'), before, true)
    ensures Coherent(s.(txStatus := if s.inTx then 'T' else 'I'))
  {
    assert kinds[|kinds|..] == [] && before + [] == before;
  }

  /** COMMIT and ROLLBACK from start to end. */
  lemma EndDispatch(s: State, kind: Kind, env: Env, shardCount: nat)
    requires Coherent(s) && (kind.Commit? || kind.Rollback?)
    ensures var over := TransactionOver(s).(txStatus := 'I');
      DispatchSpec(s, kind, env, shardCount) ==
        if s.txClient.None? then Finish(over, kind, [])
        else
          var c := s.txClient.value;
          var sent := [Sent(s.pinned.value, c, EndCmd(kind)), Acked(c, EndCmd(kind), env.query)];
          if env.query then Finish(over, kind, sent + [Release(c)]) else Fail(s, kind, sent)
  {
    var t := Start(s, kind);
    CompleteStep(t, env, shardCount);
    if s.txClient.Some? {
      var c := s.txClient.value;
      var sent := [Sent(s.pinned.value, c, EndCmd(kind))];
      assert t == Turn(s, EndQuery(kind), sent);
      var u := Step(t, env, shardCount);
      CompleteStep(u, env, shardCount);
      assert u.events == sent + (if env.query then [Acked(c, EndCmd(kind), true), Release(c)] + [Ended(kind, true)]
                                 else [Acked(c, EndCmd(kind), false)] + [Ended(kind, false)]);
    }
  }

  /** A SET from start to end. */
  lemma SetDispatch(s: State, tid: string, env: Env, shardCount: nat)
    requires Coherent(s)
    ensures DispatchSpec(s, SetTid(tid), env, shardCount) ==
      if tid == "" then Fail(s, SetTid(tid), [])
      else if !s.inTx || s.pinned.None? then Finish(s.(pendingTid := Some(tid)), SetTid(tid), [])
      else
        var h := LookupHostIndex(env.lookup, shardCount);
        if h.None? then Fail(s, SetTid(tid), [])
        else if h != s.pinned then Fail(s, SetTid(tid), [LookedUp(tid, h.value)])
        else Finish(s.(pendingTid := Some(tid)), SetTid(tid), [LookedUp(tid, h.value)])
  {
    var t := Start(s, SetTid(tid));
    CompleteStep(t, env, shardCount);
    if tid != "" && s.inTx && s.pinned.Some? {
      assert t == Turn(s, SetLookup(tid), []);
      var u := Step(t, env, shardCount);
      CompleteStep(u, env, shardCount);
      assert u.events == [] + u.events;
    }
  }

  /** A RESET from start to end. */
  lemma ResetDispatch(s: State, env: Env, shardCount: nat)
    requires Coherent(s)
    ensures DispatchSpec(s, ResetTid, env, shardCount)
         == if s.inTx then Fail(s, ResetTid, []) else Finish(s.(pendingTid := None), ResetTid, [])
  {
    CompleteStep(Start(s, ResetTid), env, shardCount);
  }

  datatype PinOutcome = PinOutcome(state: State, events: seq<Event>, ok: bool)

  /**
   What a transaction does for its tid before anything else: look it up, stay on the pinned shard, and
   the first time check out a client there and open the backend transaction.
   */
  function Pinning(s: State, tid: string, env: Env, shardCount: nat): PinOutcome {
    var h := LookupHostIndex(env.lookup, shardCount);
    if h.None? then PinOutcome(s, [], false)
    else
      var found := [LookedUp(tid, h.value)];
      if s.pinned.Some? then PinOutcome(s, found, s.pinned == h)
      else if env.checkout.None? then PinOutcome(s.(pinned := h), found + [NoClient(h.value)], false)
      else
        var c := env.checkout.value;
        PinOutcome(
          s.(pinned := h, txClient := Some(c), backendInTx := env.begin || s.backendInTx),
          found + [Checkout(h.value, c), Sent(h.value, c, BeginCmd), Acked(c, BeginCmd, env.begin)],
          env.begin)
  }

  lemma PinningIs(s: State, tid: string, next: AfterPin, env: Env, shardCount: nat)
    requires Coherent(s) && s.inTx && s.pendingTid == Some(tid)
    ensures var p := Pinning(s, tid, env, shardCount); var t := Turn(s, PinLookup(tid, next), []);
      if p.ok then Coherent(p.state) && p.state.pinned.Some?
                   && Complete(t, env, shardCount) == Complete(Continue(p.state, next, p.events), env, shardCount)
      else Complete(t, env, shardCount) == Fail(p.state, KindAfter(next), p.events)
  {
    var t := Turn(s, PinLookup(tid, next), []);
    CompleteStep(t, env, shardCount);
    var u := Step(t, env, shardCount);
    assert u.events == Resume(s, t.await, LookupAnswer(env.lookup), shardCount).events;
    if u.await.PinConnect? {
      ConnectingIs(u, env, shardCount);
    } else {
      CompleteStep(u, env, shardCount);
    }
  }

  lemma ConnectingIs(t: Turn, env: Env, shardCount: nat)
    requires Coherent(t.state) && Suspended(t.state, t.await) && t.await.PinConnect?
    ensures var s, shard, next := t.state, t.await.shard, t.await.next;
      if env.checkout.None? then Complete(t, env, shardCount) == Fail(s, KindAfter(next), t.events + [NoClient(shard)])
      else
        var c := env.checkout.value;
        var opening := [Checkout(shard, c), Sent(shard, c, BeginCmd)];
        var began := s.(txClient := Some(c), backendInTx := env.begin);
        var events := t.events + opening + [Acked(c, BeginCmd, env.begin)];
        if env.begin then
          Coherent(began) && Complete(t, env, shardCount) == Complete(Continue(began, next, events), env, shardCount)
        else Complete(t, env, shardCount) == Fail(began, KindAfter(next), events)
  {
    var s, shard, next := t.state, t.await.shard, t.await.next;
    CompleteStep(t, env, shardCount);
    var u := Step(t, env, shardCount);
    if env.checkout.Some? {
      var c := env.checkout.value;
      var opening, ack := [Checkout(shard, c), Sent(shard, c, BeginCmd)], Acked(c, BeginCmd, env.begin);
      assert u == Turn(s.(txClient := Some(c)), PinBegin(shard, next), t.events + opening);
      BeginningIs(u, env, shardCount);
    } else {
      CompleteStep(u, env, shardCount);
      assert u.events == t.events + [NoClient(shard)] + [Ended(KindAfter(next), false)];
    }
  }

  /** What came before a continuation stays before it. */
  lemma ContinueAfter(s: State, next: AfterPin, before: seq<Event>, events: seq<Event>)
    requires Coherent(s) && s.pinned.Some?
    ensures Continue(s, next, before + events).state == Continue(s, next, events).state
    ensures Continue(s, next, before + events).await == Continue(s, next, events).await
    ensures Continue(s, next, before + events).events == before + Continue(s, next, events).events
  {
  }

  lemma BeginningIs(t: Turn, env: Env, shardCount: nat)
    requires Coherent(t.state) && Suspended(t.state, t.await) && t.await.PinBegin?
    ensures var s, next := t.state, t.await.next;
      var began, events := s.(backendInTx := env.begin), t.events + [Acked(s.txClient.value, BeginCmd, env.begin)];
      if env.begin then
        Coherent(began) && Complete(t, env, shardCount) == Complete(Continue(began, next, events), env, shardCount)
      else Complete(t, env, shardCount) == Fail(began, KindAfter(next), events)
  {
    var s, next, ack := t.state, t.await.next, [Acked(t.state.txClient.value, BeginCmd, env.begin)];
    CompleteStep(t, env, shardCount);
    var u := Step(t, env, shardCount);
    if env.begin {
      ContinueAfter(s.(backendInTx := true), next, t.events, ack);
      assert u == Continue(s.(backendInTx := true), next, t.events + ack);
    } else {
      CompleteStep(u, env, shardCount);
      assert u.events == t.events + ack + [Ended(KindAfter(next), false)];
      assert s.(backendInTx := false) == s;
    }
  }

  /** A BEGIN from start to end. */
  lemma BeginDispatch(s: State, env: Env, shardCount: nat)
    requires Coherent(s)
    ensures var begun := s.(inTx := true);
      DispatchSpec(s, Begin, env, shardCount) ==
        if s.pendingTid.None? then Finish(begun.(txStatus := 'T'), Begin, [])
        else
          var p := Pinning(begun, s.pendingTid.value, env, shardCount);
          if p.ok then Finish(p.state.(txStatus := 'T'), Begin, p.events) else Fail(p.state, Begin, p.events)
  {
    var t := Start(s, Begin);
    if s.pendingTid.None? {
      CompleteStep(t, env, shardCount);
    } else {
      PinningIs(s.(inTx := true), s.pendingTid.value, ThenBegin, env, shardCount);
      var p := Pinning(s.(inTx := true), s.pendingTid.value, env, shardCount);
      if p.ok {
        CompleteStep(Continue(p.state, ThenBegin, p.events), env, shardCount);
      }
    }
  }

  /** A data statement outside a transaction: it uses the tid up and is sent once, as it stands. */
  lemma AutocommitDispatch(s: State, sql: string, env: Env, shardCount: nat)
    requires Coherent(s) && !s.inTx
    ensures DispatchSpec(s, Data(sql), env, shardCount) ==
      if s.pendingTid.None? then Fail(s, Data(sql), [])
      else
        var tid, h := s.pendingTid.value, LookupHostIndex(env.lookup, shardCount);
        if h.None? then Fail(s, Data(sql), [])
        else
          var sent, used := [LookedUp(tid, h.value), Pooled(h.value, sql)], s.(pendingTid := None);
          if env.query then Finish(used, Data(sql), sent) else Fail(used, Data(sql), sent)
  {
    var t := Start(s, Data(sql));
    CompleteStep(t, env, shardCount);
    if s.pendingTid.Some? {
      var u := Step(t, env, shardCount);
      CompleteStep(u, env, shardCount);
      if !u.await.Idle? {
        CompleteStep(Step(u, env, shardCount), env, shardCount);
      }
    }
  }

  /** A data statement in a transaction: it is sent once, as it stands, on the transaction's client. */
  lemma TransactionDispatch(s: State, sql: string, env: Env, shardCount: nat)
    requires Coherent(s) && s.inTx
    ensures DispatchSpec(s, Data(sql), env, shardCount) ==
      if s.pendingTid.None? then Fail(s, Data(sql), [])
      else
        var p := Pinning(s, s.pendingTid.value, env, shardCount);
        if !p.ok then Fail(p.state, Data(sql), p.events)
        else if p.state.txClient.None? then Fail(p.state, Data(sql), p.events + [Unsent(p.state.pinned.value)])
        else
          var shard, c := p.state.pinned.value, p.state.txClient.value;
          var sent := p.events + [Sent(shard, c, DataCmd(sql)), Acked(c, DataCmd(sql), env.query)];
          if env.query then Finish(p.state, Data(sql), sent) else Fail(p.state, Data(sql), sent)
  {
    var t := Start(s, Data(sql));
    if s.pendingTid.None? {
      CompleteStep(t, env, shardCount);
    } else {
      PinningIs(s, s.pendingTid.value, ThenData(sql), env, shardCount);
      var p := Pinning(s, s.pendingTid.value, env, shardCount);
      if p.ok {
        SendingIs(p.state, sql, p.events, env, shardCount);
      }
    }
  }

  lemma SendingIs(s: State, sql: string, before: seq<Event>, env: Env, shardCount: nat)
    requires Coherent(s) && s.pinned.Some?
    ensures Complete(Continue(s, ThenData(sql), before), env, shardCount) ==
      if s.txClient.None? then Fail(s, Data(sql), before + [Unsent(s.pinned.value)])
      else
        var sent := before + [Sent(s.pinned.value, s.txClient.value, DataCmd(sql)),
                              Acked(s.txClient.value, DataCmd(sql), env.query)];
        if env.query then Finish(s, Data(sql), sent) else Fail(s, Data(sql), sent)
  {
    var t := Continue(s, ThenData(sql), before);
    CompleteStep(t, env, shardCount);
    if s.txClient.Some? {
      var u := Step(t, env, shardCount);
      CompleteStep(u, env, shardCount);
      var sent, ack := [Sent(s.pinned.value, s.txClient.value, DataCmd(sql))],
                       [Acked(s.txClient.value, DataCmd(sql), env.query)];
      assert u.events == before + sent + (ack + [Ended(Data(sql), env.query)]);
      assert before + sent + (ack + [Ended(Data(sql), env.query)])
        == before + (sent + ack) + [Ended(Data(sql), env.query)];
      assert sent + ack == [Sent(s.pinned.value, s.txClient.value, DataCmd(sql)),
                            Acked(s.txClient.value, DataCmd(sql), env.query)];
    }
  }

  // ----- the class --------------------------------------------------------------------------

  /** The session object of src/proxy/session.ts, with its trace as a ghost field. */
  class ProxySession {
    const shardCount: nat
    var pendingTid: Option<string>
    var inTx: bool
    var pinnedIndex: Option<nat>
    var txClient: Option<ClientId>
    var backendInTx: bool
    var txStatus: char
    ghost var trace: seq<Event>

    constructor (shards: nat)
      ensures shardCount == shards && Now() == INITIAL && trace == [] && Valid()
    {
      shardCount := shards;
      pendingTid, inTx, pinnedIndex, txClient, backendInTx, txStatus := None, false, None, None, false, 'I';
      trace := [];
    }

    ghost function Now(): State
      reads this
    {
      State(pendingTid, inTx, pinnedIndex, txClient, backendInTx, txStatus)
    }

    ghost predicate Valid()
      reads this
    {
      Coherent(Now())
    }

    /** The trace grew by these events, ending with the statement's outcome. */
    twostate predicate Did(events: seq<Event>, kind: Kind, ok: bool)
      reads this
    {
      trace == old(trace) + events && events != [] && events[|events| - 1] == Ended(kind, ok)
    }

    /** One statement; `ok` is false where the code throws. */
    method Dispatch(kind: Kind, env: Env) returns (ok: bool)
      requires Valid()
      modifies this
      ensures Valid() && Now() == DispatchSpec(old(Now()), kind, env, shardCount).state
      ensures trace == old(trace) + DispatchSpec(old(Now()), kind, env, shardCount).events
      ensures ok == !Threw(DispatchSpec(old(Now()), kind, env, shardCount), kind)
    {
      match kind {
        case SetTid(tid) =>
          ok := SetTenant(tid, env);
        case ResetTid =>
          ok := !inTx;
          if ok {
            pendingTid := None;
          }
          trace := trace + [Ended(kind, ok)];
        case Begin =>
          ok := BeginTransaction(env);
        case Data(sql) =>
          ok := RunData(sql, env);
        case _ =>
          ok := EndTransaction(kind, env);
      }
    }

    /** The statements of one query string; an error leaves the rest undone. */
    method RunSql(kinds: seq<Kind>, envs: seq<Env>) returns (ok: bool)
      requires Valid() && |envs| == |kinds|
      modifies this
      ensures Valid() && Now() == RunSqlSpec(old(Now()), kinds, envs, shardCount).state
      ensures trace == old(trace) + RunSqlSpec(old(Now()), kinds, envs, shardCount).events
      ensures ok == RunSqlSpec(old(Now()), kinds, envs, shardCount).ok
    {
      hide DispatchSpec, Coherent, RunStatements, Threw, RestOfSql;
      if kinds == [] {
        return true;
      }
      ghost var whole := RunStatements(Now(), kinds, envs, shardCount);
      ghost var events: seq<Event> := [];
      RunFromStart(Now(), kinds, envs, shardCount);
      for i := 0 to |kinds|
        invariant Valid() && trace == old(trace) + events
        invariant RestOfSql(Now(), kinds, envs, i, events, shardCount) == whole
      {
        RunSqlStep(Now(), kinds, envs, i, events, shardCount);
        events := events + DispatchSpec(Now(), kinds[i], envs[i], shardCount).events;
        var done := Dispatch(kinds[i], envs[i]);
        if !done {
          return false;
        }
      }
      RunNothing(Now(), kinds, envs, events, shardCount);
      txStatus := if inTx then 'T' else 'I';
      ok := true;
    }

    method SetTenant(tid: string, env: Env) returns (ok: bool)
      requires Valid()
      modifies this
      ensures Valid() && Now() == DispatchSpec(old(Now()), SetTid(tid), env, shardCount).state
      ensures Did(DispatchSpec(old(Now()), SetTid(tid), env, shardCount).events, SetTid(tid), ok)
    {
      hide DispatchSpec;
      SetDispatch(Now(), tid, env, shardCount);
      ghost var events: seq<Event> := [];
      ok := tid != "";
      if ok && inTx && pinnedIndex.Some? {
        var next := LookupHostIndex(env.lookup, shardCount);
        if next.Some? {
          events := [LookedUp(tid, next.value)];
        }
        ok := next == pinnedIndex;
      }
      if ok {
        pendingTid := Some(tid);
      }
      trace := trace + (events + [Ended(SetTid(tid), ok)]);
    }

    method BeginTransaction(env: Env) returns (ok: bool)
      requires Valid()
      modifies this
      ensures Valid() && Now() == DispatchSpec(old(Now()), Begin, env, shardCount).state
      ensures Did(DispatchSpec(old(Now()), Begin, env, shardCount).events, Begin, ok)
    {
      ok := true;
      inTx := true;
      ghost var events: seq<Event> := [];
      if pendingTid.Some? {
        ok, events := EnsurePinned(pendingTid.value, env, ThenBegin);
      }
      if ok {
        txStatus := 'T';
      }
      trace := trace + [Ended(Begin, ok)];
      assert DispatchSpec(old(Now()), Begin, env, shardCount).events == events + [Ended(Begin, ok)];
    }

    method EndTransaction(kind: Kind, env: Env) returns (ok: bool)
      requires Valid() && (kind.Commit? || kind.Rollback?)
      modifies this
      ensures Valid() && Now() == DispatchSpec(old(Now()), kind, env, shardCount).state
      ensures Did(DispatchSpec(old(Now()), kind, env, shardCount).events, kind, ok)
    {
      hide DispatchSpec;
      EndDispatch(Now(), kind, env, shardCount);
      ok := true;
      ghost var events: seq<Event> := [];
      if txClient.Some? {
        ok := env.query;
        events := [Sent(pinnedIndex.value, txClient.value, EndCmd(kind)), Acked(txClient.value, EndCmd(kind), ok)];
        if ok {
          events := events + [Release(txClient.value)];
          txClient := None;
        }
      }
      if ok {
        inTx := false;
        backendInTx := false;
        pinnedIndex := None;
        pendingTid := None;
        txStatus := 'I';
      }
      trace := trace + (events + [Ended(kind, ok)]);
    }

    /** Look the tid up and, the first time in a transaction, check out a client and open it there. */
    method EnsurePinned(tid: string, env: Env, ghost next: AfterPin) returns (ok: bool, ghost events: seq<Event>)
      requires Valid() && inTx && pendingTid == Some(tid)
      modifies this
      ensures Valid() && inTx && pendingTid == old(pendingTid) && txStatus == old(txStatus)
      ensures trace == old(trace) + events && (ok ==> pinnedIndex.Some?)
      ensures Complete(Turn(old(Now()), PinLookup(tid, next), []), env, shardCount)
           == if ok then Complete(Continue(Now(), next, events), env, shardCount)
             else Fail(Now(), KindAfter(next), events)
    {
      hide Start;
      ghost var t := Turn(Now(), PinLookup(tid, next), []);
      CompleteStep(t, env, shardCount);
      t := Step(t, env, shardCount);
      events := [];
      var hostIndex := LookupHostIndex(env.lookup, shardCount);
      if hostIndex.None? {
        return false, events;
      }
      events := [LookedUp(tid, hostIndex.value)];
      trace := trace + events;
      if pinnedIndex.Some? && pinnedIndex != hostIndex {
        assert t == Fail(Now(), KindAfter(next), events);
        return false, events;
      }
      ok := true;
      if pinnedIndex.None? {
        pinnedIndex := hostIndex;
        assert t == Turn(Now(), PinConnect(hostIndex.value, next), events);
        ok, events := OpenClient(hostIndex.value, env, next, events);
      }
    }

    /** The first statement of a transaction that has a tid: connect and BEGIN. */
    method OpenClient(hostIndex: nat, env: Env, ghost next: AfterPin, ghost before: seq<Event>)
      returns (ok: bool, ghost events: seq<Event>)
      requires Valid() && pinnedIndex == Some(hostIndex) && txClient == None && pendingTid.Some?
      modifies this
      ensures Valid() && inTx && pendingTid == old(pendingTid) && txStatus == old(txStatus) && pinnedIndex.Some?
      ensures before <= events && trace == old(trace) + events[|before|..]
      ensures Complete(Turn(old(Now()), PinConnect(hostIndex, next), before), env, shardCount)
           == if ok then Complete(Continue(Now(), next, events), env, shardCount)
             else Fail(Now(), KindAfter(next), events)
    {
      ghost var t := Turn(Now(), PinConnect(hostIndex, next), before);
      CompleteStep(t, env, shardCount);
      t := Step(t, env, shardCount);
      events := before;
      if env.checkout.None? {
        trace := trace + [NoClient(hostIndex)];
        return false, events + [NoClient(hostIndex)];
      }
      txClient := env.checkout;
      ghost var began := [Checkout(hostIndex, txClient.value), Sent(hostIndex, txClient.value, BeginCmd)];
      ghost var acked := [Acked(txClient.value, BeginCmd, env.begin)];
      ok := true;
      if inTx && !backendInTx {
        assert t == Turn(Now(), PinBegin(hostIndex, next), before + began);
        CompleteStep(t, env, shardCount);
        t := Step(t, env, shardCount);
        ok := env.begin;
        if ok {
          backendInTx := true;
        }
        events := before + began + acked;
        assert t == if ok then Continue(Now(), next, events) else Fail(Now(), KindAfter(next), events);
      }
      trace := trace + events[|before|..];
    }

    method RunData(sql: string, env: Env) returns (ok: bool)
      requires Valid()
      modifies this
      ensures Valid() && Now() == DispatchSpec(old(Now()), Data(sql), env, shardCount).state
      ensures Did(DispatchSpec(old(Now()), Data(sql), env, shardCount).events, Data(sql), ok)
    {
      if pendingTid.None? {
        ok := false;
        trace := trace + [Ended(Data(sql), ok)];
      } else if inTx {
        ok := RunInTransaction(sql, env);
      } else {
        ok := RunAutocommit(sql, env);
      }
    }

    method RunInTransaction(sql: string, env: Env) returns (ok: bool)
      requires Valid() && pendingTid.Some? && inTx
      modifies this
      ensures Valid() && Now() == DispatchSpec(old(Now()), Data(sql), env, shardCount).state
      ensures Did(DispatchSpec(old(Now()), Data(sql), env, shardCount).events, Data(sql), ok)
    {
      ghost var events;
      ok, events := EnsurePinned(pendingTid.value, env, ThenData(sql));
      ghost var t := if ok then Continue(Now(), ThenData(sql), events) else Fail(Now(), Data(sql), events);
      CompleteStep(t, env, shardCount);
      if ok && txClient.None? {
        events := events + [Unsent(pinnedIndex.value)];
        trace := trace + [Unsent(pinnedIndex.value)];
        ok := false;
      } else if ok {
        t := Step(t, env, shardCount);
        CompleteStep(t, env, shardCount);
        ghost var sent := [Sent(pinnedIndex.value, txClient.value, DataCmd(sql))];
        ghost var acked := [Acked(txClient.value, DataCmd(sql), env.query)];
        trace := trace + sent + acked;
        events := events + sent + acked;
        ok := env.query;
      }
      trace := trace + [Ended(Data(sql), ok)];
      assert t == Turn(Now(), Idle, events + [Ended(Data(sql), ok)]);
    }

    method RunAutocommit(sql: string, env: Env) returns (ok: bool)
      requires Valid() && pendingTid.Some? && !inTx
      modifies this
      ensures Valid() && Now() == DispatchSpec(old(Now()), Data(sql), env, shardCount).state
      ensures Did(DispatchSpec(old(Now()), Data(sql), env, shardCount).events, Data(sql), ok)
    {
      ghost var t := Start(Now(), Data(sql));
      CompleteStep(t, env, shardCount);
      t := Step(t, env, shardCount);
      CompleteStep(t, env, shardCount);
      ghost var events: seq<Event> := [];
      var hostIndex := LookupHostIndex(env.lookup, shardCount);
      ok := hostIndex.Some?;
      if ok {
        events := [LookedUp(pendingTid.value, hostIndex.value), Pooled(hostIndex.value, sql)];
        pendingTid := None;
        trace := trace + events;
        ok := env.query;
        assert t == Turn(Now(), AutoQuery(sql), events);
        t := Step(t, env, shardCount);
        CompleteStep(t, env, shardCount);
      }
      trace := trace + [Ended(Data(sql), ok)];
      assert t == Turn(Now(), Idle, events + [Ended(Data(sql), ok)]);
    }

    /** On socket error or close: roll back, release, forget. */
    method Cleanup(env: Env)
      requires Valid()
      modifies this
      ensures Valid() && Now() == Complete(StartCleanup(old(Now())), env, shardCount).state
      ensures trace == old(trace) + Complete(StartCleanup(old(Now())), env, shardCount).events
    {
      ghost var events: seq<Event> := [];
      if txClient.Some? {
        events := [CleanupSent(txClient.value), Release(txClient.value)];
        txClient := None;
      }
      inTx := false;
      backendInTx := false;
      pinnedIndex := None;
      pendingTid := None;
      trace := trace + events + [Cleaned];
      assert Complete(StartCleanup(old(Now())), env, shardCount).events == events + [Cleaned];
    }
  }
}
