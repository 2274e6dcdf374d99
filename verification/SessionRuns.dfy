/** What every run of one session keeps, whatever the environment answers. */
module SessionRuns {
  import opened Wrappers
  import opened Session

  // ----- what a trace says, independently of the session's fields ---------------------------

  /** The tid in force: the last successful SET since the last COMMIT, ROLLBACK or RESET and,
      outside a transaction, since the last statement that was sent. */
  function TidAfter(tid: Option<string>, e: Event): Option<string> {
    match e
    case Ended(SetTid(t), true) => Some(t)
    case Ended(ResetTid, true) => None
    case Ended(Commit, true) => None
    case Ended(Rollback, true) => None
    case Pooled(_, _) => None
    case Cleaned => None
    case _ => tid
  }

  function TidInForce(trace: seq<Event>): Option<string> {
    if trace == [] then None else TidAfter(TidInForce(trace[..|trace| - 1]), trace[|trace| - 1])
  }

  datatype Placement = Placement(tid: string, shard: nat)

  /** The last answer of the lookup service. */
  function LastLookup(trace: seq<Event>): Option<Placement> {
    if trace == [] then None
    else match trace[|trace| - 1]
      case LookedUp(tid, shard) => Some(Placement(tid, shard))
      case _ => LastLookup(trace[..|trace| - 1])
  }

  predicate EndsTransaction(e: Event) {
    e == Ended(Commit, true) || e == Ended(Rollback, true) || e == Cleaned
  }

  datatype Home = Home(shard: nat, client: ClientId)

  /** Where the last data statement of the current transaction went. */
  function HomeOf(trace: seq<Event>): Option<Home> {
    if trace == [] then None
    else
      var e := trace[|trace| - 1];
      if EndsTransaction(e) then None
      else if e.Sent? && e.command.DataCmd? then Some(Home(e.shard, e.client))
      else HomeOf(trace[..|trace| - 1])
  }

  /** A checkout, respectively a backend BEGIN, failed in the current transaction. */
  predicate CheckoutFailed(trace: seq<Event>) {
    trace != []
    && var e := trace[|trace| - 1];
       !EndsTransaction(e) && (e.NoClient? || CheckoutFailed(trace[..|trace| - 1]))
  }

  predicate BeginFailed(trace: seq<Event>) {
    trace != []
    && var e := trace[|trace| - 1];
       !EndsTransaction(e) && ((e.Acked? && e.command.BeginCmd? && !e.ok) || BeginFailed(trace[..|trace| - 1]))
  }

  /** The life of one checked-out client; `begun` says that its BEGIN succeeded. */
  datatype Phase =
    | Fresh | Out | Opening
    | Live(begun: bool) | Busy(begun: bool) | Ending(begun: bool)
    | Over | Released | Misused

  function NextPhase(p: Phase, c: ClientId, e: Event): Phase {
    match e
    case Checkout(_, d) => if c != d then p else if p.Fresh? then Out else Misused
    case Sent(_, d, command) =>
      if c != d then p
      else if p.Out? && command.BeginCmd? then Opening
      else if p.Live? && command.DataCmd? then Busy(p.begun)
      else if p.Live? && command.EndCmd? then Ending(p.begun)
      else Misused
    case Acked(d, command, ok) =>
      if c != d then p
      else if p.Opening? && command.BeginCmd? then Live(ok)
      else if p.Busy? && command.DataCmd? then Live(p.begun)
      else if p.Ending? && command.EndCmd? then (if ok then Over else Live(p.begun))
      else Misused
    case CleanupSent(d) => if c != d then p else if p.Live? then Over else Misused
    case Release(d) => if c != d then p else if p.Over? then Released else Misused
    case _ => p
  }

  function PhaseOf(trace: seq<Event>, c: ClientId): Phase {
    if trace == [] then Fresh else NextPhase(PhaseOf(trace[..|trace| - 1], c), c, trace[|trace| - 1])
  }

  /** Every data statement goes to the shard that Lookup just returned for the tid in force, and
      stays where the transaction already is; one is lost only after a failed checkout. */
  ghost predicate SentSafely(before: seq<Event>, e: Event) {
    match e
    case Sent(shard, client, DataCmd(_)) =>
      && TidInForce(before).Some?
      && LastLookup(before) == Some(Placement(TidInForce(before).value, shard))
      && (HomeOf(before).Some? ==> HomeOf(before) == Some(Home(shard, client)))
    case Pooled(shard, _) =>
      TidInForce(before).Some? && LastLookup(before) == Some(Placement(TidInForce(before).value, shard))
    case Unsent(_) => CheckoutFailed(before)
    case _ => true
  }

  ghost predicate Safe(trace: seq<Event>) {
    forall k :: 0 <= k < |trace| ==> SentSafely(trace[..k], trace[k])
  }

  // ----- runs -------------------------------------------------------------------------------

  datatype Action = Statement(kind: Kind) | Reply(answer: Answer) | Close

  datatype Proxy = Proxy(state: State, await: Await, trace: seq<Event>)

  const START := Proxy(INITIAL, Idle, [])

  function After(p: Proxy, t: Turn): Proxy { Proxy(t.state, t.await, p.trace + t.events) }

  /** Statements and cleanup start between dispatches; a checkout gives a client not seen before. */
  ghost predicate Enabled(p: Proxy, a: Action) {
    match a
    case Statement(_) => p.await.Idle?
    case Close => p.await.Idle?
    case Reply(answer) =>
      && Matches(p.await, answer)
      && (answer.ConnectAnswer? && answer.client.Some? ==> PhaseOf(p.trace, answer.client.value).Fresh?)
  }

  ghost predicate WellFormed(p: Proxy) { Coherent(p.state) && Suspended(p.state, p.await) }

  function Act(p: Proxy, a: Action, shardCount: nat): Proxy
    requires WellFormed(p) && Enabled(p, a)
  {
    match a
    case Statement(kind) => After(p, Start(p.state, kind))
    case Close => After(p, StartCleanup(p.state))
    case Reply(answer) => After(p, Resume(p.state, p.await, answer, shardCount))
  }

  /** The runs of a session: any statements, any answers, cleanup at any statement boundary. */
  ghost predicate IsRun(run: seq<Proxy>, actions: seq<Action>, shardCount: nat) {
    && |run| == |actions| + 1 && run[0] == START
    && forall i :: 0 <= i < |actions| ==>
         WellFormed(run[i]) && Enabled(run[i], actions[i]) && run[i + 1] == Act(run[i], actions[i], shardCount)
  }

  // ----- the invariant ----------------------------------------------------------------------

  /** The phase of the client that the session holds. */
  ghost predicate Holds(p: Proxy, phase: Phase) {
    match p.await
    case PinBegin(_, _) => phase.Opening?
    case TxQuery(_) => phase == Busy(p.state.backendInTx)
    case EndQuery(_) => phase == Ending(p.state.backendInTx)
    case CleanupRollback => phase == Over
    case _ => phase == Live(p.state.backendInTx)
  }

  ghost predicate ClientsInStep(p: Proxy) {
    forall c: ClientId ::
      if p.state.txClient == Some(c) then Holds(p, PhaseOf(p.trace, c))
      else PhaseOf(p.trace, c).Fresh? || PhaseOf(p.trace, c).Released?
  }

  ghost predicate AwaitInStep(p: Proxy) {
    match p.await
    case PinConnect(shard, _) =>
      p.state.pendingTid.Some? && LastLookup(p.trace) == Some(Placement(p.state.pendingTid.value, shard))
    case PinBegin(shard, _) =>
      p.state.pendingTid.Some? && LastLookup(p.trace) == Some(Placement(p.state.pendingTid.value, shard))
    case _ => true
  }

  ghost predicate FieldsInStep(p: Proxy) {
    && p.state.pendingTid == TidInForce(p.trace)
    && (HomeOf(p.trace).Some? ==>
          p.state.pinned == Some(HomeOf(p.trace).value.shard) && p.state.txClient == Some(HomeOf(p.trace).value.client))
    && (CheckoutFailed(p.trace) <==> p.state.pinned.Some? && p.state.txClient.None? && !p.await.PinConnect?)
    && (BeginFailed(p.trace) <==> p.state.txClient.Some? && !p.state.backendInTx && !p.await.PinBegin?)
  }

  ghost predicate Inv(p: Proxy) {
    WellFormed(p) && FieldsInStep(p) && AwaitInStep(p) && ClientsInStep(p) && Safe(p.trace)
  }

  // ----- one event at a time ----------------------------------------------------------------

  lemma Snoc(trace: seq<Event>, e: Event)
    ensures TidInForce(trace + [e]) == TidAfter(TidInForce(trace), e)
    ensures LastLookup(trace + [e]) == if e.LookedUp? then Some(Placement(e.tid, e.shard)) else LastLookup(trace)
    ensures HomeOf(trace + [e]) == if EndsTransaction(e) then None
      else if e.Sent? && e.command.DataCmd? then Some(Home(e.shard, e.client)) else HomeOf(trace)
    ensures CheckoutFailed(trace + [e]) <==> !EndsTransaction(e) && (e.NoClient? || CheckoutFailed(trace))
    ensures BeginFailed(trace + [e])
       <==> !EndsTransaction(e) && ((e.Acked? && e.command.BeginCmd? && !e.ok) || BeginFailed(trace))
    ensures forall c :: PhaseOf(trace + [e], c) == NextPhase(PhaseOf(trace, c), c, e)
    ensures Safe(trace + [e]) <==> Safe(trace) && SentSafely(trace, e)
  {
    assert (trace + [e])[..|trace|] == trace;
    if Safe(trace + [e]) {
      forall k | 0 <= k < |trace| ensures SentSafely(trace[..k], trace[k]) {
        assert (trace + [e])[..k] == trace[..k] && (trace + [e])[k] == trace[k];
      }
      assert SentSafely((trace + [e])[..|trace|], (trace + [e])[|trace|]);
    }
    if Safe(trace) && SentSafely(trace, e) {
      forall k | 0 <= k < |trace + [e]| ensures SentSafely((trace + [e])[..k], (trace + [e])[k]) {
        if k < |trace| {
          assert (trace + [e])[..k] == trace[..k] && (trace + [e])[k] == trace[k];
        }
      }
    }
  }

  lemma StartInv()
    ensures Inv(START)
  {
  }

  // ----- the invariant is kept --------------------------------------------------------------

  /** Everything that is said of a trace, unfolded over up to three appended events. */
  lemma Grow(trace: seq<Event>, events: seq<Event>)
    requires |events| <= 3
    ensures events == [] ==> trace + events == trace
    ensures |events| == 1 ==> trace + events == trace + [events[0]]
    ensures |events| == 2 ==> trace + events == trace + [events[0]] + [events[1]]
    ensures |events| == 3 ==> trace + events == trace + [events[0]] + [events[1]] + [events[2]]
  {
  }

  lemma StatementKeeps(p: Proxy, kind: Kind, shardCount: nat)
    requires Inv(p) && p.await.Idle?
    ensures Inv(Act(p, Statement(kind), shardCount))
  {
    hide Safe, TidInForce, LastLookup, HomeOf, CheckoutFailed, BeginFailed, PhaseOf;
    var t := Start(p.state, kind);
    Grow(p.trace, t.events);
    if |t.events| == 1 {
      Snoc(p.trace, t.events[0]);
    }
  }

  lemma CloseKeeps(p: Proxy, shardCount: nat)
    requires Inv(p) && p.await.Idle?
    ensures Inv(Act(p, Close, shardCount))
  {
    hide Safe, TidInForce, LastLookup, HomeOf, CheckoutFailed, BeginFailed, PhaseOf;
    var t := StartCleanup(p.state);
    Grow(p.trace, t.events);
    Snoc(p.trace, t.events[0]);
  }

  /** One reply, for a dispatch suspended at a lookup. */
  lemma LookupReplyKeeps(p: Proxy, answer: Answer, shardCount: nat)
    requires Inv(p) && Enabled(p, Reply(answer)) && (p.await.SetLookup? || p.await.AutoLookup?)
    ensures Inv(Act(p, Reply(answer), shardCount))
  {
    hide Safe, TidInForce, LastLookup, HomeOf, CheckoutFailed, BeginFailed, PhaseOf;
    var t := Resume(p.state, p.await, answer, shardCount);
    Grow(p.trace, t.events);
    Snoc(p.trace, t.events[0]);
    if |t.events| > 1 {
      Snoc(p.trace + [t.events[0]], t.events[1]);
    }
  }

  lemma PinLookupReplyKeeps(p: Proxy, answer: Answer, shardCount: nat)
    requires Inv(p) && Enabled(p, Reply(answer)) && p.await.PinLookup?
    ensures Inv(Act(p, Reply(answer), shardCount))
  {
    hide Inv, Act;
    if p.state.pinned.None? {
      FirstLookupKeeps(p, answer, shardCount);
    } else {
      LaterLookupKeeps(p, answer, shardCount);
    }
  }

  lemma FirstLookupKeeps(p: Proxy, answer: Answer, shardCount: nat)
    requires Inv(p) && Enabled(p, Reply(answer)) && p.await.PinLookup? && p.state.pinned.None?
    ensures Inv(Act(p, Reply(answer), shardCount))
  {
    hide Safe, TidInForce, LastLookup, HomeOf, CheckoutFailed, BeginFailed, PhaseOf;
    var t := Resume(p.state, p.await, answer, shardCount);
    Grow(p.trace, t.events);
    Snoc(p.trace, t.events[0]);
  }

  lemma LaterLookupKeeps(p: Proxy, answer: Answer, shardCount: nat)
    requires Inv(p) && Enabled(p, Reply(answer)) && p.await.PinLookup? && p.state.pinned.Some?
    ensures Inv(Act(p, Reply(answer), shardCount))
  {
    hide Safe, TidInForce, LastLookup, HomeOf, CheckoutFailed, BeginFailed, PhaseOf;
    var t := Resume(p.state, p.await, answer, shardCount);
    Grow(p.trace, t.events);
    Snoc(p.trace, t.events[0]);
    if |t.events| > 1 {
      Snoc(p.trace + [t.events[0]], t.events[1]);
    }
    if |t.events| > 2 {
      Snoc(p.trace + [t.events[0]] + [t.events[1]], t.events[2]);
    }
  }

  lemma ConnectReplyKeeps(p: Proxy, answer: Answer, shardCount: nat)
    requires Inv(p) && Enabled(p, Reply(answer)) && p.await.PinConnect?
    ensures Inv(Act(p, Reply(answer), shardCount))
  {
    hide Safe, TidInForce, LastLookup, HomeOf, CheckoutFailed, BeginFailed, PhaseOf;
    var t := Resume(p.state, p.await, answer, shardCount);
    Grow(p.trace, t.events);
    Snoc(p.trace, t.events[0]);
    if |t.events| > 1 {
      Snoc(p.trace + [t.events[0]], t.events[1]);
    }
  }

  lemma BeginReplyKeeps(p: Proxy, answer: Answer, shardCount: nat)
    requires Inv(p) && Enabled(p, Reply(answer)) && p.await.PinBegin?
    ensures Inv(Act(p, Reply(answer), shardCount))
  {
    hide Safe, TidInForce, LastLookup, HomeOf, CheckoutFailed, BeginFailed, PhaseOf;
    var t := Resume(p.state, p.await, answer, shardCount);
    Grow(p.trace, t.events);
    Snoc(p.trace, t.events[0]);
    if |t.events| > 1 {
      Snoc(p.trace + [t.events[0]], t.events[1]);
    }
  }

  lemma DataReplyKeeps(p: Proxy, answer: Answer, shardCount: nat)
    requires Inv(p) && Enabled(p, Reply(answer)) && (p.await.TxQuery? || p.await.AutoQuery?)
    ensures Inv(Act(p, Reply(answer), shardCount))
  {
    hide Safe, TidInForce, LastLookup, HomeOf, CheckoutFailed, BeginFailed, PhaseOf;
    var t := Resume(p.state, p.await, answer, shardCount);
    Grow(p.trace, t.events);
    Snoc(p.trace, t.events[0]);
    if |t.events| > 1 {
      Snoc(p.trace + [t.events[0]], t.events[1]);
    }
  }

  lemma EndReplyKeeps(p: Proxy, answer: Answer, shardCount: nat)
    requires Inv(p) && Enabled(p, Reply(answer)) && (p.await.EndQuery?)
    ensures Inv(Act(p, Reply(answer), shardCount))
  {
    hide Safe, TidInForce, LastLookup, HomeOf, CheckoutFailed, BeginFailed, PhaseOf;
    var t := Resume(p.state, p.await, answer, shardCount);
    Grow(p.trace, t.events);
    Snoc(p.trace, t.events[0]);
    if |t.events| > 1 {
      Snoc(p.trace + [t.events[0]], t.events[1]);
    }
    if |t.events| > 2 {
      Snoc(p.trace + [t.events[0]] + [t.events[1]], t.events[2]);
    }
  }

  lemma CleanupReplyKeeps(p: Proxy, answer: Answer, shardCount: nat)
    requires Inv(p) && Enabled(p, Reply(answer)) && (p.await.CleanupRollback?)
    ensures Inv(Act(p, Reply(answer), shardCount))
  {
    hide Safe, TidInForce, LastLookup, HomeOf, CheckoutFailed, BeginFailed, PhaseOf;
    var t := Resume(p.state, p.await, answer, shardCount);
    Grow(p.trace, t.events);
    Snoc(p.trace, t.events[0]);
    if |t.events| > 1 {
      Snoc(p.trace + [t.events[0]], t.events[1]);
    }
  }

  lemma ActKeeps(p: Proxy, a: Action, shardCount: nat)
    requires Inv(p) && Enabled(p, a)
    ensures Inv(Act(p, a, shardCount))
  {
    hide Inv, Act;
    match a
    case Statement(kind) => StatementKeeps(p, kind, shardCount);
    case Close => CloseKeeps(p, shardCount);
    case Reply(answer) =>
      match p.await
      case SetLookup(_) => LookupReplyKeeps(p, answer, shardCount);
      case PinLookup(_, _) => PinLookupReplyKeeps(p, answer, shardCount);
      case AutoLookup(_, _) => LookupReplyKeeps(p, answer, shardCount);
      case PinConnect(_, _) => ConnectReplyKeeps(p, answer, shardCount);
      case PinBegin(_, _) => BeginReplyKeeps(p, answer, shardCount);
      case EndQuery(_) => EndReplyKeeps(p, answer, shardCount);
      case CleanupRollback => CleanupReplyKeeps(p, answer, shardCount);
      case _ => DataReplyKeeps(p, answer, shardCount);
  }

  lemma {:induction false} RunKeeps(run: seq<Proxy>, actions: seq<Action>, shardCount: nat, i: nat)
    requires IsRun(run, actions, shardCount) && i < |run|
    ensures Inv(run[i])
  {
    hide Inv, Act, WellFormed, Enabled;
    if i == 0 {
      StartInv();
    } else {
      RunKeeps(run, actions, shardCount, i - 1);
      assert run[i - 1 + 1] == run[i];
      ActKeeps(run[i - 1], actions[i - 1], shardCount);
    }
  }

  // ----- what follows for every run ---------------------------------------------------------

  /**
   Routing: every data statement that reaches a backend goes to the shard that Lookup returned last,
   for the tid in force, and all data statements of one transaction go to one client of one shard.
   */
  lemma RoutingIsSafe(run: seq<Proxy>, actions: seq<Action>, shardCount: nat, k: nat)
    requires IsRun(run, actions, shardCount) && k < |run[|actions|].trace|
    ensures var trace := run[|actions|].trace;
      match trace[k]
      case Sent(shard, client, DataCmd(_)) =>
        && TidInForce(trace[..k]).Some?
        && LastLookup(trace[..k]) == Some(Placement(TidInForce(trace[..k]).value, shard))
        && forall j :: 0 <= j < k && trace[j].Sent? && trace[j].command.DataCmd?
             && (forall m :: j < m < k ==> !EndsTransaction(trace[m]))
             ==> trace[j].shard == shard && trace[j].client == client
      case Pooled(shard, _) =>
        TidInForce(trace[..k]).Some? && LastLookup(trace[..k]) == Some(Placement(TidInForce(trace[..k]).value, shard))
      case _ => true
  {
    hide TidInForce, LastLookup, HomeOf, PhaseOf, WellFormed, FieldsInStep, AwaitInStep, ClientsInStep, Act;
    RunKeeps(run, actions, shardCount, |actions|);
    var trace := run[|actions|].trace;
    assert SentSafely(trace[..k], trace[k]);
    if trace[k].Sent? && trace[k].command.DataCmd? {
      forall j | 0 <= j < k && trace[j].Sent? && trace[j].command.DataCmd?
        && (forall m :: j < m < k ==> !EndsTransaction(trace[m]))
        ensures trace[j].shard == trace[k].shard && trace[j].client == trace[k].client
      {
        HomeStays(trace, j, k);
      }
    }
  }

  lemma {:induction false} HomeStays(trace: seq<Event>, j: nat, k: nat)
    requires Safe(trace) && j < k <= |trace| && trace[j].Sent? && trace[j].command.DataCmd?
    requires forall m :: j < m < k ==> !EndsTransaction(trace[m])
    ensures HomeOf(trace[..k]) == Some(Home(trace[j].shard, trace[j].client))
  {
    hide Safe, SentSafely;
    assert trace[..k][..k - 1] == trace[..k - 1];
    if k - 1 > j {
      HomeStays(trace, j, k - 1);
      assert SentSafely(trace[..k - 1], trace[k - 1]) by { SafeAt(trace, k - 1); }
      if trace[k - 1].Sent? && trace[k - 1].command.DataCmd? {
        SentSafelyHome(trace[..k - 1], trace[k - 1]);
      }
    }
  }

  lemma SafeAt(trace: seq<Event>, k: nat)
    requires Safe(trace) && k < |trace|
    ensures SentSafely(trace[..k], trace[k])
  {
  }

  lemma SentSafelyHome(before: seq<Event>, e: Event)
    requires SentSafely(before, e) && e.Sent? && e.command.DataCmd? && HomeOf(before).Some?
    ensures HomeOf(before) == Some(Home(e.shard, e.client))
  {
  }

  /** At every statement boundary the three transaction fields agree, except after a failed checkout
      or a failed backend BEGIN in the same transaction, and exactly then they do not. */
  lemma FieldsAgree(run: seq<Proxy>, actions: seq<Action>, shardCount: nat, i: nat)
    requires IsRun(run, actions, shardCount) && i < |run| && run[i].await.Idle?
    ensures var s := run[i].state;
      && (s.backendInTx ==> s.txClient.Some?) && (s.txClient.Some? ==> s.pinned.Some?) && (s.pinned.Some? ==> s.inTx)
      && ((s.txClient.Some? <==> s.pinned.Some?) <==> !CheckoutFailed(run[i].trace))
      && ((s.backendInTx <==> s.txClient.Some?) <==> !BeginFailed(run[i].trace))
  {
    hide TidInForce, LastLookup, HomeOf, PhaseOf, CheckoutFailed, BeginFailed, AwaitInStep, ClientsInStep, Act, Safe;
    RunKeeps(run, actions, shardCount, i);
  }

  /**
   A client is checked out once, gets BEGIN first, then one command at a time, and is released once,
   after the first COMMIT or ROLLBACK that succeeds or by cleanup; between statements the only client
   not yet released is the one the session holds.
   */
  lemma ClientsAreUsedInOrder(run: seq<Proxy>, actions: seq<Action>, shardCount: nat, i: nat, c: ClientId)
    requires IsRun(run, actions, shardCount) && i < |run|
    ensures !PhaseOf(run[i].trace, c).Misused?
    ensures run[i].await.Idle? ==>
      if run[i].state.txClient == Some(c) then PhaseOf(run[i].trace, c) == Live(run[i].state.backendInTx)
      else PhaseOf(run[i].trace, c).Fresh? || PhaseOf(run[i].trace, c).Released?
  {
    hide TidInForce, LastLookup, HomeOf, PhaseOf, CheckoutFailed, BeginFailed, AwaitInStep, FieldsInStep, Act, Safe;
    RunKeeps(run, actions, shardCount, i);
  }

  lemma {:induction false} MisusedForever(trace: seq<Event>, k: nat, c: ClientId)
    requires k <= |trace| && PhaseOf(trace[..k], c).Misused?
    ensures PhaseOf(trace, c).Misused?
    decreases |trace|
  {
    if k < |trace| {
      assert trace[..|trace| - 1][..k] == trace[..k];
      MisusedForever(trace[..|trace| - 1], k, c);
    } else {
      assert trace[..k] == trace;
    }
  }

  /** The outcome of a client's BEGIN, once it is known. */
  ghost predicate BeginAnswered(trace: seq<Event>, c: ClientId, ok: bool) {
    exists j :: 0 <= j < |trace| && trace[j] == Acked(c, BeginCmd, ok)
  }

  lemma {:induction false} PhaseRemembersBegin(trace: seq<Event>, c: ClientId)
    requires !PhaseOf(trace, c).Misused?
    ensures var p := PhaseOf(trace, c);
      && (p.Live? || p.Busy? || p.Ending? ==> BeginAnswered(trace, c, p.begun) && !BeginAnswered(trace, c, !p.begun))
      && (p.Fresh? || p.Out? || p.Opening? ==> !BeginAnswered(trace, c, true) && !BeginAnswered(trace, c, false))
  {
    if trace == [] {
    } else {
      var n := |trace| - 1;
      assert trace[..n] + [trace[n]] == trace;
      PhaseRemembersBegin(trace[..n], c);
      assert forall ok :: BeginAnswered(trace, c, ok) <==>
                          BeginAnswered(trace[..n], c, ok) || trace[n] == Acked(c, BeginCmd, ok) by {
        forall ok | BeginAnswered(trace[..n], c, ok) ensures BeginAnswered(trace, c, ok) {
          var j :| 0 <= j < n && trace[..n][j] == Acked(c, BeginCmd, ok);
          assert trace[j] == Acked(c, BeginCmd, ok);
        }
        forall ok | BeginAnswered(trace, c, ok)
          ensures BeginAnswered(trace[..n], c, ok) || trace[n] == Acked(c, BeginCmd, ok)
        {
          var j :| 0 <= j < |trace| && trace[j] == Acked(c, BeginCmd, ok);
          if j < n { assert trace[..n][j] == Acked(c, BeginCmd, ok); }
        }
      }
    }
  }

  /**
   A data statement is sent on a client only after its BEGIN was answered, and it runs outside a
   backend transaction exactly when that answer was an error.
   */
  lemma DataFollowsBegin(run: seq<Proxy>, actions: seq<Action>, shardCount: nat, k: nat)
    requires IsRun(run, actions, shardCount) && k < |run[|actions|].trace|
    requires var e := run[|actions|].trace[k]; e.Sent? && e.command.DataCmd?
    ensures var trace := run[|actions|].trace; var c := trace[k].client;
      && PhaseOf(trace[..k], c).Live?
      && (PhaseOf(trace[..k], c).begun <==> BeginAnswered(trace[..k], c, true))
      && (!PhaseOf(trace[..k], c).begun <==> BeginAnswered(trace[..k], c, false))
  {
    var trace := run[|actions|].trace;
    var c := trace[k].client;
    ClientsAreUsedInOrder(run, actions, shardCount, |actions|, c);
    if PhaseOf(trace[..k + 1], c).Misused? {
      MisusedForever(trace, k + 1, c);
    }
    if PhaseOf(trace[..k], c).Misused? {
      MisusedForever(trace, k, c);
    }
    assert trace[..k + 1][..k] == trace[..k];
    PhaseRemembersBegin(trace[..k], c);
  }

  // ----- whole dispatches are runs ----------------------------------------------------------

  /** Running a suspended dispatch to its end is a sequence of replies. */
  lemma {:induction false} CompleteKeeps(start: seq<Event>, t: Turn, env: Env, shardCount: nat)
    requires Inv(Proxy(t.state, t.await, start + t.events))
    requires env.checkout.Some? && !t.await.Idle? && Rank(t.await) > 2
      ==> PhaseOf(start + t.events, env.checkout.value).Fresh?
    ensures Inv(Proxy(Complete(t, env, shardCount).state, Idle, start + Complete(t, env, shardCount).events))
    decreases Rank(t.await)
  {
    hide FieldsInStep, AwaitInStep, ClientsInStep, Safe, TidInForce, LastLookup, HomeOf, CheckoutFailed;
    hide BeginFailed, PhaseOf;
    if !t.await.Idle? {
      var p := Proxy(t.state, t.await, start + t.events);
      var answer := AnswerFor(t.await, env);
      ActKeeps(p, Reply(answer), shardCount);
      var r := Resume(t.state, t.await, answer, shardCount);
      var u := Step(t, env, shardCount);
      assert start + u.events == start + t.events + r.events;
      if env.checkout.Some? && t.await.PinLookup? && u.await.PinConnect? {
        Snoc(start + t.events, r.events[0]);
        assert start + u.events == start + t.events + [r.events[0]];
      }
      CompleteKeeps(start, u, env, shardCount);
    }
  }

  /** A whole statement, as the class runs it, keeps the invariant of the runs. */
  lemma DispatchKeeps(p: Proxy, kind: Kind, env: Env, shardCount: nat)
    requires Inv(p) && p.await.Idle? && (env.checkout.Some? ==> PhaseOf(p.trace, env.checkout.value).Fresh?)
    ensures var r := DispatchSpec(p.state, kind, env, shardCount); Inv(Proxy(r.state, Idle, p.trace + r.events))
  {
    hide FieldsInStep, AwaitInStep, ClientsInStep, Safe, TidInForce, LastLookup, HomeOf, CheckoutFailed;
    hide BeginFailed, PhaseOf;
    ActKeeps(p, Statement(kind), shardCount);
    var t := Start(p.state, kind);
    assert t.events == [] ==> p.trace + t.events == p.trace;
    CompleteKeeps(p.trace, t, env, shardCount);
  }
}
