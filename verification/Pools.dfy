/** Many sessions sharing the backend pools, interleaved at every await. */
module Pools {
  import opened Wrappers
  import opened Session
  import opened SessionRuns

  /** The counters of src/proxy/backend-pool.ts. */
  class BackendPools {
    const backendConnects: array<nat>
    const backendQueries: array<nat>

    constructor (shards: nat)
      ensures fresh(backendConnects) && fresh(backendQueries) && backendConnects != backendQueries
      ensures backendConnects[..] == seq(shards, _ => 0) && backendQueries[..] == seq(shards, _ => 0)
    {
      backendConnects := new nat[shards](_ => 0);
      backendQueries := new nat[shards](_ => 0);
    }

    /** The pool of a shard opened a connection. */
    method NoteConnect(hostIndex: nat)
      requires hostIndex < backendConnects.Length
      modifies backendConnects
      ensures backendConnects[..] == old(backendConnects[..])[hostIndex := old(backendConnects[hostIndex]) + 1]
    {
      backendConnects[hostIndex] := backendConnects[hostIndex] + 1;
    }

    method NoteQuery(hostIndex: nat)
      requires hostIndex < backendQueries.Length
      modifies backendQueries
      ensures backendQueries[..] == old(backendQueries[..])[hostIndex := old(backendQueries[hostIndex]) + 1]
    {
      backendQueries[hostIndex] := backendQueries[hostIndex] + 1;
    }

    /** Apply what the events of one turn do to the query counters. */
    method Account(events: seq<Event>)
      requires forall i :: 0 <= i < |events| && Counted(events[i]).Some? ==>
                 Counted(events[i]).value < backendQueries.Length
      modifies backendQueries
      ensures backendQueries[..] == CountersAfter(old(backendQueries[..]), events)
    {
      for i := 0 to |events|
        invariant CountersAfter(backendQueries[..], events[i..]) == CountersAfter(old(backendQueries[..]), events)
      {
        assert events[i..][1..] == events[i + 1..] && events[i..][0] == events[i];
        if Counted(events[i]).Some? {
          NoteQuery(Counted(events[i]).value);
        }
      }
    }
  }

  /** The shard whose query counter an event increments. */
  function Counted(e: Event): Option<nat> {
    match e
    case Sent(shard, _, _) => Some(shard)
    case Unsent(shard) => Some(shard)
    case Pooled(shard, _) => Some(shard)
    case _ => None
  }

  function CountersAfter(queries: seq<nat>, events: seq<Event>): (r: seq<nat>)
    ensures |r| == |queries|
    decreases events
  {
    if events == [] then queries
    else
      var h := Counted(events[0]);
      var next := if h.Some? && h.value < |queries| then queries[h.value := queries[h.value] + 1] else queries;
      CountersAfter(next, events[1..])
  }

  /** The clients that are out of the pools, with the shard of each. */
  function ClientsAfter(out: map<ClientId, nat>, events: seq<Event>): map<ClientId, nat>
    decreases events
  {
    if events == [] then out else ClientsAfter(ClientsStep(out, events[0]), events[1..])
  }

  function ClientsStep(out: map<ClientId, nat>, e: Event): map<ClientId, nat> {
    match e
    case Checkout(shard, c) => out[c := shard]
    case Release(c) => out - {c}
    case _ => out
  }

  datatype System = System(sessions: seq<Proxy>, queries: seq<nat>, out: map<ClientId, nat>)

  /** The turn a session takes. */
  function TurnOf(p: Proxy, a: Action, shardCount: nat): Turn
    requires WellFormed(p) && Enabled(p, a)
  {
    match a
    case Statement(kind) => Start(p.state, kind)
    case Close => StartCleanup(p.state)
    case Reply(answer) => Resume(p.state, p.await, answer, shardCount)
  }

  /** Session i may act; a checkout gives a client that no session has seen. */
  ghost predicate EnabledIn(sys: System, i: nat, a: Action) {
    && i < |sys.sessions|
    && Enabled(sys.sessions[i], a)
    && (a.Reply? && a.answer.ConnectAnswer? && a.answer.client.Some? ==>
          forall j :: 0 <= j < |sys.sessions| ==> PhaseOf(sys.sessions[j].trace, a.answer.client.value).Fresh?)
  }

  function SystemStep(sys: System, i: nat, a: Action): System
    requires EnabledIn(sys, i, a) && WellFormed(sys.sessions[i])
  {
    var t := TurnOf(sys.sessions[i], a, |sys.queries|);
    System(sys.sessions[i := After(sys.sessions[i], t)], CountersAfter(sys.queries, t.events),
           ClientsAfter(sys.out, t.events))
  }

  datatype Move = Move(session: nat, action: Action)

  ghost predicate IsSystemRun(run: seq<System>, moves: seq<Move>) {
    && |run| == |moves| + 1
    && run[0].out == map[]
    && (forall i :: 0 <= i < |run[0].sessions| ==> run[0].sessions[i] == START)
    && (forall h :: 0 <= h < |run[0].queries| ==> run[0].queries[h] == 0)
    && forall k :: 0 <= k < |moves| ==>
         && EnabledIn(run[k], moves[k].session, moves[k].action)
         && WellFormed(run[k].sessions[moves[k].session])
         && run[k + 1] == SystemStep(run[k], moves[k].session, moves[k].action)
  }

  // ----- counting ---------------------------------------------------------------------------

  function Count(trace: seq<Event>, shard: nat): nat {
    if trace == [] then 0
    else Count(trace[..|trace| - 1], shard) + if Counted(trace[|trace| - 1]) == Some(shard) then 1 else 0
  }

  function Total(sessions: seq<Proxy>, shard: nat): nat {
    if sessions == [] then 0 else Count(sessions[0].trace, shard) + Total(sessions[1..], shard)
  }

  lemma {:induction false} TotalUpdate(sessions: seq<Proxy>, i: nat, p: Proxy, shard: nat)
    requires i < |sessions|
    ensures Total(sessions[i := p], shard)
      == Total(sessions, shard) - Count(sessions[i].trace, shard) + Count(p.trace, shard)
  {
    if i == 0 {
      assert sessions[0 := p][1..] == sessions[1..];
    } else {
      assert sessions[i := p][1..] == sessions[1..][i - 1 := p];
      TotalUpdate(sessions[1..], i - 1, p, shard);
    }
  }

  /** The counter of a shard grows by the number of counted events. */
  lemma {:induction false} CountersCount(queries: seq<nat>, trace: seq<Event>, events: seq<Event>, shard: nat)
    requires shard < |queries|
    ensures CountersAfter(queries, events)[shard] + Count(trace, shard) == queries[shard] + Count(trace + events, shard)
    decreases events
  {
    if events == [] {
      assert trace + events == trace;
    } else {
      var e := events[0];
      var h := Counted(e);
      var next := if h.Some? && h.value < |queries| then queries[h.value := queries[h.value] + 1] else queries;
      assert trace + events == (trace + [e]) + events[1..];
      assert (trace + [e])[..|trace|] == trace;
      CountersCount(next, trace + [e], events[1..], shard);
    }
  }

  // ----- the invariant ----------------------------------------------------------------------

  ghost predicate EveryInv(sys: System) {
    forall i :: 0 <= i < |sys.sessions| ==> Inv(sys.sessions[i])
  }

  /** No client is known to two sessions. */
  ghost predicate Exclusive(sys: System) {
    forall i, j, c: ClientId :: 0 <= i < j < |sys.sessions| ==>
      PhaseOf(sys.sessions[i].trace, c).Fresh? || PhaseOf(sys.sessions[j].trace, c).Fresh?
  }

  ghost predicate HeldBy(sys: System, i: nat, c: ClientId, shard: nat) {
    i < |sys.sessions| && sys.sessions[i].state.txClient == Some(c) && sys.sessions[i].state.pinned == Some(shard)
  }

  /** The clients out of the pools are those that sessions hold, on the shards they are pinned to. */
  ghost predicate OutIsHeld(sys: System) {
    && (forall c :: c in sys.out ==> exists i :: HeldBy(sys, i, c, sys.out[c]))
    && (forall i, c :: 0 <= i < |sys.sessions| && sys.sessions[i].state.txClient == Some(c) ==>
          c in sys.out && sys.sessions[i].state.pinned == Some(sys.out[c]))
  }

  ghost predicate Conserved(sys: System) {
    forall h :: 0 <= h < |sys.queries| ==> sys.queries[h] == Total(sys.sessions, h)
  }

  ghost predicate SystemInv(sys: System) {
    EveryInv(sys) && Exclusive(sys) && OutIsHeld(sys) && Conserved(sys)
  }

  lemma ConservedKept(sys: System, i: nat, a: Action)
    requires SystemInv(sys) && EnabledIn(sys, i, a) && WellFormed(sys.sessions[i])
    ensures Conserved(SystemStep(sys, i, a))
  {
    hide TurnOf, EveryInv, Exclusive, OutIsHeld, Total, Count, CountersAfter, Enabled;
    var t := TurnOf(sys.sessions[i], a, |sys.queries|);
    forall h | 0 <= h < |sys.queries|
      ensures SystemStep(sys, i, a).queries[h] == Total(SystemStep(sys, i, a).sessions, h)
    {
      TotalUpdate(sys.sessions, i, After(sys.sessions[i], t), h);
      CountersCount(sys.queries, sys.sessions[i].trace, t.events, h);
    }
  }

  function ClientOf(e: Event): Option<ClientId> {
    match e
    case Checkout(_, c) => Some(c)
    case Sent(_, c, _) => Some(c)
    case Acked(c, _, _) => Some(c)
    case CleanupSent(c) => Some(c)
    case Release(c) => Some(c)
    case _ => None
  }

  /** A turn concerns the client that the session holds, or the one it checks out. */
  lemma TurnClients(p: Proxy, a: Action, shardCount: nat, k: nat)
    requires WellFormed(p) && Enabled(p, a) && k < |TurnOf(p, a, shardCount).events|
    ensures var c := ClientOf(TurnOf(p, a, shardCount).events[k]);
      c == None || c == p.state.txClient || (a.Reply? && a.answer.ConnectAnswer? && c == a.answer.client)
  {
    hide PhaseOf;
  }

  lemma {:induction false} PhaseUntouched(trace: seq<Event>, events: seq<Event>, c: ClientId)
    requires forall k :: 0 <= k < |events| ==> ClientOf(events[k]) != Some(c)
    ensures PhaseOf(trace + events, c) == PhaseOf(trace, c)
  {
    if events == [] {
      assert trace + events == trace;
    } else {
      var n := |events| - 1;
      assert (trace + events)[..|trace| + n] == trace + events[..n];
      PhaseUntouched(trace, events[..n], c);
    }
  }

  /** Another session's client stays unknown to this one. */
  lemma FreshStays(p: Proxy, a: Action, shardCount: nat, c: ClientId)
    requires Inv(p) && Enabled(p, a) && PhaseOf(p.trace, c).Fresh?
    requires !(a.Reply? && a.answer.ConnectAnswer? && a.answer.client == Some(c))
    ensures PhaseOf(After(p, TurnOf(p, a, shardCount)).trace, c).Fresh?
  {
    hide TurnOf, Safe, FieldsInStep, AwaitInStep, PhaseOf;
    var events := TurnOf(p, a, shardCount).events;
    forall k | 0 <= k < |events| ensures ClientOf(events[k]) != Some(c) {
      TurnClients(p, a, shardCount, k);
    }
    PhaseUntouched(p.trace, events, c);
  }

  lemma ExclusiveKept(sys: System, i: nat, a: Action)
    requires SystemInv(sys) && EnabledIn(sys, i, a)
    ensures Exclusive(SystemStep(sys, i, a))
  {
    hide TurnOf, OutIsHeld, Conserved, PhaseOf, Inv, CountersAfter, ClientsAfter;
    InvWellFormed(sys.sessions[i]);
    var next := SystemStep(sys, i, a);
    forall j, k, c: ClientId | 0 <= j < k < |next.sessions|
      ensures PhaseOf(next.sessions[j].trace, c).Fresh? || PhaseOf(next.sessions[k].trace, c).Fresh?
    {
      assert PhaseOf(sys.sessions[j].trace, c).Fresh? || PhaseOf(sys.sessions[k].trace, c).Fresh?;
      if i == j || i == k {
        if PhaseOf(sys.sessions[i].trace, c).Fresh?
           && !(a.Reply? && a.answer.ConnectAnswer? && a.answer.client == Some(c))
        {
          FreshStays(sys.sessions[i], a, |sys.queries|, c);
        }
      }
    }
  }

  /** What a turn does to the set of checked-out clients. */
  ghost predicate TurnMoves(p: Proxy, a: Action, t: Turn, out: map<ClientId, nat>) {
    var s, s' := p.state, t.state;
    if s.txClient == s'.txClient then
      ClientsAfter(out, t.events) == out && (s.txClient.Some? ==> s'.pinned == s.pinned)
    else if s'.txClient.Some? then
      && s.txClient.None? && s'.pinned.Some?
      && a.Reply? && a.answer.ConnectAnswer? && a.answer.client == s'.txClient
      && ClientsAfter(out, t.events) == out[s'.txClient.value := s'.pinned.value]
    else ClientsAfter(out, t.events) == out - {s.txClient.value}
  }

  lemma ReplyMoves(p: Proxy, answer: Answer, shardCount: nat, out: map<ClientId, nat>)
    requires WellFormed(p) && Enabled(p, Reply(answer))
    ensures TurnMoves(p, Reply(answer), TurnOf(p, Reply(answer), shardCount), out)
  {
    hide PhaseOf, ClientsAfter;
    ClientsOf3(out, Resume(p.state, p.await, answer, shardCount).events);
  }

  lemma TurnEffect(p: Proxy, a: Action, shardCount: nat, out: map<ClientId, nat>)
    requires WellFormed(p) && Enabled(p, a)
    ensures TurnMoves(p, a, TurnOf(p, a, shardCount), out)
  {
    hide PhaseOf, ClientsAfter;
    if a.Reply? {
      hide TurnMoves, TurnOf, WellFormed;
      ReplyMoves(p, a.answer, shardCount, out);
    } else {
      ClientsOf3(out, TurnOf(p, a, shardCount).events);
    }
  }

  lemma {:induction false} ClientsOf3(out: map<ClientId, nat>, events: seq<Event>)
    ensures events == [] ==> ClientsAfter(out, events) == out
    ensures |events| == 1 ==> ClientsAfter(out, events) == ClientsStep(out, events[0])
    ensures |events| == 2 ==> ClientsAfter(out, events) == ClientsStep(ClientsStep(out, events[0]), events[1])
    ensures |events| == 3 ==>
      ClientsAfter(out, events) == ClientsStep(ClientsStep(ClientsStep(out, events[0]), events[1]), events[2])
    decreases events
  {
    if |events| > 0 {
      assert |events| == 1 ==> events[1..] == [];
      if |events| == 2 {
        ClientsOf3(ClientsStep(out, events[0]), events[1..]);
      }
      if |events| == 3 {
        ClientsOf3(ClientsStep(out, events[0]), events[1..]);
      }
    }
  }

  lemma OutIsHeldKept(sys: System, i: nat, a: Action)
    requires SystemInv(sys) && EnabledIn(sys, i, a)
    ensures OutIsHeld(SystemStep(sys, i, a))
  {
    hide TurnOf, Conserved, PhaseOf, FieldsInStep, AwaitInStep, Safe, CountersAfter, ClientsAfter, Holds;
    var next := SystemStep(sys, i, a);
    var p, p' := sys.sessions[i], next.sessions[i];
    TurnEffect(p, a, |sys.queries|, sys.out);
    forall j, c | 0 <= j < |next.sessions| && next.sessions[j].state.txClient == Some(c)
      ensures c in next.out && next.sessions[j].state.pinned == Some(next.out[c])
    {
      if j != i {
        HeldElsewhere(sys, i, j, a, c);
      }
    }
    forall c | c in next.out ensures exists j :: HeldBy(next, j, c, next.out[c]) {
      if p'.state.txClient == Some(c) {
        assert HeldBy(next, i, c, next.out[c]);
      } else {
        assert c in sys.out;
        var j :| HeldBy(sys, j, c, sys.out[c]);
        assert HeldBy(next, j, c, next.out[c]);
      }
    }
  }

  /** A client that another session holds is neither the one this session holds nor a new one. */
  lemma HeldElsewhere(sys: System, i: nat, j: nat, a: Action, c: ClientId)
    requires SystemInv(sys) && EnabledIn(sys, i, a) && j < |sys.sessions| && i != j
    requires sys.sessions[j].state.txClient == Some(c)
    ensures sys.sessions[i].state.txClient != Some(c)
    ensures !(a.Reply? && a.answer.ConnectAnswer? && a.answer.client == Some(c))
  {
    hide FieldsInStep, AwaitInStep, Safe, PhaseOf, OutIsHeld, Conserved;
    assert Inv(sys.sessions[i]) && Inv(sys.sessions[j]);
    assert !PhaseOf(sys.sessions[j].trace, c).Fresh?;
    assert PhaseOf(sys.sessions[i].trace, c).Fresh?;
  }

  lemma SystemStepKeeps(sys: System, i: nat, a: Action)
    requires SystemInv(sys) && EnabledIn(sys, i, a)
    ensures SystemInv(SystemStep(sys, i, a))
  {
    hide Conserved, Exclusive, OutIsHeld, Inv;
    assert Inv(sys.sessions[i]);
    assert WellFormed(sys.sessions[i]) by { InvWellFormed(sys.sessions[i]); }
    ConservedKept(sys, i, a);
    ExclusiveKept(sys, i, a);
    OutIsHeldKept(sys, i, a);
    ActKeeps(sys.sessions[i], a, |sys.queries|);
    assert After(sys.sessions[i], TurnOf(sys.sessions[i], a, |sys.queries|)) == Act(sys.sessions[i], a, |sys.queries|);
  }

  lemma InvWellFormed(p: Proxy)
    requires Inv(p)
    ensures WellFormed(p)
  {
  }

  lemma {:induction false} AllStarting(sessions: seq<Proxy>, shard: nat)
    requires forall i :: 0 <= i < |sessions| ==> sessions[i] == START
    ensures Total(sessions, shard) == 0
  {
    if sessions == [] {
    } else {
      AllStarting(sessions[1..], shard);
    }
  }

  lemma {:induction false} SystemRunKeeps(run: seq<System>, moves: seq<Move>, k: nat)
    requires IsSystemRun(run, moves) && k < |run|
    ensures SystemInv(run[k])
  {
    hide Inv, SystemStep, EnabledIn, WellFormed;
    if k == 0 {
      forall h | 0 <= h < |run[0].queries| ensures run[0].queries[h] == Total(run[0].sessions, h) {
        AllStarting(run[0].sessions, h);
      }
      StartInv();
    } else {
      SystemRunKeeps(run, moves, k - 1);
      assert run[k - 1 + 1] == run[k];
      SystemStepKeeps(run[k - 1], moves[k - 1].session, moves[k - 1].action);
    }
  }

  // ----- the theorems -----------------------------------------------------------------------

  /** A finite set and its image under an injective function have the same size. */
  lemma {:induction false} ImageSize(s: set<nat>, f: nat -> ClientId)
    requires forall i, j :: i in s && j in s && f(i) == f(j) ==> i == j
    ensures |set i | i in s :: f(i)| == |s|
  {
    if s != {} {
      var i :| i in s;
      ImageSize(s - {i}, f);
      assert (set j | j in s :: f(j)) == (set j | j in s - {i} :: f(j)) + {f(i)};
    }
  }

  function OutOf(sys: System, shard: nat): set<ClientId> {
    set c | c in sys.out && sys.out[c] == shard
  }

  function Holders(sys: System, shard: nat): set<nat> {
    set i | 0 <= i < |sys.sessions| && sys.sessions[i].state.txClient.Some?
      && sys.sessions[i].state.pinned == Some(shard)
  }

  function ClientAt(sys: System, i: nat): ClientId {
    if i < |sys.sessions| && sys.sessions[i].state.txClient.Some? then sys.sessions[i].state.txClient.value else 0
  }

  /** Two sessions never hold the same client. */
  lemma HoldersDiffer(sys: System, i: nat, j: nat)
    requires SystemInv(sys) && i < j < |sys.sessions|
    requires sys.sessions[i].state.txClient.Some? && sys.sessions[j].state.txClient.Some?
    ensures ClientAt(sys, i) != ClientAt(sys, j)
  {
    hide FieldsInStep, AwaitInStep, Safe, PhaseOf, Conserved, OutIsHeld, WellFormed;
    assert Inv(sys.sessions[i]) && Inv(sys.sessions[j]);
    assert !PhaseOf(sys.sessions[i].trace, ClientAt(sys, i)).Fresh?
      && !PhaseOf(sys.sessions[j].trace, ClientAt(sys, j)).Fresh?;
  }

  lemma OutIsImage(sys: System, shard: nat)
    requires OutIsHeld(sys)
    ensures OutOf(sys, shard) == (set i | i in Holders(sys, shard) :: ClientAt(sys, i))
  {
    forall c | c in OutOf(sys, shard) ensures c in (set i | i in Holders(sys, shard) :: ClientAt(sys, i)) {
      var i :| HeldBy(sys, i, c, sys.out[c]);
      assert i in Holders(sys, shard) && ClientAt(sys, i) == c;
    }
  }

  /** The number of transaction clients out of a shard's pool is the number of sessions that hold a
      client pinned to it, in every interleaving. */
  lemma ClientsAreConserved(run: seq<System>, moves: seq<Move>, k: nat, shard: nat)
    requires IsSystemRun(run, moves) && k < |run|
    ensures |OutOf(run[k], shard)| == |Holders(run[k], shard)|
  {
    hide Inv, SystemStep, EnabledIn, OutIsHeld, Exclusive, Conserved;
    SystemRunKeeps(run, moves, k);
    var sys := run[k];
    forall i, j | i in Holders(sys, shard) && j in Holders(sys, shard) && i < j
      ensures ClientAt(sys, i) != ClientAt(sys, j)
    {
      HoldersDiffer(sys, i, j);
    }
    var f := (i: nat) => ClientAt(sys, i);
    ImageSize(Holders(sys, shard), f);
    OutIsImage(sys, shard);
    assert (set i | i in Holders(sys, shard) :: f(i)) == (set i | i in Holders(sys, shard) :: ClientAt(sys, i));
  }

  function CountUnsent(trace: seq<Event>, shard: nat): nat {
    if trace == [] then 0
    else CountUnsent(trace[..|trace| - 1], shard) + if trace[|trace| - 1] == Unsent(shard) then 1 else 0
  }

  /** The commands that the dispatcher really sent to the shard. */
  function CountSent(trace: seq<Event>, shard: nat): nat {
    if trace == [] then 0
    else
      var e := trace[|trace| - 1];
      CountSent(trace[..|trace| - 1], shard)
      + if (e.Sent? && e.shard == shard) || (e.Pooled? && e.shard == shard) then 1 else 0
  }

  function TotalSent(sessions: seq<Proxy>, shard: nat): nat {
    if sessions == [] then 0 else CountSent(sessions[0].trace, shard) + TotalSent(sessions[1..], shard)
  }

  function TotalUnsent(sessions: seq<Proxy>, shard: nat): nat {
    if sessions == [] then 0 else CountUnsent(sessions[0].trace, shard) + TotalUnsent(sessions[1..], shard)
  }

  lemma {:induction false} CountSplits(trace: seq<Event>, shard: nat)
    ensures Count(trace, shard) == CountSent(trace, shard) + CountUnsent(trace, shard)
  {
    if trace == [] {
    } else {
      CountSplits(trace[..|trace| - 1], shard);
    }
  }

  lemma {:induction false} TotalSplits(sessions: seq<Proxy>, shard: nat)
    ensures Total(sessions, shard) == TotalSent(sessions, shard) + TotalUnsent(sessions, shard)
  {
    if sessions == [] {
    } else {
      CountSplits(sessions[0].trace, shard);
      TotalSplits(sessions[1..], shard);
    }
  }

  lemma {:induction false} NoUnsent(trace: seq<Event>, shard: nat)
    requires Safe(trace) && forall k :: 0 <= k < |trace| ==> !trace[k].NoClient?
    ensures CountUnsent(trace, shard) == 0
  {
    if trace == [] {
    } else {
      var n := |trace| - 1;
      assert trace[..n] + [trace[n]] == trace;
      Snoc(trace[..n], trace[n]);
      NoUnsent(trace[..n], shard);
      NoCheckoutFailed(trace[..n]);
    }
  }

  lemma {:induction false} NoCheckoutFailed(trace: seq<Event>)
    requires forall k :: 0 <= k < |trace| ==> !trace[k].NoClient?
    ensures !CheckoutFailed(trace)
  {
    if trace == [] {
    } else {
      NoCheckoutFailed(trace[..|trace| - 1]);
    }
  }

  lemma {:induction false} NoneUnsent(sessions: seq<Proxy>, shard: nat)
    requires forall i :: 0 <= i < |sessions| ==> Inv(sessions[i])
    requires forall i, k :: 0 <= i < |sessions| && 0 <= k < |sessions[i].trace| ==> !sessions[i].trace[k].NoClient?
    ensures TotalUnsent(sessions, shard) == 0
  {
    hide FieldsInStep, AwaitInStep, ClientsInStep, Safe;
    if sessions == [] {
    } else {
      NoUnsent(sessions[0].trace, shard);
      NoneUnsent(sessions[1..], shard);
    }
  }

  /**
   The query counter of a shard is the number of commands sent to it plus the statements that were
   counted but had no client; without a failed checkout there are none of those.
   */
  lemma QueriesAreConserved(run: seq<System>, moves: seq<Move>, k: nat, shard: nat)
    requires IsSystemRun(run, moves) && k < |run| && shard < |run[k].queries|
    ensures run[k].queries[shard] == TotalSent(run[k].sessions, shard) + TotalUnsent(run[k].sessions, shard)
    ensures (forall i, m :: 0 <= i < |run[k].sessions| && 0 <= m < |run[k].sessions[i].trace| ==>
               !run[k].sessions[i].trace[m].NoClient?)
        ==> run[k].queries[shard] == TotalSent(run[k].sessions, shard)
  {
    hide Inv, SystemStep, EnabledIn, Exclusive, OutIsHeld;
    SystemRunKeeps(run, moves, k);
    TotalSplits(run[k].sessions, shard);
    if forall i, m :: 0 <= i < |run[k].sessions| && 0 <= m < |run[k].sessions[i].trace| ==>
         !run[k].sessions[i].trace[m].NoClient?
    {
      NoneUnsent(run[k].sessions, shard);
    }
  }
}
