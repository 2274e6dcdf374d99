/** Notifications by tenant: who gets what, said by the events of a run alone. */
module Tenants {
  import opened Wrappers
  import opened Sequences
  import opened Notify
  import opened NotifyRuns

  // ----- tenants ----------------------------------------------------------------------------

  /** No tid, and the tid `__global__`, are one tenant; any other tid is a tenant of its own. */
  predicate SameTenant(a: Option<string>, b: Option<string>) {
    || a == b
    || (a == None && b == Some("__global__"))
    || (b == None && a == Some("__global__"))
  }

  lemma ScopesAreTenants(a: Option<string>, b: Option<string>)
    ensures ResolveTidScope(a) == ResolveTidScope(b) <==> SameTenant(a, b)
  {
  }

  /** The last event of the client that concerns the tenant's channel was a LISTEN. */
  ghost predicate ListeningUnder(limits: Limits, events: seq<Event>, t: Target, tid: Option<string>, channel: string) {
    events != [] && (
      var before := ListeningUnder(limits, events[..|events| - 1], t, tid, channel);
      match events[|events| - 1]
      case Release(u) => u != t && before
      case Execute(u, other, command) =>
        if u != t then before
        else match command
          case UnlistenAll => false
          case Publish(_, _) => before
          case Listen(c) => before || (c == channel && SameTenant(other, tid) && Fits(channel, limits.maxChannelBytes))
          case Unlisten(c) => before && !(c == channel && SameTenant(other, tid)))
  }

  // ----- names that fit ---------------------------------------------------------------------

  /** How many characters are c or above it. */
  function From(s: string, c: char): nat {
    if s == "" then 0 else (if s[0] >= c then 1 else 0) + From(s[1..], c)
  }

  /** A name that is not empty and whose UTF-8 form is short enough. */
  predicate Fits(name: string, most: nat) { name != "" && Short(name, most) }

  /** One byte for each character, one more from U+0080 on, and again from U+0800 and U+10000 on. */
  predicate Short(text: string, most: nat) {
    |text| + From(text, '\U{0080}') + From(text, '\U{0800}') + From(text, '\U{10000}') <= most
  }

  lemma {:induction false} ByteLengthIs(s: string)
    ensures ByteLength(s) == |s| + From(s, '\U{0080}') + From(s, '\U{0800}') + From(s, '\U{10000}')
  {
    if s == "" {
    } else {
      ByteLengthIs(s[1..]);
    }
  }

  /** A command is refused exactly for a name that does not fit, or a payload that is too long. */
  lemma RefusedExactly(limits: Limits, s: Net, target: Target, tid: Option<string>, command: Command)
    ensures Apply(limits, s, Execute(target, tid, command)).ok ==
      match command
      case UnlistenAll => true
      case Listen(c) => Fits(c, limits.maxChannelBytes)
      case Unlisten(c) => Fits(c, limits.maxChannelBytes)
      case Publish(c, payload) => Fits(c, limits.maxChannelBytes) && Short(payload, limits.maxPayloadBytes)
  {
    hide ByteLength, From, Subscribed, Unsubscribed, AllUnsubscribed, Dispatched;
    if !command.UnlistenAll? {
      ByteLengthIs(command.channel);
    }
    if command.Publish? {
      ByteLengthIs(command.payload);
    }
  }

  /** Releasing a client is never refused, and nobody hears of it. */
  lemma ReleaseIsSilent(limits: Limits, s: Net, target: Target)
    ensures var r := Apply(limits, s, Event.Release(target)); r.ok && r.deliveries == []
  {
  }

  // ----- released clients -------------------------------------------------------------------

  ghost predicate Known(events: seq<Event>, t: Target) {
    exists i :: 0 <= i < |events| && events[i].Execute? && events[i].target == t
  }

  /** The client gave a command and was released after it. */
  ghost predicate ReleasedAfterUse(events: seq<Event>, t: Target) {
    exists i :: 0 <= i < |events| && events[i] == Event.Release(t) && Known(events[..i], t)
  }

  lemma {:induction false} GoneExactly(limits: Limits, events: seq<Event>, t: Target)
    ensures Gone(After(limits, events), t) <==> ReleasedAfterUse(events, t)
    ensures t in After(limits, events).ids <==> Known(events, t)
    decreases |events|
  {
    hide Apply, Gone, Sound;
    if events == [] {
      assert !Gone(EMPTY, t) by { NobodyGone(t); }
    } else {
      var before, e := events[..|events| - 1], events[|events| - 1];
      var s := After(limits, before);
      GoneExactly(limits, before, t);
      RunSound(limits, before);
      KnownSnoc(before, e, t);
      ReleasedSnoc(before, e, t);
      assert events == before + [e];
      if e.Execute? {
        CommandKeeps(limits, s, e, t);
      } else {
        ReleaseTracks(s, e.target, t, "");
        ReleaseApplies(limits, s, e.target);
      }
    }
  }

  lemma NobodyGone(t: Target)
    ensures !Gone(EMPTY, t)
  {
  }

  lemma ReleaseApplies(limits: Limits, s: Net, t: Target)
    ensures Apply(limits, s, Event.Release(t)).net == ApplyRelease(s, t)
  {
  }

  lemma KnownSnoc(before: seq<Event>, e: Event, t: Target)
    ensures Known(before + [e], t) <==> Known(before, t) || (e.Execute? && e.target == t)
  {
    var events := before + [e];
    if Known(before, t) {
      var i :| 0 <= i < |before| && before[i].Execute? && before[i].target == t;
      assert events[i] == before[i];
    }
    assert events[|before|] == e;
  }

  lemma ReleasedSnoc(before: seq<Event>, e: Event, t: Target)
    ensures ReleasedAfterUse(before + [e], t)
       <==> ReleasedAfterUse(before, t) || (e == Event.Release(t) && Known(before, t))
  {
    hide Known;
    var events := before + [e];
    assert events[|before|] == e && events[..|before|] == before;
    if ReleasedAfterUse(before, t) {
      var i :| 0 <= i < |before| && before[i] == Event.Release(t) && Known(before[..i], t);
      assert events[i] == before[i] && events[..i] == before[..i];
    }
    if ReleasedAfterUse(events, t) {
      var i :| 0 <= i < |events| && events[i] == Event.Release(t) && Known(events[..i], t);
      if i < |before| {
        assert before[i] == events[i] && before[..i] == events[..i];
      }
    }
  }

  // ----- the theorem ------------------------------------------------------------------------

  ghost predicate PlainTid(tid: Option<string>) { tid.Some? ==> ':' !in tid.value }

  ghost predicate PlainTids(events: seq<Event>) {
    forall e <- events :: e.Execute? ==> PlainTid(e.tid)
  }

  lemma {:induction false} UnderIsListening(limits: Limits, events: seq<Event>, t: Target, tid: Option<string>,
                                            channel: string)
    requires Fits(channel, limits.maxChannelBytes)
    ensures Listening(limits, events, t, ResolveTidScope(tid), channel)
       <==> ListeningUnder(limits, events, t, tid, channel)
    decreases |events|
  {
    hide ByteLength, From, ResolveTidScope, SameTenant;
    if events == [] {
    } else {
      var before, e := events[..|events| - 1], events[|events| - 1];
      UnderIsListening(limits, before, t, tid, channel);
      ByteLengthIs(channel);
      if e.Execute? {
        ScopesAreTenants(e.tid, tid);
      }
    }
  }

  lemma PlainScope(tid: Option<string>)
    requires PlainTid(tid)
    ensures Plain(ResolveTidScope(tid))
  {
    assert ':' !in "__global__";
  }

  /**
   As long as no tid holds a colon: a NOTIFY under a tid is delivered exactly once to each client that
   was not released after use and whose last event about the channel under that tenant was a LISTEN,
   and to nobody else, so to nobody for what it listens to under another tenant.
   */
  lemma TenantsAreSeparate(limits: Limits, events: seq<Event>, tid: Option<string>, channel: string, payload: string,
                           sender: Target)
    requires PlainTids(events) && PlainTid(tid)
    requires Fits(channel, limits.maxChannelBytes) && Short(payload, limits.maxPayloadBytes)
    ensures var out := Apply(limits, After(limits, events), Execute(sender, tid, Publish(channel, payload))).deliveries;
      && Distinct(out)
      && (forall d <- out :: d == Delivery(d.target, channel, payload))
      && (forall t :: Delivery(t, channel, payload) in out
            <==> !ReleasedAfterUse(events, t) && ListeningUnder(limits, events, t, tid, channel))
  {
    hide ByteLength, From, Apply, Listening, ListeningUnder, ResolveTidScope, PlainTid, Plain, Gone, ReleasedAfterUse;
    ByteLengthIs(channel);
    ByteLengthIs(payload);
    PlainScope(tid);
    forall e | e in events && e.Execute? ensures Plain(ResolveTidScope(e.tid)) {
      PlainScope(e.tid);
    }
    NotifyReachesItsListeners(limits, events, tid, channel, payload, sender);
    forall t ensures Gone(After(limits, events), t) <==> ReleasedAfterUse(events, t) {
      GoneExactly(limits, events, t);
    }
    forall t
      ensures Listening(limits, events, t, ResolveTidScope(tid), channel)
         <==> ListeningUnder(limits, events, t, tid, channel)
    {
      UnderIsListening(limits, events, t, tid, channel);
    }
  }
}
