/** Whole runs of LISTEN, UNLISTEN, NOTIFY and release against the subscription relation they stand for. */
module NotifyRuns {
  import opened Wrappers
  import opened Sequences
  import opened Notify

  // ----- what holds in every state ----------------------------------------------------------

  /** Registry and transport agree about every client that is still registered. */
  ghost predicate Sound(s: Net) {
    && (forall t, u :: t in s.ids && u in s.ids && s.ids[t] == s.ids[u] ==> t == u)
    && (forall t <- s.ids :: s.ids[t] < s.next)
    && (forall id <- s.entries :: s.entries[id].target in s.ids && s.ids[s.entries[id].target] == id)
    && (forall key <- s.buckets :: Distinct(s.buckets[key]) && forall id <- s.buckets[key] :: id < s.next)
    && (forall id <- s.entries :: forall key :: key in s.entries[id].channels <==> id in BucketAt(s.buckets, key))
  }

  /** The client has been released and is not registered any more. */
  ghost predicate Gone(s: Net, t: Target) { t in s.ids && s.ids[t] !in s.entries }

  ghost predicate Registered(s: Net, t: Target, key: string) {
    t in s.ids && s.ids[t] in s.entries && key in s.entries[s.ids[t]].channels
  }

  lemma {:induction false} DeleteExact(bucket: seq<LogicalId>, id: LogicalId)
    ensures forall x :: x in Delete(bucket, id) <==> x in bucket && x != id
    ensures Distinct(bucket) ==> Distinct(Delete(bucket, id))
  {
    if bucket == [] {
    } else {
      DeleteExact(bucket[1..], id);
      assert bucket == [bucket[0]] + bucket[1..];
      if Distinct(bucket) {
        assert forall i, j :: 0 <= i < j < |bucket[1..]| ==>
          bucket[1..][i] == bucket[i + 1] && bucket[1..][j] == bucket[j + 1];
        assert bucket[0] !in bucket[1..];
      }
    }
  }

  lemma IdentifySound(s: Net, t: Target)
    requires Sound(s)
    ensures Sound(Identify(s, t))
  {
    var s' := Identify(s, t);
    if t !in s.ids {
      NextIsNew(s);
      forall id | id in s'.entries
        ensures forall key :: key in s'.entries[id].channels <==> id in BucketAt(s'.buckets, key)
      {
        assert id == s.next || id in s.entries;
      }
    }
  }

  lemma NextIsNew(s: Net)
    requires Sound(s)
    ensures forall key :: s.next !in BucketAt(s.buckets, key)
    ensures s.next !in s.entries && forall t <- s.ids :: s.ids[t] != s.next
  {
  }

  /** New channels for one id and new buckets that differ only in that id. */
  ghost predicate Retuned(s: Net, s': Net, id: LogicalId, channels: set<string>) {
    && s' == s.(entries := WithChannels(s.entries, id, channels), buckets := s'.buckets)
    && (forall key <- s'.buckets :: Distinct(s'.buckets[key]))
    && (forall key, x :: x != id ==> (x in BucketAt(s'.buckets, key) <==> x in BucketAt(s.buckets, key)))
    && (forall key :: id in BucketAt(s'.buckets, key) ==> id < s.next)
    && (id in s.entries ==> forall key :: key in channels <==> id in BucketAt(s'.buckets, key))
  }

  lemma RetunedSound(s: Net, s': Net, id: LogicalId, channels: set<string>)
    requires Sound(s) && Retuned(s, s', id, channels)
    ensures Sound(s')
  {
    forall key, x | key in s'.buckets && x in s'.buckets[key] ensures x < s'.next {
      assert x in BucketAt(s'.buckets, key);
      if x != id {
        assert x in BucketAt(s.buckets, key);
      }
    }
  }

  lemma SubscribeRetunes(s: Net, id: LogicalId, key: string)
    requires Sound(s) && id < s.next
    ensures Retuned(s, s.(buckets := Subscribed(s.buckets, id, key),
                          entries := WithChannels(s.entries, id, ChannelsOf(s, id) + {key})),
                    id, ChannelsOf(s, id) + {key})
  {
    var buckets := Subscribed(s.buckets, id, key);
    forall k, x ensures x in BucketAt(buckets, k) <==> x in BucketAt(s.buckets, k) || (x == id && k == key) {
    }
  }

  lemma UnsubscribeRetunes(s: Net, id: LogicalId, key: string)
    requires Sound(s) && id < s.next
    ensures Retuned(s, s.(buckets := Unsubscribed(s.buckets, id, key),
                          entries := WithChannels(s.entries, id, ChannelsOf(s, id) - {key})),
                    id, ChannelsOf(s, id) - {key})
  {
    var buckets := Unsubscribed(s.buckets, id, key);
    DeleteExact(BucketAt(s.buckets, key), id);
    forall k, x ensures x in BucketAt(buckets, k) <==> x in BucketAt(s.buckets, k) && !(x == id && k == key) {
    }
  }

  lemma UnsubscribeAllRetunes(s: Net, id: LogicalId)
    requires Sound(s) && id < s.next
    ensures Retuned(s, s.(buckets := AllUnsubscribed(s.buckets, id), entries := WithChannels(s.entries, id, {})),
                    id, {})
    ensures forall key :: id !in BucketAt(AllUnsubscribed(s.buckets, id), key)
  {
    var buckets := AllUnsubscribed(s.buckets, id);
    forall k, x ensures x in BucketAt(buckets, k) <==> x in BucketAt(s.buckets, k) && x != id {
      DeleteExact(BucketAt(s.buckets, k), id);
    }
    forall k | k in buckets ensures Distinct(buckets[k]) {
      DeleteExact(s.buckets[k], id);
    }
  }

  lemma CommandSound(limits: Limits, s: Net, id: LogicalId, scope: string, command: Command)
    requires Sound(s) && id < s.next
    ensures Sound(ApplyCommand(limits, s, id, scope, command).net)
  {
    hide Sound, Retuned, Subscribed, Unsubscribed, AllUnsubscribed, ByteLength;
    var s' := ApplyCommand(limits, s, id, scope, command).net;
    match command {
      case UnlistenAll =>
        UnsubscribeAllRetunes(s, id);
        RetunedSound(s, s', id, {});
      case Listen(channel) =>
        if ValidChannel(limits, channel) {
          SubscribeRetunes(s, id, ChannelKey(channel, scope));
          RetunedSound(s, s', id, ChannelsOf(s, id) + {ChannelKey(channel, scope)});
        }
      case Unlisten(channel) =>
        if ValidChannel(limits, channel) {
          UnsubscribeRetunes(s, id, ChannelKey(channel, scope));
          RetunedSound(s, s', id, ChannelsOf(s, id) - {ChannelKey(channel, scope)});
        }
      case Publish(_, _) =>
    }
  }

  lemma ReleaseSound(s: Net, t: Target)
    requires Sound(s)
    ensures Sound(ApplyRelease(s, t))
  {
    if t in s.ids {
      var id := s.ids[t];
      var s0 := s.(buckets := AllUnsubscribed(s.buckets, id), entries := WithChannels(s.entries, id, {}));
      UnsubscribeAllRetunes(s, id);
      RetunedSound(s, s0, id, {});
    }
  }

  lemma ApplySound(limits: Limits, s: Net, e: Event)
    requires Sound(s)
    ensures Sound(Apply(limits, s, e).net)
  {
    hide ApplyCommand;
    match e {
      case Execute(target, tid, command) =>
        IdentifySound(s, target);
        var s' := Identify(s, target);
        CommandSound(limits, s', s'.ids[target], ResolveTidScope(tid), command);
      case Release(target) =>
        ReleaseSound(s, target);
    }
  }

  // ----- runs -------------------------------------------------------------------------------

  function After(limits: Limits, events: seq<Event>): Net {
    if events == [] then EMPTY else Apply(limits, After(limits, events[..|events| - 1]), events[|events| - 1]).net
  }

  lemma {:induction false} RunSound(limits: Limits, events: seq<Event>)
    ensures Sound(After(limits, events))
  {
    hide Apply;
    if events == [] {
    } else {
      RunSound(limits, events[..|events| - 1]);
      ApplySound(limits, After(limits, events[..|events| - 1]), events[|events| - 1]);
    }
  }

  /** The subscription relation over keys: what the last event about client and key left behind. */
  ghost predicate ListeningKey(limits: Limits, events: seq<Event>, t: Target, key: string) {
    events != [] && (
      var before := ListeningKey(limits, events[..|events| - 1], t, key);
      var e := events[|events| - 1];
      if e.target != t then before
      else if e.Release? || e.command.UnlistenAll? then false
      else if e.command.Publish? || !ValidChannel(limits, e.command.channel) then before
      else if ChannelKey(e.command.channel, ResolveTidScope(e.tid)) != key then before
      else e.command.Listen?)
  }

  /** The relation that the statements mean: client, scope and channel. */
  ghost predicate Listening(limits: Limits, events: seq<Event>, t: Target, scope: string, channel: string) {
    events != [] && (
      var before := Listening(limits, events[..|events| - 1], t, scope, channel);
      var e := events[|events| - 1];
      if e.target != t then before
      else if e.Release? || e.command.UnlistenAll? then false
      else if e.command.Publish? || !ValidChannel(limits, e.command.channel) then before
      else if e.command.channel != channel || ResolveTidScope(e.tid) != scope then before
      else e.command.Listen?)
  }

  /** A command neither releases nor forgets a client, and makes its own known. */
  lemma CommandKeeps(limits: Limits, s: Net, e: Event, t: Target)
    requires Sound(s) && e.Execute?
    ensures var s' := Apply(limits, s, e).net;
      (Gone(s', t) <==> Gone(s, t)) && (t in s'.ids <==> t in s.ids || t == e.target)
  {
    hide ChannelKey, ValidChannel, ValidPayload, Subscribed, Unsubscribed, AllUnsubscribed, Dispatched, ApplyCommand;
    var s' := Identify(s, e.target);
    CommandLeaves(limits, s', s'.ids[e.target], ResolveTidScope(e.tid), e.command);
  }

  /** The client's own command changes its registered keys as the relation says, if it is registered at all. */
  lemma OwnCommandTracks(limits: Limits, s: Net, e: Event, key: string)
    requires Sound(s) && e.Execute?
    ensures Registered(Apply(limits, s, e).net, e.target, key) ==
      if Gone(s, e.target) then false
      else if e.command.UnlistenAll? then false
      else if e.command.Publish? || !ValidChannel(limits, e.command.channel) then Registered(s, e.target, key)
      else if ChannelKey(e.command.channel, ResolveTidScope(e.tid)) != key then Registered(s, e.target, key)
      else e.command.Listen?
  {
    hide ChannelKey, ValidChannel, ValidPayload, Subscribed, Unsubscribed, AllUnsubscribed, Dispatched;
    var s' := Identify(s, e.target);
    assert Registered(s', e.target, key) == Registered(s, e.target, key);
  }

  lemma OtherCommandTracks(limits: Limits, s: Net, e: Event, t: Target, key: string)
    requires Sound(s) && e.Execute? && e.target != t
    ensures Registered(Apply(limits, s, e).net, t, key) == Registered(s, t, key)
  {
    hide ChannelKey, ValidChannel, ValidPayload, Subscribed, Unsubscribed, AllUnsubscribed, Dispatched, ApplyCommand;
    var s' := Identify(s, e.target);
    IdentifyTracks(s, e.target, t, key);
    CommandLeaves(limits, s', s'.ids[e.target], ResolveTidScope(e.tid), e.command);
  }

  lemma IdentifyTracks(s: Net, target: Target, t: Target, key: string)
    requires Sound(s) && target != t
    ensures var s' := Identify(s, target);
      && Registered(s', t, key) == Registered(s, t, key)
      && (t in s'.ids ==> s'.ids[t] != s'.ids[target])
  {
  }

  /** A command changes the channels of its client only. */
  lemma CommandLeaves(limits: Limits, s: Net, id: LogicalId, scope: string, command: Command)
    ensures var s' := ApplyCommand(limits, s, id, scope, command).net;
      && s'.ids == s.ids && s'.entries.Keys == s.entries.Keys
      && forall other <- s.entries :: other != id ==> s'.entries[other] == s.entries[other]
  {
    hide ChannelKey, ValidChannel, ValidPayload, Subscribed, Unsubscribed, AllUnsubscribed, Dispatched;
  }

  lemma ReleaseTracks(s: Net, released: Target, t: Target, key: string)
    requires Sound(s)
    ensures var s' := ApplyRelease(s, released);
      && s'.ids == s.ids
      && (Gone(s', t) <==> Gone(s, t) || (t == released && t in s.ids))
      && (Registered(s', t, key) <==> t != released && Registered(s, t, key))
  {
    hide AllUnsubscribed, Listed;
  }

  /** In every run a client's registered keys are those it listens on, unless it has been released. */
  lemma {:induction false} RegistryTracksRelation(limits: Limits, events: seq<Event>, t: Target, key: string)
    ensures var s := After(limits, events);
      && (Registered(s, t, key) <==> !Gone(s, t) && ListeningKey(limits, events, t, key))
      && (ListeningKey(limits, events, t, key) ==> t in s.ids)
  {
    hide Apply, Sound, Gone, Registered, ValidChannel, ChannelKey;
    if events == [] {
      NobodyRegistered(t, key);
    } else {
      var before, e := events[..|events| - 1], events[|events| - 1];
      var s := After(limits, before);
      RegistryTracksRelation(limits, before, t, key);
      RunSound(limits, before);
      UnknownIsNotGone(s, t, key);
      if e.Execute? {
        CommandKeeps(limits, s, e, t);
        GoneIsNotRegistered(s, t, key);
        if e.target == t {
          OwnCommandTracks(limits, s, e, key);
        } else {
          OtherCommandTracks(limits, s, e, t, key);
        }
      } else {
        ReleaseTracks(s, e.target, t, key);
        ReleaseApplies(limits, s, e);
      }
    }
  }

  lemma ReleaseApplies(limits: Limits, s: Net, e: Event)
    requires e.Release?
    ensures Apply(limits, s, e).net == ApplyRelease(s, e.target)
  {
  }

  lemma NobodyRegistered(t: Target, key: string)
    ensures !Registered(EMPTY, t, key) && !Gone(EMPTY, t)
  {
  }

  lemma UnknownIsNotGone(s: Net, t: Target, key: string)
    ensures t !in s.ids ==> !Gone(s, t) && !Registered(s, t, key)
  {
  }

  lemma GoneIsNotRegistered(s: Net, t: Target, key: string)
    ensures Gone(s, t) ==> !Registered(s, t, key)
  {
  }

  // ----- deliveries -------------------------------------------------------------------------

  ghost predicate OneEntryEach(entries: map<LogicalId, Entry>) {
    forall id, jd :: id in entries && jd in entries && entries[id].target == entries[jd].target ==> id == jd
  }

  /** The client of one of the ids in the bucket. */
  ghost predicate Reached(entries: map<LogicalId, Entry>, bucket: seq<LogicalId>, t: Target) {
    exists id <- bucket :: id in entries && entries[id].target == t
  }

  lemma {:induction false} DispatchedTo(entries: map<LogicalId, Entry>, bucket: seq<LogicalId>, channel: string,
                                        payload: string, d: Delivery)
    ensures d in Dispatched(entries, bucket, channel, payload)
      <==> d == Delivery(d.target, channel, payload) && Reached(entries, bucket, d.target)
  {
    if bucket == [] {
    } else {
      DispatchedTo(entries, bucket[1..], channel, payload, d);
      assert bucket == [bucket[0]] + bucket[1..];
    }
  }

  lemma {:induction false} DispatchedOnce(entries: map<LogicalId, Entry>, bucket: seq<LogicalId>, channel: string,
                                          payload: string)
    requires OneEntryEach(entries) && Distinct(bucket)
    ensures Distinct(Dispatched(entries, bucket, channel, payload))
  {
    if bucket == [] {
    } else {
      var rest := bucket[1..];
      assert forall i, j :: 0 <= i < j < |rest| ==> rest[i] == bucket[i + 1] && rest[j] == bucket[j + 1];
      DispatchedOnce(entries, rest, channel, payload);
      assert bucket[0] !in rest;
      if bucket[0] in entries {
        DispatchedTo(entries, rest, channel, payload, Delivery(entries[bucket[0]].target, channel, payload));
      }
    }
  }

  lemma DispatchedExact(s: Net, bucket: seq<LogicalId>, channel: string, payload: string)
    requires Sound(s) && Distinct(bucket)
    ensures var out := Dispatched(s.entries, bucket, channel, payload);
      && Distinct(out)
      && (forall d <- out :: d == Delivery(d.target, channel, payload))
      && (forall t :: Delivery(t, channel, payload) in out <==>
        t in s.ids && s.ids[t] in s.entries && s.ids[t] in bucket)
  {
    hide Dispatched;
    DispatchedOnce(s.entries, bucket, channel, payload);
    var out := Dispatched(s.entries, bucket, channel, payload);
    forall d | d in out ensures d == Delivery(d.target, channel, payload) {
      DispatchedTo(s.entries, bucket, channel, payload, d);
    }
    forall t
      ensures Delivery(t, channel, payload) in out <==> t in s.ids && s.ids[t] in s.entries && s.ids[t] in bucket
    {
      DispatchedTo(s.entries, bucket, channel, payload, Delivery(t, channel, payload));
      assert t in s.ids && s.ids[t] in s.entries ==> s.entries[s.ids[t]].target == t;
    }
  }

  /** In every run a NOTIFY is delivered exactly once to each unreleased client that listens on its key,
      and to nobody else. */
  lemma NotifyIsExactlyOnce(limits: Limits, events: seq<Event>, tid: Option<string>, channel: string, payload: string,
                            sender: Target)
    requires ValidChannel(limits, channel) && ValidPayload(limits, payload)
    ensures var out := Apply(limits, After(limits, events), Execute(sender, tid, Publish(channel, payload))).deliveries;
      && Distinct(out)
      && (forall d <- out :: d == Delivery(d.target, channel, payload))
      && (forall t :: Delivery(t, channel, payload) in out
            <==>
            !Gone(After(limits, events), t)
            && ListeningKey(limits, events, t, ChannelKey(channel, ResolveTidScope(tid))))
  {
    hide ChannelKey, ValidChannel, ValidPayload, ListeningKey, Gone, After, Dispatched, Apply, Sound;
    var s := After(limits, events);
    var s' := Identify(s, sender);
    var key := ChannelKey(channel, ResolveTidScope(tid));
    RunSound(limits, events);
    IdentifySound(s, sender);
    BucketIsDistinct(s', key);
    DispatchedExact(s', BucketAt(s'.buckets, key), channel, payload);
    PublishDelivers(limits, s, Execute(sender, tid, Publish(channel, payload)));
    forall t ensures !Gone(s, t) && ListeningKey(limits, events, t, key) <==> Registered(s', t, key) {
      RegistryTracksRelation(limits, events, t, key);
    }
  }

  // ----- scopes and channels behind the keys ------------------------------------------------

  ghost predicate Plain(scope: string) { ':' !in scope }

  /** Two keys are equal exactly when scope and channel are, or one scope runs on into the other's channel. */
  lemma KeysCollideExactly(c: string, s: string, d: string, u: string)
    ensures ChannelKey(c, s) == ChannelKey(d, u)
      <==> (c == d && s == u) || Overlaps(c, s, d, u) || Overlaps(d, u, c, s)
  {
    if ChannelKey(c, s) == ChannelKey(d, u) {
      if |s| == |u| {
        assert s == ChannelKey(c, s)[..|s|] && u == ChannelKey(d, u)[..|u|];
        assert c == ChannelKey(c, s)[|s| + 1..] && d == ChannelKey(d, u)[|u| + 1..];
      } else if |s| < |u| {
        KeyOverlap(c, s, d, u);
      } else {
        KeyOverlap(d, u, c, s);
      }
    }
    if Overlaps(c, s, d, u) {
      OverlapMeets(c, s, d, u);
    }
    if Overlaps(d, u, c, s) {
      OverlapMeets(d, u, c, s);
    }
  }

  /** The longer scope is the shorter one, a colon and a beginning of its channel. */
  ghost predicate Overlaps(c: string, s: string, d: string, u: string) {
    exists k :: 0 <= k < |c| && c[k] == ':' && u == s + ":" + c[..k] && d == c[k + 1..]
  }

  lemma OverlapMeets(c: string, s: string, d: string, u: string)
    requires Overlaps(c, s, d, u)
    ensures ChannelKey(c, s) == ChannelKey(d, u)
  {
    var k :| 0 <= k < |c| && c[k] == ':' && u == s + ":" + c[..k] && d == c[k + 1..];
    assert c == c[..k] + (":" + c[k + 1..]);
    Associates(s + ":", c[..k], ":" + c[k + 1..]);
    Associates(u, ":", d);
  }

  lemma Associates(a: string, b: string, c: string)
    ensures a + (b + c) == (a + b) + c
  {
  }

  lemma KeyOverlap(c: string, s: string, d: string, u: string)
    requires ChannelKey(c, s) == ChannelKey(d, u) && |s| < |u|
    ensures Overlaps(c, s, d, u)
  {
    var key := ChannelKey(c, s);
    var k := |u| - |s| - 1;
    assert key[|u|] == ':' && key[|s|] == ':';
    assert c == key[|s| + 1..];
    assert c[k] == key[|u|];
    assert u == key[..|u|] && key[..|u|] == key[..|s|] + ":" + c[..k] && key[..|s|] == s;
    assert d == key[|u| + 1..] == c[k + 1..];
  }

  lemma OverlapIsNotPlain(c: string, s: string, d: string, u: string)
    requires Overlaps(c, s, d, u)
    ensures !Plain(u)
  {
    var k :| 0 <= k < |c| && c[k] == ':' && u == s + ":" + c[..k] && d == c[k + 1..];
    assert u[|s|] == ':';
  }

  lemma PlainKeys(c: string, s: string, d: string, u: string)
    requires Plain(s) && Plain(u)
    ensures ChannelKey(c, s) == ChannelKey(d, u) <==> c == d && s == u
  {
    hide ChannelKey, Overlaps, Plain;
    KeysCollideExactly(c, s, d, u);
    if Overlaps(c, s, d, u) {
      OverlapIsNotPlain(c, s, d, u);
    } else if Overlaps(d, u, c, s) {
      OverlapIsNotPlain(d, u, c, s);
    }
  }

  ghost predicate PlainScopes(events: seq<Event>) {
    forall e <- events :: e.Execute? ==> Plain(ResolveTidScope(e.tid))
  }

  lemma {:induction false} KeysMeanChannels(limits: Limits, events: seq<Event>, t: Target, scope: string,
                                            channel: string)
    requires PlainScopes(events) && Plain(scope)
    ensures ListeningKey(limits, events, t, ChannelKey(channel, scope))
      <==> Listening(limits, events, t, scope, channel)
    decreases |events|
  {
    hide ChannelKey, ValidChannel, Plain;
    if events == [] {
    } else {
      var before, e := events[..|events| - 1], events[|events| - 1];
      assert e in events && forall x <- before :: x in events;
      KeysMeanChannels(limits, before, t, scope, channel);
      if e.Execute? && (e.command.Listen? || e.command.Unlisten?) {
        PlainKeys(e.command.channel, ResolveTidScope(e.tid), channel, scope);
      }
    }
  }

  /**
   When no scope holds a colon, a NOTIFY is delivered exactly once to each unreleased client that
   listens on that channel under that scope, and to nobody else, whatever the others do.
   */
  lemma NotifyReachesItsListeners(limits: Limits, events: seq<Event>, tid: Option<string>, channel: string,
                                  payload: string, sender: Target)
    requires PlainScopes(events) && Plain(ResolveTidScope(tid))
    requires ValidChannel(limits, channel) && ValidPayload(limits, payload)
    ensures var s := After(limits, events);
      var out := Apply(limits, s, Execute(sender, tid, Publish(channel, payload))).deliveries;
      && Distinct(out)
      && (forall d <- out :: d == Delivery(d.target, channel, payload))
      && (forall t :: Delivery(t, channel, payload) in out
            <==> !Gone(s, t) && Listening(limits, events, t, ResolveTidScope(tid), channel))
  {
    hide ChannelKey, ValidChannel, ValidPayload, ListeningKey, Listening, Apply, Plain, PlainScopes, Gone;
    NotifyIsExactlyOnce(limits, events, tid, channel, payload, sender);
    forall t ensures ListeningKey(limits, events, t, ChannelKey(channel, ResolveTidScope(tid)))
      <==> Listening(limits, events, t, ResolveTidScope(tid), channel) {
      KeysMeanChannels(limits, events, t, ResolveTidScope(tid), channel);
    }
  }

  // ----- where the promise ends -------------------------------------------------------------

  lemma GoneStaysGone(limits: Limits, s: Net, t: Target, e: Event)
    requires Sound(s) && Gone(s, t)
    ensures Gone(Apply(limits, s, e).net, t)
  {
    hide Sound, ApplyCommand, ApplyRelease;
    if e.Execute? {
      CommandKeeps(limits, s, e, t);
    } else {
      ReleaseTracks(s, e.target, t, "");
    }
  }

  /** A released client stays unregistered whatever it does later, and gets no notification. */
  lemma ReleasedIsDeaf(limits: Limits, s: Net, t: Target, e: Event)
    requires Sound(s) && Gone(s, t)
    ensures Gone(Apply(limits, s, e).net, t)
    ensures forall d <- Apply(limits, s, e).deliveries :: d.target != t
  {
    hide Sound, Apply;
    GoneStaysGone(limits, s, t, e);
    if e.Execute? && e.command.Publish? {
      var key := ChannelKey(e.command.channel, ResolveTidScope(e.tid));
      var s' := Identify(s, e.target);
      IdentifySound(s, e.target);
      BucketIsDistinct(s', key);
      DispatchedExact(s', BucketAt(s'.buckets, key), e.command.channel, e.command.payload);
      PublishDelivers(limits, s, e);
    } else {
      OthersDeliverNothing(limits, s, e);
    }
  }

  lemma PublishDelivers(limits: Limits, s: Net, e: Event)
    requires e.Execute? && e.command.Publish?
    ensures var s' := Identify(s, e.target); var key := ChannelKey(e.command.channel, ResolveTidScope(e.tid));
      Apply(limits, s, e).deliveries ==
        if ValidChannel(limits, e.command.channel) && ValidPayload(limits, e.command.payload)
        then Dispatched(s'.entries, BucketAt(s'.buckets, key), e.command.channel, e.command.payload) else []
  {
    hide ChannelKey, ValidChannel, ValidPayload, Dispatched;
  }

  lemma OthersDeliverNothing(limits: Limits, s: Net, e: Event)
    requires !(e.Execute? && e.command.Publish?)
    ensures Apply(limits, s, e).deliveries == []
  {
    hide ChannelKey, ValidChannel, ValidPayload, Subscribed, Unsubscribed, AllUnsubscribed;
  }

  lemma BucketIsDistinct(s: Net, key: string)
    requires Sound(s)
    ensures Distinct(BucketAt(s.buckets, key))
  {
  }

  /** ... so a client that listens after its release is subscribed in the transport but never notified. */
  lemma {:induction false} ReleasedStaysDeaf(limits: Limits, events: seq<Event>, more: seq<Event>, t: Target, e: Event)
    requires Gone(After(limits, events), t)
    ensures Gone(After(limits, events + more), t)
    ensures forall d <- Apply(limits, After(limits, events + more), e).deliveries :: d.target != t
    decreases |more|
  {
    hide Apply, Sound, Gone;
    if more == [] {
      assert events + more == events;
    } else {
      var n := |more| - 1;
      ReleasedStaysDeaf(limits, events, more[..n], t, more[n]);
      assert (events + more)[..|events| + n] == events + more[..n];
      RunSound(limits, events + more[..n]);
      ReleasedIsDeaf(limits, After(limits, events + more[..n]), t, more[n]);
    }
    RunSound(limits, events + more);
    ReleasedIsDeaf(limits, After(limits, events + more), t, e);
  }

  lemma {:induction false} FirstColon(scope: string, channel: string)
    ensures Listed(ChannelKey(channel, scope)) <==> scope != "" && scope[0] != ':'
  {
    var key := ChannelKey(channel, scope);
    assert key[0] == if scope == "" then ':' else scope[0];
    ColonAhead(key, |scope|);
  }

  lemma {:induction false} ColonAhead(key: string, k: nat)
    requires k < |key| && key[k] == ':'
    ensures IndexOfColon(key).Some?
    ensures IndexOfColon(key) == Some(0) <==> key[0] == ':'
  {
    if key[0] != ':' {
      assert key[1..][k - 1] == ':';
      ColonAhead(key[1..], k - 1);
    }
  }

  /** The release of the client leaves its id in the transport. */
  ghost predicate Leaks(s: Net, t: Target)
    requires t in s.ids
  {
    exists key :: s.ids[t] in BucketAt(ApplyRelease(s, t).buckets, key)
  }

  /** A release takes the client's id out of the transport unless it has subscriptions and none is listed. */
  lemma ReleaseLeaksUnlisted(s: Net, t: Target)
    requires Sound(s) && t in s.ids && s.ids[t] in s.entries
    ensures Leaks(s, t) <==> ChannelsOf(s, s.ids[t]) != {} && forall key <- ChannelsOf(s, s.ids[t]) :: !Listed(key)
  {
    hide Listed, AllUnsubscribed;
    var id := s.ids[t];
    UnsubscribeAllRetunes(s, id);
    if ChannelsOf(s, id) != {} && forall key <- ChannelsOf(s, id) :: !Listed(key) {
      var key :| key in ChannelsOf(s, id);
      assert id in BucketAt(ApplyRelease(s, t).buckets, key);
    }
  }

  /** Every key that a client listens on was made of a scope and a channel. */
  lemma {:induction false} KeysHaveScopes(limits: Limits, events: seq<Event>, t: Target, key: string)
    requires ListeningKey(limits, events, t, key)
    ensures exists scope, channel :: key == ChannelKey(channel, scope)
    decreases |events|
  {
    hide ChannelKey, ValidChannel;
    var before, e := events[..|events| - 1], events[|events| - 1];
    if ListeningKey(limits, before, t, key) {
      KeysHaveScopes(limits, before, t, key);
    } else {
      assert key == ChannelKey(e.command.channel, ResolveTidScope(e.tid));
    }
  }

  /** The scope is empty or begins with a colon. */
  predicate Unlisted(scope: string) { scope == "" || scope[0] == ':' }

  ghost predicate ListensSomewhere(limits: Limits, events: seq<Event>, t: Target) {
    exists key :: ListeningKey(limits, events, t, key)
  }

  /** Every scope that the client listens under is empty or begins with a colon. */
  ghost predicate ListensUnlisted(limits: Limits, events: seq<Event>, t: Target) {
    forall scope, channel :: ListeningKey(limits, events, t, ChannelKey(channel, scope)) ==> Unlisted(scope)
  }

  lemma UnlistedExactly(limits: Limits, events: seq<Event>, t: Target)
    ensures ListensUnlisted(limits, events, t) <==> forall key :: ListeningKey(limits, events, t, key) ==> !Listed(key)
  {
    hide ChannelKey, Listed, ListeningKey;
    forall scope, channel ensures Listed(ChannelKey(channel, scope)) <==> !Unlisted(scope) {
      FirstColon(scope, channel);
    }
    forall key | ListensUnlisted(limits, events, t) && ListeningKey(limits, events, t, key) ensures !Listed(key) {
      KeysHaveScopes(limits, events, t, key);
    }
  }

  /**
   After any run the release of a registered client leaves its id in the transport exactly when the
   client listens somewhere, and every scope that it listens under is empty or begins with a colon.
   */
  lemma ReleaseLeaksExactly(limits: Limits, events: seq<Event>, t: Target)
    requires t in After(limits, events).ids && !Gone(After(limits, events), t)
    ensures Leaks(After(limits, events), t)
      <==> ListensSomewhere(limits, events, t) && ListensUnlisted(limits, events, t)
  {
    hide Listed, ListeningKey, Leaks, Apply, ListensUnlisted;
    var s := After(limits, events);
    RunSound(limits, events);
    ReleaseLeaksUnlisted(s, t);
    UnlistedExactly(limits, events, t);
    var channels := ChannelsOf(s, s.ids[t]);
    forall key ensures key in channels <==> ListeningKey(limits, events, t, key) {
      RegistryTracksRelation(limits, events, t, key);
    }
    if channels != {} {
      var key :| key in channels;
      assert ListeningKey(limits, events, t, key);
    }
    if ListensUnlisted(limits, events, t) {
      assert forall key <- channels :: !Listed(key);
    } else {
      var key :| ListeningKey(limits, events, t, key) && Listed(key);
      assert key in channels;
    }
    if key :| ListeningKey(limits, events, t, key) {
      assert key in channels;
    }
  }
}
