/**
 LISTEN, UNLISTEN and NOTIFY: the registry of clients (src/notification-registry.ts), the in-memory
 transport (src/mtdd-notify-transport.ts), the handler that keeps them in step
 (src/listen-notify-handler.ts) and the release of a client (src/listen-notify-lifecycle.ts).
 */
module Notify {
  import opened Wrappers
  import opened Sequences

  type Target = nat

  type LogicalId = nat

  datatype Entry = Entry(target: Target, channels: set<string>)

  datatype Command =
    | Listen(channel: string)
    | Unlisten(channel: string)
    | UnlistenAll
    | Publish(channel: string, payload: string)

  /** A parsed statement of a client under a tid, or the release of a checked-out client. */
  datatype Event = Execute(target: Target, tid: Option<string>, command: Command) | Release(target: Target)

  datatype Delivery = Delivery(target: Target, channel: string, payload: string)

  datatype Limits = Limits(maxChannelBytes: nat, maxPayloadBytes: nat)

  /** All that the two modules keep: buckets are insertion-ordered sets of ids. */
  datatype Net = Net(
    ids: map<Target, LogicalId>,
    entries: map<LogicalId, Entry>,
    next: LogicalId,
    buckets: map<string, seq<LogicalId>>)

  const EMPTY := Net(map[], map[], 1, map[])

  function ResolveTidScope(tid: Option<string>): string {
    if tid.None? then "__global__" else tid.value
  }

  function ChannelKey(channel: string, scope: string): string { scope + ":" + channel }

  function ByteLength(s: string): nat {
    if s == "" then 0
    else
      (if s[0] < '\U{0080}' then 1 else if s[0] < '\U{0800}' then 2 else if s[0] < '\U{10000}' then 3 else 4)
      + ByteLength(s[1..])
  }

  predicate ValidChannel(limits: Limits, channel: string) {
    channel != "" && ByteLength(channel) <= limits.maxChannelBytes
  }

  predicate ValidPayload(limits: Limits, payload: string) { ByteLength(payload) <= limits.maxPayloadBytes }

  function Insert(bucket: seq<LogicalId>, id: LogicalId): seq<LogicalId> {
    if id in bucket then bucket else bucket + [id]
  }

  function Delete(bucket: seq<LogicalId>, id: LogicalId): seq<LogicalId> {
    if bucket == [] then [] else (if bucket[0] == id then [] else [bucket[0]]) + Delete(bucket[1..], id)
  }

  /** The position of the first colon, or none. */
  function IndexOfColon(key: string): Option<nat> {
    if key == "" then None
    else if key[0] == ':' then Some(0)
    else
      var rest := IndexOfColon(key[1..]);
      if rest.None? then None else Some(rest.value + 1)
  }

  /** getChannelSubscriptions skips keys whose scope is empty. */
  predicate Listed(key: string) {
    var colon := IndexOfColon(key);
    colon.Some? && colon.value > 0
  }

  // ----- one event, on values ---------------------------------------------------------------

  function Identify(s: Net, target: Target): Net {
    if target in s.ids then s
    else s.(ids := s.ids[target := s.next], entries := s.entries[s.next := Entry(target, {})], next := s.next + 1)
  }

  function WithChannels(entries: map<LogicalId, Entry>, id: LogicalId, channels: set<string>): map<LogicalId, Entry> {
    if id in entries then entries[id := entries[id].(channels := channels)] else entries
  }

  function ChannelsOf(s: Net, id: LogicalId): set<string> {
    if id in s.entries then s.entries[id].channels else {}
  }

  function BucketAt(buckets: map<string, seq<LogicalId>>, key: string): seq<LogicalId> {
    if key in buckets then buckets[key] else []
  }

  function Subscribed(buckets: map<string, seq<LogicalId>>, id: LogicalId, key: string): map<string, seq<LogicalId>> {
    buckets[key := Insert(BucketAt(buckets, key), id)]
  }

  function Unsubscribed(buckets: map<string, seq<LogicalId>>, id: LogicalId, key: string): map<string, seq<LogicalId>> {
    if key !in buckets then buckets
    else if Delete(buckets[key], id) == [] then buckets - {key}
    else buckets[key := Delete(buckets[key], id)]
  }

  function AllUnsubscribed(buckets: map<string, seq<LogicalId>>, id: LogicalId): map<string, seq<LogicalId>> {
    map key | key in buckets :: Delete(buckets[key], id)
  }

  /** One notification for each id of a bucket that still has an entry. */
  function Dispatched(entries: map<LogicalId, Entry>, bucket: seq<LogicalId>, channel: string,
                      payload: string): seq<Delivery> {
    if bucket == [] then []
    else
      (if bucket[0] in entries then [Delivery(entries[bucket[0]].target, channel, payload)] else [])
      + Dispatched(entries, bucket[1..], channel, payload)
  }

  datatype Step = Step(net: Net, deliveries: seq<Delivery>, ok: bool)

  function ApplyCommand(limits: Limits, s: Net, id: LogicalId, scope: string, command: Command): Step {
    match command
    case UnlistenAll =>
      Step(s.(buckets := AllUnsubscribed(s.buckets, id), entries := WithChannels(s.entries, id, {})), [], true)
    case Listen(channel) =>
      var key := ChannelKey(channel, scope);
      if !ValidChannel(limits, channel) then Step(s, [], false)
      else Step(s.(buckets := Subscribed(s.buckets, id, key),
                   entries := WithChannels(s.entries, id, ChannelsOf(s, id) + {key})), [], true)
    case Unlisten(channel) =>
      var key := ChannelKey(channel, scope);
      if !ValidChannel(limits, channel) then Step(s, [], false)
      else Step(s.(buckets := Unsubscribed(s.buckets, id, key),
                   entries := WithChannels(s.entries, id, ChannelsOf(s, id) - {key})), [], true)
    case Publish(channel, payload) =>
      if !ValidChannel(limits, channel) || !ValidPayload(limits, payload) then Step(s, [], false)
      else Step(s, Dispatched(s.entries, BucketAt(s.buckets, ChannelKey(channel, scope)), channel, payload), true)
  }

  function ApplyRelease(s: Net, target: Target): Net {
    if target !in s.ids then s
    else
      var id := s.ids[target];
      var listed := exists key <- ChannelsOf(s, id) :: Listed(key);
      s.(buckets := if listed then AllUnsubscribed(s.buckets, id) else s.buckets, entries := s.entries - {id})
  }

  function Apply(limits: Limits, s: Net, e: Event): Step {
    match e
    case Execute(target, tid, command) =>
      var s' := Identify(s, target);
      ApplyCommand(limits, s', s'.ids[target], ResolveTidScope(tid), command)
    case Release(target) => Step(ApplyRelease(s, target), [], true)
  }

  // ----- the modules ------------------------------------------------------------------------

  class NotificationRegistry {
    var clientToLogicalId: map<Target, LogicalId>
    var logicalIdToEntry: map<LogicalId, Entry>
    var nextLogicalId: LogicalId

    constructor ()
      ensures clientToLogicalId == map[] && logicalIdToEntry == map[] && nextLogicalId == 1
    {
      clientToLogicalId, logicalIdToEntry, nextLogicalId := map[], map[], 1;
    }

    ghost function Now(transport: MemoryTransport): Net
      reads this, transport
    {
      Net(clientToLogicalId, logicalIdToEntry, nextLogicalId, transport.subscriptions)
    }

    method GetLogicalClientId(target: Target) returns (id: LogicalId)
      modifies this
      ensures target in clientToLogicalId && id == clientToLogicalId[target]
      ensures var before := Net(old(clientToLogicalId), old(logicalIdToEntry), old(nextLogicalId), map[]);
        Net(clientToLogicalId, logicalIdToEntry, nextLogicalId, map[]) == Identify(before, target)
    {
      if target !in clientToLogicalId {
        clientToLogicalId := clientToLogicalId[target := nextLogicalId];
        logicalIdToEntry := logicalIdToEntry[nextLogicalId := Entry(target, {})];
        nextLogicalId := nextLogicalId + 1;
      }
      id := clientToLogicalId[target];
    }

    method AddChannelSubscription(id: LogicalId, channel: string, scope: string)
      modifies this`logicalIdToEntry
      ensures logicalIdToEntry == var before := old(logicalIdToEntry);
        if id in before then before[id := before[id].(channels := before[id].channels + {ChannelKey(channel, scope)})]
        else before
    {
      if id in logicalIdToEntry {
        var entry := logicalIdToEntry[id];
        logicalIdToEntry := logicalIdToEntry[id := entry.(channels := entry.channels + {ChannelKey(channel, scope)})];
      }
    }

    method RemoveChannelSubscription(id: LogicalId, channel: string, scope: string)
      modifies this`logicalIdToEntry
      ensures logicalIdToEntry == var before := old(logicalIdToEntry);
        if id in before then before[id := before[id].(channels := before[id].channels - {ChannelKey(channel, scope)})]
        else before
    {
      if id in logicalIdToEntry {
        var entry := logicalIdToEntry[id];
        logicalIdToEntry := logicalIdToEntry[id := entry.(channels := entry.channels - {ChannelKey(channel, scope)})];
      }
    }

    method ClearChannelSubscriptions(id: LogicalId)
      modifies this`logicalIdToEntry
      ensures logicalIdToEntry == WithChannels(old(logicalIdToEntry), id, {})
    {
      if id in logicalIdToEntry {
        logicalIdToEntry := logicalIdToEntry[id := logicalIdToEntry[id].(channels := {})];
      }
    }

    method RemoveClient(target: Target)
      modifies this`logicalIdToEntry
      ensures logicalIdToEntry ==
        if target in clientToLogicalId then old(logicalIdToEntry) - {clientToLogicalId[target]}
        else old(logicalIdToEntry)
    {
      if target in clientToLogicalId {
        logicalIdToEntry := logicalIdToEntry - {clientToLogicalId[target]};
      }
    }
  }

  class MemoryTransport {
    var subscriptions: map<string, seq<LogicalId>>

    constructor ()
      ensures subscriptions == map[]
    {
      subscriptions := map[];
    }

    method Subscribe(id: LogicalId, channel: string, scope: string)
      modifies this
      ensures subscriptions == Subscribed(old(subscriptions), id, ChannelKey(channel, scope))
    {
      var key := ChannelKey(channel, scope);
      if key !in subscriptions {
        subscriptions := subscriptions[key := []];
      }
      subscriptions := subscriptions[key := Insert(subscriptions[key], id)];
    }

    method Unsubscribe(id: LogicalId, channel: string, scope: string)
      modifies this
      ensures subscriptions == Unsubscribed(old(subscriptions), id, ChannelKey(channel, scope))
    {
      var key := ChannelKey(channel, scope);
      if key in subscriptions {
        subscriptions := subscriptions[key := Delete(subscriptions[key], id)];
        if subscriptions[key] == [] {
          subscriptions := subscriptions - {key};
        }
      }
    }

    method UnsubscribeAll(id: LogicalId)
      modifies this
      ensures subscriptions == AllUnsubscribed(old(subscriptions), id)
    {
      var todo := subscriptions.Keys;
      while todo != {}
        invariant todo <= subscriptions.Keys == old(subscriptions).Keys
        invariant forall key <- todo :: subscriptions[key] == old(subscriptions)[key]
        invariant forall key <- subscriptions.Keys - todo :: subscriptions[key] == Delete(old(subscriptions)[key], id)
        decreases todo
      {
        var key :| key in todo;
        subscriptions := subscriptions[key := Delete(subscriptions[key], id)];
        todo := todo - {key};
      }
    }

    method PublishTo(registry: NotificationRegistry, channel: string, payload: string, scope: string)
      returns (out: seq<Delivery>)
      ensures out == Dispatched(registry.logicalIdToEntry, BucketAt(subscriptions, ChannelKey(channel, scope)),
                                channel, payload)
    {
      out := [];
      var key := ChannelKey(channel, scope);
      if key !in subscriptions {
        return;
      }
      var bucket := subscriptions[key];
      var entries := registry.logicalIdToEntry;
      assert bucket[0..] == bucket;
      for i := 0 to |bucket|
        invariant out + Dispatched(entries, bucket[i..], channel, payload)
          == Dispatched(entries, bucket, channel, payload)
      {
        assert bucket[i..][1..] == bucket[i + 1..];
        if bucket[i] in entries {
          var delivery := Delivery(entries[bucket[i]].target, channel, payload);
          assert out + ([delivery] + Dispatched(entries, bucket[i + 1..], channel, payload))
              == out + [delivery] + Dispatched(entries, bucket[i + 1..], channel, payload);
          out := out + [delivery];
        } else {
          assert [] + Dispatched(entries, bucket[i + 1..], channel, payload)
            == Dispatched(entries, bucket[i + 1..], channel, payload);
        }
      }
    }
  }

  /** executeListenNotifyCommand, for a statement that has been parsed; `ok` is false where it throws. */
  method ExecuteListenNotifyCommand(registry: NotificationRegistry, transport: MemoryTransport, limits: Limits,
                                    target: Target, tid: Option<string>, command: Command)
      returns (ok: bool, out: seq<Delivery>)
    modifies registry, transport
    ensures Step(registry.Now(transport), out, ok)
      == Apply(limits, old(registry.Now(transport)), Execute(target, tid, command))
  {
    hide ByteLength, Delete, Insert, Dispatched;
    ok, out := true, [];
    var scope := ResolveTidScope(tid);
    var id := registry.GetLogicalClientId(target);
    match command {
      case UnlistenAll =>
        transport.UnsubscribeAll(id);
        registry.ClearChannelSubscriptions(id);
      case Listen(channel) =>
        ok := ValidChannel(limits, channel);
        if ok {
          transport.Subscribe(id, channel, scope);
          registry.AddChannelSubscription(id, channel, scope);
        }
      case Unlisten(channel) =>
        ok := ValidChannel(limits, channel);
        if ok {
          transport.Unsubscribe(id, channel, scope);
          registry.RemoveChannelSubscription(id, channel, scope);
        }
      case Publish(channel, payload) =>
        ok := ValidChannel(limits, channel) && ValidPayload(limits, payload);
        if ok {
          out := transport.PublishTo(registry, channel, payload, scope);
        }
    }
  }

  /** teardownNotifySubscriptions, for a checked-out client. */
  method TeardownNotifySubscriptions(registry: NotificationRegistry, transport: MemoryTransport, target: Target)
    modifies registry, transport
    ensures registry.Now(transport) == ApplyRelease(old(registry.Now(transport)), target)
  {
    if target in registry.clientToLogicalId {
      var id := registry.clientToLogicalId[target];
      if id in registry.logicalIdToEntry && exists key <- registry.logicalIdToEntry[id].channels :: Listed(key) {
        transport.UnsubscribeAll(id);
      }
    }
    registry.RemoveClient(target);
  }
}
