/** `StorageMessenger.Transport`: every window registers a listener record
    in the shared store, keeps it fresh with a timer, sends by writing one
    message record per other live listener, and picks up the messages
    addressed to it when the store signals a change.

    Every pass over the store is `forEachFilteredItem_`: a scan from the
    last key index down to 0 that hands each entry passing a filter to a
    callback. The callbacks remove only the entry they are given or add new
    keys (which go to the end of the key list), so the scan visits exactly
    the keys that were stored when it started, last one first. Each pass is
    specified by a function over the key list it starts from; the scan
    methods are proved against those functions, and the lemmas at the end
    say what the functions mean. */
module Transports {
  import opened Options
  import opened Seqs
  import opened Strings
  import opened Records
  import opened Items
  import opened FakeStorage

  /** Stands for a JavaScript function value: the model only needs to tell
      whether one is set and which one it is. */
  type CallbackId = nat

  /** The filters the transport hands to `forEachFilteredItem_`; the two
      that call `isDead` carry the clock reading they see. */
  datatype ItemFilter =
    | OwnMessage
    | OtherActiveMessageListener(now: int)
    | OwnMessageListener
    | Garbage(now: int)

  /** `isOwnMessage_`: the key mentions the message tag and this window's id. */
  predicate IsOwnMessage(item: Item, targetId: string)
    ensures forall m, d :: item.key == MessageKey(m, targetId, d) ==> IsOwnMessage(item, targetId)
  {
    MessageKeysClassified(item, targetId);
    item.ContainsMessage() && item.ContainsTargetId(targetId)
  }

  /** `isOtherActiveMessageListener_`: the key mentions the listener tag but
      not this window's id, and the entry is not dead. */
  predicate IsOtherActiveMessageListener(item: Item, targetId: string, now: int)
    ensures IsOtherActiveMessageListener(item, targetId, now) ==>
              !IsOwnMessageListener(item, targetId) && !IsOwnMessage(item, targetId) && !IsGarbage(item, now)
  {
    item.ContainsMessageListener() && !item.ContainsTargetId(targetId) && !item.IsDead(now)
  }

  /** `isOwnMessageListener_`: the key mentions the listener tag and this
      window's id. */
  predicate IsOwnMessageListener(item: Item, targetId: string)
    ensures item.key == ListenerKey(targetId) ==> IsOwnMessageListener(item, targetId)
  {
    RecordClassification(ListenerRecord(targetId), item.value);
    item.ContainsMessageListener() && item.ContainsTargetId(targetId)
  }

  /** `isGarbage_`: any dead entry, whatever its key. */
  predicate IsGarbage(item: Item, now: int)
    ensures IsGarbage(item, now) <==> ParseInt(item.value).Some? && now - ParseInt(item.value).value > ITEM_TTL_MS
  {
    item.IsDead(now)
  }

  predicate Selects(f: ItemFilter, item: Item, targetId: string) {
    match f
    case OwnMessage => IsOwnMessage(item, targetId)
    case OtherActiveMessageListener(now) => IsOtherActiveMessageListener(item, targetId, now)
    case OwnMessageListener => IsOwnMessageListener(item, targetId)
    case Garbage(now) => IsGarbage(item, now)
  }

  /** The entry `forEachItem_` builds for `key`. A key without a value
      would read as `undefined`, which `parseInt` turns into `NaN` just as
      it does the empty string; in a well-formed store it does not occur. */
  function ItemAt(e: Entries, key: string): Item {
    Item(key, if key in e.items then e.items[key] else "")
  }

  /** The filter as the function `forEachFilteredItem_` is handed. */
  function Selector(f: ItemFilter, targetId: string): Item -> bool {
    item => Selects(f, item, targetId)
  }

  /** The keys of `e` whose entries a filter rejects. */
  function Unselected(select: Item -> bool, e: Entries): string -> bool {
    key => !select(ItemAt(e, key))
  }

  /** The store cut down to the keys `keys`, with their values unchanged. */
  function Keeping(e: Entries, keys: seq<string>): Entries {
    Entries(keys, map k | k in e.items && k in keys :: e.items[k])
  }

  /** A pass whose callback is `remove_`: every entry that passes the filter
      goes, the rest keep their order and values. */
  function RemovePass(e: Entries, f: ItemFilter, targetId: string): Entries {
    Keeping(e, Filter(e.keys, Unselected(Selector(f, targetId), e)))
  }

  /** `message.data` as `handleMessage_` reads it from a parsed key:
      a listener record has no `data` field, so it hands on `undefined`. */
  function DataOf(r: Record): Option<string> {
    if r.MessageRecord? then Some(r.data) else None
  }

  /** What a callback makes of one visited entry: nothing (the filter
      rejects it), a parse failure (`JSON.parse` throws, which ends the
      scan), or a result. */
  datatype Visit<T> = Skip | Fail | Hit(value: T)

  /** `handleMessage_` on a key: the data it hands on. */
  function MessageVisit(key: string): Visit<Option<string>> {
    match Decode(key)
    case None => Fail
    case Some(r) => Hit(DataOf(r))
  }

  /** `handleMessage_` behind `isOwnMessage_`. */
  function OwnMessageVisit(e: Entries, targetId: string): string -> Visit<Option<string>> {
    key => if IsOwnMessage(ItemAt(e, key), targetId) then MessageVisit(key) else Skip
  }

  /** `storeMessage_` on a listener's key: the target id it writes to. */
  function StoreVisit(key: string): Visit<string> {
    match Decode(key)
    case None => Fail
    case Some(r) => Hit(r.targetId)
  }

  /** `storeMessage_` behind `isOtherActiveMessageListener_`. */
  function ListenerVisit(e: Entries, targetId: string, now: int): string -> Visit<string> {
    key => if IsOtherActiveMessageListener(ItemAt(e, key), targetId, now) then StoreVisit(key) else Skip
  }

  /** What the pass of `handleOwnMessage_` does to a key list: the keys it
      leaves, the data it hands to the transport data listener in order, and
      whether it ran to the end. A handled entry is removed; at a failure
      the scan stops and leaves that key and those below it alone. */
  datatype DeliveryPass = DeliveryPass(kept: seq<string>, data: seq<Option<string>>, completed: bool)

  /** The pass over `s`, where `s[0]` is visited last. */
  function Deliveries(s: seq<string>, visit: string -> Visit<Option<string>>): (p: DeliveryPass)
    ensures |p.kept| + |p.data| == |s|
    decreases |s|
  {
    if |s| == 0 then DeliveryPass([], [], true)
    else
      var rest := Deliveries(s[1..], visit);
      if !rest.completed then DeliveryPass([s[0]] + rest.kept, rest.data, false)
      else match visit(s[0])
        case Skip => DeliveryPass([s[0]] + rest.kept, rest.data, true)
        case Fail => DeliveryPass([s[0]] + rest.kept, rest.data, false)
        case Hit(d) => DeliveryPass(rest.kept, rest.data + [d], true)
  }

  /** What the pass of `storeMessageForOtherActiveMessageListeners_` does:
      the target ids it writes a message for, in order, and whether it ran
      to the end. */
  datatype SendPass = SendPass(targets: seq<string>, completed: bool)

  /** The pass over `s`, where `s[0]` is visited last. */
  function Recipients(s: seq<string>, visit: string -> Visit<string>): (r: SendPass)
    ensures |r.targets| <= |s|
    decreases |s|
  {
    if |s| == 0 then SendPass([], true)
    else
      var rest := Recipients(s[1..], visit);
      if !rest.completed then rest
      else match visit(s[0])
        case Skip => rest
        case Fail => SendPass(rest.targets, false)
        case Hit(t) => SendPass(rest.targets + [t], true)
  }

  /** The keys of the messages a send writes: the `j`-th one gets the `j`-th
      fresh id. */
  function MessageKeys(ids: seq<string>, targets: seq<string>, data: string): (r: seq<string>)
    requires |targets| <= |ids|
    ensures |r| == |targets|
  {
    seq(|targets|, j requires 0 <= j < |targets| => MessageKey(ids[j], targets[j], data))
  }

  /** The key of a message record. */
  function MessageKey(id: string, targetId: string, data: string): string {
    Encode(MessageRecord(id, targetId, data))
  }

  /** Every message record addressed to `targetId` has a key that carries
      the message tag and `targetId`. */
  lemma MessageKeysClassified(item: Item, targetId: string)
    ensures forall m, d :: item.key == MessageKey(m, targetId, d) ==>
              item.ContainsMessage() && item.ContainsTargetId(targetId)
  {
    forall m, d | item.key == MessageKey(m, targetId, d)
      ensures item.ContainsMessage() && item.ContainsTargetId(targetId)
    {
      RecordClassification(MessageRecord(m, targetId, d), item.value);
    }
  }

  /** The key of a window's listener record. */
  function ListenerKey(targetId: string): string {
    Encode(ListenerRecord(targetId))
  }

  /** A storage event as `storageListener` reads it: `key` and `newValue`
      may be `null`. */
  datatype StorageEvent = StorageEvent(key: Option<string>, newValue: Option<string>)

  /** JavaScript truthiness of a string that may be `null`. */
  predicate Truthy(s: Option<string>) {
    s.Some? && |s.value| > 0
  }

  /** `storageListener`: whether the event schedules `handleOwnMessage_`;
      an event with a key and no new value comes from a deletion and is
      ignored. */
  predicate SchedulesHandling(event: StorageEvent)
    ensures event.key.None? ==> SchedulesHandling(event)
    ensures Truthy(event.newValue) ==> SchedulesHandling(event)
  {
    !(Truthy(event.key) && !Truthy(event.newValue))
  }

  class Transport {
    const store: Store
    const targetId: string
    /** `transportDataListener_`. */
    var transportDataListener: Option<CallbackId>
    /** How many keep-alive timers are running. */
    var keepAliveIntervals: nat
    /** Whether `keepAliveInterval_` holds a timer that is still running. */
    var keepAliveHandle: bool

    ghost predicate Valid()
      reads this, store
    {
      store.Valid() && (keepAliveHandle ==> keepAliveIntervals > 0)
    }

    constructor(store: Store, targetId: string)
      requires store.Valid()
      ensures Valid()
      ensures this.store == store && this.targetId == targetId
      ensures transportDataListener == None && keepAliveIntervals == 0 && !keepAliveHandle
    {
      this.store := store;
      this.targetId := targetId;
      transportDataListener := None;
      keepAliveIntervals := 0;
      keepAliveHandle := false;
    }

    /** `Transport.create`: the id comes from `guid()` and the clock reading
        from `new Date()`; registers this window's listener, then collects
        garbage. */
    static method Create(store: Store, targetId: string, now: nat) returns (t: Transport)
      requires store.Valid()
      modifies store
      ensures fresh(t) && t.Valid()
      ensures t.store == store && t.targetId == targetId
      ensures t.transportDataListener == None && t.keepAliveIntervals == 1 && t.keepAliveHandle
      ensures store.Contents()
        == RemovePass(old(store.Contents()).Set(ListenerKey(targetId), NatToString(now)), Garbage(now), targetId)
    {
      t := new Transport(store, targetId);
      t.RegisterOwnMessageListener(now);
      t.RemoveGarbage(now);
    }

    method SetTransportDataListener(listener: CallbackId)
      modifies this
      ensures transportDataListener == Some(listener)
      ensures keepAliveIntervals == old(keepAliveIntervals) && keepAliveHandle == old(keepAliveHandle)
    {
      transportDataListener := Some(listener);
    }

    /** `storeMessageListener_`: writes the listener record of `id`,
        stamped with the clock reading. */
    method StoreMessageListener(id: string, now: nat)
      requires store.Valid()
      modifies store
      ensures store.Valid()
      ensures store.Contents() == old(store.Contents()).Set(ListenerKey(id), NatToString(now))
    {
      store.SetItem(ListenerKey(id), NatToString(now));
    }

    /** `registerOwnMessageListener`: writes this window's listener record
        and starts a timer that rewrites it every `ITEM_TTL_MS`. A handle
        already held is overwritten, so its timer can no longer be cleared. */
    method RegisterOwnMessageListener(now: nat)
      requires Valid()
      modifies this, store
      ensures Valid()
      ensures store.Contents() == old(store.Contents()).Set(ListenerKey(targetId), NatToString(now))
      ensures keepAliveIntervals == old(keepAliveIntervals) + 1 && keepAliveHandle
      ensures transportDataListener == old(transportDataListener)
    {
      StoreMessageListener(targetId, now);
      keepAliveIntervals := keepAliveIntervals + 1;
      keepAliveHandle := true;
    }

    /** One firing of the keep-alive timers: each running timer rewrites
        this window's listener record with the same clock reading. */
    method KeepAliveTick(now: nat)
      requires Valid()
      modifies store
      ensures Valid()
      ensures store.Contents() ==
        if keepAliveIntervals > 0 then old(store.Contents()).Set(ListenerKey(targetId), NatToString(now))
        else old(store.Contents())
    {
      if keepAliveIntervals > 0 {
        StoreMessageListener(targetId, now);
      }
    }

    /** `deregisterOwnMessageListener_`: removes every entry that looks like
        this window's listener, then clears the timer the handle refers to. */
    method DeregisterOwnMessageListener()
      requires Valid()
      modifies this, store
      ensures Valid()
      ensures store.Contents() == RemovePass(old(store.Contents()), OwnMessageListener, targetId)
      ensures !keepAliveHandle
      ensures keepAliveIntervals == if old(keepAliveHandle) then old(keepAliveIntervals) - 1 else old(keepAliveIntervals)
      ensures transportDataListener == old(transportDataListener)
    {
      RemoveFiltered(OwnMessageListener);
      if keepAliveHandle {
        keepAliveIntervals := keepAliveIntervals - 1;
        keepAliveHandle := false;
      }
    }

    /** `destroy`: deregisters this window's listener. */
    method Destroy()
      requires Valid()
      modifies this, store
      ensures Valid()
      ensures store.Contents() == RemovePass(old(store.Contents()), OwnMessageListener, targetId)
      ensures !keepAliveHandle
      ensures keepAliveIntervals == if old(keepAliveHandle) then old(keepAliveIntervals) - 1 else old(keepAliveIntervals)
      ensures transportDataListener == old(transportDataListener)
    {
      DeregisterOwnMessageListener();
    }

    /** `removeGarbage`: removes every dead entry. */
    method RemoveGarbage(now: int)
      requires store.Valid()
      modifies store
      ensures store.Valid()
      ensures store.Contents() == RemovePass(old(store.Contents()), Garbage(now), targetId)
    {
      RemoveFiltered(Garbage(now));
    }

    /** `remove_`: removes the entry's key from the store. */
    method Remove(key: string)
      requires store.Valid()
      modifies store
      ensures store.Valid()
      ensures store.Contents() == old(store.Contents()).Remove(key)
    {
      store.RemoveItem(key);
    }

    /** `forEachFilteredItem_(filter, remove_)`. */
    method RemoveFiltered(f: ItemFilter)
      requires store.Valid()
      modifies store
      ensures store.Valid()
      ensures store.Contents() == RemovePass(old(store.Contents()), f, targetId)
    {
      ghost var e0 := store.Contents();
      ScanRemoving(Selector(f, targetId), e0);
    }

    /** The loop of `forEachItem_` behind `forEachFilteredItem_(f, remove_)`:
        from the last index down, each entry `select` accepts is removed. */
    method ScanRemoving(select: Item -> bool, ghost e0: Entries)
      requires store.Valid() && store.Contents() == e0
      modifies store
      ensures store.Valid()
      ensures store.Contents() == Keeping(e0, Filter(e0.keys, Unselected(select, e0)))
    {
      var i := store.length;
      while i > 0
        invariant 0 <= i <= |e0.keys|
        invariant store.Valid()
        invariant store.keys == e0.keys[..i] + Filter(e0.keys[i..], Unselected(select, e0))
        invariant forall k :: k in store.items ==> k in e0.items && store.items[k] == e0.items[k]
      {
        RemoveAt(select, i, e0);
        i := i - 1;
      }
      assert e0.keys[..0] + Filter(e0.keys[0..], Unselected(select, e0)) == Filter(e0.keys, Unselected(select, e0)) by {
        assert e0.keys[0..] == e0.keys;
      }
      KeepingOf(e0, store.Contents());
    }

    /** One turn of that loop: the entry at index `i - 1` is still the one
        the scan started with there, and it is removed when `select`
        accepts it. */
    method RemoveAt(select: Item -> bool, i: nat, ghost e0: Entries)
      requires store.Valid() && 0 < i <= |e0.keys|
      requires store.keys == e0.keys[..i] + Filter(e0.keys[i..], Unselected(select, e0))
      requires forall k :: k in store.items ==> k in e0.items && store.items[k] == e0.items[k]
      modifies store
      ensures store.Valid()
      ensures store.keys == e0.keys[..i - 1] + Filter(e0.keys[i - 1..], Unselected(select, e0))
      ensures forall k :: k in store.items ==> k in e0.items && store.items[k] == e0.items[k]
    {
      ghost var before := store.Contents();
      ScanPosition(before, e0.keys, i, Filter(e0.keys[i..], Unselected(select, e0)));
      var key := store.Key(i - 1).value;
      var item := ItemAt(store.Contents(), key);
      assert item == ItemAt(e0, key);
      if select(item) {
        Remove(key);
      }
      RemovalStep(e0.keys, i, Unselected(select, e0), before, store.Contents());
    }

    /** `invokeTransportListener_`: the calls it makes, as the list of data
        handed to the transport data listener (none when it is not set). */
    function InvokeTransportListener(data: Option<string>): (calls: seq<Option<string>>)
      reads this
      ensures transportDataListener.Some? <==> calls == [data]
      ensures transportDataListener.None? <==> calls == []
    {
      if transportDataListener.Some? then [data] else []
    }

    /** `handleMessage_`: parses the key, hands `message.data` to the
        transport data listener and removes the entry; `ok` is false when
        the key does not parse, which throws before anything happens. */
    method HandleMessage(key: string) returns (ok: bool, calls: seq<Option<string>>)
      requires store.Valid()
      modifies store
      ensures store.Valid()
      ensures ok <==> MessageVisit(key).Hit?
      ensures ok ==> calls == InvokeTransportListener(MessageVisit(key).value)
      ensures ok ==> store.Contents() == old(store.Contents()).Remove(key)
      ensures !ok ==> calls == [] && store.Contents() == old(store.Contents())
    {
      match Decode(key)
      case None =>
        ok, calls := false, [];
      case Some(message) =>
        calls := InvokeTransportListener(DataOf(message));
        Remove(key);
        ok := true;
    }

    /** `handleOwnMessage_`, i.e. `forEachFilteredItem_(isOwnMessage_,
        handleMessage_)`: returns the data handed to the transport data
        listener, in order, and whether the scan ran to the end. */
    method HandleOwnMessage() returns (calls: seq<Option<string>>, completed: bool)
      requires store.Valid()
      modifies store
      ensures store.Valid()
      ensures completed == Deliveries(old(store.keys), OwnMessageVisit(old(store.Contents()), targetId)).completed
      ensures calls == if transportDataListener.Some? then Deliveries(old(store.keys), OwnMessageVisit(old(store.Contents()), targetId)).data else []
      ensures store.Contents() == Keeping(old(store.Contents()), Deliveries(old(store.keys), OwnMessageVisit(old(store.Contents()), targetId)).kept)
    {
      ghost var e0 := store.Contents();
      calls, completed := ScanDelivering(Selector(OwnMessage, targetId), e0, OwnMessageVisit(e0, targetId));
    }

    /** `storageListener`: an event caused by a deletion is ignored, any
        other event leads to `handleOwnMessage_`. The `setTimeout(_, 0)` that
        puts the handling off to the next turn of the event loop is modelled
        as handling at once. */
    method StorageListener(event: StorageEvent) returns (calls: seq<Option<string>>, handled: bool)
      requires store.Valid()
      modifies store
      ensures store.Valid()
      ensures handled <==> SchedulesHandling(event)
      ensures !handled ==> calls == [] && store.Contents() == old(store.Contents())
      ensures handled ==>
                calls == (if transportDataListener.Some?
                          then Deliveries(old(store.keys), OwnMessageVisit(old(store.Contents()), targetId)).data
                          else [])
                && store.Contents() == Keeping(old(store.Contents()),
                                               Deliveries(old(store.keys), OwnMessageVisit(old(store.Contents()), targetId)).kept)
    {
      calls, handled := [], false;
      if event.key.Some? && |event.key.value| > 0 && (event.newValue.None? || |event.newValue.value| == 0) {
        return;
      }
      handled := true;
      var completed;
      calls, completed := HandleOwnMessage();
    }

    /** The loop of `forEachItem_` behind `forEachFilteredItem_(select,
        handleMessage_)`. `visit` says what the visit of each key of the
        store the scan starts from comes to. */
    method ScanDelivering(select: Item -> bool, ghost e0: Entries, ghost visit: string -> Visit<Option<string>>)
      returns (calls: seq<Option<string>>, completed: bool)
      requires store.Valid() && store.Contents() == e0
      requires forall key :: !select(ItemAt(e0, key)) ==> visit(key) == Skip
      requires forall key {:trigger MessageVisit(key)} :: select(ItemAt(e0, key)) ==> visit(key) == MessageVisit(key)
      modifies store
      ensures store.Valid()
      ensures completed == Deliveries(e0.keys, visit).completed
      ensures calls == if transportDataListener.Some? then Deliveries(e0.keys, visit).data else []
      ensures store.Contents() == Keeping(e0, Deliveries(e0.keys, visit).kept)
    {
      ghost var pass := DeliveryPass([], [], true);
      var i := store.length;
      completed := true;
      calls := [];
      while i > 0 && completed
        invariant 0 <= i <= |e0.keys|
        invariant store.Valid()
        invariant pass == Deliveries(e0.keys[i..], visit)
        invariant completed == pass.completed
        invariant calls == if transportDataListener.Some? then pass.data else []
        invariant store.keys == e0.keys[..i] + pass.kept
        invariant forall k :: k in store.items ==> k in e0.items && store.items[k] == e0.items[k]
      {
        completed, calls, pass := DeliverAt(select, i, e0, visit, pass, calls);
        i := i - 1;
      }
      DeliveriesEnd(e0, i, visit, pass, store.Contents());
    }

    /** One turn of the loop in `ScanDelivering`: the entry under the key at
        index `i - 1` goes to the callback, which extends the pass by that
        key. */
    method DeliverAt(select: Item -> bool, i: nat, ghost e0: Entries, ghost visit: string -> Visit<Option<string>>,
                     ghost pass: DeliveryPass, calls: seq<Option<string>>)
      returns (completed: bool, calls': seq<Option<string>>, ghost next: DeliveryPass)
      requires store.Valid() && 0 < i <= |e0.keys|
      requires forall key :: !select(ItemAt(e0, key)) ==> visit(key) == Skip
      requires forall key {:trigger MessageVisit(key)} :: select(ItemAt(e0, key)) ==> visit(key) == MessageVisit(key)
      requires pass == Deliveries(e0.keys[i..], visit) && pass.completed
      requires calls == if transportDataListener.Some? then pass.data else []
      requires store.keys == e0.keys[..i] + pass.kept
      requires forall k :: k in store.items ==> k in e0.items && store.items[k] == e0.items[k]
      modifies store
      ensures store.Valid()
      ensures next == Deliveries(e0.keys[i - 1..], visit)
      ensures completed == next.completed
      ensures calls' == if transportDataListener.Some? then next.data else []
      ensures store.keys == e0.keys[..i - 1] + next.kept
      ensures forall k :: k in store.items ==> k in e0.items && store.items[k] == e0.items[k]
    {
      ghost var before := store.Contents();
      ScanPosition(before, e0.keys, i, pass.kept);
      var key := store.Key(i - 1).value;
      var item := ItemAt(store.Contents(), key);
      assert item == ItemAt(e0, key);
      var more;
      completed, more := DeliverIfSelected(select, item, e0, visit);
      calls' := calls + more;
      next := DeliveryStep(e0.keys, i, visit, pass, before, store.Contents());
    }

    /** The callback `forEachFilteredItem_(select, handleMessage_)` hands to
        `forEachItem_`: `handleMessage_` on the entries `select` accepts;
        `completed` is false when `handleMessage_` throws. */
    method DeliverIfSelected(select: Item -> bool, item: Item, ghost e0: Entries, ghost visit: string -> Visit<Option<string>>)
      returns (completed: bool, calls: seq<Option<string>>)
      requires store.Valid() && item == ItemAt(e0, item.key)
      requires forall key :: !select(ItemAt(e0, key)) ==> visit(key) == Skip
      requires forall key {:trigger MessageVisit(key)} :: select(ItemAt(e0, key)) ==> visit(key) == MessageVisit(key)
      modifies store
      ensures store.Valid()
      ensures completed == !visit(item.key).Fail?
      ensures visit(item.key).Hit? ==> calls == InvokeTransportListener(visit(item.key).value)
      ensures visit(item.key).Hit? ==> store.Contents() == old(store.Contents()).Remove(item.key)
      ensures !visit(item.key).Hit? ==> calls == [] && store.Contents() == old(store.Contents())
    {
      completed, calls := true, [];
      if select(item) {
        var handled;
        handled, calls := HandleMessage(item.key);
        completed := handled;
      }
    }

    /** `storeMessage_`: parses the listener's key and writes a message to
        its target id, under a fresh message id and stamped with the clock
        reading; `ok` is false when the key does not parse. */
    method StoreMessage(data: string, key: string, id: string, now: nat) returns (ok: bool)
      requires store.Valid()
      modifies store
      ensures store.Valid()
      ensures ok <==> StoreVisit(key).Hit?
      ensures ok ==> store.Contents() == old(store.Contents()).Set(MessageKey(id, StoreVisit(key).value, data), NatToString(now))
      ensures !ok ==> store.Contents() == old(store.Contents())
    {
      match Decode(key)
      case None =>
        ok := false;
      case Some(listener) =>
        store.SetItem(MessageKey(id, listener.targetId, data), NatToString(now));
        ok := true;
    }

    /** `send`, i.e. `storeMessageForOtherActiveMessageListeners_`: writes
        one message per other live listener. `ids` are the values `guid()`
        returns, in order: distinct, free of quotes and found in no stored
        key. `completed` is false when a listener's key does not parse. */
    method Send(data: string, ids: seq<string>, now: nat) returns (completed: bool)
      requires store.Valid()
      requires Distinct(ids) && |store.keys| <= |ids|
      requires forall j :: 0 <= j < |ids| ==> IsId(ids[j])
      requires forall j, k :: 0 <= j < |ids| && k in store.keys ==> !Contains(k, ids[j])
      modifies store
      ensures store.Valid()
      ensures completed == Recipients(old(store.keys), ListenerVisit(old(store.Contents()), targetId, now)).completed
      ensures store.keys == old(store.keys)
        + MessageKeys(ids, Recipients(old(store.keys), ListenerVisit(old(store.Contents()), targetId, now)).targets, data)
      ensures forall k :: k in old(store.items) ==> store.items[k] == old(store.items)[k]
      ensures forall k :: k in store.items && k !in old(store.items) ==> store.items[k] == NatToString(now)
    {
      ghost var e0 := store.Contents();
      ListenerVisitHits(e0, targetId, now);
      completed := ScanStoring(Selector(OtherActiveMessageListener(now), targetId), data, ids, now, e0, ListenerVisit(e0, targetId, now));
    }

    /** The loop of `forEachItem_` behind `forEachFilteredItem_(select,
        storeMessage_)`. `visit` says what the visit of each key of the
        store the scan starts from comes to; it never yields a malformed id
        or this window's own. */
    method ScanStoring(select: Item -> bool, data: string, ids: seq<string>, now: nat, ghost e0: Entries, ghost visit: string -> Visit<string>)
      returns (completed: bool)
      requires store.Valid() && store.Contents() == e0
      requires Distinct(ids) && |e0.keys| <= |ids|
      requires forall j :: 0 <= j < |ids| ==> IsId(ids[j])
      requires forall j, k :: 0 <= j < |ids| && k in e0.keys ==> !Contains(k, ids[j])
      requires forall key :: !select(ItemAt(e0, key)) ==> visit(key) == Skip
      requires forall key {:trigger StoreVisit(key)} :: select(ItemAt(e0, key)) ==> visit(key) == StoreVisit(key)
      requires forall key :: visit(key).Hit? ==> IsId(visit(key).value) && visit(key).value != targetId
      modifies store
      ensures store.Valid()
      ensures completed == Recipients(e0.keys, visit).completed
      ensures store.keys == e0.keys + MessageKeys(ids, Recipients(e0.keys, visit).targets, data)
      ensures forall k :: k in e0.items ==> store.items[k] == e0.items[k]
      ensures forall k :: k in store.items && k !in e0.items ==> store.items[k] == NatToString(now)
    {
      ghost var targets: seq<string> := [];
      var i := store.length;
      var sent := 0;
      completed := true;
      while i > 0 && completed
        invariant 0 <= i <= |e0.keys|
        invariant store.Valid() && e0.Valid()
        invariant Recipients(e0.keys[i..], visit) == SendPass(targets, completed)
        invariant sent == |targets| <= |e0.keys| - i
        invariant store.keys == e0.keys + MessageKeys(ids, targets, data)
        invariant forall k :: k in e0.items ==> store.items[k] == e0.items[k]
        invariant forall k :: k in store.items && k !in e0.items ==> store.items[k] == NatToString(now)
      {
        completed, sent, targets := StoreAt(select, i, data, ids, now, e0, visit, sent, targets);
        i := i - 1;
      }
      if completed {
        assert e0.keys[0..] == e0.keys;
      } else {
        RecipientsAbort(e0.keys, i, visit);
      }
    }

    /** One turn of the loop in `ScanStoring`: the entry under the key at
        index `i - 1` goes to the callback, with the next unused id. */
    method StoreAt(select: Item -> bool, i: nat, data: string, ids: seq<string>, now: nat,
                   ghost e0: Entries, ghost visit: string -> Visit<string>, sent: nat, ghost targets: seq<string>)
      returns (completed: bool, sent': nat, ghost targets': seq<string>)
      requires store.Valid() && e0.Valid() && 0 < i <= |e0.keys|
      requires Distinct(ids) && |e0.keys| <= |ids|
      requires forall j :: 0 <= j < |ids| ==> IsId(ids[j])
      requires forall j, k :: 0 <= j < |ids| && k in e0.keys ==> !Contains(k, ids[j])
      requires forall key :: !select(ItemAt(e0, key)) ==> visit(key) == Skip
      requires forall key {:trigger StoreVisit(key)} :: select(ItemAt(e0, key)) ==> visit(key) == StoreVisit(key)
      requires forall key :: visit(key).Hit? ==> IsId(visit(key).value) && visit(key).value != targetId
      requires Recipients(e0.keys[i..], visit) == SendPass(targets, true)
      requires sent == |targets| <= |e0.keys| - i
      requires store.keys == e0.keys + MessageKeys(ids, targets, data)
      requires forall k :: k in e0.items ==> store.items[k] == e0.items[k]
      requires forall k :: k in store.items && k !in e0.items ==> store.items[k] == NatToString(now)
      modifies store
      ensures store.Valid()
      ensures Recipients(e0.keys[i - 1..], visit) == SendPass(targets', completed)
      ensures sent' == |targets'| <= |e0.keys| - (i - 1)
      ensures store.keys == e0.keys + MessageKeys(ids, targets', data)
      ensures forall k :: k in e0.items ==> store.items[k] == e0.items[k]
      ensures forall k :: k in store.items && k !in e0.items ==> store.items[k] == NatToString(now)
    {
      SendStep(e0.keys, i, visit);
      RecipientsTargets(e0.keys[i..], visit, targetId);
      var key := store.Key(i - 1).value;
      var item := ItemAt(store.Contents(), key);
      assert item == ItemAt(e0, key);
      ghost var before := store.Contents();
      var wrote;
      completed, wrote := StoreIfSelected(select, item, data, ids[sent], now, e0, visit);
      sent', targets' := sent, targets;
      if wrote {
        SendWriteStep(e0, ids, targets, visit(key).value, data, now, before, store.Contents());
        targets' := targets + [visit(key).value];
        sent' := sent + 1;
      }
    }

    /** The callback `forEachFilteredItem_(select, storeMessage_)` hands to
        `forEachItem_`: `storeMessage_` on the entries `select` accepts,
        with `id` as the fresh message id; `completed` is false when
        `storeMessage_` throws, `wrote` tells whether a message was written. */
    method StoreIfSelected(select: Item -> bool, item: Item, data: string, id: string, now: nat,
                           ghost e0: Entries, ghost visit: string -> Visit<string>)
      returns (completed: bool, wrote: bool)
      requires store.Valid() && item == ItemAt(e0, item.key)
      requires forall key :: !select(ItemAt(e0, key)) ==> visit(key) == Skip
      requires forall key {:trigger StoreVisit(key)} :: select(ItemAt(e0, key)) ==> visit(key) == StoreVisit(key)
      modifies store
      ensures store.Valid()
      ensures completed == !visit(item.key).Fail? && wrote == visit(item.key).Hit?
      ensures wrote ==>
                store.Contents() == old(store.Contents()).Set(MessageKey(id, visit(item.key).value, data), NatToString(now))
      ensures !wrote ==> store.Contents() == old(store.Contents())
    {
      completed, wrote := true, false;
      if select(item) {
        var stored := StoreMessage(data, item.key, id, now);
        completed, wrote := stored, stored;
      }
    }
  }

  /** One visit of a removal pass: the entry at `n - 1` is removed exactly
      when the filter selects it, which extends the filtered part by one. */
  lemma RemovalStep(s: seq<string>, n: nat, keep: string -> bool, before: Entries, after: Entries)
    requires before.Valid() && 0 < n <= |s|
    requires before.keys == s[..n] + Filter(s[n..], keep)
    requires after == if keep(s[n - 1]) then before else before.Remove(s[n - 1])
    ensures after.keys == s[..n - 1] + Filter(s[n - 1..], keep)
  {
    FilterFrom(s, n - 1, keep);
    ScanPosition(before, s, n, Filter(s[n..], keep));
  }

  /** One visit of a scan: with the keys from index `n` of `s` on already
      dealt with (they are now `tail`), the key at `n - 1` is still in
      place, and removing it leaves the keys below it and `tail`. */
  lemma ScanPosition(e: Entries, s: seq<string>, n: nat, tail: seq<string>)
    requires e.Valid() && 0 < n <= |s|
    requires e.keys == s[..n] + tail
    ensures n - 1 < |e.keys| && e.keys[n - 1] == s[n - 1]
    ensures e.keys == s[..n - 1] + ([s[n - 1]] + tail)
    ensures e.Remove(s[n - 1]).keys == s[..n - 1] + tail
  {
    assert s[..n] == s[..n - 1] + [s[n - 1]];
    FilterOutAt(e.keys, n - 1);
    assert e.keys[..n - 1] == s[..n - 1];
    assert e.keys[n..] == tail;
  }

  /** One visit of a delivery pass: a hit removes the entry at `n - 1` and
      hands on its data, a failure stops the pass, and either way the pass
      over the suffix from `n - 1` describes the store. */
  lemma DeliveryStep(s: seq<string>, n: nat, visit: string -> Visit<Option<string>>, pass: DeliveryPass,
                      before: Entries, after: Entries)
    returns (next: DeliveryPass)
    requires before.Valid() && 0 < n <= |s|
    requires pass == Deliveries(s[n..], visit) && pass.completed
    requires before.keys == s[..n] + pass.kept
    requires after == if visit(s[n - 1]).Hit? then before.Remove(s[n - 1]) else before
    ensures next == Deliveries(s[n - 1..], visit)
    ensures after.keys == s[..n - 1] + next.kept
    ensures next.completed == !visit(s[n - 1]).Fail?
    ensures next.data == pass.data + if visit(s[n - 1]).Hit? then [visit(s[n - 1]).value] else []
  {
    assert s[n - 1..][1..] == s[n..];
    next := Deliveries(s[n - 1..], visit);
    ScanPosition(before, s, n, pass.kept);
  }

  /** One visit of a send pass. */
  lemma SendStep(s: seq<string>, n: nat, visit: string -> Visit<string>)
    requires 0 < n <= |s| && Recipients(s[n..], visit).completed
    ensures var next, rest := Recipients(s[n - 1..], visit), Recipients(s[n..], visit);
      next == match visit(s[n - 1])
        case Skip => rest
        case Fail => SendPass(rest.targets, false)
        case Hit(t) => SendPass(rest.targets + [t], true)
  {
    assert s[n - 1..][1..] == s[n..];
  }

  /** A store whose keys are `keep` and whose values are those of `e0` is
      `e0` cut down to `keep`. */
  lemma KeepingOf(e0: Entries, e: Entries)
    requires e.Valid()
    requires forall k :: k in e.items ==> k in e0.items && e.items[k] == e0.items[k]
    ensures e == Keeping(e0, e.keys)
  {
    var m := map k | k in e0.items && k in e.keys :: e0.items[k];
    assert e.items == m;
  }

  /** Where the delivery scan ends, at index 0 or at a failure, the pass
      it has built is the pass over all the keys it started with. */
  lemma DeliveriesEnd(e0: Entries, i: nat, visit: string -> Visit<Option<string>>, pass: DeliveryPass, e: Entries)
    requires e.Valid() && i <= |e0.keys|
    requires pass == Deliveries(e0.keys[i..], visit) && (i == 0 || !pass.completed)
    requires e.keys == e0.keys[..i] + pass.kept
    requires forall k :: k in e.items ==> k in e0.items && e.items[k] == e0.items[k]
    ensures Deliveries(e0.keys, visit) == DeliveryPass(e.keys, pass.data, pass.completed)
    ensures e == Keeping(e0, e.keys)
  {
    if pass.completed {
      assert e0.keys[0..] == e0.keys;
    } else {
      DeliveriesAbort(e0.keys, i, visit);
    }
    KeepingOf(e0, e);
  }

  /** Once a delivery pass stops, the keys below the stop are left as they
      are and nothing more is delivered. */
  lemma {:induction false} DeliveriesAbort(s: seq<string>, i: nat, visit: string -> Visit<Option<string>>)
    requires i <= |s| && !Deliveries(s[i..], visit).completed
    ensures Deliveries(s, visit)
      == DeliveryPass(s[..i] + Deliveries(s[i..], visit).kept, Deliveries(s[i..], visit).data, false)
    decreases i
  {
    if i == 0 {
      assert s[0..] == s;
    } else {
      var tail := Deliveries(s[i..], visit);
      assert s[1..][i - 1..] == s[i..];
      DeliveriesAbort(s[1..], i - 1, visit);
      var rest := Deliveries(s[1..], visit);
      assert rest == DeliveryPass(s[1..][..i - 1] + tail.kept, tail.data, false);
      assert Deliveries(s, visit) == DeliveryPass([s[0]] + rest.kept, rest.data, false);
      assert [s[0]] + (s[1..][..i - 1] + tail.kept) == s[..i] + tail.kept by {
        assert [s[0]] + s[1..][..i - 1] == s[..i];
      }
    }
  }

  /** Once a send pass stops, nothing more is written. */
  lemma {:induction false} RecipientsAbort(s: seq<string>, i: nat, visit: string -> Visit<string>)
    requires i <= |s| && !Recipients(s[i..], visit).completed
    ensures Recipients(s, visit) == Recipients(s[i..], visit)
    decreases i
  {
    if i > 0 {
      assert s[1..][i - 1..] == s[i..];
      RecipientsAbort(s[1..], i - 1, visit);
    } else {
      assert s[0..] == s;
    }
  }

  /** A listener visit yields the well-formed id of a listener record, and
      never the visiting window's own id: a key that mentions that id is
      not another window's listener. */
  lemma ListenerVisitHits(e: Entries, targetId: string, now: int)
    ensures forall key :: ListenerVisit(e, targetId, now)(key).Hit? ==>
      IsId(ListenerVisit(e, targetId, now)(key).value) && ListenerVisit(e, targetId, now)(key).value != targetId
    ensures forall key :: !Selector(OtherActiveMessageListener(now), targetId)(ItemAt(e, key)) ==>
      ListenerVisit(e, targetId, now)(key) == Skip
    ensures forall key {:trigger StoreVisit(key)} :: Selector(OtherActiveMessageListener(now), targetId)(ItemAt(e, key)) ==>
      ListenerVisit(e, targetId, now)(key) == StoreVisit(key)
  {
    forall key | ListenerVisit(e, targetId, now)(key).Hit?
      ensures IsId(ListenerVisit(e, targetId, now)(key).value) && ListenerVisit(e, targetId, now)(key).value != targetId
    {
      var r := Decode(key).value;
      EncodeDecode(key);
      EncodeContains(r);
    }
  }

  /** The targets of a send pass are what its visits yield; with visits that
      yield well-formed ids other than `targetId`, so are the targets. */
  lemma {:induction false} RecipientsTargets(s: seq<string>, visit: string -> Visit<string>, targetId: string)
    requires forall key :: visit(key).Hit? ==> IsId(visit(key).value) && visit(key).value != targetId
    ensures var r := Recipients(s, visit);
      |r.targets| <= |s|
      && forall j :: 0 <= j < |r.targets| ==> IsId(r.targets[j]) && r.targets[j] != targetId
    decreases |s|
  {
    if |s| > 0 {
      RecipientsTargets(s[1..], visit, targetId);
    }
  }

  /** One message written by a send: its key is new, so it goes to the end
      of the key list, and the entries the send started with keep their
      values. */
  lemma SendWriteStep(e0: Entries, ids: seq<string>, targets: seq<string>, t: string, data: string, now: nat,
                      before: Entries, after: Entries)
    requires e0.Valid() && before.Valid()
    requires Distinct(ids) && |targets| < |ids|
    requires forall j :: 0 <= j < |ids| ==> IsId(ids[j])
    requires forall j :: 0 <= j < |targets| ==> IsId(targets[j])
    requires IsId(t)
    requires forall j, k :: 0 <= j < |ids| && k in e0.keys ==> !Contains(k, ids[j])
    requires before.keys == e0.keys + MessageKeys(ids, targets, data)
    requires forall k :: k in e0.items ==> before.items[k] == e0.items[k]
    requires forall k :: k in before.items && k !in e0.items ==> before.items[k] == NatToString(now)
    requires after == before.Set(MessageKey(ids[|targets|], t, data), NatToString(now))
    ensures after.Valid()
    ensures after.keys == e0.keys + MessageKeys(ids, targets + [t], data)
    ensures forall k :: k in e0.items ==> after.items[k] == e0.items[k]
    ensures forall k :: k in after.items && k !in e0.items ==> after.items[k] == NatToString(now)
  {
    MessageKeyFresh(e0, ids, targets, t, data);
    SetItemEffect(before, MessageKey(ids[|targets|], t, data), NatToString(now));
  }

  /** The next message key is new: not among the keys the store started
      with (its id occurs in none of them) and not among the messages
      already written (those have other ids). */
  lemma MessageKeyFresh(e0: Entries, ids: seq<string>, targets: seq<string>, t: string, data: string)
    requires Distinct(ids) && |targets| < |ids|
    requires forall j :: 0 <= j < |ids| ==> IsId(ids[j])
    requires forall j :: 0 <= j < |targets| ==> IsId(targets[j])
    requires IsId(t)
    requires forall j, k :: 0 <= j < |ids| && k in e0.keys ==> !Contains(k, ids[j])
    ensures var key := MessageKey(ids[|targets|], t, data);
      key !in e0.keys + MessageKeys(ids, targets, data)
      && MessageKeys(ids, targets + [t], data) == MessageKeys(ids, targets, data) + [key]
  {
    var n := |targets|;
    var key := MessageKey(ids[n], t, data);
    var written := MessageKeys(ids, targets, data);
    assert key !in e0.keys by {
      EncodeContains(MessageRecord(ids[n], t, data));
    }
    assert key !in written by {
      forall j | 0 <= j < n
        ensures written[j] != key
      {
        assert ids[j] != ids[n];
        MessageIdOfKey(ids[j], targets[j], data);
        MessageIdOfKey(ids[n], t, data);
      }
    }
    assert MessageKeys(ids, targets + [t], data) == written + [key];
  }
}
