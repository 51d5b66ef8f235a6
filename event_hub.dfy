/** `StorageMessenger.EventHub`: named events with parameters on top of the
    transport. `trigger` sends `{event, params}` to the other windows; when
    the transport hands such data to this window, every listener registered
    for the event is called with the parameters. */
module EventHubs {
  import opened Options
  import opened Seqs
  import opened Strings
  import opened Records
  import opened FakeStorage
  import opened Items
  import opened Transports
  import opened TransportLaws

  /** The `{event, params}` object `trigger` sends; `params` is the JSON
      text of the parameters, `None` when they are `undefined`. */
  datatype EventData = EventData(event: string, params: Option<string>)

  const EVENT_OPEN: string := "{\"event\":\""
  const PARAMS_KEY: string := "\",\"params\":"
  const EVENT_CLOSE: string := "\"}"

  /** Event data JSON writes without escapes: the event name is an id and
      the parameters, when there are any, are JSON text. */
  predicate EventWellFormed(d: EventData) {
    IsId(d.event) && (d.params.Some? ==> IsData(d.params.value))
  }

  /** `JSON.stringify` of the object: `{"event":"<e>","params":<p>}`, or
      `{"event":"<e>"}` when `params` is `undefined`, which JSON leaves out.
      The text of well-formed event data is payload text a message can
      carry. */
  function EncodeEvent(d: EventData): (r: string)
    ensures EventWellFormed(d) ==> IsData(r)
  {
    match d.params
    case None => EVENT_OPEN + (d.event + EVENT_CLOSE)
    case Some(p) => EVENT_OPEN + (d.event + (PARAMS_KEY + (p + "}")))
  }

  /** Reads back what `EncodeEvent` writes; `None` for other text. */
  function DecodeEvent(s: string): Option<EventData> {
    match Expect(s, EVENT_OPEN)
    case None => None
    case Some(s1) =>
      var (e, s2) := Field(s1);
      if !IsId(e) then None
      else if s2 == EVENT_CLOSE then Some(EventData(e, None))
      else match Expect(s2, PARAMS_KEY)
        case None => None
        case Some(s3) =>
          if |s3| > 0 && s3[|s3| - 1] == '}' && IsData(s3[..|s3| - 1])
          then Some(EventData(e, Some(s3[..|s3| - 1])))
          else None
  }

  /** `data.event` and `data.params` as `transportDataListener` reads them
      from what the transport hands on. */
  function EventOf(data: Option<string>): Option<EventData> {
    if data.Some? then DecodeEvent(data.value) else None
  }

  /** Well-formed event data reads back as it was written. */
  lemma DecodeEncodeEvent(d: EventData)
    requires EventWellFormed(d)
    ensures DecodeEvent(EncodeEvent(d)) == Some(d)
  {
    match d.params
    case None =>
      ExpectLiteral(EVENT_OPEN, d.event + EVENT_CLOSE);
      FieldBeforeQuote(d.event, EVENT_CLOSE);
    case Some(p) =>
      var rest := PARAMS_KEY + (p + "}");
      ExpectLiteral(EVENT_OPEN, d.event + rest);
      FieldBeforeQuote(d.event, rest);
      assert rest[1] != EVENT_CLOSE[1];
      ExpectLiteral(PARAMS_KEY, p + "}");
      assert (p + "}")[..|p|] == p;
  }

  /** A registration made by `on`. */
  datatype EventListener = EventListener(event: string, callback: CallbackId)

  /** One call of a listener's callback, with the parameters it gets. */
  datatype Call = Call(callback: CallbackId, params: Option<string>)

  /** The calls `transportDataListener` makes for an event: one per
      registration for that event, in registration order. */
  function Dispatch(listeners: seq<EventListener>, event: string, params: Option<string>): (calls: seq<Call>)
    ensures |calls| <= |listeners|
    decreases |listeners|
  {
    if |listeners| == 0 then []
    else
      var last := listeners[|listeners| - 1];
      Dispatch(listeners[..|listeners| - 1], event, params)
        + if last.event == event then [Call(last.callback, params)] else []
  }

  /** The registrations `off(event, callback)` leaves in place. */
  function Unmatched(event: string, callback: CallbackId): EventListener -> bool {
    (l: EventListener) => !(l.event == event && l.callback == callback)
  }

  class EventHub {
    const transport: Transport
    /** `eventListeners_`. */
    var eventListeners: seq<EventListener>

    constructor(transport: Transport)
      ensures this.transport == transport && eventListeners == []
    {
      this.transport := transport;
      eventListeners := [];
    }

    /** `on`: appends a registration; registering the same pair twice makes
        the callback run twice per event. */
    method On(event: string, callback: CallbackId)
      modifies this
      ensures eventListeners == old(eventListeners) + [EventListener(event, callback)]
    {
      eventListeners := eventListeners + [EventListener(event, callback)];
    }

    /** `off`: walks the registrations from the last one down and splices
        out every one for this event and callback. */
    method Off(event: string, callback: CallbackId)
      modifies this
      ensures eventListeners == Filter(old(eventListeners), Unmatched(event, callback))
    {
      var original := eventListeners;
      var i := |eventListeners|;
      while i > 0
        invariant 0 <= i <= |original|
        invariant eventListeners == original[..i] + Filter(original[i..], Unmatched(event, callback))
      {
        i := i - 1;
        FilterStep(original, i, Unmatched(event, callback));
        var eventListener := eventListeners[i];
        if eventListener.event == event && eventListener.callback == callback {
          eventListeners := eventListeners[..i] + eventListeners[i + 1..];
        }
      }
      assert original[0..] == original;
    }

    /** `transportDataListener`: calls, in registration order, every
        listener registered for the event the data names. */
    method TransportDataListener(data: Option<string>) returns (calls: seq<Call>)
      ensures EventOf(data).None? ==> calls == []
      ensures EventOf(data).Some? ==>
                calls == Dispatch(eventListeners, EventOf(data).value.event, EventOf(data).value.params)
    {
      calls := [];
      var received := EventOf(data);
      if received.None? {
        return;
      }
      var event, params := received.value.event, received.value.params;
      for n := 0 to |eventListeners|
        invariant calls == Dispatch(eventListeners[..n], event, params)
      {
        assert eventListeners[..n + 1][..n] == eventListeners[..n];
        var eventListener := eventListeners[n];
        if eventListener.event == event {
          calls := calls + [Call(eventListener.callback, params)];
        }
      }
      assert eventListeners[..|eventListeners|] == eventListeners;
    }

    /** `trigger`: sends the event and its parameters through the
        transport; `ids` and `now` are as for `send`. */
    method Trigger(event: string, params: Option<string>, ids: seq<string>, now: nat) returns (completed: bool)
      requires transport.store.Valid()
      requires Distinct(ids) && |transport.store.keys| <= |ids|
      requires forall j :: 0 <= j < |ids| ==> IsId(ids[j])
      requires forall j, k :: 0 <= j < |ids| && k in transport.store.keys ==> !Contains(k, ids[j])
      modifies transport.store
      ensures transport.store.Valid()
      ensures completed == Recipients(old(transport.store.keys),
                                      ListenerVisit(old(transport.store.Contents()), transport.targetId, now)).completed
      ensures transport.store.keys == old(transport.store.keys)
        + MessageKeys(ids, Recipients(old(transport.store.keys),
                                      ListenerVisit(old(transport.store.Contents()), transport.targetId, now)).targets,
                      EncodeEvent(EventData(event, params)))
      ensures forall k :: k in old(transport.store.items) ==> transport.store.items[k] == old(transport.store.items)[k]
      ensures forall k :: k in transport.store.items && k !in old(transport.store.items) ==>
                transport.store.items[k] == NatToString(now)
    {
      completed := transport.Send(EncodeEvent(EventData(event, params)), ids, now);
    }
  }

  /** The calls for an event are exactly the registrations for it, each
      called with the event's parameters. */
  lemma {:induction false} DispatchCalls(listeners: seq<EventListener>, event: string, params: Option<string>)
    ensures forall c :: c in Dispatch(listeners, event, params) <==>
                          c.params == params && EventListener(event, c.callback) in listeners
    decreases |listeners|
  {
    if |listeners| > 0 {
      var front := listeners[..|listeners| - 1];
      DispatchCalls(front, event, params);
      assert listeners == front + [listeners[|listeners| - 1]];
    }
  }

  /** After `off(event, callback)` no registration for that pair is left,
      every other registration is, and an event never reaches that
      callback through such a registration. */
  lemma OffRemovesRegistration(listeners: seq<EventListener>, event: string, callback: CallbackId, params: Option<string>)
    ensures forall l :: l in Filter(listeners, Unmatched(event, callback)) <==>
                          l in listeners && l != EventListener(event, callback)
    ensures Call(callback, params) !in Dispatch(Filter(listeners, Unmatched(event, callback)), event, params)
  {
    FilterMembers(listeners, Unmatched(event, callback));
    DispatchCalls(Filter(listeners, Unmatched(event, callback)), event, params);
  }

  /** `on` then `off` with the same pair, with no other registration of
      that pair, leaves the listeners as they were. */
  lemma OnThenOff(listeners: seq<EventListener>, event: string, callback: CallbackId)
    requires EventListener(event, callback) !in listeners
    ensures Filter(listeners + [EventListener(event, callback)], Unmatched(event, callback)) == listeners
  {
    var p := Unmatched(event, callback);
    FilterAppend(listeners, [EventListener(event, callback)], p);
    assert forall i :: 0 <= i < |listeners| ==> listeners[i] in listeners;
    FilterKeepsAll(listeners, p);
    assert Filter([EventListener(event, callback)], p) == [] by {
      assert [EventListener(event, callback)][1..] == [];
    }
  }

  /** What `trigger` in one window sends reaches every other window with
      a live message listener, and the data the receiving transport hands
      to its event hub names the same event and parameters, so that hub's
      `transportDataListener` calls exactly the receiver's listeners for
      the event (`Dispatch`). */
  lemma TriggerThenDispatch(e: Entries, sender: string, receiver: string, stamp: nat, now: int,
                            ids: seq<string>, event: string, params: Option<string>, later: Entries)
    requires e.Valid() && IsId(receiver) && EventWellFormed(EventData(event, params))
    requires ListenerKey(receiver) in e.items && e.items[ListenerKey(receiver)] == NatToString(stamp)
    requires now - stamp <= ITEM_TTL_MS
    requires !Contains(ListenerKey(receiver), sender)
    requires forall j :: 0 <= j < |ids| ==> IsId(ids[j])
    requires |e.keys| <= |ids|
    requires Recipients(e.keys, ListenerVisit(e, sender, now)).completed
    ensures var data := EncodeEvent(EventData(event, params));
      var targets := Recipients(e.keys, ListenerVisit(e, sender, now)).targets;
      receiver in targets
      && forall j :: 0 <= j < |targets| && targets[j] == receiver ==>
           var visit := OwnMessageVisit(later, receiver)(MessageKeys(ids, targets, data)[j]);
           visit.Hit? && EventOf(visit.value) == Some(EventData(event, params))
  {
    DecodeEncodeEvent(EventData(event, params));
    SendThenDeliver(e, sender, receiver, stamp, now, ids, EncodeEvent(EventData(event, params)), later);
  }
}
