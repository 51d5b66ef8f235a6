/** What the passes of the transport mean: which entries a removal pass
    leaves, what a delivery pass hands on and removes, who a send writes to,
    and how a send and a delivery fit together. */
module TransportLaws {
  import opened Options
  import opened Seqs
  import opened Strings
  import opened Records
  import opened Items
  import opened FakeStorage
  import opened Transports

  // ---------------------------------------------------------------------
  // Removal passes: removeGarbage, deregisterOwnMessageListener_

  /** A removal pass leaves a well-formed store that holds exactly the keys
      the filter rejects, in their old order, with their old values. */
  lemma RemovePassEffect(e: Entries, f: ItemFilter, targetId: string)
    requires e.Valid()
    ensures RemovePass(e, f, targetId).Valid()
    ensures forall k :: k in RemovePass(e, f, targetId).keys <==> k in e.keys && !Selects(f, ItemAt(e, k), targetId)
    ensures forall k :: k in RemovePass(e, f, targetId).items ==> RemovePass(e, f, targetId).items[k] == e.items[k]
  {
    var keep := Unselected(Selector(f, targetId), e);
    FilterMembers(e.keys, keep);
    FilterDistinct(e.keys, keep);
  }

  /** `removeGarbage` removes every dead entry and nothing else. */
  lemma GarbageCollected(e: Entries, now: int, targetId: string)
    requires e.Valid()
    ensures forall k :: k in RemovePass(e, Garbage(now), targetId).keys <==> k in e.keys && !ItemAt(e, k).IsDead(now)
  {
    RemovePassEffect(e, Garbage(now), targetId);
  }

  /** A second pass with the same filter finds nothing to remove: collecting
      garbage twice with the same clock reading, or deregistering twice,
      changes nothing the second time. */
  lemma RemovePassIdempotent(e: Entries, f: ItemFilter, targetId: string)
    requires e.Valid()
    ensures RemovePass(RemovePass(e, f, targetId), f, targetId) == RemovePass(e, f, targetId)
  {
    var r := RemovePass(e, f, targetId);
    RemovePassEffect(e, f, targetId);
    var keep := Unselected(Selector(f, targetId), r);
    assert Filter(r.keys, keep) == r.keys by {
      forall i | 0 <= i < |r.keys|
        ensures keep(r.keys[i])
      {
        var k := r.keys[i];
        assert k in r.keys;
        assert ItemAt(r, k) == ItemAt(e, k);
      }
      FilterKeepsAll(r.keys, keep);
    }
    assert Keeping(r, r.keys) == r by {
      assert Keeping(r, r.keys).items == r.items;
    }
  }

  /** The listener record `create` writes survives a garbage collection
      run at most the TTL after the clock reading it was stamped with; in
      `create` the two readings coincide. */
  lemma RegisteredListenerSurvives(e: Entries, targetId: string, stamp: nat, now: int)
    requires e.Valid() && now - stamp <= ITEM_TTL_MS
    ensures ListenerKey(targetId) in RemovePass(e.Set(ListenerKey(targetId), NatToString(stamp)), Garbage(now), targetId).keys
  {
    ParseIntNatToString(stamp);
    FreshStampSurvives(e, ListenerKey(targetId), NatToString(stamp), stamp, targetId, now);
  }

  /** An entry whose stamp reads as a time at most the TTL before the clock
      reading a garbage collection uses is not garbage to it. */
  lemma FreshStampSurvives(e: Entries, key: string, stamp: string, t: int, targetId: string, now: int)
    requires e.Valid() && ParseInt(stamp) == Some(t) && now - t <= ITEM_TTL_MS
    ensures key in RemovePass(e.Set(key, stamp), Garbage(now), targetId).keys
  {
    var e1 := e.Set(key, stamp);
    SetItemEffect(e, key, stamp);
    assert !ItemAt(e1, key).IsDead(now);
    GarbageCollected(e1, now, targetId);
  }

  /** Deregistering removes this window's listener record. */
  lemma DeregisterRemovesListener(e: Entries, targetId: string)
    requires e.Valid()
    ensures ListenerKey(targetId) !in RemovePass(e, OwnMessageListener, targetId).keys
  {
    RemovePassEffect(e, OwnMessageListener, targetId);
    RecordClassification(ListenerRecord(targetId), ItemAt(e, ListenerKey(targetId)).value);
  }

  // ---------------------------------------------------------------------
  // Delivery passes: handleOwnMessage_

  /** The keys a visit does not hit. */
  function Missed<T>(visit: string -> Visit<T>): string -> bool {
    key => !visit(key).Hit?
  }

  /** A delivery pass runs to the end exactly when no visit fails. */
  lemma {:induction false} DeliveriesCompleted(s: seq<string>, visit: string -> Visit<Option<string>>)
    ensures Deliveries(s, visit).completed <==> forall i :: 0 <= i < |s| ==> !visit(s[i]).Fail?
    decreases |s|
  {
    if |s| > 0 {
      DeliveriesCompleted(s[1..], visit);
      assert forall i :: 1 <= i < |s| ==> s[i] == s[1..][i - 1];
    }
  }

  /** A completed delivery pass keeps exactly the keys it does not hit, in
      order, and hands on one datum per key it hits. */
  lemma {:induction false} DeliveriesKeepMisses(s: seq<string>, visit: string -> Visit<Option<string>>)
    requires Deliveries(s, visit).completed
    ensures Deliveries(s, visit).kept == Filter(s, Missed(visit))
    ensures |Deliveries(s, visit).data| + |Deliveries(s, visit).kept| == |s|
    decreases |s|
  {
    if |s| > 0 {
      DeliveriesKeepMisses(s[1..], visit);
    }
  }

  /** A completed delivery pass hands on the data of every key it hits. */
  lemma {:induction false} DeliveriesIncludes(s: seq<string>, visit: string -> Visit<Option<string>>, i: nat)
    requires Deliveries(s, visit).completed && i < |s| && visit(s[i]).Hit?
    ensures visit(s[i]).value in Deliveries(s, visit).data
    decreases |s|
  {
    if i > 0 {
      assert s[1..][i - 1] == s[i];
      DeliveriesIncludes(s[1..], visit, i - 1);
    }
  }

  /** The same for a key given by value rather than by index. */
  lemma DeliveredKey(s: seq<string>, visit: string -> Visit<Option<string>>, key: string, d: Option<string>)
    requires Deliveries(s, visit).completed && key in s && visit(key) == Hit(d)
    ensures d in Deliveries(s, visit).data
  {
    var i :| 0 <= i < |s| && s[i] == key;
    DeliveriesIncludes(s, visit, i);
  }

  /** A pass over keys none of which it selects changes nothing. */
  lemma {:induction false} DeliveriesIdle(s: seq<string>, visit: string -> Visit<Option<string>>)
    requires forall i :: 0 <= i < |s| ==> visit(s[i]).Skip?
    ensures Deliveries(s, visit) == DeliveryPass(s, [], true)
    decreases |s|
  {
    if |s| > 0 {
      assert forall i :: 0 <= i < |s[1..]| ==> s[1..][i] == s[i + 1];
      DeliveriesIdle(s[1..], visit);
      assert [s[0]] + s[1..] == s;
    }
  }

  /** When `handleOwnMessage_` runs to the end, the entries it leaves are
      exactly those that are not this window's messages. */
  lemma OwnMessagesHandled(e: Entries, targetId: string)
    requires Deliveries(e.keys, OwnMessageVisit(e, targetId)).completed
    ensures forall k :: k in Deliveries(e.keys, OwnMessageVisit(e, targetId)).kept <==>
                         k in e.keys && !IsOwnMessage(ItemAt(e, k), targetId)
  {
    var visit := OwnMessageVisit(e, targetId);
    DeliveriesCompleted(e.keys, visit);
    DeliveriesKeepMisses(e.keys, visit);
    FilterMembers(e.keys, Missed(visit));
    forall k | k in e.keys
      ensures Missed(visit)(k) <==> !IsOwnMessage(ItemAt(e, k), targetId)
    {
      var i :| 0 <= i < |e.keys| && e.keys[i] == k;
      assert !visit(e.keys[i]).Fail?;
    }
  }

  /** Right after a completed `handleOwnMessage_`, a second one hands on
      nothing and removes nothing. */
  lemma SecondDeliveryIdle(e: Entries, targetId: string)
    requires e.Valid() && Deliveries(e.keys, OwnMessageVisit(e, targetId)).completed
    ensures var e1 := Keeping(e, Deliveries(e.keys, OwnMessageVisit(e, targetId)).kept);
      Deliveries(e1.keys, OwnMessageVisit(e1, targetId)) == DeliveryPass(e1.keys, [], true)
  {
    var e1 := Keeping(e, Deliveries(e.keys, OwnMessageVisit(e, targetId)).kept);
    OwnMessagesHandled(e, targetId);
    forall i | 0 <= i < |e1.keys|
      ensures OwnMessageVisit(e1, targetId)(e1.keys[i]).Skip?
    {
      var k := e1.keys[i];
      assert k in e1.keys;
      assert !IsOwnMessage(ItemAt(e1, k), targetId) by {
        assert ItemAt(e1, k) == ItemAt(e, k);
      }
    }
    DeliveriesIdle(e1.keys, OwnMessageVisit(e1, targetId));
  }

  /** A message record addressed to this window is its own message, and
      its visit hands on exactly the data it was written with. */
  lemma OwnMessageDelivered(e: Entries, id: string, targetId: string, data: string)
    requires IsId(id) && IsId(targetId) && IsData(data)
    ensures OwnMessageVisit(e, targetId)(MessageKey(id, targetId, data)) == Hit(Some(data))
  {
    var r := MessageRecord(id, targetId, data);
    RecordClassification(r, ItemAt(e, Encode(r)).value);
    DecodeEncode(r);
  }

  /** When `handleOwnMessage_` runs to the end, the data listener is handed
      the data of every message stored for this window. */
  lemma OwnMessageHandedOn(e: Entries, id: string, targetId: string, data: string)
    requires IsId(id) && IsId(targetId) && IsData(data)
    requires MessageKey(id, targetId, data) in e.keys
    requires Deliveries(e.keys, OwnMessageVisit(e, targetId)).completed
    ensures Some(data) in Deliveries(e.keys, OwnMessageVisit(e, targetId)).data
  {
    OwnMessageDelivered(e, id, targetId, data);
    DeliveredKey(e.keys, OwnMessageVisit(e, targetId), MessageKey(id, targetId, data), Some(data));
  }

  /** Classification is by substring: a message addressed to another window
      whose data mentions this window's id counts as this window's own, so
      this window takes it, hands its data on and removes it. */
  lemma PayloadMentioningIdIsOwn(e: Entries, id: string, other: string, data: string, targetId: string)
    requires IsId(id) && IsId(other) && IsData(data) && Contains(data, targetId)
    ensures OwnMessageVisit(e, targetId)(MessageKey(id, other, data)) == Hit(Some(data))
  {
    var r := MessageRecord(id, other, data);
    RecordClassification(r, ItemAt(e, Encode(r)).value);
    DecodeEncode(r);
    var s5 := other + (DATA_KEY + (data + MESSAGE_CLOSE));
    var s3 := MESSAGE_TAG + (TARGET_KEY + s5);
    ContainsBefore(data, MESSAGE_CLOSE, targetId);
    ContainsAfter(DATA_KEY, data + MESSAGE_CLOSE, targetId);
    ContainsAfter(other, DATA_KEY + (data + MESSAGE_CLOSE), targetId);
    ContainsAfter(TARGET_KEY, s5, targetId);
    ContainsAfter(MESSAGE_TAG, TARGET_KEY + s5, targetId);
    ContainsAfter(TAG_KEY, s3, targetId);
    ContainsAfter(id, TAG_KEY + s3, targetId);
    ContainsAfter(MESSAGE_OPEN, id + (TAG_KEY + s3), targetId);
  }

  // ---------------------------------------------------------------------
  // Send passes: send, storeMessageForOtherActiveMessageListeners_

  /** The keys a visit hits. */
  function Hits<T>(visit: string -> Visit<T>): string -> bool {
    key => visit(key).Hit?
  }

  /** A send pass runs to the end exactly when no visit fails. */
  lemma {:induction false} RecipientsCompleted(s: seq<string>, visit: string -> Visit<string>)
    ensures Recipients(s, visit).completed <==> forall i :: 0 <= i < |s| ==> !visit(s[i]).Fail?
    decreases |s|
  {
    if |s| > 0 {
      RecipientsCompleted(s[1..], visit);
      assert forall i :: 1 <= i < |s| ==> s[i] == s[1..][i - 1];
    }
  }

  /** A completed send pass writes one message per key it hits. */
  lemma {:induction false} RecipientsCount(s: seq<string>, visit: string -> Visit<string>)
    requires Recipients(s, visit).completed
    ensures |Recipients(s, visit).targets| == |Filter(s, Hits(visit))|
    decreases |s|
  {
    if |s| > 0 {
      RecipientsCount(s[1..], visit);
    }
  }

  /** A completed send pass writes to the target of every key it hits. */
  lemma {:induction false} RecipientsIncludes(s: seq<string>, visit: string -> Visit<string>, i: nat)
    requires Recipients(s, visit).completed && i < |s| && visit(s[i]).Hit?
    ensures visit(s[i]).value in Recipients(s, visit).targets
    decreases |s|
  {
    if i > 0 {
      assert s[1..][i - 1] == s[i];
      RecipientsIncludes(s[1..], visit, i - 1);
    }
  }

  /** `send` writes nothing when no other window listens. */
  lemma {:induction false} RecipientsIdle(s: seq<string>, visit: string -> Visit<string>)
    requires forall i :: 0 <= i < |s| ==> visit(s[i]).Skip?
    ensures Recipients(s, visit) == SendPass([], true)
    decreases |s|
  {
    if |s| > 0 {
      assert forall i :: 0 <= i < |s[1..]| ==> s[1..][i] == s[i + 1];
      RecipientsIdle(s[1..], visit);
    }
  }

  /** `send` never writes a message to the sending window itself. */
  lemma SendSkipsSelf(e: Entries, targetId: string, now: int)
    ensures forall j :: 0 <= j < |Recipients(e.keys, ListenerVisit(e, targetId, now)).targets| ==>
      Recipients(e.keys, ListenerVisit(e, targetId, now)).targets[j] != targetId
  {
    ListenerVisitHits(e, targetId, now);
    RecipientsTargets(e.keys, ListenerVisit(e, targetId, now), targetId);
  }

  /** A completed `send` writes a message to every other window whose
      listener record is live, as long as that record's key does not
      mention the sender's id. */
  lemma SendReachesListener(e: Entries, sender: string, receiver: string, stamp: nat, now: int)
    requires e.Valid() && IsId(receiver)
    requires ListenerKey(receiver) in e.items && e.items[ListenerKey(receiver)] == NatToString(stamp)
    requires now - stamp <= ITEM_TTL_MS
    requires !Contains(ListenerKey(receiver), sender)
    requires Recipients(e.keys, ListenerVisit(e, sender, now)).completed
    ensures receiver in Recipients(e.keys, ListenerVisit(e, sender, now)).targets
  {
    var k := ListenerKey(receiver);
    assert k in e.keys;
    var i :| 0 <= i < |e.keys| && e.keys[i] == k;
    LiveListenerVisited(e, sender, receiver, stamp, now);
    RecipientsIncludes(e.keys, ListenerVisit(e, sender, now), i);
  }

  /** The send pass visits a live listener record of another window as a
      hit that yields that window's id. */
  lemma LiveListenerVisited(e: Entries, sender: string, receiver: string, stamp: nat, now: int)
    requires IsId(receiver)
    requires ListenerKey(receiver) in e.items && e.items[ListenerKey(receiver)] == NatToString(stamp)
    requires now - stamp <= ITEM_TTL_MS
    requires !Contains(ListenerKey(receiver), sender)
    ensures ListenerVisit(e, sender, now)(ListenerKey(receiver)) == Hit(receiver)
  {
    var k := ListenerKey(receiver);
    var item := ItemAt(e, k);
    assert item == Item(k, NatToString(stamp));
    assert !item.IsDead(now) by {
      StampedIsDead(k, stamp, now);
    }
    assert item.ContainsMessageListener() && !item.ContainsTargetId(sender) by {
      RecordClassification(ListenerRecord(receiver), NatToString(stamp));
    }
    assert StoreVisit(k) == Hit(receiver) by {
      DecodeEncode(ListenerRecord(receiver));
    }
  }

  /** A send followed by the receiver's `handleOwnMessage_`: if the send
      completes, it writes to the receiver, and each message it writes to
      the receiver is a key the receiver's delivery pass hands on with the
      sent data, whatever the store holds by then. */
  lemma SendThenDeliver(e: Entries, sender: string, receiver: string, stamp: nat, now: int,
                        ids: seq<string>, data: string, later: Entries)
    requires e.Valid() && IsId(receiver) && IsData(data)
    requires ListenerKey(receiver) in e.items && e.items[ListenerKey(receiver)] == NatToString(stamp)
    requires now - stamp <= ITEM_TTL_MS
    requires !Contains(ListenerKey(receiver), sender)
    requires forall j :: 0 <= j < |ids| ==> IsId(ids[j])
    requires |e.keys| <= |ids|
    requires Recipients(e.keys, ListenerVisit(e, sender, now)).completed
    ensures var targets := Recipients(e.keys, ListenerVisit(e, sender, now)).targets;
      receiver in targets
      && forall j :: 0 <= j < |targets| && targets[j] == receiver ==>
           OwnMessageVisit(later, receiver)(MessageKeys(ids, targets, data)[j]) == Hit(Some(data))
  {
    var targets := Recipients(e.keys, ListenerVisit(e, sender, now)).targets;
    SendReachesListener(e, sender, receiver, stamp, now);
    forall j | 0 <= j < |targets| && targets[j] == receiver
      ensures OwnMessageVisit(later, receiver)(MessageKeys(ids, targets, data)[j]) == Hit(Some(data))
    {
      assert MessageKeys(ids, targets, data)[j] == MessageKey(ids[j], receiver, data);
      OwnMessageDelivered(later, ids[j], receiver, data);
    }
  }

  /** Every message a send wrote to `receiver` that is still stored when
      the receiver's `handleOwnMessage_` runs to the end has its data handed
      to the receiver's data listener, whatever else the store holds. */
  lemma SentMessagesReceived(later: Entries, receiver: string, ids: seq<string>, targets: seq<string>, data: string)
    requires IsId(receiver) && IsData(data) && |targets| <= |ids|
    requires forall j :: 0 <= j < |ids| ==> IsId(ids[j])
    requires Deliveries(later.keys, OwnMessageVisit(later, receiver)).completed
    ensures forall j :: 0 <= j < |targets| && targets[j] == receiver && MessageKey(ids[j], receiver, data) in later.keys ==>
              Some(data) in Deliveries(later.keys, OwnMessageVisit(later, receiver)).data
  {
    var keys := MessageKeys(ids, targets, data);
    var visit := OwnMessageVisit(later, receiver);
    forall j | 0 <= j < |targets| && targets[j] == receiver
      ensures visit(keys[j]) == Hit(Some(data))
    {
      assert keys[j] == MessageKey(ids[j], receiver, data);
      OwnMessageDelivered(later, ids[j], receiver, data);
    }
    DeliveredKeys(later.keys, visit, targets, keys, receiver, Some(data));
  }

  /** `DeliveredKey` for every key written to `receiver`. */
  lemma DeliveredKeys(s: seq<string>, visit: string -> Visit<Option<string>>,
                      targets: seq<string>, keys: seq<string>, receiver: string, d: Option<string>)
    requires Deliveries(s, visit).completed && |keys| == |targets|
    requires forall j :: 0 <= j < |targets| && targets[j] == receiver ==> visit(keys[j]) == Hit(d)
    ensures forall j :: 0 <= j < |targets| && targets[j] == receiver && keys[j] in s ==> d in Deliveries(s, visit).data
  {
    forall j | 0 <= j < |targets| && targets[j] == receiver && keys[j] in s
      ensures d in Deliveries(s, visit).data
    {
      DeliveredKey(s, visit, keys[j], d);
    }
  }
}
