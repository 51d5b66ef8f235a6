/** `StorageMessenger.Item`: one raw store entry, classified by substring
    search on its key and aged by the timestamp in its value. */
module Items {
  import opened Options
  import opened Strings
  import opened Records

  /** `StorageMessenger.ITEM_TTL_MS`: an entry older than this is garbage. */
  const ITEM_TTL_MS: int := 400

  datatype Item = Item(key: string, value: string) {

    predicate ContainsMessage()
      ensures ContainsMessage() <==> exists i :: OccursAt(key, MESSAGE_TAG, i)
    {
      Contains(key, MESSAGE_TAG)
    }

    predicate ContainsMessageListener()
      ensures ContainsMessageListener() <==> exists i :: OccursAt(key, MESSAGE_LISTENER_TAG, i)
    {
      Contains(key, MESSAGE_LISTENER_TAG)
    }

    predicate ContainsTargetId(targetId: string)
      ensures ContainsTargetId(targetId) <==> exists i :: OccursAt(key, targetId, i)
    {
      Contains(key, targetId)
    }

    /** `now - parseInt(value, 10) > ITEM_TTL_MS`; a comparison with `NaN`
        is false, so a value that is not a number never makes an entry dead. */
    predicate IsDead(now: int)
      ensures IsDead(now) ==> exists i :: 0 <= i < |value| && IsDigit(value[i])
    {
      match ParseInt(value)
      case None => false
      case Some(stamp) => now - stamp > ITEM_TTL_MS
    }

    function GetKey(): (k: string)
      ensures Item(k, value) == this
    {
      key
    }
  }

  /** An entry stamped with `String(stamp)` is dead exactly when more than
      the TTL has passed since `stamp`. */
  lemma StampedIsDead(key: string, stamp: nat, now: int)
    ensures Item(key, NatToString(stamp)).IsDead(now) <==> now - stamp > ITEM_TTL_MS
  {
    ParseIntNatToString(stamp);
  }

  /** Without a new timestamp, a dead entry stays dead. */
  lemma DeadStaysDead(item: Item, now: int, later: int)
    requires item.IsDead(now) && now <= later
    ensures item.IsDead(later)
  {
  }

  /** A value that `parseInt` reads as `NaN` is never dead. */
  lemma NotANumberNeverDead(item: Item, now: int)
    requires ParseInt(item.value) == None
    ensures !item.IsDead(now)
  {
  }

  /** The classification of the protocol's own keys: a listener record's key
      carries the listener tag, a message record's key the message tag,
      and both carry their target id. */
  lemma RecordClassification(r: Record, value: string)
    ensures Item(Encode(r), value).ContainsTargetId(r.targetId)
    ensures r.ListenerRecord? ==> Item(Encode(r), value).ContainsMessageListener()
    ensures r.MessageRecord? ==> Item(Encode(r), value).ContainsMessage()
  {
    EncodeContains(r);
  }
}
