/** The cache of authorization decisions (internal/authz/cache.go). */
module DecisionCache {
  import opened Sizes
  import opened Text
  import opened Wrappers

  const NUL := '\0'

  datatype Decision = Decision(allow: bool, source: string, reason: string, subject: string, obj: string,
                               action: string, traceId: string, app: string, orgId: string, projectId: string,
                               resourceType: string, resourceId: string, matchedGrantId: string)

  datatype Entry = Entry(decision: Decision, expiresAt: int)

  type Items = map<string, Entry>

  /** cacheKey. */
  function Key(subject: string, obj: string, action: string): (key: string)
    ensures key != ""
  {
    subject + [NUL] + obj + [NUL] + action
  }

  /** A separator after a field without it fixes the field and what follows. */
  lemma FieldsBeforeSeparator(a: string, rest: string, a': string, rest': string, sep: char)
    requires a + [sep] + rest == a' + [sep] + rest' && sep !in a && sep !in a'
    ensures a == a' && rest == rest'
  {
    SplitField(a, rest, sep);
    SplitField(a', rest', sep);
    assert a == Split(a + [sep] + rest, sep)[0] == a';
    assert rest == (a + [sep] + rest)[|a| + 1..] && rest' == (a' + [sep] + rest')[|a'| + 1..];
  }

  /** Keys tell requests apart when subject and object hold no NUL. */
  lemma KeyInjective(s: string, o: string, a: string, s': string, o': string, a': string)
    requires Key(s, o, a) == Key(s', o', a')
    requires NUL !in s && NUL !in o && NUL !in s' && NUL !in o'
    ensures s == s' && o == o' && a == a'
  {
    assert Key(s, o, a) == s + [NUL] + (o + [NUL] + a) && Key(s', o', a') == s' + [NUL] + (o' + [NUL] + a');
    FieldsBeforeSeparator(s, o + [NUL] + a, s', o' + [NUL] + a', NUL);
    FieldsBeforeSeparator(o, a, o', a', NUL);
  }

  function Lookup(items: Items, key: string, now: int): Option<Decision> {
    if key in items && !(now > items[key].expiresAt) then Some(items[key].decision) else None
  }

  function AfterGet(items: Items, key: string, now: int): Items {
    if key in items && now > items[key].expiresAt then items - {key} else items
  }

  function DropExpired(items: Items, now: int): Items {
    map k | k in items && !(now > items[k].expiresAt) :: items[k]
  }

  predicate Full(items: Items, max: int) {
    max > 0 && |items| >= max
  }

  function MakeRoom(items: Items, max: int, now: int): Items {
    if Full(items, max) then DropExpired(items, now) else items
  }

  predicate LeastExpiry(items: Items, key: string) {
    key in items && forall k :: k in items ==> items[key].expiresAt <= items[k].expiresAt
  }

  /** Items after evicting one entry of least expiry; which one is left to the map's order. */
  ghost predicate EvictsOne(items: Items, after: Items) {
    exists key :: LeastExpiry(items, key) && after == items - {key}
  }

  /** What Set's eviction may leave of the items it made room in. */
  ghost predicate Keeps(room: Items, max: int, kept: Items) {
    if Full(room, max) then EvictsOne(room, kept) else kept == room
  }

  /** What Set may turn the items into. */
  ghost predicate Sets(items: Items, key: string, entry: Entry, max: int, now: int, after: Items) {
    exists kept: Items :: Keeps(MakeRoom(items, max, now), max, kept) && after == kept[key := entry]
  }

  /** Whatever Set leaves is the new entry or was there before. */
  lemma SetsFrom(items: Items, key: string, entry: Entry, max: int, now: int, after: Items, k: string)
    requires Sets(items, key, entry, max, now, after) && k in after
    ensures (k == key && after[k] == entry) || (k in items && after[k] == items[k])
  {
  }

  /** If Set loses an unexpired entry, the cache was full, it is the only one lost, and no other
      entry that was there expires before it. */
  lemma LeastGoes(items: Items, key: string, entry: Entry, max: int, now: int, after: Items, k: string)
    requires Sets(items, key, entry, max, now, after) && k in items && k !in after && now <= items[k].expiresAt
    ensures 0 < max <= |items|
    ensures forall other :: other in items && other != k && now <= items[other].expiresAt ==>
      other in after && items[k].expiresAt <= items[other].expiresAt
  {
    var room := MakeRoom(items, max, now);
    var kept: Items :| Keeps(room, max, kept) && after == kept[key := entry];
    assert k in room && k !in kept && Full(room, max);
    var gone :| LeastExpiry(room, gone) && kept == room - {gone};
    forall other | other in items && other != k && now <= items[other].expiresAt
      ensures other in after && items[k].expiresAt <= items[other].expiresAt
    {
      assert other in room && room[other] == items[other] && room[k] == items[k];
    }
  }

  lemma KeepsSize(room: Items, max: int, kept: Items)
    requires max > 0 && |room| <= max && Keeps(room, max, kept)
    ensures |kept| < max
  {
  }

  /** Set never lets the cache outgrow its bound. */
  lemma SetsKeepsSize(items: Items, key: string, entry: Entry, max: int, now: int, after: Items)
    requires Sets(items, key, entry, max, now, after) && max > 0 && |items| <= max
    ensures |after| <= max
  {
    hide Keeps;
    var room := MakeRoom(items, max, now);
    var kept: Items :| Keeps(room, max, kept) && after == kept[key := entry];
    DropExpiredSize(items, now);
    KeepsSize(room, max, kept);
    assert after.Keys == kept.Keys + {key};
    assert |after.Keys| == |after| && |kept.Keys| == |kept|;
  }

  lemma DropExpiredSize(items: Items, now: int)
    ensures |DropExpired(items, now)| <= |items|
  {
    var kept := DropExpired(items, now);
    assert kept.Keys <= items.Keys;
    SubsetSize(kept.Keys, items.Keys);
    assert |kept.Keys| == |kept| && |items.Keys| == |items|;
  }

  class Cache {
    const maxEntries: int
    var items: Items

    /** Every key has been built by cacheKey. */
    predicate Valid()
      reads this
    {
      "" !in items
    }

    constructor (maxEntries: int)
      ensures this.maxEntries == maxEntries && items == map[] && Valid()
    {
      this.maxEntries := maxEntries;
      items := map[];
    }

    /** Get: a read section, and a delete section of its own for an expired entry. */
    method Get(subject: string, obj: string, action: string, now: int) returns (r: Option<Decision>)
      requires Valid()
      modifies this
      ensures Valid()
      ensures r == Lookup(old(items), Key(subject, obj, action), now)
      ensures items == AfterGet(old(items), Key(subject, obj, action), now)
      ensures Key(subject, obj, action) in items ==> r.Some? && now <= items[Key(subject, obj, action)].expiresAt
    {
      var key := Key(subject, obj, action);
      if key !in items || now > items[key].expiresAt {
        items := items - {key};
        return None;
      }
      return Some(items[key].decision);
    }

    method Set(subject: string, obj: string, action: string, decision: Decision, ttl: int, now: int)
      requires Valid()
      modifies this
      ensures Valid()
      ensures ttl <= 0 ==> items == old(items)
      ensures ttl > 0 ==>
        Sets(old(items), Key(subject, obj, action), Entry(decision, now + ttl), maxEntries, now, items)
    {
      if ttl <= 0 {
        return;
      }
      if maxEntries > 0 && |items| >= maxEntries {
        var removed := CleanupExpired(now);
      }
      if maxEntries > 0 && |items| >= maxEntries {
        EvictOne();
      }
      ghost var kept := items;
      assert Keeps(MakeRoom(old(items), maxEntries, now), maxEntries, kept);
      items := items[Key(subject, obj, action) := Entry(decision, now + ttl)];
    }

    method CleanupExpired(now: int) returns (removed: nat)
      modifies this
      ensures items == DropExpired(old(items), now)
      ensures removed == |old(items)| - |items|
    {
      removed := 0;
      var todo := items.Keys;
      while todo != {}
        invariant todo <= items.Keys <= old(items).Keys
        invariant forall k :: k in items ==> items[k] == old(items)[k]
        invariant forall k :: k in old(items) && k !in todo ==> (k in items <==> !(now > old(items)[k].expiresAt))
        invariant removed == |old(items)| - |items|
        decreases todo
      {
        var k :| k in todo;
        if now > items[k].expiresAt {
          assert (items - {k}).Keys == items.Keys - {k};
          assert |items - {k}| == |items.Keys - {k}|;
          items := items - {k};
          removed := removed + 1;
        }
        todo := todo - {k};
      }
    }

    method EvictOne()
      requires Valid() && items != map[]
      modifies this
      ensures Valid() && EvictsOne(old(items), items)
    {
      var oldestKey, oldest := "", 0;
      var todo := items.Keys;
      while todo != {}
        invariant todo <= items.Keys
        invariant oldestKey == "" ==> todo == items.Keys
        invariant oldestKey != "" ==> oldestKey in items && oldest == items[oldestKey].expiresAt
        invariant oldestKey != "" ==> forall k :: k in items && k !in todo ==> oldest <= items[k].expiresAt
        decreases todo
      {
        var k :| k in todo;
        if oldestKey == "" || items[k].expiresAt < oldest {
          oldestKey, oldest := k, items[k].expiresAt;
        }
        todo := todo - {k};
      }
      assert items.Keys != {};
      assert LeastExpiry(items, oldestKey);
      items := items - {oldestKey};
    }
  }
}
