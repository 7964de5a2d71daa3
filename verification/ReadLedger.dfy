/**
 The read ledger: a map and a recency list with expiry times, whose expiry stops at the first entry that is still
 live, against a plain list of entries.
 */
module ReadLedger {
  import opened Text

  datatype Key = Key(epoch: string, path: string, hash: string)

  /** `delivered` is zero until the response shipped for the key is recorded. */
  datatype Entry = Entry(key: Key, expires: int, delivered: int)

  // ----- The plain list, most recent first -----

  predicate IsLive(entry: Entry, now: int) {
    entry.expires > now
  }

  /** Only the live entries. */
  function Live(list: seq<Entry>, now: int): seq<Entry> {
    if |list| == 0 then []
    else if IsLive(list[0], now) then [list[0]] + Live(list[1..], now)
    else Live(list[1..], now)
  }

  /** Only the entries of other keys. */
  function Without(list: seq<Entry>, gone: set<Key>): seq<Entry> {
    if |list| == 0 then []
    else if list[0].key in gone then Without(list[1..], gone)
    else [list[0]] + Without(list[1..], gone)
  }

  function EntryOf(list: seq<Entry>, key: Key): (entry: Option<Entry>)
    ensures entry.Some? ==> entry.value in list && entry.value.key == key
    ensures entry.None? ==> forall e :: e in list ==> e.key != key
  {
    if |list| == 0 then None else if list[0].key == key then Some(list[0]) else EntryOf(list[1..], key)
  }

  function Capped(list: seq<Entry>, capacity: nat): seq<Entry> {
    if |list| > capacity then list[..capacity] else list
  }

  /** The entry becomes the most recent; the oldest makes room. */
  function Touched(list: seq<Entry>, entry: Entry, capacity: nat): seq<Entry> {
    Capped([entry] + Without(list, {entry.key}), capacity)
  }

  /** An observation: the key is seen, its entry refreshed or made. */
  function Observed(list: seq<Entry>, key: Key, now: int, ttl: int, capacity: nat): seq<Entry> {
    var seen := EntryOf(Live(list, now), key);
    Touched(Live(list, now), Entry(key, now + ttl, if seen.Some? then seen.value.delivered else 0), capacity)
  }

  function Delivered(list: seq<Entry>, key: Key, now: int, ttl: int, capacity: nat, delivered: int): seq<Entry> {
    Touched(Live(list, now), Entry(key, now + ttl, delivered), capacity)
  }

  ghost function KeysAt(list: seq<Entry>, path: string): set<Key> {
    set e | e in list && e.key.path == path :: e.key
  }

  // ----- The order of expiry -----

  /** From the most recent on, entries expire no later and no later. */
  ghost predicate ByExpiry(list: seq<Entry>) {
    forall i, j :: 0 <= i < j < |list| ==> list[i].expires >= list[j].expires
  }

  ghost predicate ExpiresBy(list: seq<Entry>, limit: int) {
    forall e :: e in list ==> e.expires <= limit
  }

  /** What walking from the back and stopping at the first live entry leaves. */
  function Trimmed(list: seq<Entry>, now: int): seq<Entry> {
    if |list| == 0 || IsLive(list[|list| - 1], now) then list else Trimmed(list[..|list| - 1], now)
  }

  /** No expired entry stands before a live one. */
  ghost predicate ExpiredLast(list: seq<Entry>, now: int) {
    forall i, j :: 0 <= i < j < |list| && IsLive(list[j], now) ==> IsLive(list[i], now)
  }

  lemma {:induction false} LiveConcat(a: seq<Entry>, b: seq<Entry>, now: int)
    ensures Live(a + b, now) == Live(a, now) + Live(b, now)
  {
    if |a| == 0 {
      EmptyConcat(a, b);
    } else {
      TailOfConcat(a, b);
      LiveConcat(a[1..], b, now);
      Regroup3([a[0]], Live(a[1..], now), Live(b, now));
    }
  }

  lemma {:induction false} AllLive(list: seq<Entry>, now: int)
    ensures |Live(list, now)| <= |list| && (forall e :: e in Live(list, now) ==> e in list && IsLive(e, now))
    ensures Live(list, now) == list <==> forall i :: 0 <= i < |list| ==> IsLive(list[i], now)
  {
    if |list| > 0 {
      AllLive(list[1..], now);
      assert list == [list[0]] + list[1..];
    }
  }

  /** Stopping early is right exactly when the expired entries come last, which the order of expiry guarantees. */
  lemma {:induction false} StoppingEarlyIsExact(list: seq<Entry>, now: int)
    ensures Trimmed(list, now) == Live(list, now) <==> ExpiredLast(list, now)
    ensures ByExpiry(list) ==> ExpiredLast(list, now)
    decreases |list|
  {
    AllLive(list, now);
    if |list| > 0 {
      var front, last := list[..|list| - 1], list[|list| - 1];
      assert list == front + [last];
      if !IsLive(last, now) {
        StoppingEarlyIsExact(front, now);
        LiveConcat(front, [last], now);
        assert Live([last], now) == [] && Live(front, now) + [] == Live(front, now);
        assert ExpiredLast(list, now) <==> ExpiredLast(front, now);
      } else if ExpiredLast(list, now) {
        assert forall i :: 0 <= i < |list| - 1 ==> IsLive(list[i], now) by {
          assert IsLive(list[|list| - 1], now);
        }
      }
    }
  }

  // ----- The map and the list -----

  function Entries(order: seq<Key>, items: map<Key, Entry>): seq<Entry>
    requires forall k :: k in order ==> k in items
  {
    if |order| == 0 then [] else [items[order[0]]] + Entries(order[1..], items)
  }

  function KeysWithout(order: seq<Key>, gone: set<Key>): seq<Key> {
    if |order| == 0 then []
    else if order[0] in gone then KeysWithout(order[1..], gone)
    else [order[0]] + KeysWithout(order[1..], gone)
  }

  ghost predicate Distinct(order: seq<Key>) {
    forall i, j :: 0 <= i < j < |order| ==> order[i] != order[j]
  }

  /** Map and list hold the same keys, each once, and every entry knows its key. */
  ghost predicate Linked(order: seq<Key>, items: map<Key, Entry>) {
    && Distinct(order)
    && (forall k :: k in order <==> k in items)
    && (forall k :: k in items ==> items[k].key == k)
  }

  lemma {:induction false} EntriesAt(order: seq<Key>, items: map<Key, Entry>)
    requires forall k :: k in order ==> k in items
    ensures |Entries(order, items)| == |order|
    ensures forall i :: 0 <= i < |order| ==> Entries(order, items)[i] == items[order[i]]
  {
    if |order| > 0 {
      EntriesAt(order[1..], items);
      assert forall i :: 1 <= i < |order| ==> order[i] == order[1..][i - 1] && Entries(order, items)[i] == Entries(order[1..], items)[i - 1];
    }
  }

  lemma {:induction false} SameEntries(order: seq<Key>, items: map<Key, Entry>, items': map<Key, Entry>)
    requires forall k :: k in order ==> k in items && k in items' && items[k] == items'[k]
    ensures Entries(order, items) == Entries(order, items')
  {
    if |order| > 0 {
      SameEntries(order[1..], items, items');
    }
  }

  lemma {:induction false} KeysWithoutMembers(order: seq<Key>, gone: set<Key>)
    ensures forall k :: k in KeysWithout(order, gone) <==> k in order && k !in gone
    ensures |KeysWithout(order, gone)| <= |order|
    ensures Distinct(order) ==> Distinct(KeysWithout(order, gone))
  {
    if |order| > 0 {
      KeysWithoutMembers(order[1..], gone);
      assert order == [order[0]] + order[1..];
      var rest := KeysWithout(order[1..], gone);
      if Distinct(order) && order[0] !in gone {
        assert order[0] !in order[1..];
        assert Distinct([order[0]] + rest);
      }
    }
  }

  lemma {:induction false} EntriesWithout(order: seq<Key>, items: map<Key, Entry>, gone: set<Key>)
    requires forall k :: k in order ==> k in items && items[k].key == k
    ensures forall k :: k in KeysWithout(order, gone) ==> k in items - gone
    ensures Entries(KeysWithout(order, gone), items - gone) == Without(Entries(order, items), gone)
  {
    KeysWithoutMembers(order, gone);
    if |order| > 0 {
      EntriesWithout(order[1..], items, gone);
      KeysWithoutMembers(order[1..], gone);
      if order[0] !in gone {
        var rest := KeysWithout(order[1..], gone);
        assert ([order[0]] + rest)[1..] == rest;
      }
    }
  }

  lemma {:induction false} FoundEntry(order: seq<Key>, items: map<Key, Entry>, key: Key)
    requires forall k :: k in order ==> k in items && items[k].key == k
    ensures EntryOf(Entries(order, items), key) == if key in order then Some(items[key]) else None
  {
    if |order| > 0 {
      FoundEntry(order[1..], items, key);
    }
  }

  lemma {:induction false} LastEntry(order: seq<Key>, items: map<Key, Entry>)
    requires |order| > 0 && forall k :: k in order ==> k in items
    ensures var n := |order| - 1;
            Entries(order, items) == Entries(order[..n], items) + [items[order[n]]]
  {
    var n := |order| - 1;
    EntriesAt(order, items);
    EntriesAt(order[..n], items);
  }

  /** Taking the last key off the list and out of the map. */
  lemma {:induction false} DropLast(order: seq<Key>, items: map<Key, Entry>)
    requires Linked(order, items) && |order| > 0
    ensures var n := |order| - 1;
            var items' := items - {order[n]};
            && order[n] in items && Linked(order[..n], items')
            && |Entries(order, items)| == n + 1
            && Entries(order[..n], items') == Entries(order, items)[..n]
            && Entries(order, items)[n] == items[order[n]]
  {
    var n := |order| - 1;
    var items' := items - {order[n]};
    assert order == order[..n] + [order[n]];
    LastEntry(order, items);
    SameEntries(order[..n], items, items');
    EntriesAt(order, items);
    EntriesAt(order[..n], items);
  }

  lemma {:induction false} EntriesCount(order: seq<Key>, items: map<Key, Entry>)
    requires Linked(order, items)
    ensures |Entries(order, items)| == |order|
  {
    EntriesAt(order, items);
  }

  /** Putting a key in front of the list, out of wherever it was. */
  lemma {:induction false} MoveFirst(order: seq<Key>, items: map<Key, Entry>, entry: Entry)
    requires Linked(order, items)
    ensures var order', items' := [entry.key] + KeysWithout(order, {entry.key}), items[entry.key := entry];
            && Linked(order', items')
            && Entries(order', items') == [entry] + Without(Entries(order, items), {entry.key})
  {
    var rest := KeysWithout(order, {entry.key});
    var order', items' := [entry.key] + rest, items[entry.key := entry];
    KeysWithoutMembers(order, {entry.key});
    EntriesWithout(order, items, {entry.key});
    assert order'[1..] == rest;
    SameEntries(rest, items - {entry.key}, items');
    assert forall k :: k in order' <==> k == entry.key || k in rest;
  }

  lemma {:induction false} RemoveKey(order: seq<Key>, items: map<Key, Entry>, key: Key)
    requires Linked(order, items)
    ensures var order', items' := KeysWithout(order, {key}), items - {key};
            && Linked(order', items') && |order'| <= |order|
            && Entries(order', items') == Without(Entries(order, items), {key})
  {
    KeysWithoutMembers(order, {key});
    EntriesWithout(order, items, {key});
  }

  lemma {:induction false} NothingGone(list: seq<Entry>)
    ensures Without(list, {}) == list
  {
    if |list| > 0 {
      NothingGone(list[1..]);
      assert list == [list[0]] + list[1..];
    }
  }

  lemma {:induction false} WithoutTwice(list: seq<Entry>, a: set<Key>, b: set<Key>)
    ensures Without(Without(list, a), b) == Without(list, a + b)
  {
    if |list| > 0 {
      WithoutTwice(list[1..], a, b);
      var rest := Without(list[1..], a);
      assert ([list[0]] + rest)[0] == list[0] && ([list[0]] + rest)[1..] == rest;
    }
  }

  lemma {:induction false} KeysOfContents(order: seq<Key>, items: map<Key, Entry>, path: string)
    requires Linked(order, items)
    ensures forall k :: k in KeysAt(Entries(order, items), path) <==> k in items && k.path == path
  {
    EntriesAt(order, items);
    var list := Entries(order, items);
    forall k | k in items && k.path == path ensures k in KeysAt(list, path) {
      assert k in order;
      var i :| 0 <= i < |order| && order[i] == k;
      assert list[i] in list && list[i].key == k;
    }
    forall k | k in KeysAt(list, path) ensures k in items && k.path == path {
      var e :| e in list && e.key.path == path && e.key == k;
      var i :| 0 <= i < |list| && list[i] == e;
      assert order[i] in items;
    }
  }

  /** Touching with the latest expiry keeps the order. */
  lemma {:induction false} TouchKeepsOrder(list: seq<Entry>, entry: Entry, capacity: nat)
    requires ByExpiry(list) && ExpiresBy(list, entry.expires)
    ensures ByExpiry(Touched(list, entry, capacity)) && ExpiresBy(Touched(list, entry, capacity), entry.expires)
  {
    var rest := Without(list, {entry.key});
    WithoutKeepsOrder(list, {entry.key});
    var all := [entry] + rest;
    forall i, j | 0 <= i < j < |all| ensures all[i].expires >= all[j].expires {
      assert all[j] == rest[j - 1] && (i > 0 ==> all[i] == rest[i - 1]);
      assert rest[j - 1] in rest;
    }
    assert forall e :: e in all ==> e == entry || e in rest;
    assert forall e :: e in Touched(list, entry, capacity) ==> e in all;
  }

  lemma {:induction false} WithoutExpiresBy(list: seq<Entry>, gone: set<Key>, limit: int)
    requires ExpiresBy(list, limit)
    ensures ExpiresBy(Without(list, gone), limit)
  {
    WithoutKeepsOrder(list, gone);
  }

  lemma {:induction false} WithoutKeepsOrder(list: seq<Entry>, gone: set<Key>)
    ensures |Without(list, gone)| <= |list|
    ensures forall e :: e in Without(list, gone) <==> e in list && e.key !in gone
    ensures ByExpiry(list) ==> ByExpiry(Without(list, gone))
  {
    if |list| > 0 {
      WithoutKeepsOrder(list[1..], gone);
      assert list == [list[0]] + list[1..];
      var rest := Without(list[1..], gone);
      if ByExpiry(list) && list[0].key !in gone {
        forall i, j | 0 <= i < j < |[list[0]] + rest| ensures ([list[0]] + rest)[i].expires >= ([list[0]] + rest)[j].expires {
          assert rest[j - 1] in list[1..];
        }
      }
    }
  }

  lemma {:induction false} LiveExpiresBy(list: seq<Entry>, now: int, limit: int, limit': int)
    requires ExpiresBy(list, limit) && limit <= limit'
    ensures ExpiresBy(Live(list, now), limit')
  {
    LiveKeepsOrder(list, now);
  }

  lemma {:induction false} LiveKeepsOrder(list: seq<Entry>, now: int)
    ensures |Live(list, now)| <= |list| && (forall e :: e in Live(list, now) ==> e in list)
    ensures ByExpiry(list) ==> ByExpiry(Live(list, now))
  {
    if |list| > 0 {
      LiveKeepsOrder(list[1..], now);
      assert list == [list[0]] + list[1..];
      var rest := Live(list[1..], now);
      if ByExpiry(list) && IsLive(list[0], now) {
        forall i, j | 0 <= i < j < |[list[0]] + rest| ensures ([list[0]] + rest)[i].expires >= ([list[0]] + rest)[j].expires {
          assert rest[j - 1] in list[1..];
        }
      }
    }
  }

  // ----- The ledger -----

  const DEFAULT_TTL := 600
  const DEFAULT_CAPACITY := 512

  class Ledger {
    const ttl: int
    const capacity: nat
    var items: map<Key, Entry>
    var order: seq<Key>
    /** The time of the last call. */
    ghost var clock: int

    ghost predicate Links()
      reads this
    {
      ttl > 0 && capacity > 0 && Linked(order, items) && |order| <= capacity
    }

    ghost function Contents(): seq<Entry>
      reads this
      requires Linked(order, items)
    {
      Entries(order, items)
    }

    ghost predicate Valid()
      reads this
    {
      Links() && ByExpiry(Contents()) && ExpiresBy(Contents(), clock + ttl)
    }

    constructor (ttl: int, capacity: int)
      ensures Valid() && Contents() == []
      ensures this.ttl == (if ttl <= 0 then 600 else ttl) && this.capacity == if capacity <= 0 then 512 else capacity
    {
      this.ttl := if ttl <= 0 then DEFAULT_TTL else ttl;
      this.capacity := if capacity <= 0 then DEFAULT_CAPACITY else capacity;
      items, order := map[], [];
    }

    method RemoveBack()
      requires Linked(order, items) && |order| > 0
      modifies this`items, this`order
      ensures Linked(order, items) && |order| == old(|order|) - 1
      ensures |old(Contents())| == old(|order|) && Contents() == old(Contents())[..|order|]
    {
      hide Linked, Entries;
      DropLast(order, items);
      var back := order[|order| - 1];
      items := items - {back};
      order := order[..|order| - 1];
    }

    /** Drops expired entries from the back, up to the first live one. */
    method Expire(now: int)
      requires Valid() && clock <= now
      modifies this
      ensures Valid() && Contents() == Live(old(Contents()), now) && clock == now
    {
      hide Linked, Entries, ByExpiry, ExpiresBy, Live, ExpiredLast;
      ghost var before := Contents();
      StoppingEarlyIsExact(before, now);
      LiveKeepsOrder(before, now);
      LiveExpiresBy(before, now, clock + ttl, now + ttl);
      EntriesCount(order, items);
      while |order| > 0 && ExpiredBack(now)
        invariant Links() && |Contents()| == |order|
        invariant Trimmed(Contents(), now) == Trimmed(before, now)
      {
        DropLast(order, items);
        RemoveBack();
        EntriesCount(order, items);
      }
      if |order| > 0 {
        DropLast(order, items);
      }
      clock := now;
    }

    predicate ExpiredBack(now: int)
      reads this
      requires Linked(order, items) && |order| > 0
    {
      items[order[|order| - 1]].expires <= now
    }

    /** Makes an entry the most recent, evicting from the back. */
    method Touch(entry: Entry)
      requires Valid() && entry.expires == clock + ttl
      modifies this`items, this`order
      ensures Valid() && Contents() == Touched(old(Contents()), entry, capacity)
    {
      hide Linked, Entries, ByExpiry, ExpiresBy, KeysWithout;
      MoveFirst(order, items, entry);
      TouchKeepsOrder(Contents(), entry, capacity);
      KeysWithoutMembers(order, {entry.key});
      order := [entry.key] + KeysWithout(order, {entry.key});
      items := items[entry.key := entry];
      EntriesCount(order, items);
      while |order| > capacity
        invariant Linked(order, items) && capacity <= Max(|order|, capacity) && |Contents()| == |order|
        invariant Capped(Contents(), capacity) == Touched(old(Contents()), entry, capacity)
      {
        RemoveBack();
        EntriesCount(order, items);
      }
    }

    method ShouldElide(epoch: string, path: string, hash: string, force: bool, now: int) returns (elide: bool)
      requires Valid() && clock <= now
      modifies this
      ensures Valid() && clock == if epoch == "" then old(clock) else now
      ensures epoch == "" ==> !elide && Contents() == old(Contents())
      ensures epoch != "" ==>
                var key := Key(epoch, path, hash);
                && (elide <==> EntryOf(Live(old(Contents()), now), key).Some? && !force)
                && Contents() == Observed(old(Contents()), key, now, ttl, capacity)
    {
      hide Entries, ByExpiry, ExpiresBy, Live, Touched;
      if epoch == "" {
        return false;
      }
      var key := Key(epoch, path, hash);
      Expire(now);
      FoundEntry(order, items, key);
      if key in items {
        var entry := items[key];
        Touch(entry.(expires := now + ttl));
        return !force;
      }
      Touch(Entry(key, now + ttl, 0));
      return false;
    }

    method PriorDelivery(epoch: string, path: string, hash: string, now: int) returns (delivered: int, ok: bool)
      requires Valid() && clock <= now
      modifies this
      ensures Valid() && clock == if epoch == "" then old(clock) else now
      ensures epoch == "" ==> delivered == 0 && !ok && Contents() == old(Contents())
      ensures epoch != "" ==>
                var seen := EntryOf(Live(old(Contents()), now), Key(epoch, path, hash));
                && Contents() == Live(old(Contents()), now)
                && delivered == (if seen.Some? then seen.value.delivered else 0) && (ok <==> delivered > 0)
    {
      if epoch == "" {
        return 0, false;
      }
      Expire(now);
      var key := Key(epoch, path, hash);
      FoundEntry(order, items, key);
      if key !in items {
        return 0, false;
      }
      delivered := items[key].delivered;
      return delivered, delivered > 0;
    }

    method RecordDelivery(epoch: string, path: string, hash: string, delivered: int, now: int)
      requires Valid() && clock <= now
      modifies this
      ensures Valid() && clock == if epoch == "" || delivered <= 0 then old(clock) else now
      ensures epoch == "" || delivered <= 0 ==> Contents() == old(Contents())
      ensures epoch != "" && delivered > 0 ==>
                Contents() == Delivered(old(Contents()), Key(epoch, path, hash), now, ttl, capacity, delivered)
    {
      if epoch == "" || delivered <= 0 {
        return;
      }
      Expire(now);
      Touch(Entry(Key(epoch, path, hash), now + ttl, delivered));
    }

    method Remove(key: Key)
      requires Links() && key in items
      modifies this`items, this`order
      ensures Links() && Contents() == Without(old(Contents()), {key}) && items == old(items) - {key}
    {
      RemoveKey(order, items, key);
      order := KeysWithout(order, {key});
      items := items - {key};
    }

    method Invalidate(path: string)
      requires Valid()
      modifies this`items, this`order
      ensures Valid() && Contents() == Without(old(Contents()), KeysAt(old(Contents()), path))
    {
      hide Linked, Entries, ByExpiry, ExpiresBy, Without;
      ghost var before := Contents();
      ghost var removed: set<Key> := {};
      var rest := items.Keys;
      NothingGone(before);
      while rest != {}
        invariant Links() && rest <= items.Keys
        invariant Contents() == Without(before, removed)
        invariant forall k :: k in removed <==> k in old(items) && k !in rest && k.path == path
        invariant forall k :: k in items <==> k in old(items) && k !in removed
        decreases rest
      {
        var key :| key in rest;
        if key.path == path {
          WithoutTwice(before, removed, {key});
          Remove(key);
          removed := removed + {key};
        }
        rest := rest - {key};
      }
      KeysOfContents(old(order), old(items), path);
      WithoutKeepsOrder(before, removed);
      WithoutExpiresBy(before, removed, clock + ttl);
      assert removed == KeysAt(before, path);
    }
  }

  // ----- What callers see -----

  lemma {:induction false} TouchedHasEntry(list: seq<Entry>, entry: Entry, capacity: nat)
    requires capacity > 0
    ensures EntryOf(Touched(list, entry, capacity), entry.key) == Some(entry)
  {
  }

  lemma {:induction false} LiveEntry(list: seq<Entry>, now: int, key: Key)
    requires EntryOf(list, key).Some? && IsLive(EntryOf(list, key).value, now)
    ensures EntryOf(Live(list, now), key) == EntryOf(list, key)
  {
    if list[0].key != key {
      LiveEntry(list[1..], now, key);
    }
  }

  /**
   A key that was observed is elided on the next look within the time to live, and the delivery recorded for it is
   the one reported, whatever was in the ledger before.
   */
  lemma {:induction false} RecordedIsReported(list: seq<Entry>, key: Key, now: int, later: int, ttl: int, capacity: nat, delivered: int)
    requires capacity > 0 && later < now + ttl
    ensures EntryOf(Live(Observed(list, key, now, ttl, capacity), later), key).Some?
    ensures var seen := EntryOf(Live(Delivered(list, key, now, ttl, capacity, delivered), later), key);
            seen.Some? && seen.value.delivered == delivered
  {
    var seen := EntryOf(Live(list, now), key);
    var observed := Entry(key, now + ttl, if seen.Some? then seen.value.delivered else 0);
    TouchedHasEntry(Live(list, now), observed, capacity);
    LiveEntry(Observed(list, key, now, ttl, capacity), later, key);
    TouchedHasEntry(Live(list, now), Entry(key, now + ttl, delivered), capacity);
    LiveEntry(Delivered(list, key, now, ttl, capacity, delivered), later, key);
  }

  lemma {:induction false} TouchedIsFirst(list: seq<Entry>, entry: Entry, capacity: nat, later: int)
    requires capacity > 0
    ensures EntryOf(Live(Touched(list, entry, capacity), later), entry.key) == if entry.expires > later then Some(entry) else None
  {
    var touched := Touched(list, entry, capacity);
    var rest := touched[1..];
    assert touched[0] == entry;
    forall e | e in rest ensures e.key != entry.key {
      assert e in Without(list, {entry.key});
      EntryWithout(list, {entry.key}, entry.key);
    }
    NoEntryLive(rest, later, entry.key);
  }

  lemma {:induction false} NoEntryLive(list: seq<Entry>, now: int, key: Key)
    requires forall e :: e in list ==> e.key != key
    ensures EntryOf(Live(list, now), key) == None
  {
    if |list| > 0 {
      assert list[0] in list && forall e :: e in list[1..] ==> e in list;
      NoEntryLive(list[1..], now, key);
    }
  }

  /**
   An observation found again keeps the delivery that was recorded for it, zero if there was none, and lives for as long
   as a fresh one; a recorded delivery is found again for as long.
   */
  lemma {:induction false} ObservedKeepsDelivery(list: seq<Entry>, key: Key, now: int, later: int, ttl: int, capacity: nat, delivered: int)
    requires capacity > 0
    ensures var was, seen := EntryOf(Live(list, now), key), EntryOf(Live(Observed(list, key, now, ttl, capacity), later), key);
            && (seen.Some? <==> later < now + ttl)
            && (seen.Some? ==> seen.value.expires == now + ttl && seen.value.delivered == if was.Some? then was.value.delivered else 0)
    ensures var seen := EntryOf(Live(Delivered(list, key, now, ttl, capacity, delivered), later), key);
            && (seen.Some? <==> later < now + ttl)
            && (seen.Some? ==> seen.value.expires == now + ttl && seen.value.delivered == delivered)
  {
    hide Live, Touched;
    var seen := EntryOf(Live(list, now), key);
    TouchedIsFirst(Live(list, now), Entry(key, now + ttl, if seen.Some? then seen.value.delivered else 0), capacity, later);
    TouchedIsFirst(Live(list, now), Entry(key, now + ttl, delivered), capacity, later);
  }

  lemma {:induction false} EntryOfFront(list: seq<Entry>, n: nat, key: Key)
    requires n <= |list|
    ensures EntryOf(list[..n], key) == None || EntryOf(list[..n], key) == EntryOf(list, key)
  {
    if n > 0 {
      assert list[..n][1..] == list[1..][..n - 1] && list[..n][0] == list[0];
      EntryOfFront(list[1..], n - 1, key);
    }
  }

  /** Every other key that is still there keeps its entry. */
  lemma {:induction false} OthersKeepTheirEntries(list: seq<Entry>, key: Key, now: int, ttl: int, capacity: nat, delivered: int, other: Key)
    requires other != key
    ensures var seen := EntryOf(Observed(list, key, now, ttl, capacity), other); seen == None || seen == EntryOf(Live(list, now), other)
    ensures var seen := EntryOf(Delivered(list, key, now, ttl, capacity, delivered), other);
            seen == None || seen == EntryOf(Live(list, now), other)
  {
    hide Live;
    forall entry: Entry | entry.key == key
      ensures var seen := EntryOf(Touched(Live(list, now), entry, capacity), other); seen == None || seen == EntryOf(Live(list, now), other)
    {
      var others := Without(Live(list, now), {key});
      EntryWithout(Live(list, now), {key}, other);
      EntryBehind(entry, others, other);
      EntryOfFront([entry] + others, Min(capacity, |[entry] + others|), other);
    }
  }

  /**
   What every elided read does: a delivery is recorded, the same content is asked for again, and the size credited is
   the one recorded, as long as no call comes later than the time to live after the one before it.
   */
  method RecordElideCredit(ledger: Ledger, epoch: string, path: string, hash: string, size: int, t0: int, t1: int, t2: int)
    returns (elide: bool, delivered: int, ok: bool)
    requires ledger.Valid() && epoch != "" && size > 0
    requires ledger.clock <= t0 <= t1 < t0 + ledger.ttl && t1 <= t2 < t1 + ledger.ttl
    modifies ledger
    ensures ledger.Valid() && elide && delivered == size && ok
  {
    hide Live, Observed, Delivered, EntryOf;
    var key := Key(epoch, path, hash);
    ghost var first := ledger.Contents();
    ledger.RecordDelivery(epoch, path, hash, size, t0);
    ghost var second := ledger.Contents();
    ObservedKeepsDelivery(first, key, t0, t1, ledger.ttl, ledger.capacity, size);
    elide := ledger.ShouldElide(epoch, path, hash, false, t1);
    ObservedKeepsDelivery(second, key, t1, t2, ledger.ttl, ledger.capacity, size);
    delivered, ok := ledger.PriorDelivery(epoch, path, hash, t2);
  }

  /** Invalidating a path forgets all its keys and no other. */
  lemma {:induction false} InvalidatedIsForgotten(list: seq<Entry>, path: string, key: Key)
    ensures EntryOf(Without(list, KeysAt(list, path)), key) == if key.path == path then None else EntryOf(list, key)
  {
    EntryWithout(list, KeysAt(list, path), key);
    if key.path == path && EntryOf(list, key).Some? {
      assert EntryOf(list, key).value in list;
    }
  }

  lemma {:induction false} EntryWithout(list: seq<Entry>, gone: set<Key>, key: Key)
    ensures EntryOf(Without(list, gone), key) == if key in gone then None else EntryOf(list, key)
  {
    if |list| > 0 {
      EntryWithout(list[1..], gone, key);
      var rest := Without(list[1..], gone);
      if list[0].key !in gone {
        assert ([list[0]] + rest)[0] == list[0] && ([list[0]] + rest)[1..] == rest;
      }
    }
  }

  /** Touching a key makes room by dropping the oldest other entry, and only when the list is full. */
  lemma {:induction false} OnlyTheOldestIsEvicted(list: seq<Entry>, entry: Entry, capacity: nat, key: Key)
    requires key != entry.key && 0 < capacity && |list| <= capacity
    ensures var others := Without(list, {entry.key});
            EntryOf(Touched(list, entry, capacity), key)
            == if |others| < capacity then EntryOf(list, key) else EntryOf(others[..|others| - 1], key)
  {
    var others := Without(list, {entry.key});
    EntryWithout(list, {entry.key}, key);
    WithoutKeepsOrder(list, {entry.key});
    hide Without, EntryOf;
    if |others| < capacity {
      EntryBehind(entry, others, key);
    } else {
      EntryBehind(entry, others[..capacity - 1], key);
      assert ([entry] + others)[..capacity] == [entry] + others[..capacity - 1];
    }
  }

  lemma {:induction false} EntryBehind(first: Entry, rest: seq<Entry>, key: Key)
    requires first.key != key
    ensures EntryOf([first] + rest, key) == EntryOf(rest, key)
  {
    assert ([first] + rest)[0] == first && ([first] + rest)[1..] == rest;
  }
}
