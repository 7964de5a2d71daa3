/**
 Sets of keys as ascending lists: the order of `sort.Strings`.

 Go's maps are iterated in no particular order, and wherever the order of keys matters the source collects and sorts
 them first.  A set has one ascending list only, so the order in which keys are collected does not show.

 SortedKeys is that list as a function, for specifications; SortKeys builds it by insertion.
 */
module KeyOrder {
  /** The order of sort.Strings. */
  predicate Less(a: string, b: string) {
    if b == "" then false
    else if a == "" then true
    else a[0] < b[0] || (a[0] == b[0] && Less(a[1..], b[1..]))
  }

  lemma {:induction false} LessIsTotal(a: string, b: string)
    ensures Less(a, b) || Less(b, a) || a == b
    ensures !(Less(a, b) && Less(b, a)) && !Less(a, a)
  {
    if a != "" && b != "" {
      LessIsTotal(a[1..], b[1..]);
      assert a == [a[0]] + a[1..] && b == [b[0]] + b[1..];
    }
    if a != "" {
      LessIsTotal(a[1..], a[1..]);
    }
  }

  lemma {:induction false} LessIsTransitive(a: string, b: string, c: string)
    requires Less(a, b) && Less(b, c)
    ensures Less(a, c)
  {
    if a != "" && a[0] == b[0] && b[0] == c[0] {
      LessIsTransitive(a[1..], b[1..], c[1..]);
    }
  }

  predicate Ascending(keys: seq<string>) {
    forall i, j :: 0 <= i < j < |keys| ==> Less(keys[i], keys[j])
  }

  function KeySet(keys: seq<string>): set<string> {
    set k | k in keys
  }

  /** Puts a new key in its place among ascending ones. */
  function Insert(key: string, keys: seq<string>): seq<string> {
    if |keys| == 0 || Less(key, keys[0]) then [key] + keys else [keys[0]] + Insert(key, keys[1..])
  }

  lemma {:induction false} InsertKeeps(key: string, keys: seq<string>)
    requires Ascending(keys) && key !in keys
    ensures Ascending(Insert(key, keys)) && KeySet(Insert(key, keys)) == KeySet(keys) + {key}
  {
    var inserted := Insert(key, keys);
    if |keys| == 0 {
    } else if Less(key, keys[0]) {
      forall j | 0 <= j < |keys| ensures Less(key, keys[j]) {
        if j > 0 { LessIsTransitive(key, keys[0], keys[j]); }
      }
    } else {
      LessIsTotal(key, keys[0]);
      InsertKeeps(key, keys[1..]);
      assert inserted[1..] == Insert(key, keys[1..]);
      assert keys == [keys[0]] + keys[1..];
      forall j | 1 <= j < |inserted| ensures Less(keys[0], inserted[j]) {
        assert inserted[j] in KeySet(inserted[1..]);
      }
    }
  }

  /** The ascending list of a set of keys; AscendingIsUnique makes the order of choice immaterial. */
  ghost function SortedKeys(keys: set<string>): (sorted: seq<string>)
    ensures Ascending(sorted) && KeySet(sorted) == keys
  {
    if keys == {} then []
    else
      var key :| key in keys;
      InsertKeeps(key, SortedKeys(keys - {key}));
      Insert(key, SortedKeys(keys - {key}))
  }

  lemma {:induction false} AscendingMin(a: seq<string>, b: seq<string>)
    requires Ascending(a) && Ascending(b) && KeySet(a) == KeySet(b) && |a| > 0 && |b| > 0
    ensures a[0] == b[0]
  {
    assert a[0] in KeySet(a) && b[0] in KeySet(b);
    var i :| 0 <= i < |b| && b[i] == a[0];
    var j :| 0 <= j < |a| && a[j] == b[0];
    LessIsTotal(a[0], b[0]);
  }

  lemma {:induction false} AscendingIsDistinct(keys: seq<string>)
    requires Ascending(keys)
    ensures forall i, j :: 0 <= i < j < |keys| ==> keys[i] != keys[j]
  {
    forall i, j | 0 <= i < j < |keys| ensures keys[i] != keys[j] {
      LessIsTotal(keys[i], keys[i]);
    }
  }

  lemma {:induction false} KeySetTail(keys: seq<string>)
    requires Ascending(keys) && |keys| > 0
    ensures KeySet(keys[1..]) == KeySet(keys) - {keys[0]} && Ascending(keys[1..])
  {
    AscendingIsDistinct(keys);
    assert keys == [keys[0]] + keys[1..];
  }

  lemma {:induction false} AscendingIsUnique(a: seq<string>, b: seq<string>)
    requires Ascending(a) && Ascending(b) && KeySet(a) == KeySet(b)
    ensures a == b
  {
    assert |b| > 0 ==> b[0] in KeySet(b);
    if |a| > 0 {
      assert a[0] in KeySet(a);
      AscendingMin(a, b);
      KeySetTail(a);
      KeySetTail(b);
      AscendingIsUnique(a[1..], b[1..]);
      assert a == [a[0]] + a[1..] && b == [b[0]] + b[1..];
    }
  }

  /** Collecting the keys and sorting them, `sort.Strings`. */
  method SortKeys(keys: set<string>) returns (sorted: seq<string>)
    ensures sorted == SortedKeys(keys)
  {
    sorted := [];
    var remaining := keys;
    while remaining != {}
      invariant remaining <= keys && Ascending(sorted) && KeySet(sorted) == keys - remaining
      decreases remaining
    {
      var key :| key in remaining;
      assert key !in KeySet(sorted);
      InsertKeeps(key, sorted);
      sorted := Insert(key, sorted);
      remaining := remaining - {key};
    }
    AscendingIsUnique(sorted, SortedKeys(keys));
  }
}
