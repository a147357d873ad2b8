/**
 * One named cache of the Cache API: an ordered list of entries, each a request
 * key (its URL) and the response stored for it. These are the pure operations
 * the worker's handlers perform on one cache: `match`, `put`, `addAll`'s batch
 * of puts, and `keys` mapped to URLs.
 */
module Cache {
  import opened Wrappers
  import opened Http

  datatype Entry = Entry(key: string, response: Response)

  /** No two entries of one cache share a key: `put` replaces, it never duplicates. */
  predicate KeysUnique(entries: seq<Entry>) {
    forall i, j :: 0 <= i < j < |entries| ==> entries[i].key != entries[j].key
  }

  /** No string occurs twice: the cache names of a storage, the paths of an asset list. */
  predicate Distinct(s: seq<string>) {
    forall i, j :: 0 <= i < j < |s| ==> s[i] != s[j]
  }

  /** Some entry is stored under `key`. */
  predicate HasKey(entries: seq<Entry>, key: string) {
    exists e :: e in entries && e.key == key
  }

  /** `cache.match(key)`: the response of the first entry stored under `key`, if any. */
  function Match(entries: seq<Entry>, key: string): (r: Option<Response>)
    ensures r.None? <==> !HasKey(entries, key)
    ensures r.Some? ==> Entry(key, r.value) in entries
  {
    if entries == [] then None
    else if entries[0].key == key then Some(entries[0].response)
    else Match(entries[1..], key)
  }

  /** The entries that are not stored under `key`, in their stored order. */
  function Remove(entries: seq<Entry>, key: string): (r: seq<Entry>)
    ensures forall e :: e in r <==> e in entries && e.key != key
    ensures !HasKey(entries, key) ==> r == entries
    ensures KeysUnique(entries) ==> KeysUnique(r)
  {
    if entries == [] then []
    else if entries[0].key == key then Remove(entries[1..], key)
    else [entries[0]] + Remove(entries[1..], key)
  }

  /**
   * `cache.put(key, response)`: any entry stored under `key` is dropped and the
   * new entry is appended at the end of the list.
   */
  function Put(entries: seq<Entry>, key: string, response: Response): (r: seq<Entry>)
    ensures |r| > 0 && r[|r| - 1] == Entry(key, response)
    ensures forall e :: e in r <==> e == Entry(key, response) || (e in entries && e.key != key)
    ensures KeysUnique(entries) ==> KeysUnique(r)
    ensures !HasKey(entries, key) ==> r == entries + [Entry(key, response)]
  {
    Remove(entries, key) + [Entry(key, response)]
  }

  /** `cache.keys()` mapped to request URLs: one URL per entry, in stored order. */
  function Urls(entries: seq<Entry>): (r: seq<string>)
    ensures |r| == |entries|
  {
    if entries == [] then [] else [entries[0].key] + Urls(entries[1..])
  }

  /** The i-th URL listed is the key of the i-th stored entry. */
  lemma {:induction false} UrlsAt(entries: seq<Entry>, i: nat)
    requires i < |entries|
    ensures Urls(entries)[i] == entries[i].key
  {
    if i > 0 {
      UrlsAt(entries[1..], i - 1);
    }
  }

  /**
   * The batch of puts `cache.addAll(keys)` performs once every fetch has
   * succeeded: each key in order, stored with the response the network gave it.
   */
  function PutAll(entries: seq<Entry>, keys: seq<string>, net: string -> NetResult): (r: seq<Entry>)
    requires forall k :: k in keys ==> Fetchable(net(k))
    ensures KeysUnique(entries) ==> KeysUnique(r)
    decreases keys
  {
    if keys == [] then entries
    else PutAll(Put(entries, keys[0], Delivered(net(keys[0]))), keys[1..], net)
  }

  /** Cutting out element i of a list is keeping its head and cutting element i - 1 out of its tail. */
  lemma SpliceTail<T>(s: seq<T>, i: nat)
    requires 0 < i < |s|
    ensures s[..i] + s[i + 1..] == [s[0]] + (s[1..][..i - 1] + s[1..][i..])
  {
    assert s[..i] == [s[0]] + s[1..][..i - 1];
    assert s[i + 1..] == s[1..][i..];
  }

  /** The tail of a list with unique keys has unique keys and does not hold the head's key. */
  lemma KeysUniqueTail(entries: seq<Entry>)
    requires entries != [] && KeysUnique(entries)
    ensures KeysUnique(entries[1..])
    ensures !HasKey(entries[1..], entries[0].key)
  {
    var rest := entries[1..];
    forall i, j | 0 <= i < j < |rest|
      ensures rest[i].key != rest[j].key
    {
      assert rest[i] == entries[i + 1] && rest[j] == entries[j + 1];
    }
    forall e | e in rest
      ensures e.key != entries[0].key
    {
      var j :| 0 <= j < |rest| && rest[j] == e;
      assert entries[j + 1] == e;
    }
  }

  /** Removing the key of entry i cuts exactly that entry out; the others keep their stored order. */
  lemma {:induction false} RemoveAt(entries: seq<Entry>, i: nat)
    requires KeysUnique(entries) && i < |entries|
    ensures Remove(entries, entries[i].key) == entries[..i] + entries[i + 1..]
  {
    KeysUniqueTail(entries);
    if i == 0 {
      assert entries[..0] + entries[1..] == entries[1..];
    } else {
      assert entries[0].key != entries[i].key;
      assert entries[1..][i - 1] == entries[i];
      RemoveAt(entries[1..], i - 1);
      SpliceTail(entries, i);
    }
  }

  /**
   * Putting under the key of entry i cuts that entry out, keeps the others in
   * their stored order and appends the new entry.
   */
  lemma PutAt(entries: seq<Entry>, i: nat, response: Response)
    requires KeysUnique(entries) && i < |entries|
    ensures Put(entries, entries[i].key, response) ==
              entries[..i] + entries[i + 1..] + [Entry(entries[i].key, response)]
  {
    RemoveAt(entries, i);
  }

  /** Removing one key leaves the lookup of every other key as it was. */
  lemma {:induction false} MatchRemove(entries: seq<Entry>, key: string, k: string)
    requires k != key
    ensures Match(Remove(entries, key), k) == Match(entries, k)
  {
    if entries != [] {
      MatchRemove(entries[1..], key, k);
    }
  }

  /** Looking up a list with one entry appended finds the old entry first, else the new one. */
  lemma {:induction false} MatchAppend(entries: seq<Entry>, e: Entry, k: string)
    ensures Match(entries + [e], k) ==
      if HasKey(entries, k) then Match(entries, k)
      else if e.key == k then Some(e.response) else None
  {
    if entries != [] {
      assert (entries + [e])[1..] == entries[1..] + [e];
      MatchAppend(entries[1..], e, k);
    }
  }

  /** After `put`, the key yields the new response and every other key what it yielded before. */
  lemma PutMatch(entries: seq<Entry>, key: string, response: Response, k: string)
    ensures Match(Put(entries, key, response), k) == if k == key then Some(response) else Match(entries, k)
  {
    MatchAppend(Remove(entries, key), Entry(key, response), k);
    if k != key {
      MatchRemove(entries, key, k);
    }
  }

  /**
   * After the batch of `addAll`, every key of the batch yields the response the
   * network gave it, and every other key what it yielded before.
   */
  lemma {:induction false} PutAllMatch(entries: seq<Entry>, keys: seq<string>, net: string -> NetResult, k: string)
    requires forall k :: k in keys ==> Fetchable(net(k))
    ensures k in keys ==> Match(PutAll(entries, keys, net), k) == Some(Delivered(net(k)))
    ensures k !in keys ==> Match(PutAll(entries, keys, net), k) == Match(entries, k)
    decreases keys
  {
    if keys != [] {
      var next := Put(entries, keys[0], Delivered(net(keys[0])));
      assert forall k :: k in keys[1..] ==> k in keys;
      PutAllMatch(next, keys[1..], net, k);
      PutMatch(entries, keys[0], Delivered(net(keys[0])), k);
      assert k in keys <==> k == keys[0] || k in keys[1..];
    }
  }

  /** A key is stored after appending an entry exactly when it was stored before or is the new entry's. */
  lemma HasKeyAppend(entries: seq<Entry>, e: Entry, k: string)
    ensures HasKey(entries + [e], k) <==> HasKey(entries, k) || e.key == k
  {
  }

  /** The tail of a distinct list is distinct and does not hold its head. */
  lemma DistinctTail(keys: seq<string>)
    requires keys != [] && Distinct(keys)
    ensures Distinct(keys[1..])
    ensures forall k :: k in keys[1..] ==> k in keys && k != keys[0]
  {
  }

  /** A new head in front of a distinct list keeps it distinct. */
  lemma DistinctCons(x: string, s: seq<string>)
    requires x !in s && Distinct(s)
    ensures Distinct([x] + s)
  {
  }

  /** Moving the head of a non-empty list across a concatenation. */
  lemma ConcatHead(a: seq<string>, keys: seq<string>)
    requires keys != []
    ensures a + keys == (a + [keys[0]]) + keys[1..]
  {
  }

  /** Appending one entry appends its URL. */
  lemma {:induction false} UrlsAppend(entries: seq<Entry>, e: Entry)
    ensures Urls(entries + [e]) == Urls(entries) + [e.key]
  {
    if entries != [] {
      assert (entries + [e])[1..] == entries[1..] + [e];
      UrlsAppend(entries[1..], e);
    }
  }

  /**
   * A batch of distinct keys none of which is stored yet is appended in its own
   * order: the cache then lists its old URLs followed by the batch.
   */
  lemma {:induction false} PutAllUrls(entries: seq<Entry>, keys: seq<string>, net: string -> NetResult)
    requires forall k :: k in keys ==> Fetchable(net(k))
    requires Distinct(keys)
    requires forall k :: k in keys ==> !HasKey(entries, k)
    ensures Urls(PutAll(entries, keys, net)) == Urls(entries) + keys
    decreases keys
  {
    if keys != [] {
      var e := Entry(keys[0], Delivered(net(keys[0])));
      var next := entries + [e];
      var rest := keys[1..];
      assert PutAll(entries, keys, net) == PutAll(next, rest, net) by {
        assert !HasKey(entries, keys[0]);
      }
      assert forall k :: k in rest ==> !HasKey(next, k) by {
        DistinctTail(keys);
        forall k | k in rest
          ensures !HasKey(next, k)
        {
          HasKeyAppend(entries, e, k);
        }
      }
      assert Distinct(rest) && forall k :: k in rest ==> Fetchable(net(k)) by {
        DistinctTail(keys);
      }
      PutAllUrls(next, rest, net);
      UrlsAppend(entries, e);
      ConcatHead(Urls(entries), keys);
    }
  }
}
