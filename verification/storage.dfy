/**
 * The origin's cache storage (`caches`): named caches kept in creation order.
 * `caches.keys()` lists the names in that order and `caches.match` searches
 * the caches in that order, so the order is kept beside the map of contents.
 */
module Storage {
  import opened Wrappers
  import opened Http
  import opened Cache

  /** The contents of cache `name`, or the empty list `caches.open` would create. */
  function ContentsOrEmpty(caches: map<string, seq<Entry>>, name: string): seq<Entry> {
    if name in caches then caches[name] else []
  }

  /** The cache names with `name` taken out, the others in their order. */
  function Erase(names: seq<string>, name: string): (r: seq<string>)
    ensures forall n :: n in r <==> n in names && n != name
    ensures Distinct(names) ==> Distinct(r)
    ensures name !in names ==> r == names
  {
    if names == [] then []
    else if names[0] == name then Erase(names[1..], name)
    else
      var rest := Erase(names[1..], name);
      assert Distinct(names) ==> Distinct([names[0]] + rest) by {
        if Distinct(names) {
          DistinctTail(names);
          DistinctCons(names[0], rest);
        }
      }
      [names[0]] + rest
  }

  /** Deleting the name at position i cuts exactly it out; the others keep their creation order. */
  lemma {:induction false} EraseAt(names: seq<string>, i: nat)
    requires Distinct(names) && i < |names|
    ensures Erase(names, names[i]) == names[..i] + names[i + 1..]
  {
    DistinctTail(names);
    if i == 0 {
      assert names[..0] + names[1..] == names[1..];
    } else {
      assert names[0] != names[i];
      assert names[1..][i - 1] == names[i];
      EraseAt(names[1..], i - 1);
      SpliceTail(names, i);
    }
  }

  /**
   * `caches.match(key)`: the first cache, in creation order, that holds `key`
   * answers; when none does, there is no response.
   */
  function MatchAcross(names: seq<string>, caches: map<string, seq<Entry>>, key: string): (r: Option<Response>)
    requires forall n :: n in names ==> n in caches
    ensures r.None? <==> forall n :: n in names ==> Match(caches[n], key).None?
    ensures r.Some? ==> exists n :: n in names && Match(caches[n], key) == r
  {
    if names == [] then None
    else if Match(caches[names[0]], key).Some? then Match(caches[names[0]], key)
    else MatchAcross(names[1..], caches, key)
  }

  /**
   * The search answers from the first cache, in creation order, that holds
   * `key`: an earlier generation shadows a later one.
   */
  lemma {:induction false} MatchAcrossFirst(names: seq<string>, caches: map<string, seq<Entry>>, key: string, i: nat)
    requires forall n :: n in names ==> n in caches
    requires i < |names| && Match(caches[names[i]], key).Some?
    requires forall j :: 0 <= j < i ==> Match(caches[names[j]], key).None?
    ensures MatchAcross(names, caches, key) == Match(caches[names[i]], key)
  {
    if i > 0 {
      MatchAcrossFirst(names[1..], caches, key, i - 1);
    }
  }

  /** When every other cache lacks `key`, searching all caches is searching `target` alone. */
  lemma {:induction false} MatchAcrossOnly(names: seq<string>, caches: map<string, seq<Entry>>, target: string, key: string)
    requires forall n :: n in names ==> n in caches
    requires forall n :: n in names && n != target ==> Match(caches[n], key).None?
    ensures MatchAcross(names, caches, key) == if target in names then Match(caches[target], key) else None
  {
    if names != [] {
      MatchAcrossOnly(names[1..], caches, target, key);
    }
  }

  class CacheStorage {
    /** Cache names in creation order: what `caches.keys()` returns. */
    var names: seq<string>
    /** The entries of each cache, by name. */
    var caches: map<string, seq<Entry>>

    ghost predicate Valid()
      reads this
    {
      Distinct(names) &&
      (forall n :: n in names <==> n in caches) &&
      (forall n :: n in caches ==> KeysUnique(caches[n]))
    }

    /** An origin's storage before any cache is opened. */
    constructor ()
      ensures Valid() && names == [] && caches == map[]
    {
      names := [];
      caches := map[];
    }

    /** `caches.match(key)`: walk the caches in creation order and stop at the first hit. */
    method Match(key: string) returns (r: Option<Response>)
      requires Valid()
      ensures r == MatchAcross(names, caches, key)
    {
      var i := 0;
      while i < |names|
        invariant 0 <= i <= |names|
        invariant MatchAcross(names[i..], caches, key) == MatchAcross(names, caches, key)
      {
        assert names[i..][1..] == names[i + 1..];
        var hit := Cache.Match(caches[names[i]], key);
        if hit.Some? {
          return hit;
        }
        i := i + 1;
      }
      return None;
    }

    /** `caches.open(name)`: a missing cache is created empty and listed last; an existing one is left as it is. */
    method Open(name: string)
      requires Valid()
      modifies this
      ensures Valid() && name in caches
      ensures old(name in caches) ==> names == old(names) && caches == old(caches)
      ensures old(name !in caches) ==> names == old(names) + [name] && caches == old(caches)[name := []]
    {
      if name !in caches {
        names := names + [name];
        caches := caches[name := []];
      }
    }

    /** `caches.delete(name)`: drops the cache with all its entries and tells whether it existed. */
    method Delete(name: string) returns (existed: bool)
      requires Valid()
      modifies this
      ensures Valid()
      ensures existed == old(name in caches)
      ensures names == Erase(old(names), name) && caches == old(caches) - {name}
    {
      existed := name in caches;
      names := Erase(names, name);
      caches := caches - {name};
    }

    /** `cache.put(key, response)` on the opened cache `name`. */
    method Put(name: string, key: string, response: Response)
      requires Valid() && name in caches
      modifies this
      ensures Valid()
      ensures names == old(names)
      ensures caches == old(caches)[name := Cache.Put(old(caches)[name], key, response)]
    {
      caches := caches[name := Cache.Put(caches[name], key, response)];
    }

    /**
     * `cache.addAll(requests)` on the opened cache `name`: fetch every request;
     * if any fetch fails or is not ok the call rejects and nothing is stored,
     * otherwise every response is put, in request order.
     */
    method AddAll(name: string, requests: seq<string>, net: string -> NetResult) returns (ok: bool)
      requires Valid() && name in caches
      modifies this
      ensures Valid()
      ensures names == old(names)
      ensures ok <==> forall k :: k in requests ==> Fetchable(net(k))
      ensures ok ==> caches == old(caches)[name := PutAll(old(caches)[name], requests, net)]
      ensures !ok ==> caches == old(caches)
    {
      var i := 0;
      while i < |requests|
        invariant 0 <= i <= |requests|
        invariant forall j :: 0 <= j < i ==> Fetchable(net(requests[j]))
      {
        if !Fetchable(net(requests[i])) {
          return false;
        }
        i := i + 1;
      }
      var entries := caches[name];
      i := 0;
      while i < |requests|
        invariant 0 <= i <= |requests|
        invariant KeysUnique(entries)
        invariant PutAll(entries, requests[i..], net) == PutAll(old(caches)[name], requests, net)
      {
        assert requests[i..][1..] == requests[i + 1..];
        entries := Cache.Put(entries, requests[i], Delivered(net(requests[i])));
        i := i + 1;
      }
      caches := caches[name := entries];
      return true;
    }
  }
}
