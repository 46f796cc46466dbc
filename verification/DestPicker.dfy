/**
 The destination picker of internal/s3client/client.go, newDestPicker: a short-lived cache of each
 host's resolved addresses with a cursor that goes round them. The mutex makes every pick one step,
 so a history of picks is a sequence. Times are nanoseconds; what DNS answers is an input.
 */
module DestPicker {
  import opened Rotation

  const TTL := 1_000_000_000

  datatype Lookup = Found(ips: seq<string>) | NotFound

  datatype Entry = Entry(ips: seq<string>, ts: int, idx: nat)

  /** One call: when it looks at the clock, what a lookup would answer, and when that answer would be stamped. */
  datatype Call = Call(host: string, now: int, answer: Lookup, stamp: int)

  type Cache = map<string, Entry>

  predicate Usable(cache: Cache, c: Call) {
    c.host in cache && |cache[c.host].ips| > 0 && c.now - cache[c.host].ts <= TTL
  }

  predicate Resolved(answer: Lookup) {
    answer.Found? && |answer.ips| > 0
  }

  function Cursor(cache: Cache, host: string): nat {
    if host in cache then cache[host].idx else 0
  }

  /** A pick succeeds when a fresh entry is cached or the lookup answers with at least one address. */
  predicate Succeeds(cache: Cache, c: Call) {
    Usable(cache, c) || Resolved(c.answer)
  }

  /** The addresses a successful pick chooses from. */
  function Choices(cache: Cache, c: Call): (ips: seq<string>)
    requires Succeeds(cache, c)
    ensures |ips| > 0
  {
    if Usable(cache, c) then cache[c.host].ips else c.answer.ips
  }

  function NextCache(cache: Cache, c: Call): Cache {
    if !Succeeds(cache, c) then cache
    else if Usable(cache, c) then cache[c.host := cache[c.host].(idx := cache[c.host].idx + 1)]
    else cache[c.host := Entry(c.answer.ips, c.stamp, Cursor(cache, c.host) + 1)]
  }

  class Picker {
    var cache: Cache

    constructor ()
      ensures cache == map[]
    {
      cache := map[];
    }

    /** The address to dial, or "" when the host cannot be resolved. */
    method Pick(c: Call) returns (ip: string)
      modifies this
      ensures cache == NextCache(old(cache), c)
      ensures !Succeeds(old(cache), c) ==> ip == "" && cache == old(cache)
      ensures Succeeds(old(cache), c) ==>
                && ip == Choices(old(cache), c)[Slot(Cursor(old(cache), c.host), |Choices(old(cache), c)|)]
                && c.host in cache && cache[c.host].ips == Choices(old(cache), c)
                && Cursor(cache, c.host) == Cursor(old(cache), c.host) + 1
      ensures forall h :: h != c.host ==> (h in cache <==> h in old(cache)) && (h in cache ==> cache[h] == old(cache)[h])
    {
      var e: Entry;
      if c.host !in cache || |cache[c.host].ips| == 0 || c.now - cache[c.host].ts > TTL {
        if c.answer.NotFound? || |c.answer.ips| == 0 {
          return "";
        }
        var idx := 0;
        if c.host in cache {
          idx := cache[c.host].idx;
        }
        e := Entry(c.answer.ips, c.stamp, idx);
        cache := cache[c.host := e];
      } else {
        e := cache[c.host];
      }
      ip := e.ips[e.idx % |e.ips|];
      cache := cache[c.host := e.(idx := e.idx + 1)];
    }
  }

  // ---------------------------------------------------------------- histories

  function After(cache: Cache, calls: seq<Call>): Cache
    decreases |calls|
  {
    if calls == [] then cache else After(NextCache(cache, calls[0]), calls[1..])
  }

  /** A successful pick: the slot chosen out of how many. */
  datatype Served = Served(slot: nat, size: nat)

  function Serve(cache: Cache, c: Call): Served
    requires Succeeds(cache, c)
  {
    var size := |Choices(cache, c)|;
    Served(Slot(Cursor(cache, c.host), size), size)
  }

  /** The successful picks for one host in a history of calls for any hosts. */
  function ServedTo(host: string, cache: Cache, calls: seq<Call>): seq<Served>
    decreases |calls|
  {
    if calls == [] then []
    else
      var rest := ServedTo(host, NextCache(cache, calls[0]), calls[1..]);
      if calls[0].host == host && Succeeds(cache, calls[0]) then [Serve(cache, calls[0])] + rest else rest
  }

  /**
   The cursor of a host survives refreshes, failed lookups and the traffic of other hosts: the j-th
   successful pick uses the j-th position after the initial one.
   */
  lemma {:induction false} CursorNeverSkips(host: string, cache: Cache, calls: seq<Call>)
    ensures var served := ServedTo(host, cache, calls);
            && Cursor(After(cache, calls), host) == Cursor(cache, host) + |served|
            && forall j: nat :: j < |served| ==>
                 served[j].size > 0 && served[j].slot == Slot(Cursor(cache, host) + j, served[j].size)
    decreases |calls|
  {
    if calls != [] {
      var next := NextCache(cache, calls[0]);
      CursorNeverSkips(host, next, calls[1..]);
      var served, rest := ServedTo(host, cache, calls), ServedTo(host, next, calls[1..]);
      if calls[0].host == host && Succeeds(cache, calls[0]) {
        forall j: nat | j < |served| ensures served[j].size > 0 && served[j].slot == Slot(Cursor(cache, host) + j, served[j].size) {
          if j > 0 {
            assert served[j] == rest[j - 1];
          }
        }
      }
    }
  }

  /** How many of the picks from..from+k-1 chose the slot. */
  function Chosen(served: seq<Served>, from: nat, k: nat, slot: nat): nat
    requires from + k <= |served|
  {
    if k == 0 then 0
    else Chosen(served, from, k - 1, slot) + if served[from + k - 1].slot == slot then 1 else 0
  }

  /**
   Over any k consecutive successful picks for a host whose resolved list has m entries throughout,
   each of the m slots is chosen floor(k/m) or ceil(k/m) times, across refreshes, failures and other hosts.
   */
  lemma DestinationsAreFair(host: string, cache: Cache, calls: seq<Call>, from: nat, k: nat, m: nat, slot: nat)
    requires var served := ServedTo(host, cache, calls);
             from + k <= |served| && forall j :: from <= j < from + k ==> served[j].size == m
    requires slot < m
    ensures k / m <= Chosen(ServedTo(host, cache, calls), from, k, slot) <= (k + m - 1) / m
  {
    CursorNeverSkips(host, cache, calls);
    ChosenIsVisits(ServedTo(host, cache, calls), Cursor(cache, host), from, k, m, slot);
    FairShare(Cursor(cache, host) + from, k, slot, m);
  }

  lemma {:induction false} ChosenIsVisits(served: seq<Served>, cursor: nat, from: nat, k: nat, m: nat, slot: nat)
    requires m > 0 && from + k <= |served|
    requires forall j: nat :: from <= j < from + k ==> served[j].size == m && served[j].slot == Slot(cursor + j, m)
    ensures Chosen(served, from, k, slot) == Visits(cursor + from, k, slot, m)
  {
    if k > 0 {
      ChosenIsVisits(served, cursor, from, k - 1, m, slot);
      assert served[from + k - 1].slot == Slot(cursor + (from + k - 1), m);
    }
  }

  // ---------------------------------------------------------------- isolation and freshness

  function OnlyFor(host: string, calls: seq<Call>): seq<Call>
    decreases |calls|
  {
    if calls == [] then []
    else if calls[0].host == host then [calls[0]] + OnlyFor(host, calls[1..])
    else OnlyFor(host, calls[1..])
  }

  predicate SameFor(host: string, a: Cache, b: Cache) {
    (host in a <==> host in b) && (host in a ==> a[host] == b[host])
  }

  /** Hosts do not interfere: what a host is served is what it would be served alone. */
  lemma {:induction false} HostsAreIsolated(host: string, a: Cache, b: Cache, calls: seq<Call>)
    requires SameFor(host, a, b)
    ensures ServedTo(host, a, calls) == ServedTo(host, b, OnlyFor(host, calls))
    ensures SameFor(host, After(a, calls), After(b, OnlyFor(host, calls)))
    decreases |calls|
  {
    if calls != [] {
      if calls[0].host == host {
        assert ([calls[0]] + OnlyFor(host, calls[1..]))[1..] == OnlyFor(host, calls[1..]);
        HostsAreIsolated(host, NextCache(a, calls[0]), NextCache(b, calls[0]), calls[1..]);
      } else {
        HostsAreIsolated(host, NextCache(a, calls[0]), b, calls[1..]);
      }
    }
  }

  /** Call j of a history that starts with an empty cache looked its host up, and was answered. */
  predicate LookedUp(calls: seq<Call>, j: int) {
    0 <= j < |calls| && !Usable(After(map[], calls[..j]), calls[j]) && Resolved(calls[j].answer)
  }

  /** Call j is the last answered lookup of the host among the first k calls. */
  predicate Latest(calls: seq<Call>, j: int, host: string, k: nat)
    requires k <= |calls|
  {
    && 0 <= j < k && calls[j].host == host && LookedUp(calls, j)
    && forall i :: j < i < k && calls[i].host == host ==> !LookedUp(calls, i)
  }

  /** Call j is the last answered lookup for the host of call k, and at most a second old. */
  predicate FreshFor(calls: seq<Call>, j: int, k: nat)
    requires k < |calls|
  {
    Latest(calls, j, calls[k].host, k) && calls[k].now - calls[j].stamp <= 1_000_000_000
  }

  /** The list was answered to a lookup of this host in the history, stamped no more than a second before `now` or in the call itself. */
  predicate FreshAnswer(calls: seq<Call>, k: nat, ips: seq<string>)
    requires k < |calls|
  {
    exists j :: 0 <= j <= k && LookedUp(calls, j) && calls[j].host == calls[k].host && calls[j].answer.ips == ips
                && (j == k || FreshFor(calls, j, k))
  }

  /** Call j is the lookup that the entry of host h comes from. */
  predicate SourceOf(calls: seq<Call>, j: int, h: string, e: Entry, k: nat)
    requires k <= |calls|
  {
    Latest(calls, j, h, k) && calls[j].answer.ips == e.ips && calls[j].stamp == e.ts
  }

  /** The entries cached after the first k calls are the last answers, with their stamps. */
  ghost predicate Sourced(cache: Cache, calls: seq<Call>, k: nat)
    requires k <= |calls|
  {
    && (forall h :: h in cache ==> exists j :: SourceOf(calls, j, h, cache[h], k))
    && (forall h, j :: Latest(calls, j, h, k) ==> h in cache)
  }

  lemma {:induction false} CacheIsSourced(calls: seq<Call>, k: nat)
    requires k <= |calls|
    ensures Sourced(After(map[], calls[..k]), calls, k)
  {
    if k == 0 {
      assert calls[..0] == [];
    } else {
      CacheIsSourced(calls, k - 1);
      assert calls[..k] == calls[..k - 1] + [calls[k - 1]];
      AfterAppend(map[], calls[..k - 1], calls[k - 1]);
      PickKeepsSourced(After(map[], calls[..k - 1]), calls, k - 1);
    }
  }

  lemma PickKeepsSourced(cache: Cache, calls: seq<Call>, k: nat)
    requires k < |calls| && cache == After(map[], calls[..k]) && Sourced(cache, calls, k)
    ensures Sourced(NextCache(cache, calls[k]), calls, k + 1)
  {
    var c, next, n := calls[k], NextCache(cache, calls[k]), k + 1;
    forall h | h in next ensures exists j :: SourceOf(calls, j, h, next[h], n) {
      if h == c.host && LookedUp(calls, k) {
        assert SourceOf(calls, k, h, next[h], n);
      } else {
        var j :| SourceOf(calls, j, h, cache[h], k);
        assert SourceOf(calls, j, h, next[h], n);
      }
    }
    forall h, j | Latest(calls, j, h, n) ensures h in next {
      if j < k {
        assert Latest(calls, j, h, k);
      }
    }
  }

  lemma {:induction false} AfterAppend(cache: Cache, calls: seq<Call>, c: Call)
    ensures After(cache, calls + [c]) == NextCache(After(cache, calls), c)
    decreases |calls|
  {
    if calls == [] {
      assert calls + [c] == [c];
    } else {
      assert (calls + [c])[1..] == calls[1..] + [c];
      AfterAppend(NextCache(cache, calls[0]), calls[1..], c);
    }
  }

  /** The entry of a host is usable exactly if its last answered lookup is at most a second old. */
  lemma UsableExactlyIfFresh(calls: seq<Call>, k: nat)
    requires k < |calls|
    ensures var cache, c := After(map[], calls[..k]), calls[k];
            && (Usable(cache, c) <==> exists j :: FreshFor(calls, j, k))
            && (forall j :: FreshFor(calls, j, k) ==> c.host in cache && cache[c.host].ips == calls[j].answer.ips)
  {
    var cache, c := After(map[], calls[..k]), calls[k];
    CacheIsSourced(calls, k);
    if c.host in cache {
      var j :| SourceOf(calls, j, c.host, cache[c.host], k);
      forall i | FreshFor(calls, i, k) ensures i == j {
      }
      assert Usable(cache, c) <==> FreshFor(calls, j, k);
    }
  }

  /** From an empty cache on, every successful pick chooses from an answer for its own host that is at most a second old. */
  lemma PicksAreFresh(calls: seq<Call>, k: nat)
    requires k < |calls| && Succeeds(After(map[], calls[..k]), calls[k])
    ensures FreshAnswer(calls, k, Choices(After(map[], calls[..k]), calls[k]))
  {
    var cache, c := After(map[], calls[..k]), calls[k];
    UsableExactlyIfFresh(calls, k);
    if Usable(cache, c) {
      var j :| FreshFor(calls, j, k);
      assert LookedUp(calls, j);
    } else {
      assert LookedUp(calls, k);
    }
  }

  /**
   When the cache is used, from an empty one on: a host is looked up exactly if no answer for it is at most
   a second old. Until then every pick succeeds, whatever a lookup would answer, and chooses from that
   answer; a pick without one succeeds exactly if it is answered itself.
   */
  lemma CacheServesItsSecond(calls: seq<Call>, k: nat)
    requires k < |calls|
    ensures var cache, c := After(map[], calls[..k]), calls[k];
            && (LookedUp(calls, k) <==> Resolved(c.answer) && !exists j :: FreshFor(calls, j, k))
            && (forall j :: FreshFor(calls, j, k) ==> Succeeds(cache, c) && Choices(cache, c) == calls[j].answer.ips)
            && ((!exists j :: FreshFor(calls, j, k)) ==>
                  (Succeeds(cache, c) <==> Resolved(c.answer)) && (Succeeds(cache, c) ==> Choices(cache, c) == c.answer.ips))
  {
    UsableExactlyIfFresh(calls, k);
  }

  /** From an empty cache on, the first pick for a host chooses entry 0 of its list, and the j-th after it entry j, round the list. */
  lemma PicksStartAtTheFirst(host: string, calls: seq<Call>, j: nat)
    requires j < |ServedTo(host, map[], calls)|
    ensures var served := ServedTo(host, map[], calls);
            served[j].size > 0 && served[j].slot == j % served[j].size
  {
    CursorNeverSkips(host, map[], calls);
  }
}
