/** The per-terminal currency-rate cache: a JS `Map` from terminal id to the
    rates fetched from that terminal, each entry stamped with the time it was
    stored and valid for ten minutes. */
module CurrencyService {
  import opened Wrappers
  import opened Entities

  /** Ten minutes, in milliseconds. */
  const CACHE_DURATION: int := 10 * 60 * 1000

  /** One active currency row (`c_codmoneda`, `c_descripcion`, `c_simbolo`,
      `b_activa`); the floating-point `n_factor` is not modelled. */
  datatype Currency = Currency(code: string, description: string, symbol: string, active: bool)

  datatype CacheEntry = CacheEntry(data: seq<Currency>, timestamp: int, terminalName: string)

  datatype EntryStats = EntryStats(terminalId: int, terminalName: string, age: int, expiresIn: int)

  datatype CacheStats = CacheStats(totalEntries: nat, cacheDuration: int, entries: seq<EntryStats>)

  /** The test a lookup uses: an entry younger than the lifetime is served. */
  predicate IsFresh(e: CacheEntry, now: int) {
    now - e.timestamp < CACHE_DURATION
  }

  /** The test the sweep uses: an entry at least as old as the lifetime is
      deleted. */
  predicate IsExpired(e: CacheEntry, now: int) {
    now - e.timestamp >= CACHE_DURATION
  }

  /** Lookup and sweep agree: every entry is either served or swept, never
      both. */
  lemma FreshnessConsistent(e: CacheEntry, now: int)
    ensures IsFresh(e, now) <==> !IsExpired(e, now)
  {
  }

  function FreshKeys(m: map<int, CacheEntry>, now: int): (r: set<int>)
    ensures r <= m.Keys
    ensures forall k :: k in r <==> k in m && IsFresh(m[k], now)
  {
    set k | k in m && IsFresh(m[k], now)
  }

  function ExpiredKeys(m: map<int, CacheEntry>, now: int): (r: set<int>)
    ensures r <= m.Keys
    ensures forall k :: k in r <==> k in m && IsExpired(m[k], now)
  {
    set k | k in m && IsExpired(m[k], now)
  }

  /** The fresh and the expired keys split the cache in two. */
  lemma {:induction false} SweepPartition(m: map<int, CacheEntry>, now: int)
    ensures FreshKeys(m, now) * ExpiredKeys(m, now) == {}
    ensures FreshKeys(m, now) + ExpiredKeys(m, now) == m.Keys
    ensures |FreshKeys(m, now)| + |ExpiredKeys(m, now)| == |m|
  {
    var f, x := FreshKeys(m, now), ExpiredKeys(m, now);
    assert f + x == m.Keys by {
      forall k | k in m.Keys ensures k in f + x {
        FreshnessConsistent(m[k], now);
      }
    }
    assert |f + x| == |f| + |x| - |f * x|;
  }

  /** `Math.floor(ms / 1000)`: Dafny's division rounds down for a positive
      divisor, as `Math.floor` does. */
  function Seconds(ms: int): (r: int)
    ensures r * 1000 <= ms < r * 1000 + 1000
  {
    ms / 1000
  }

  /** The statistics line of one entry at time `now`. */
  function StatsOf(id: int, e: CacheEntry, now: int): (s: EntryStats)
    ensures s.terminalId == id && s.terminalName == e.terminalName
    ensures s.age * 1000 <= now - e.timestamp < s.age * 1000 + 1000
    ensures s.expiresIn * 1000 <= CACHE_DURATION - (now - e.timestamp) < s.expiresIn * 1000 + 1000
  {
    EntryStats(id, e.terminalName, Seconds(now - e.timestamp), Seconds(CACHE_DURATION - (now - e.timestamp)))
  }

  /** Age and remaining life add up to the 600-second lifetime, minus one
      when the age is not a whole number of seconds; a positive remaining
      life means the entry is still served. */
  lemma AgePlusExpiresIn(id: int, e: CacheEntry, now: int)
    ensures var s := StatsOf(id, e, now);
      s.age + s.expiresIn == (if (now - e.timestamp) % 1000 == 0 then 600 else 599)
    ensures StatsOf(id, e, now).expiresIn > 0 ==> IsFresh(e, now)
    ensures StatsOf(id, e, now).expiresIn < 0 ==> IsExpired(e, now)
  {
    var ms := now - e.timestamp;
    var q, r := ms / 1000, ms % 1000;
    assert ms == q * 1000 + r && 0 <= r < 1000;
    if r == 0 {
      assert CACHE_DURATION - ms == (600 - q) * 1000;
    } else {
      assert CACHE_DURATION - ms == (599 - q) * 1000 + (1000 - r);
    }
  }

  /** `getCurrencyRatesFromServer` / `getCurrencyRatesFromPOS`: run the rate
      query against the terminal (`None` when the connection or the query
      fails) and report a failure under the terminal's name. */
  function FetchRates(t: Terminal, query: Terminal -> Option<seq<Currency>>): (r: Result<seq<Currency>>)
    ensures r.Failure? <==> query(t).None?
    ensures r.Failure? ==> r.error == "No se pudieron obtener las tasas de " + t.name
    ensures r.Success? ==> r.value == query(t).value
  {
    match query(t)
    case Some(rows) => Success(rows)
    case None => Failure("No se pudieron obtener las tasas de " + t.name)
  }

  /** The module-level cache.  `order` is the insertion order of the
      underlying JS `Map`, which the statistics follow. */
  class CurrencyCache {
    var entries: map<int, CacheEntry>
    var order: seq<int>

    ghost predicate Valid()
      reads this
    {
      Distinct(order) && forall k :: k in entries <==> k in order
    }

    constructor ()
      ensures Valid() && entries == map[] && order == []
    {
      entries := map[];
      order := [];
    }

    /** `getCurrencyRates`.  `fetched` tells whether a database query was
        made; `serverQuery` and `posQuery` stand for the two SQL sources. */
    method GetCurrencyRates(terminal: Terminal, now: int,
                            serverQuery: Terminal -> Option<seq<Currency>>,
                            posQuery: Terminal -> Option<seq<Currency>>)
      returns (r: Result<seq<Currency>>, fetched: bool)
      requires Valid()
      modifies this
      ensures Valid()
      // no truthy id: rejected, cache untouched
      ensures !(terminal.id.Some? && terminal.id.value != 0) ==>
        r == Failure("Terminal sin ID válido") && !fetched &&
        entries == old(entries) && order == old(order)
      // hit: served from the cache without a query
      ensures (terminal.id.Some? && terminal.id.value != 0 &&
               terminal.id.value in old(entries) && IsFresh(old(entries)[terminal.id.value], now)) ==>
        r == Success(old(entries)[terminal.id.value].data) && !fetched &&
        entries == old(entries) && order == old(order)
      // miss: the source chosen by `is_server` is queried
      ensures (terminal.id.Some? && terminal.id.value != 0 &&
               !(terminal.id.value in old(entries) && IsFresh(old(entries)[terminal.id.value], now))) ==>
        fetched &&
        r == FetchRates(terminal, if terminal.isServer then serverQuery else posQuery)
      // a successful fetch is stored with the current time; a failed one changes nothing
      ensures fetched && r.Success? ==>
        entries == old(entries)[terminal.id.value := CacheEntry(r.value, now, terminal.name)] &&
        order == (if terminal.id.value in old(entries) then old(order) else old(order) + [terminal.id.value])
      ensures r.Failure? ==> entries == old(entries) && order == old(order)
    {
      fetched := false;
      if terminal.id.None? || terminal.id.value == 0 {
        return Failure("Terminal sin ID válido"), false;
      }
      var id := terminal.id.value;
      if id in entries && now - entries[id].timestamp < CACHE_DURATION {
        return Success(entries[id].data), false;
      }
      fetched := true;
      r := FetchRates(terminal, if terminal.isServer then serverQuery else posQuery);
      if r.Success? {
        if id !in entries {
          order := order + [id];
        }
        entries := entries[id := CacheEntry(r.value, now, terminal.name)];
      }
    }

    /** `clearCurrencyCache`: a truthy id deletes that entry only; no id, or
        the id 0, empties the cache. */
    method ClearCurrencyCache(terminalId: Option<int>)
      requires Valid()
      modifies this
      ensures Valid()
      ensures terminalId.Some? && terminalId.value != 0 ==>
        entries == old(entries) - {terminalId.value} &&
        order == KeepIn(old(order), old(entries).Keys - {terminalId.value})
      ensures !(terminalId.Some? && terminalId.value != 0) ==> entries == map[] && order == []
    {
      if terminalId.Some? && terminalId.value != 0 {
        order := KeepIn(order, entries.Keys - {terminalId.value});
        entries := entries - {terminalId.value};
      } else {
        entries := map[];
        order := [];
      }
    }

    /** `getCacheStats`: one line per entry, in insertion order. */
    function GetCacheStats(now: int): (s: CacheStats)
      reads this
      requires Valid()
      ensures s.totalEntries == |entries| == |s.entries|
      ensures s.cacheDuration == 600
      ensures forall i :: 0 <= i < |s.entries| ==>
        s.entries[i].terminalId in entries &&
        s.entries[i] == StatsOf(s.entries[i].terminalId, entries[s.entries[i].terminalId], now)
      ensures forall k :: k in entries <==> exists i :: 0 <= i < |s.entries| && s.entries[i].terminalId == k
      ensures |s.entries| == |order| && forall i :: 0 <= i < |s.entries| ==> s.entries[i].terminalId == order[i]
    {
      CountEntries();
      CacheStats(|entries|, CACHE_DURATION / 1000, StatsLines(order, entries, now))
    }

    lemma CountEntries()
      requires Valid()
      ensures |entries| == |order|
    {
      DistinctCardinality(order);
      assert forall k :: k in entries.Keys <==> k in SetOf(order);
      assert entries.Keys == SetOf(order);
    }

    /** `cleanExpiredCache`: walks the entries in insertion order, deleting
        each expired one, and returns how many it deleted.  The surviving
        keys keep their relative order. */
    method CleanExpiredCache(now: int) returns (cleaned: nat)
      requires Valid()
      modifies this
      ensures Valid()
      ensures entries == map k | k in FreshKeys(old(entries), now) :: old(entries)[k]
      ensures order == KeepIn(old(order), FreshKeys(old(entries), now))
      ensures cleaned == |ExpiredKeys(old(entries), now)|
      ensures |entries| + cleaned == |old(entries)|
    {
      var snapshot, before := order, entries;
      var live, kept := entries, [];
      cleaned := 0;
      var i := 0;
      while i < |snapshot|
        invariant 0 <= i <= |snapshot|
        invariant live == Swept(before, SetOf(snapshot[..i]), now)
        invariant kept == KeepIn(snapshot[..i], FreshKeys(before, now))
        invariant cleaned == |ExpiredKeys(before, now) * SetOf(snapshot[..i])|
      {
        var id := snapshot[i];
        SweepStep(before, snapshot, i, now);
        if now - live[id].timestamp >= CACHE_DURATION {
          live := live - {id};
          cleaned := cleaned + 1;
        } else {
          kept := kept + [id];
        }
        i := i + 1;
      }
      assert snapshot[..i] == snapshot;
      SweepDone(before, snapshot, now, live, kept, cleaned);
      entries, order := live, kept;
    }
  }

  /** The cache after the sweep has visited the keys in `done`. */
  function Swept(m: map<int, CacheEntry>, done: set<int>, now: int): map<int, CacheEntry> {
    map k | k in m && (k in done ==> IsFresh(m[k], now)) :: m[k]
  }

  /** One step of the sweep: visiting the key at position `i` deletes it
      exactly when it has expired, counts it exactly when it has expired,
      and keeps it in the order exactly when it has not. */
  lemma SweepStep(m: map<int, CacheEntry>, snapshot: seq<int>, i: int, now: int)
    requires Distinct(snapshot) && forall k :: k in m <==> k in snapshot
    requires 0 <= i < |snapshot|
    ensures snapshot[i] in Swept(m, SetOf(snapshot[..i]), now)
    ensures Swept(m, SetOf(snapshot[..i]), now)[snapshot[i]] == m[snapshot[i]]
    ensures IsExpired(m[snapshot[i]], now) ==>
      Swept(m, SetOf(snapshot[..i + 1]), now) == Swept(m, SetOf(snapshot[..i]), now) - {snapshot[i]}
    ensures IsExpired(m[snapshot[i]], now) ==>
      |ExpiredKeys(m, now) * SetOf(snapshot[..i + 1])| == |ExpiredKeys(m, now) * SetOf(snapshot[..i])| + 1
    ensures IsExpired(m[snapshot[i]], now) ==>
      KeepIn(snapshot[..i + 1], FreshKeys(m, now)) == KeepIn(snapshot[..i], FreshKeys(m, now))
    ensures !IsExpired(m[snapshot[i]], now) ==>
      Swept(m, SetOf(snapshot[..i + 1]), now) == Swept(m, SetOf(snapshot[..i]), now)
    ensures !IsExpired(m[snapshot[i]], now) ==>
      ExpiredKeys(m, now) * SetOf(snapshot[..i + 1]) == ExpiredKeys(m, now) * SetOf(snapshot[..i])
    ensures !IsExpired(m[snapshot[i]], now) ==>
      KeepIn(snapshot[..i + 1], FreshKeys(m, now)) == KeepIn(snapshot[..i], FreshKeys(m, now)) + [snapshot[i]]
  {
    assert snapshot[..i + 1] == snapshot[..i] + [snapshot[i]];
    SweepStepMap(m, snapshot, i, now);
    SweepStepCount(m, snapshot, i, now);
    KeepInSnoc(snapshot[..i], snapshot[i], FreshKeys(m, now));
    FreshnessConsistent(m[snapshot[i]], now);
  }

  lemma SweepStepMap(m: map<int, CacheEntry>, snapshot: seq<int>, i: int, now: int)
    requires Distinct(snapshot) && forall k :: k in m <==> k in snapshot
    requires 0 <= i < |snapshot|
    ensures snapshot[i] in Swept(m, SetOf(snapshot[..i]), now)
    ensures Swept(m, SetOf(snapshot[..i]), now)[snapshot[i]] == m[snapshot[i]]
    ensures IsExpired(m[snapshot[i]], now) ==>
      Swept(m, SetOf(snapshot[..i + 1]), now) == Swept(m, SetOf(snapshot[..i]), now) - {snapshot[i]}
    ensures !IsExpired(m[snapshot[i]], now) ==>
      Swept(m, SetOf(snapshot[..i + 1]), now) == Swept(m, SetOf(snapshot[..i]), now)
  {
    var id := snapshot[i];
    assert snapshot[..i + 1] == snapshot[..i] + [id];
    SetOfSnoc(snapshot[..i], id);
    FreshnessConsistent(m[id], now);
    assert id !in SetOf(snapshot[..i]);
  }

  lemma SweepStepCount(m: map<int, CacheEntry>, snapshot: seq<int>, i: int, now: int)
    requires Distinct(snapshot) && forall k :: k in m <==> k in snapshot
    requires 0 <= i < |snapshot|
    ensures snapshot[i] in m
    ensures IsExpired(m[snapshot[i]], now) ==>
      |ExpiredKeys(m, now) * SetOf(snapshot[..i + 1])| == |ExpiredKeys(m, now) * SetOf(snapshot[..i])| + 1
    ensures !IsExpired(m[snapshot[i]], now) ==>
      ExpiredKeys(m, now) * SetOf(snapshot[..i + 1]) == ExpiredKeys(m, now) * SetOf(snapshot[..i])
  {
    var id, done := snapshot[i], SetOf(snapshot[..i]);
    assert snapshot[..i + 1] == snapshot[..i] + [id];
    SetOfSnoc(snapshot[..i], id);
    FreshnessConsistent(m[id], now);
    assert id !in done;
    var e := ExpiredKeys(m, now);
    if IsExpired(m[id], now) {
      assert e * SetOf(snapshot[..i + 1]) == e * done + {id};
    }
  }

  /** When every key has been visited, the sweep has kept exactly the fresh
      entries, in their original order, and counted exactly the expired
      ones. */
  lemma {:induction false} SweepDone(m: map<int, CacheEntry>, snapshot: seq<int>, now: int,
                  entries: map<int, CacheEntry>, order: seq<int>, cleaned: int)
    requires Distinct(snapshot) && forall k :: k in m <==> k in snapshot
    requires entries == Swept(m, SetOf(snapshot), now)
    requires order == KeepIn(snapshot, FreshKeys(m, now))
    requires cleaned == |ExpiredKeys(m, now) * SetOf(snapshot)|
    ensures entries == map k | k in FreshKeys(m, now) :: m[k]
    ensures cleaned == |ExpiredKeys(m, now)|
    ensures |entries| + cleaned == |m|
    ensures Distinct(order) && forall k :: k in entries <==> k in order
  {
    assert SetOf(snapshot) == m.Keys by {
      assert forall k :: k in SetOf(snapshot) <==> k in m.Keys;
    }
    SweptAll(m, now);
    SweepPartition(m, now);
  }

  lemma {:induction false} SweptAll(m: map<int, CacheEntry>, now: int)
    ensures Swept(m, m.Keys, now) == map k | k in FreshKeys(m, now) :: m[k]
    ensures Swept(m, m.Keys, now).Keys == FreshKeys(m, now)
  {
    var b := map k | k in FreshKeys(m, now) :: m[k];
    assert forall k :: k in Swept(m, m.Keys, now) <==> k in b;
  }

  /** The statistics lines of the keys in `keys`, in that order. */
  function StatsLines(keys: seq<int>, m: map<int, CacheEntry>, now: int): (r: seq<EntryStats>)
    requires forall k :: k in keys ==> k in m
    ensures |r| == |keys|
    ensures forall i :: 0 <= i < |r| ==> r[i] == StatsOf(keys[i], m[keys[i]], now)
  {
    if keys == [] then [] else [StatsOf(keys[0], m[keys[0]], now)] + StatsLines(keys[1..], m, now)
  }

  lemma KeepInSnoc(s: seq<int>, x: int, keep: set<int>)
    ensures KeepIn(s + [x], keep) == KeepIn(s, keep) + (if x in keep then [x] else [])
  {
    if s != [] {
      assert (s + [x])[1..] == s[1..] + [x];
      KeepInSnoc(s[1..], x, keep);
    }
  }
}
