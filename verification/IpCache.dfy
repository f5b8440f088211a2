/**
 The ban list of one port (lib/ip_cache.js): a map in insertion order from keys to bans. A port with a
 size limit forgets its oldest entries first.
*/
module IpCache {
  import opened Wrappers

  /** `key` is where the entry is stored; `until` is the time at which a temporary ban ends. */
  datatype Entry = Entry(ip: string, domain: string, key: string, until: Option<int>)

  /** `_key` (lib/ip_cache.js:52-54). */
  function Key(ip: string, domain: string): string {
    if domain == "" then ip else ip + "|" + domain
  }

  function Keys(cache: seq<Entry>): set<string> {
    set e | e in cache :: e.key
  }

  /** A ban of the whole address covers every domain. */
  predicate HasKey(keys: set<string>, ip: string, domain: string) {
    ip in keys || Key(ip, domain) in keys
  }

  ghost predicate Distinct(cache: seq<Entry>) {
    forall i, j :: 0 <= i < j < |cache| ==> cache[i].key != cache[j].key
  }

  /** The entries other than the one stored at `key`, in their order. */
  function Without(cache: seq<Entry>, key: string): (rest: seq<Entry>)
    ensures forall e :: e in rest <==> e in cache && e.key != key
    ensures |rest| <= |cache|
  {
    if cache == [] then []
    else if cache[0].key == key then Without(cache[1..], key)
    else [cache[0]] + Without(cache[1..], key)
  }

  lemma {:induction false} WithoutDistinct(cache: seq<Entry>, key: string)
    requires Distinct(cache)
    ensures Distinct(Without(cache, key))
    ensures Keys(Without(cache, key)) == Keys(cache) - {key}
  {
    if cache != [] {
      WithoutDistinct(cache[1..], key);
      assert forall e :: e in cache <==> e == cache[0] || e in cache[1..];
      assert forall e :: e in Without(cache[1..], key) ==> e in cache[1..];
    }
  }

  lemma {:induction false} WithoutFirst(cache: seq<Entry>)
    requires cache != [] && Distinct(cache)
    ensures Without(cache, cache[0].key) == cache[1..]
  {
    WithoutAbsent(cache[1..], cache[0].key);
  }

  lemma {:induction false} WithoutAbsent(cache: seq<Entry>, key: string)
    requires forall e :: e in cache ==> e.key != key
    ensures Without(cache, key) == cache
  {
    if cache != [] {
      WithoutAbsent(cache[1..], key);
    }
  }

  /** The entries of two lists are dropped one by one, and the others keep their order. */
  lemma {:induction false} WithoutCat(a: seq<Entry>, b: seq<Entry>, key: string)
    ensures Without(a + b, key) == Without(a, key) + Without(b, key)
  {
    if a == [] {
      assert a + b == b;
    } else {
      assert (a + b)[1..] == a[1..] + b;
      WithoutCat(a[1..], b, key);
    }
  }

  /** The newest `max` entries, which stand at the end; no limit when there is none or it is 0. */
  function Newest(cache: seq<Entry>, max: Option<nat>): (rest: seq<Entry>)
    ensures max.Some? && max.value > 0 ==> |rest| <= max.value
  {
    if max.Some? && max.value > 0 && |cache| > max.value then cache[|cache| - max.value..] else cache
  }

  /** What is kept are the last entries, and as many as the limit allows. */
  lemma NewestAreLast(cache: seq<Entry>, max: Option<nat>)
    ensures var n := |Newest(cache, max)|;
      && n == (if max.Some? && 0 < max.value < |cache| then max.value else |cache|)
      && Newest(cache, max) == cache[|cache| - n..]
  {
  }

  /** The entries whose ban has not ended at `now` (lib/ip_cache.js:24-37). */
  function Live(cache: seq<Entry>, now: int): (rest: seq<Entry>)
    ensures forall e :: e in rest <==> e in cache && (e.until.None? || e.until.value > now)
  {
    if cache == [] then []
    else (if cache[0].until.None? || cache[0].until.value > now then [cache[0]] else []) + Live(cache[1..], now)
  }

  lemma {:induction false} LiveDistinct(cache: seq<Entry>, now: int)
    requires Distinct(cache)
    ensures Distinct(Live(cache, now))
  {
    if cache != [] {
      LiveDistinct(cache[1..], now);
      assert forall e :: e in Live(cache[1..], now) ==> e in cache[1..];
    }
  }

  lemma {:induction false} LiveCat(a: seq<Entry>, b: seq<Entry>, now: int)
    ensures Live(a + b, now) == Live(a, now) + Live(b, now)
  {
    if a == [] {
      assert a + b == b;
    } else {
      assert (a + b)[1..] == a[1..] + b;
      LiveCat(a[1..], b, now);
    }
  }

  /** A ban of `ms` milliseconds is over when they have passed, and one of 0 never. */
  lemma BanLasts(ip: string, domain: string, now: int, ms: nat, later: int)
    ensures var e := Entry(ip, domain, Key(ip, domain), if ms == 0 then None else Some(now + ms));
      Live([e], later) == if ms == 0 || later - now < ms then [e] else []
  {
  }

  // ----- What a ban covers --------------------------------------------------------------------------

  /** An address holds no `|`; no IPv4 or IPv6 address does. */
  predicate NoBar(ip: string) {
    '|' !in ip
  }

  lemma LongerHasBar(a: string, d: string, b: string, e: string)
    requires Key(a, d) == Key(b, e) && |a| < |b|
    ensures !NoBar(b)
  {
    assert Key(a, d)[|a|] == '|';
    assert Key(b, e)[|a|] == b[|a|];
  }

  /** A key splits at its first bar. */
  lemma KeySplits(a: string, d: string, b: string, e: string)
    requires NoBar(a) && NoBar(b) && Key(a, d) == Key(b, e)
    ensures a == b && d == e
  {
    if |a| < |b| {
      LongerHasBar(a, d, b, e);
    } else if |b| < |a| {
      LongerHasBar(b, e, a, d);
    } else {
      var k := Key(a, d);
      assert a == k[..|a|] == b;
      assert d == (if |k| == |a| then "" else k[|a| + 1..]) == e;
    }
  }

  /** Some entry bans the whole address or the pair. */
  ghost predicate Banned(cache: seq<Entry>, ip: string, domain: string) {
    exists e :: e in cache && e.ip == ip && (e.domain == "" || e.domain == domain)
  }

  /** What is asked about is banned exactly if there is an entry for the address, for all domains or for this one. */
  lemma HasExactly(cache: seq<Entry>, ip: string, domain: string)
    requires NoBar(ip) && forall e :: e in cache ==> NoBar(e.ip) && e.key == Key(e.ip, e.domain)
    ensures HasKey(Keys(cache), ip, domain) <==> Banned(cache, ip, domain)
  {
    if e :| e in cache && e.ip == ip && (e.domain == "" || e.domain == domain) {
      assert e.key in Keys(cache);
    }
    assert Key(ip, "") == ip;
    if e :| e in cache && (e.key == Key(ip, "") || e.key == Key(ip, domain)) {
      KeySplits(e.ip, e.domain, ip, if e.key == ip then "" else domain);
    }
  }

  class Cache {
    var cache: seq<Entry>
    const max: Option<nat>

    ghost predicate Valid()
      reads this
    {
      && Distinct(cache)
      && (max.Some? && max.value > 0 ==> |cache| <= max.value)
      && (forall e :: e in cache ==> e.key == Key(e.ip, e.domain))
    }

    /** The entries of a message, those that are over dropped (`deserialize`, lib/ip_cache.js:46-51). */
    constructor (entries: seq<Entry>, max: Option<nat>, now: int)
      requires Distinct(entries) && forall e :: e in entries ==> e.key == Key(e.ip, e.domain)
      ensures Valid() && this.max == max
      ensures cache == Newest(Live(entries, now), max)
    {
      this.cache, this.max := Live(entries, now), max;
      new;
      LiveDistinct(entries, now);
      EnsureMaxSize();
    }

    /** `has` (lib/ip_cache.js:81-83). */
    method Has(ip: string, domain: string) returns (found: bool)
      ensures found <==> HasKey(Keys(cache), ip, domain)
    {
      found := ContainsKey(ip);
      if !found {
        found := ContainsKey(Key(ip, domain));
      }
    }

    method ContainsKey(key: string) returns (found: bool)
      ensures found <==> key in Keys(cache)
    {
      found := exists i :: 0 <= i < |cache| && cache[i].key == key;
      if found {
        var i :| 0 <= i < |cache| && cache[i].key == key;
        assert cache[i] in cache;
      }
    }

    /** `delete` (lib/ip_cache.js:72-77). */
    method Delete(ip: string, domain: string)
      requires Valid()
      modifies this`cache
      ensures Valid()
      ensures Keys(cache) == Keys(old(cache)) - {Key(ip, domain)}
      ensures cache == Without(old(cache), Key(ip, domain))
    {
      WithoutDistinct(cache, Key(ip, domain));
      cache := Without(cache, Key(ip, domain));
    }

    /** `add` (lib/ip_cache.js:55-64); `ms` of 0 is a ban without end. */
    method Add(ip: string, ms: nat, domain: string, now: int)
      requires Valid()
      modifies this`cache
      ensures Valid()
      ensures var key := Key(ip, domain);
        cache == Newest(Without(old(cache), key) +
          [Entry(ip, domain, key, if ms == 0 then None else Some(now + ms))], max)
      ensures max.None? ==> Keys(cache) == Keys(old(cache)) + {Key(ip, domain)}
      ensures HasKey(Keys(cache), ip, domain)
    {
      var key := Key(ip, domain);
      WithoutDistinct(cache, key);
      Delete(ip, domain);
      cache := cache + [Entry(ip, domain, key, if ms == 0 then None else Some(now + ms))];
      EnsureMaxSize();
      assert cache[|cache| - 1].key == key;
    }

    /** `ensure_max_size` (lib/ip_cache.js:65-71). */
    method EnsureMaxSize()
      requires Distinct(cache) && forall e :: e in cache ==> e.key == Key(e.ip, e.domain)
      modifies this`cache
      ensures Valid()
      ensures cache == Newest(old(cache), max)
      ensures |cache| <= |old(cache)| && cache == old(cache)[|old(cache)| - |cache|..]
      ensures |cache| == if max.Some? && 0 < max.value < |old(cache)| then max.value else |old(cache)|
    {
      ghost var start := 0;
      while max.Some? && max.value > 0 && |cache| > max.value
        invariant 0 <= start <= |old(cache)| && cache == old(cache)[start..]
        invariant start == 0 || (max.Some? && max.value > 0 && |cache| >= max.value)
        decreases |cache|
      {
        var first := cache[0];
        WithoutFirst(cache);
        assert first in cache;
        cache := Without(cache, Key(first.ip, first.domain));
        start := start + 1;
      }
    }
  }
}
