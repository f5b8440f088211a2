/**
 The objects on the two sides of ban replication: `Proxy_port` of the master (lib/proxy_port.js) and
 the worker's server for the port (lib/worker.js, lib/server.js). Each method is proved to take the
 step of `BanSync` on the sets of keys. The bans are permanent and the lists have no size limit.
*/
module BanPorts {
  import opened Wrappers
  import opened IpCache
  import opened BanSync

  /** A message to a worker as it is sent: snapshots are lists of entries. */
  datatype Message = CreateMsg(banlist: seq<Entry>) | UpdateConfigMsg(banlist: seq<Entry>) | BanipMsg(ban: Ban)

  function Meaning(m: Message): ToWorker {
    match m
    case CreateMsg(l) => Create(Keys(l))
    case UpdateConfigMsg(l) => UpdateConfig(Keys(l))
    case BanipMsg(b) => BanIp(b)
  }

  function Meanings(ms: seq<Message>): seq<ToWorker> {
    seq(|ms|, i requires 0 <= i < |ms| => Meaning(ms[i]))
  }

  lemma MeaningsSnoc(ms: seq<Message>, m: Message)
    ensures Meanings(ms + [m]) == Meanings(ms) + [Meaning(m)]
  {
  }

  /** The master's view: its keys, and what it has sent to each worker. */
  function MasterView(cache: seq<Entry>, channels: seq<seq<Message>>): Sys {
    Sys(Keys(cache), seq(|channels|, i requires 0 <= i < |channels| => Worker(Meanings(channels[i]), [], None)))
  }

  ghost predicate Permanent(cache: seq<Entry>) {
    && Distinct(cache)
    && forall e :: e in cache ==> e.until.None? && e.key == Key(e.ip, e.domain)
  }

  lemma {:induction false} AllLive(cache: seq<Entry>, now: int)
    requires forall e :: e in cache ==> e.until.None?
    ensures Live(cache, now) == cache
  {
    if cache != [] {
      AllLive(cache[1..], now);
    }
  }

  class ProxyPort {
    const banlist: Cache
    var channels: seq<seq<Message>>

    ghost predicate Valid()
      reads this, banlist
    {
      banlist.Valid() && banlist.max.None? && Permanent(banlist.cache)
    }

    ghost function View(): Sys
      reads this, banlist
    {
      MasterView(banlist.cache, channels)
    }

    /** The list that the port was configured with (lib/proxy_port.js:34). */
    constructor (entries: seq<Entry>, now: int)
      requires Permanent(entries)
      ensures Valid() && View() == Initial(Keys(entries))
    {
      AllLive(entries, now);
      banlist := new Cache(entries, None, now);
      channels := [];
    }

    /** Every worker of the cluster is sent the message. */
    method SendAll(m: Message)
      modifies this`channels
      ensures |channels| == |old(channels)|
      ensures forall i :: 0 <= i < |channels| ==> channels[i] == old(channels)[i] + [m]
    {
      for i := 0 to |channels|
        invariant |channels| == |old(channels)|
        invariant forall j :: 0 <= j < i ==> channels[j] == old(channels)[j] + [m]
        invariant forall j :: i <= j < |channels| ==> channels[j] == old(channels)[j]
      {
        channels := channels[i := channels[i] + [m]];
      }
    }

    lemma SentAll(before: seq<seq<Message>>, m: Message)
      requires |channels| == |before| && forall i :: 0 <= i < |channels| ==> channels[i] == before[i] + [m]
      ensures View().workers == Broadcast(MasterView(banlist.cache, before).workers, Meaning(m))
    {
      forall i | 0 <= i < |channels| ensures Meanings(channels[i]) == Meanings(before[i]) + [Meaning(m)] {
        MeaningsSnoc(before[i], m);
      }
    }

    /** `handle_banip` (lib/proxy_port.js:195-202). */
    method HandleBanip(b: Ban, now: int) returns (changed: bool)
      requires Valid()
      modifies this`channels, banlist`cache
      ensures Valid() && changed == !Has(Keys(old(banlist.cache)), b)
      ensures View() == MasterBan(old(View()), b)
    {
      var known := banlist.Has(b.ip, b.domain);
      if known {
        return false;
      }
      ghost var before := channels;
      banlist.Add(b.ip, 0, b.domain, now);
      SendAll(BanipMsg(b));
      SentAll(before, BanipMsg(b));
      return true;
    }

    /** `setup_worker` (lib/proxy_port.js:128-135). */
    method SetupWorker(w: nat)
      requires Valid() && w < |channels|
      modifies this`channels
      ensures Valid() && View() == Next(old(View()), Setup(w))
    {
      MeaningsSnoc(channels[w], CreateMsg(banlist.cache));
      channels := channels[w := channels[w] + [CreateMsg(banlist.cache)]];
    }

    /** The snapshots of `update_config` (lib/proxy_port.js:249-258). */
    method UpdateConfigs()
      requires Valid()
      modifies this`channels
      ensures Valid() && View() == Next(old(View()), Reconfigure)
    {
      ghost var before := channels;
      SendAll(UpdateConfigMsg(banlist.cache));
      SentAll(before, UpdateConfigMsg(banlist.cache));
    }
  }

  class Server {
    var banlist: Cache?
    var outbox: seq<Ban>

    ghost predicate Valid()
      reads this, banlist
    {
      banlist != null ==> banlist.Valid() && banlist.max.None? && Permanent(banlist.cache)
    }

    /** The worker's list in `BanSync`. */
    ghost function List(): Option<set<string>>
      reads this`banlist, banlist
    {
      if banlist == null then None else Some(Keys(banlist.cache))
    }

    constructor ()
      ensures Valid() && List() == None && outbox == []
    {
      banlist, outbox := null, [];
    }

    /** `banip` (lib/server.js:1279-1285) and its echo (lib/worker.js:292-294). */
    method Banip(b: Ban, now: int)
      requires Valid() && banlist != null
      modifies this`outbox, banlist`cache
      ensures Valid() && banlist == old(banlist)
      ensures List() == Some(old(List()).value + {KeyOf(b)}) && outbox == old(outbox) + [b]
    {
      banlist.Add(b.ip, 0, b.domain, now);
      outbox := outbox + [b];
    }

    method Replace(entries: seq<Entry>, now: int)
      requires Valid() && Permanent(entries)
      modifies this`banlist
      ensures Valid() && banlist != null && fresh(banlist) && banlist.cache == entries
    {
      AllLive(entries, now);
      banlist := new Cache(entries, None, now);
    }

    /** The ban messages of `handle_message` (lib/worker.js:252-261, 354-380). */
    method HandleMessage(m: Message, now: int)
      requires Valid() && (!m.BanipMsg? ==> Permanent(m.banlist))
      modifies this, banlist
      ensures Valid()
      ensures var (l, echo) := Handle(old(List()), Meaning(m)); List() == l && outbox == old(outbox) + echo
    {
      match m
      case CreateMsg(l) =>
        Replace(l, now);
      case UpdateConfigMsg(l) =>
        if banlist != null {
          Replace(l, now);
        }
      case BanipMsg(b) =>
        if banlist != null {
          Banip(b, now);
        }
    }
  }
}
