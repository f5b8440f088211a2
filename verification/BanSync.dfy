/**
 Replication of one port's ban list between the master and its workers (lib/proxy_port.js,
 lib/worker.js, lib/server.js): a step system over FIFO channels. Bans are permanent, nothing is
 unbanned and the lists have no size limit. A list is the set of its keys.
*/
module BanSync {
  import opened Wrappers
  import opened IpCache

  datatype Ban = Ban(ip: string, domain: string)

  datatype ToWorker = Create(list: set<string>) | UpdateConfig(list: set<string>) | BanIp(ban: Ban)

  /** A worker process; `list` is `None` until it has handled its first `CREATE`. */
  datatype Worker = Worker(inbox: seq<ToWorker>, outbox: seq<Ban>, list: Option<set<string>>)

  datatype Sys = Sys(master: set<string>, workers: seq<Worker>)

  predicate Has(keys: set<string>, b: Ban) {
    HasKey(keys, b.ip, b.domain)
  }

  function KeyOf(b: Ban): string {
    Key(b.ip, b.domain)
  }

  // ----- The handlers -----------------------------------------------------------------------------

  /** The worker side of a message (lib/worker.js:252-261, 354-380): the list and the echoed bans after it. */
  function Handle(list: Option<set<string>>, m: ToWorker): (Option<set<string>>, seq<Ban>) {
    match m
    case Create(l) => (Some(l), [])
    case UpdateConfig(l) => (if list.None? then None else Some(l), [])
    case BanIp(b) => if list.None? then (None, []) else (Some(list.value + {KeyOf(b)}), [b])
  }

  function Send(w: Worker, m: ToWorker): Worker {
    w.(inbox := w.inbox + [m])
  }

  function Broadcast(ws: seq<Worker>, m: ToWorker): (r: seq<Worker>)
    ensures |r| == |ws| && forall i :: 0 <= i < |ws| ==> r[i] == Send(ws[i], m)
  {
    seq(|ws|, i requires 0 <= i < |ws| => Send(ws[i], m))
  }

  /** `handle_banip` (lib/proxy_port.js:195-202). */
  function MasterBan(s: Sys, b: Ban): Sys {
    if Has(s.master, b) then s
    else Sys(s.master + {KeyOf(b)}, Broadcast(s.workers, BanIp(b)))
  }

  // ----- Steps ------------------------------------------------------------------------------------

  datatype Step =
    | Fork                        // a new worker process
    | Setup(w: nat)               // setup_worker: CREATE with a snapshot
    | Leave(w: nat)               // a worker is gone, with everything in its channels
    | BanAtMaster(b: Ban)
    | BanAtWorker(w: nat, b: Ban)
    | Reconfigure                 // update_config: UPDATE_CONFIG with a snapshot, to every worker
    | DeliverDown(w: nat)
    | DeliverUp(w: nat)

  /** The address that a step bans. */
  function AddressOf(a: Step): Option<string> {
    match a
    case BanAtMaster(b) => Some(b.ip)
    case BanAtWorker(_, b) => Some(b.ip)
    case _ => None
  }

  predicate BarlessStep(a: Step) {
    AddressOf(a).Some? ==> NoBar(AddressOf(a).value)
  }

  /** No address that is banned has a bar in it. */
  predicate Barless(steps: seq<Step>) {
    forall a :: a in steps ==> BarlessStep(a)
  }

  predicate Enabled(s: Sys, a: Step) {
    match a
    case Fork => true
    case Setup(w) => w < |s.workers|
    case Leave(w) => w < |s.workers|
    case BanAtMaster(_) => true
    case BanAtWorker(w, _) => w < |s.workers| && s.workers[w].list.Some?
    case Reconfigure => true
    case DeliverDown(w) => w < |s.workers| && s.workers[w].inbox != []
    case DeliverUp(w) => w < |s.workers| && s.workers[w].outbox != []
  }

  function Next(s: Sys, a: Step): Sys
    requires Enabled(s, a)
  {
    match a
    case Fork => s.(workers := s.workers + [Worker([], [], None)])
    case Setup(w) => s.(workers := s.workers[w := Send(s.workers[w], Create(s.master))])
    case Leave(w) => s.(workers := s.workers[..w] + s.workers[w + 1..])
    case BanAtMaster(b) => MasterBan(s, b)
    case BanAtWorker(w, b) => s.(workers := s.workers[w := LocalBan(s.workers[w], b)])
    case Reconfigure => s.(workers := Broadcast(s.workers, UpdateConfig(s.master)))
    case DeliverDown(w) => s.(workers := s.workers[w := Receive(s.workers[w])])
    case DeliverUp(w) =>
      var b := s.workers[w].outbox[0];
      MasterBan(s.(workers := s.workers[w := s.workers[w].(outbox := s.workers[w].outbox[1..])]), b)
  }

  /** `banip` on the worker's server (lib/server.js:1279-1285, lib/worker.js:292-294). */
  function LocalBan(w: Worker, b: Ban): Worker
    requires w.list.Some?
  {
    w.(list := Some(w.list.value + {KeyOf(b)}), outbox := w.outbox + [b])
  }

  function Receive(w: Worker): Worker
    requires w.inbox != []
  {
    var (l, echo) := Handle(w.list, w.inbox[0]);
    Worker(w.inbox[1..], w.outbox + echo, l)
  }

  ghost predicate Run(s: Sys, steps: seq<Step>, t: Sys)
    decreases steps
  {
    if steps == [] then s == t
    else Enabled(s, steps[0]) && Run(Next(s, steps[0]), steps[1..], t)
  }

  // ----- The invariant ----------------------------------------------------------------------------

  /** The list of a worker once its inbox is handled, local bans aside. */
  function Eventual(list: Option<set<string>>, inbox: seq<ToWorker>): Option<set<string>>
    decreases inbox
  {
    if inbox == [] then list else Eventual(Handle(list, inbox[0]).0, inbox[1..])
  }

  /** The master has the key, or it is that of a ban which the master covers or is about to hear of. */
  ghost predicate Accounted(master: set<string>, outbox: seq<Ban>, k: string) {
    k in master || exists b: Ban :: NoBar(b.ip) && KeyOf(b) == k && (Has(master, b) || b in outbox)
  }

  predicate KnownMessage(master: set<string>, m: ToWorker) {
    match m
    case Create(l) => l <= master
    case UpdateConfig(l) => l <= master
    case BanIp(b) => Has(master, b) && NoBar(b.ip)
  }

  ghost predicate WorkerInv(master: set<string>, w: Worker) {
    && (forall m :: m in w.inbox ==> KnownMessage(master, m))
    && (w.list.Some? ==> forall k :: k in w.list.value ==> Accounted(master, w.outbox, k))
    && (w.list.None? ==> w.outbox == [])
    && (forall b :: b in w.outbox ==> NoBar(b.ip))
    && (Eventual(w.list, w.inbox).Some? ==> master <= Eventual(w.list, w.inbox).value)
  }

  ghost predicate Inv(s: Sys) {
    forall i :: 0 <= i < |s.workers| ==> WorkerInv(s.master, s.workers[i])
  }

  lemma {:induction false} EventualSnoc(list: Option<set<string>>, inbox: seq<ToWorker>, m: ToWorker)
    ensures Eventual(list, inbox + [m]) == Handle(Eventual(list, inbox), m).0
    decreases inbox
  {
    if inbox == [] {
      assert [m][1..] == [];
    } else {
      assert (inbox + [m])[1..] == inbox[1..] + [m];
      EventualSnoc(Handle(list, inbox[0]).0, inbox[1..], m);
    }
  }

  /** A worker that has no list yet keeps none until its first `CREATE`, whatever else it is sent. */
  lemma {:induction false} NoListYet(inbox: seq<ToWorker>)
    ensures Eventual(None, inbox).None? <==> forall m :: m in inbox ==> !m.Create?
    decreases inbox
  {
    if inbox != [] {
      assert forall m :: m in inbox <==> m == inbox[0] || m in inbox[1..];
      if inbox[0].Create? {
        ListStays(inbox[0].list, inbox[1..]);
      } else {
        NoListYet(inbox[1..]);
      }
    }
  }

  lemma {:induction false} ListStays(list: set<string>, inbox: seq<ToWorker>)
    ensures Eventual(Some(list), inbox).Some?
    decreases inbox
  {
    if inbox != [] {
      ListStays(Handle(Some(list), inbox[0]).0.value, inbox[1..]);
    }
  }

  /** The bans among the messages, in order. */
  function BansIn(inbox: seq<ToWorker>): seq<Ban> {
    if inbox == [] then [] else (if inbox[0].BanIp? then [inbox[0].ban] else []) + BansIn(inbox[1..])
  }

  function ReceiveAll(w: Worker): Worker
    decreases |w.inbox|
  {
    if w.inbox == [] then w else ReceiveAll(Receive(w))
  }

  /** A worker that has a list echoes each ban that it is told of, in order. */
  lemma {:induction false} WorkerEchoes(w: Worker)
    requires w.list.Some?
    ensures ReceiveAll(w).inbox == [] && ReceiveAll(w).outbox == w.outbox + BansIn(w.inbox)
    decreases |w.inbox|
  {
    if w.inbox == [] {
      assert w.outbox + [] == w.outbox;
    } else {
      var m, rest := w.inbox[0], BansIn(w.inbox[1..]);
      WorkerEchoes(Receive(w));
      assert w.outbox + (if m.BanIp? then [m.ban] else []) + rest
        == w.outbox + ((if m.BanIp? then [m.ban] else []) + rest);
    }
  }

  /** What a message makes of a list. */
  function Listed(list: set<string>, m: ToWorker): set<string> {
    match m
    case Create(l) => l
    case UpdateConfig(l) => l
    case BanIp(b) => list + {KeyOf(b)}
  }

  /** Its list is the last snapshot, with all bans after it: of two messages in a row the later one decides. */
  lemma {:induction false} WorkerLists(w: Worker, m: ToWorker)
    requires w.list.Some?
    ensures ReceiveAll(Send(w, m)).list.Some? && ReceiveAll(w).list.Some?
    ensures ReceiveAll(Send(w, m)).list.value == Listed(ReceiveAll(w).list.value, m)
    decreases |w.inbox|
  {
    if w.inbox == [] {
      assert [m][1..] == [] && w.inbox + [m] == [m];
    } else {
      WorkerLists(Receive(w), m);
      assert (w.inbox + [m])[1..] == w.inbox[1..] + [m];
      assert Receive(Send(w, m)) == Send(Receive(w), m);
    }
  }

  /**
   A list sent to a new worker will be its list, whatever it has and is sent before; a new configuration will
   be that of every worker that has a list by then.
  */
  lemma SnapshotsArrive(s: Sys, w: nat)
    requires w < |s.workers|
    ensures var v := Next(s, Setup(w)).workers[w]; Eventual(v.list, v.inbox) == Some(s.master)
    ensures var v, u := Next(s, Reconfigure).workers[w], s.workers[w];
      Eventual(v.list, v.inbox) == if Eventual(u.list, u.inbox).Some? then Some(s.master) else None
  {
    EventualSnoc(s.workers[w].list, s.workers[w].inbox, Create(s.master));
    EventualSnoc(s.workers[w].list, s.workers[w].inbox, UpdateConfig(s.master));
  }

  /** More keys at the start never means fewer keys in the end. */
  lemma {:induction false} EventualMono(l0: Option<set<string>>, l1: Option<set<string>>, inbox: seq<ToWorker>)
    requires l0.Some? && l1.Some? && l0.value <= l1.value
    ensures Eventual(l0, inbox).Some? && Eventual(l1, inbox).Some?
    ensures Eventual(l0, inbox).value <= Eventual(l1, inbox).value
    decreases inbox
  {
    if inbox != [] {
      EventualMono(Handle(l0, inbox[0]).0, Handle(l1, inbox[0]).0, inbox[1..]);
    }
  }

  lemma SendKeeps(master: set<string>, master': set<string>, w: Worker, m: ToWorker)
    requires WorkerInv(master, w) && master <= master' && KnownMessage(master', m)
    requires match m
      case Create(l) => l == master'
      case UpdateConfig(l) => l == master'
      case BanIp(b) => master' == master + {KeyOf(b)}
    ensures WorkerInv(master', Send(w, m))
  {
    EventualSnoc(w.list, w.inbox, m);
    if w.list.Some? {
      forall k | k in w.list.value ensures Accounted(master', w.outbox, k) {
        AccountedMono(master, master', w.outbox, k);
      }
    }
  }

  lemma AccountedMono(master: set<string>, master': set<string>, outbox: seq<Ban>, k: string)
    requires Accounted(master, outbox, k) && master <= master'
    ensures Accounted(master', outbox, k)
  {
    if k !in master {
      var b: Ban :| NoBar(b.ip) && KeyOf(b) == k && (Has(master, b) || b in outbox);
      assert Has(master', b) || b in outbox;
    }
  }

  lemma LocalBanKeeps(master: set<string>, w: Worker, b: Ban)
    requires WorkerInv(master, w) && w.list.Some? && NoBar(b.ip)
    ensures WorkerInv(master, LocalBan(w, b))
  {
    var w' := LocalBan(w, b);
    EventualMono(w.list, w'.list, w.inbox);
    forall k | k in w'.list.value ensures Accounted(master, w'.outbox, k) {
      if k == KeyOf(b) {
        assert b in w'.outbox;
      } else if k !in master {
        var c: Ban :| NoBar(c.ip) && KeyOf(c) == k && (Has(master, c) || c in w.outbox);
        assert Has(master, c) || c in w'.outbox;
      }
    }
  }

  lemma ReceiveKeeps(master: set<string>, w: Worker)
    requires WorkerInv(master, w) && w.inbox != []
    ensures WorkerInv(master, Receive(w))
  {
    var w', m := Receive(w), w.inbox[0];
    assert KnownMessage(master, m);
    if w'.list.Some? {
      forall k | k in w'.list.value ensures Accounted(master, w'.outbox, k) {
        if k in master {
        } else if m.BanIp? && k == KeyOf(m.ban) {
          assert Has(master, m.ban);
        } else {
          var c: Ban :| NoBar(c.ip) && KeyOf(c) == k && (Has(master, c) || c in w.outbox);
          assert Has(master, c) || c in w'.outbox;
        }
      }
    }
  }

  /** The head of a worker's outbox is handled by the master: nothing is lost from the books. */
  lemma TakeKeeps(master: set<string>, master': set<string>, w: Worker)
    requires w.outbox != [] && WorkerInv(master, w) && master <= master' && Has(master', w.outbox[0])
    requires Eventual(w.list, w.inbox).Some? ==> master' <= Eventual(w.list, w.inbox).value
    ensures WorkerInv(master', w.(outbox := w.outbox[1..]))
  {
    if w.list.Some? {
      forall k | k in w.list.value ensures Accounted(master', w.outbox[1..], k) {
        if k !in master {
          var c: Ban :| NoBar(c.ip) && KeyOf(c) == k && (Has(master, c) || c in w.outbox);
          assert Has(master', c) || c in w.outbox[1..];
        }
      }
    }
  }

  lemma MasterBanKeeps(s: Sys, b: Ban)
    requires Inv(s) && NoBar(b.ip)
    ensures Inv(MasterBan(s, b)) && Has(MasterBan(s, b).master, b)
  {
    var t := MasterBan(s, b);
    forall i | 0 <= i < |t.workers| ensures WorkerInv(t.master, t.workers[i]) {
      if !Has(s.master, b) {
        SendKeeps(s.master, t.master, s.workers[i], BanIp(b));
      }
    }
  }

  lemma NextKeeps(s: Sys, a: Step)
    requires Inv(s) && Enabled(s, a) && BarlessStep(a)
    ensures Inv(Next(s, a))
  {
    var t := Next(s, a);
    match a
    case Fork =>
    case Leave(w) =>
    case BanAtMaster(b) =>
      MasterBanKeeps(s, b);
    case Setup(w) =>
      SendKeeps(s.master, s.master, s.workers[w], Create(s.master));
    case BanAtWorker(w, b) =>
      LocalBanKeeps(s.master, s.workers[w], b);
    case Reconfigure =>
      forall i | 0 <= i < |t.workers| ensures WorkerInv(t.master, t.workers[i]) {
        SendKeeps(s.master, s.master, s.workers[i], UpdateConfig(s.master));
      }
    case DeliverDown(w) =>
      ReceiveKeeps(s.master, s.workers[w]);
    case DeliverUp(w) =>
      UpKeeps(s, w);
  }

  lemma UpKeeps(s: Sys, w: nat)
    requires Inv(s) && Enabled(s, DeliverUp(w))
    ensures Inv(Next(s, DeliverUp(w)))
  {
    var b := s.workers[w].outbox[0];
    var t, full := Next(s, DeliverUp(w)), MasterBan(s, b);
    MasterBanKeeps(s, b);
    forall i | 0 <= i < |t.workers| ensures WorkerInv(t.master, t.workers[i]) {
      assert WorkerInv(full.master, full.workers[i]);
      if i == w {
        TakeKeeps(t.master, t.master, full.workers[w]);
      }
    }
  }

  lemma {:induction false} RunKeeps(s: Sys, steps: seq<Step>, t: Sys)
    requires Inv(s) && Run(s, steps, t) && Barless(steps)
    ensures Inv(t)
    decreases steps
  {
    if steps != [] {
      NextKeeps(s, steps[0]);
      RunKeeps(Next(s, steps[0]), steps[1..], t);
    }
  }

  // ----- Convergence ------------------------------------------------------------------------------

  ghost predicate Quiet(s: Sys) {
    forall i :: 0 <= i < |s.workers| ==> s.workers[i].inbox == [] && s.workers[i].outbox == []
  }

  ghost predicate Agree(s: Sys, ip: string, domain: string) {
    forall i :: 0 <= i < |s.workers| && s.workers[i].list.Some? ==>
      (HasKey(s.workers[i].list.value, ip, domain) <==> HasKey(s.master, ip, domain))
  }

  lemma QuietAgrees(s: Sys, i: nat, ip: string, domain: string)
    requires Inv(s) && Quiet(s) && NoBar(ip) && i < |s.workers| && s.workers[i].list.Some?
    ensures HasKey(s.workers[i].list.value, ip, domain) <==> HasKey(s.master, ip, domain)
  {
    var w, list := s.workers[i], s.workers[i].list.value;
    assert WorkerInv(s.master, w);
    assert s.master <= list;
    var asked := if ip in list then Ban(ip, "") else Ban(ip, domain);
    if KeyOf(asked) in list && KeyOf(asked) !in s.master {
      assert Accounted(s.master, w.outbox, KeyOf(asked));
      var b: Ban :| NoBar(b.ip) && KeyOf(b) == KeyOf(asked) && Has(s.master, b);
      KeySplits(b.ip, b.domain, asked.ip, asked.domain);
    }
  }

  /** The master has the list that it was started with, and no worker has joined (lib/proxy_port.js:34). */
  function Initial(list: set<string>): Sys {
    Sys(list, [])
  }

  const NO_BANS := Initial({})

  ghost predicate Reachable(s: Sys) {
    exists list: set<string>, steps: seq<Step> :: Barless(steps) && Run(Initial(list), steps, s)
  }

  /**
   Once every channel is empty, in any run from any list with any interleaving of bans at the master and
   at workers, joins, departures and configuration snapshots, the master and every worker that has its
   list answer alike.
  */
  lemma Convergence(list: set<string>, steps: seq<Step>, s: Sys, ip: string, domain: string)
    requires Barless(steps) && Run(Initial(list), steps, s) && Quiet(s) && NoBar(ip)
    ensures Agree(s, ip, domain)
  {
    RunKeeps(Initial(list), steps, s);
    forall i | 0 <= i < |s.workers| && s.workers[i].list.Some?
      ensures HasKey(s.workers[i].list.value, ip, domain) <==> HasKey(s.master, ip, domain)
    {
      QuietAgrees(s, i, ip, domain);
    }
  }

  // ----- The exact condition ----------------------------------------------------------------------

  lemma {:induction false} RunSnoc(s: Sys, steps: seq<Step>, t: Sys, a: Step)
    requires Run(s, steps, t) && Enabled(t, a)
    ensures Run(s, steps + [a], Next(t, a))
    decreases steps
  {
    if steps == [] {
      assert [a][1..] == [];
    } else {
      assert (steps + [a])[1..] == steps[1..] + [a];
      RunSnoc(Next(s, steps[0]), steps[1..], t, a);
    }
  }

  function OneWorker(master: set<string>, inbox: seq<ToWorker>, outbox: seq<Ban>, list: set<string>): Sys {
    Sys(master, [Worker(inbox, outbox, Some(list))])
  }

  /** The first worker joins. */
  lemma OneJoins() returns (steps: seq<Step>)
    ensures Run(NO_BANS, steps, OneWorker({}, [], [], {})) && forall a :: a in steps ==> AddressOf(a).None?
  {
    var w0 := Worker([], [], None);
    var s1, s2 := Sys({}, [w0]), Sys({}, [Send(w0, Create({}))]);
    assert Next(NO_BANS, Fork).workers == [w0];
    RunSnoc(NO_BANS, [], NO_BANS, Fork);
    steps := [] + [Fork];
    assert Next(s1, Setup(0)).workers == s2.workers;
    RunSnoc(NO_BANS, steps, s1, Setup(0));
    steps := steps + [Setup(0)];
    assert Receive(s2.workers[0]) == Worker([], [], Some({})) by {
      assert s2.workers[0].inbox[1..] == [];
    }
    assert Next(s2, DeliverDown(0)).workers == OneWorker({}, [], [], {}).workers;
    RunSnoc(NO_BANS, steps, s2, DeliverDown(0));
    steps := steps + [DeliverDown(0)];
  }

  /** `a` is the only address that is banned. */
  predicate BansOnly(steps: seq<Step>, a: string) {
    forall x :: x in steps && AddressOf(x).Some? ==> AddressOf(x).value == a
  }

  /** The worker bans `a` for the domain `d` while the master bans all of `a`. */
  lemma BansCross(a: string, d: string) returns (steps: seq<Step>)
    requires d != ""
    ensures Run(NO_BANS, steps, OneWorker({a}, [BanIp(Ban(a, ""))], [Ban(a, d)], {Key(a, d)})) && BansOnly(steps, a)
  {
    steps := OneJoins();
    var s0, s1 := OneWorker({}, [], [], {}), OneWorker({}, [], [Ban(a, d)], {Key(a, d)});
    var s2 := OneWorker({a}, [BanIp(Ban(a, ""))], [Ban(a, d)], {Key(a, d)});
    assert LocalBan(s0.workers[0], Ban(a, d)) == s1.workers[0] by {
      assert {} + {Key(a, d)} == {Key(a, d)};
    }
    assert Next(s0, BanAtWorker(0, Ban(a, d))).workers == s1.workers;
    RunSnoc(NO_BANS, steps, s0, BanAtWorker(0, Ban(a, d)));
    steps := steps + [BanAtWorker(0, Ban(a, d))];
    assert Send(s1.workers[0], BanIp(Ban(a, ""))) == s2.workers[0];
    assert Broadcast(s1.workers, BanIp(Ban(a, ""))) == s2.workers;
    assert Next(s1, BanAtMaster(Ban(a, ""))) == s2 by {
      assert {} + {a} == {a};
    }
    RunSnoc(NO_BANS, steps, s1, BanAtMaster(Ban(a, "")));
    steps := steps + [BanAtMaster(Ban(a, ""))];
  }

  /** Where the crossing ends: the master drops `a|d` as covered, the worker keeps both keys. */
  lemma CrossingRuns(a: string, d: string) returns (steps: seq<Step>)
    requires d != ""
    ensures Run(NO_BANS, steps, OneWorker({a}, [], [], {Key(a, d), a})) && BansOnly(steps, a)
  {
    steps := BansCross(a, d);
    var part, whole := Ban(a, d), Ban(a, "");
    var s0 := OneWorker({a}, [BanIp(whole)], [part], {Key(a, d)});
    var s1 := OneWorker({a}, [], [part, whole], {Key(a, d), a});
    var s2 := OneWorker({a}, [], [whole], {Key(a, d), a});
    assert Receive(s0.workers[0]) == s1.workers[0] by {
      assert s0.workers[0].inbox[1..] == [] && [part] + [whole] == [part, whole];
      assert {Key(a, d)} + {a} == {Key(a, d), a};
    }
    assert Next(s0, DeliverDown(0)).workers == s1.workers;
    RunSnoc(NO_BANS, steps, s0, DeliverDown(0));
    steps := steps + [DeliverDown(0)];
    OneUp({a}, part, [whole], {Key(a, d), a});
    assert [part] + [whole] == [part, whole];
    RunSnoc(NO_BANS, steps, s1, DeliverUp(0));
    steps := steps + [DeliverUp(0)];
    OneUp({a}, whole, [], {Key(a, d), a});
    assert [whole] + [] == [whole];
    RunSnoc(NO_BANS, steps, s2, DeliverUp(0));
    steps := steps + [DeliverUp(0)];
  }

  lemma OneUp(master: set<string>, b: Ban, outbox: seq<Ban>, list: set<string>)
    requires Has(master, b)
    ensures [b] + outbox == (if outbox == [] then [b] else [b] + outbox)
    ensures Next(OneWorker(master, [], [b] + outbox, list), DeliverUp(0)) == OneWorker(master, [], outbox, list)
  {
    assert ([b] + outbox)[1..] == outbox;
  }

  /** An address with a bar reads as a shorter address and a domain; the crossing tells the two apart. */
  lemma Disagreement(ip: string) returns (steps: seq<Step>, s: Sys, domain: string)
    requires !NoBar(ip)
    ensures Barless(steps) && Run(NO_BANS, steps, s) && Quiet(s) && !Agree(s, ip, domain)
  {
    var p := FirstBar(ip);
    var a, c := ip[..p], ip[p + 1..];
    assert ip == a + "|" + c;
    var d := if c == "" then "|z" else c;
    domain := if c == "" then "z" else "";
    s := OneWorker({a}, [], [], {Key(a, d), a});
    steps := CrossingRuns(a, d);
    assert Key(ip, domain) == Key(a, d);
    assert |ip| > |a| && |Key(ip, domain)| > |a|;
    assert HasKey(s.workers[0].list.value, ip, domain) && !HasKey(s.master, ip, domain);
  }

  lemma {:induction false} FirstBar(ip: string) returns (p: nat)
    requires !NoBar(ip)
    ensures p < |ip| && ip[p] == '|' && NoBar(ip[..p])
  {
    if ip[0] == '|' {
      p := 0;
    } else {
      var q := FirstBar(ip[1..]);
      p := q + 1;
      assert ip[..p] == [ip[0]] + ip[1..][..q];
    }
  }

  /**
   The answers agree in every quiet state, for every domain, if and only if the address asked about
   holds no `|`.
  */
  lemma AgreementExactly(ip: string)
    ensures NoBar(ip) <==>
      forall s: Sys, domain: string :: Reachable(s) && Quiet(s) ==> Agree(s, ip, domain)
  {
    if NoBar(ip) {
      forall s: Sys, domain: string | Reachable(s) && Quiet(s) ensures Agree(s, ip, domain) {
        var list: set<string>, steps: seq<Step> :| Barless(steps) && Run(Initial(list), steps, s);
        Convergence(list, steps, s, ip, domain);
      }
    } else {
      var steps, s, domain := Disagreement(ip);
      assert Reachable(s) && Quiet(s) && !Agree(s, ip, domain);
    }
  }

  /** A barred address that is banned makes the answers about another address differ, which has no bar. */
  lemma BarredBan(x: string) returns (steps: seq<Step>, s: Sys, ip: string, domain: string)
    requires !NoBar(x)
    ensures BansOnly(steps, x) && Run(NO_BANS, steps, s) && Quiet(s) && NoBar(ip) && !Agree(s, ip, domain)
  {
    var p := FirstBar(x);
    var c := x[p + 1..];
    ip, domain := x[..p], c + "|d";
    assert x == ip + "|" + c;
    steps := CrossingRuns(x, "d");
    s := OneWorker({x}, [], [], {Key(x, "d"), x});
    assert Key(ip, domain) == Key(x, "d") && |Key(x, "d")| > |x| > |ip|;
    assert HasKey(s.workers[0].list.value, ip, domain) && !HasKey(s.master, ip, domain);
  }

  /** Every address that is banned must be free of bars: banning `x` alone keeps all agreement if and only if it is. */
  lemma BansExactly(x: string)
    ensures NoBar(x) <==>
      forall steps: seq<Step>, s: Sys, ip: string, domain: string ::
        BansOnly(steps, x) && Run(NO_BANS, steps, s) && Quiet(s) && NoBar(ip) ==> Agree(s, ip, domain)
  {
    if NoBar(x) {
      forall steps: seq<Step>, s: Sys, ip: string, domain: string
        | BansOnly(steps, x) && Run(NO_BANS, steps, s) && Quiet(s) && NoBar(ip)
        ensures Agree(s, ip, domain)
      {
        Convergence({}, steps, s, ip, domain);
      }
    } else {
      var steps, s, ip, domain := BarredBan(x);
      assert !Agree(s, ip, domain);
    }
  }

  // ----- The echoes die out -----------------------------------------------------------------------

  predicate IsDelivery(a: Step) {
    a.DeliverDown? || a.DeliverUp?
  }

  /** Whatever is banned, a ban on its way to a worker is one that the master's list covers. */
  ghost predicate Covered(s: Sys) {
    forall w, m :: w in s.workers && m in w.inbox && m.BanIp? ==> Has(s.master, m.ban)
  }

  /** The bans on their way to the master that it does not cover yet. */
  ghost function Unknown(s: Sys): set<Ban> {
    set w, b | w in s.workers && b in w.outbox && !Has(s.master, b) :: b
  }

  /** A message to a worker counts twice, as it may send one back. */
  function Load(ws: seq<Worker>): nat {
    if ws == [] then 0 else 2 * |ws[0].inbox| + |ws[0].outbox| + Load(ws[1..])
  }

  /** What is left to deliver to `n` workers: each unknown ban stands for the broadcast that it will cause. */
  ghost function Weight(s: Sys, n: nat): nat {
    2 * n * |Unknown(s)| + Load(s.workers)
  }

  ghost function Measure(s: Sys): nat {
    Weight(s, |s.workers|)
  }

  /** What a step adds to the weight for `n` workers. */
  function Cost(a: Step, n: nat): nat {
    match a
    case Setup(_) => 2
    case BanAtMaster(_) => 2 * n
    case BanAtWorker(_, _) => 2 * n + 1
    case Reconfigure => 2 * n
    case _ => 0
  }

  lemma CoveredStart(list: set<string>)
    ensures Covered(Initial(list)) && Weight(Initial(list), 0) == 0
  {
    assert Unknown(Initial(list)) == {};
  }

  lemma InvCovers(s: Sys)
    requires Inv(s)
    ensures Covered(s)
  {
    forall w, m | w in s.workers && m in w.inbox && m.BanIp? ensures Has(s.master, m.ban) {
      var i :| 0 <= i < |s.workers| && s.workers[i] == w;
      assert KnownMessage(s.master, m);
    }
  }

  lemma BroadcastCovers(s: Sys, b: Ban)
    requires Covered(s)
    ensures Covered(MasterBan(s, b))
  {
    var t := MasterBan(s, b);
    if !Has(s.master, b) {
      forall w, m | w in t.workers && m in w.inbox && m.BanIp? ensures Has(t.master, m.ban) {
        var i :| 0 <= i < |t.workers| && t.workers[i] == w;
        assert m == BanIp(b) || (s.workers[i] in s.workers && m in s.workers[i].inbox);
      }
    }
  }

  /** A step that sends no ban to a worker. */
  lemma NothingSent(s: Sys, t: Sys)
    requires Covered(s) && t.master == s.master
    requires forall w, m :: w in t.workers && m in w.inbox && m.BanIp? ==> exists v :: v in s.workers && m in v.inbox
    ensures Covered(t)
  {
  }

  lemma CoveredStays(s: Sys, a: Step)
    requires Covered(s) && Enabled(s, a)
    ensures Covered(Next(s, a))
  {
    match a
    case BanAtMaster(b) => BroadcastCovers(s, b);
    case DeliverUp(w) =>
      var popped := s.(workers := s.workers[w := s.workers[w].(outbox := s.workers[w].outbox[1..])]);
      SameInboxes(s, popped);
      BroadcastCovers(popped, s.workers[w].outbox[0]);
    case BanAtWorker(w, b) => SameInboxes(s, Next(s, a));
    case Leave(w) => LeaveCovers(s, w);
    case _ => OthersCover(s, a);
  }

  lemma LeaveCovers(s: Sys, gone: nat)
    requires Covered(s) && Enabled(s, Leave(gone))
    ensures Covered(Next(s, Leave(gone)))
  {
    var t := Next(s, Leave(gone));
    forall w, m | w in t.workers && m in w.inbox && m.BanIp? ensures w in s.workers {
      var i :| 0 <= i < |t.workers| && t.workers[i] == w;
      assert w == s.workers[if i < gone then i else i + 1];
    }
    NothingSent(s, t);
  }

  lemma OthersCover(s: Sys, a: Step)
    requires Covered(s) && Enabled(s, a) && (a.Fork? || a.Setup? || a.Reconfigure? || a.DeliverDown?)
    ensures Covered(Next(s, a))
  {
    var t := Next(s, a);
    forall w, m | w in t.workers && m in w.inbox && m.BanIp? ensures exists v :: v in s.workers && m in v.inbox {
      var i :| 0 <= i < |t.workers| && t.workers[i] == w;
      assert m in s.workers[i].inbox;
    }
    NothingSent(s, t);
  }

  lemma SameInboxes(s: Sys, t: Sys)
    requires Covered(s) && t.master == s.master && |t.workers| == |s.workers|
    requires forall i :: 0 <= i < |t.workers| ==> t.workers[i].inbox == s.workers[i].inbox
    ensures Covered(t)
  {
    forall w, m | w in t.workers && m in w.inbox && m.BanIp? ensures exists v :: v in s.workers && m in v.inbox {
      var i :| 0 <= i < |t.workers| && t.workers[i] == w;
      assert m in s.workers[i].inbox;
    }
    NothingSent(s, t);
  }

  lemma {:induction false} LoadAt(ws: seq<Worker>, i: nat, w: Worker)
    requires i < |ws|
    ensures Load(ws[i := w]) + 2 * |ws[i].inbox| + |ws[i].outbox| == Load(ws) + 2 * |w.inbox| + |w.outbox|
  {
    if i == 0 {
      assert ws[0 := w][1..] == ws[1..];
    } else {
      assert ws[i := w][1..] == ws[1..][i - 1 := w];
      LoadAt(ws[1..], i - 1, w);
    }
  }

  lemma {:induction false} LoadBroadcast(ws: seq<Worker>, m: ToWorker)
    ensures Load(Broadcast(ws, m)) == Load(ws) + 2 * |ws|
  {
    if ws != [] {
      assert Broadcast(ws, m)[1..] == Broadcast(ws[1..], m);
      LoadBroadcast(ws[1..], m);
    }
  }

  lemma {:induction false} LoadCat(a: seq<Worker>, b: seq<Worker>)
    ensures Load(a + b) == Load(a) + Load(b)
  {
    if a == [] {
      assert a + b == b;
    } else {
      assert (a + b)[1..] == a[1..] + b;
      LoadCat(a[1..], b);
    }
  }

  lemma LoadWithout(ws: seq<Worker>, i: nat)
    requires i < |ws|
    ensures Load(ws[..i] + ws[i + 1..]) <= Load(ws)
  {
    LoadCat(ws[..i], ws[i + 1..]);
    LoadCat(ws[..i], ws[i..]);
    assert ws == ws[..i] + ws[i..] && ws[i..][1..] == ws[i + 1..];
  }

  lemma {:induction false} SubsetSize(a: set<Ban>, b: set<Ban>)
    requires a <= b
    ensures |a| <= |b|
  {
    if a != {} {
      var x :| x in a;
      SubsetSize(a - {x}, b - {x});
    }
  }

  /** Every outbox entry of `t` that its master does not cover is one of `s`, or is `more`. */
  ghost predicate Heard(s: Sys, t: Sys, more: set<Ban>) {
    forall i, b :: 0 <= i < |t.workers| && b in t.workers[i].outbox && !Has(t.master, b) ==> b in Unknown(s) + more
  }

  lemma UnknownLess(s: Sys, t: Sys, less: set<Ban>, more: set<Ban>)
    requires Heard(s, t, more) && less <= Unknown(s) && forall b :: b in less ==> Has(t.master, b)
    ensures |Unknown(t)| + |less| <= |Unknown(s)| + |more|
  {
    forall b | b in Unknown(t) ensures b in Unknown(s) - less + more {
      var w :| w in t.workers && b in w.outbox && !Has(t.master, b);
      var i :| 0 <= i < |t.workers| && t.workers[i] == w;
      assert b in t.workers[i].outbox;
    }
    SubsetSize(Unknown(t), Unknown(s) - less + more);
    assert |Unknown(s) - less + more| <= |Unknown(s) - less| + |more|;
    assert |Unknown(s) - less| + |less| == |Unknown(s)|;
  }

  lemma WeightBy(s: Sys, t: Sys, n: nat, less: nat, more: nat)
    requires |Unknown(t)| + less <= |Unknown(s)| + more
    ensures Weight(t, n) + 2 * n * less + Load(s.workers) <= Weight(s, n) + 2 * n * more + Load(t.workers)
  {
    hide Unknown;
    assert 2 * n * (|Unknown(t)| + less) <= 2 * n * (|Unknown(s)| + more);
  }

  /** A step after which no outbox holds anything new. */
  lemma NothingNew(s: Sys, t: Sys, n: nat)
    requires Heard(s, t, {})
    ensures Weight(t, n) + Load(s.workers) <= Weight(s, n) + Load(t.workers)
  {
    hide Weight, Heard, Unknown;
    UnknownLess(s, t, {}, {});
    WeightBy(s, t, n, 0, 0);
  }

  lemma InOutbox(s: Sys, i: nat, b: Ban)
    requires i < |s.workers| && b in s.workers[i].outbox && !Has(s.master, b)
    ensures b in Unknown(s)
  {
  }

  lemma MasterBanWeighs(s: Sys, b: Ban, n: nat)
    requires |s.workers| <= n
    ensures Weight(Next(s, BanAtMaster(b)), n) <= Weight(s, n) + 2 * n
  {
    var t := Next(s, BanAtMaster(b));
    forall i, c | 0 <= i < |t.workers| && c in t.workers[i].outbox && !Has(t.master, c) ensures c in Unknown(s) {
      InOutbox(s, i, c);
    }
    LoadBroadcast(s.workers, BanIp(b));
    NothingNew(s, t, n);
  }

  lemma LocalBanWeighs(s: Sys, w: nat, b: Ban, n: nat)
    requires Enabled(s, BanAtWorker(w, b))
    ensures Weight(Next(s, BanAtWorker(w, b)), n) <= Weight(s, n) + 2 * n + 1
  {
    var t := Next(s, BanAtWorker(w, b));
    forall i, c | 0 <= i < |t.workers| && c in t.workers[i].outbox && !Has(t.master, c) ensures c in Unknown(s) + {b} {
      if c in s.workers[i].outbox {
        InOutbox(s, i, c);
      }
    }
    LoadAt(s.workers, w, LocalBan(s.workers[w], b));
    UnknownLess(s, t, {}, {b});
    WeightBy(s, t, n, 0, 1);
  }

  lemma ForkWeighs(s: Sys, n: nat)
    ensures Weight(Next(s, Fork), n) <= Weight(s, n)
  {
    var t, w := Next(s, Fork), Worker([], [], None);
    forall i, c | 0 <= i < |t.workers| && c in t.workers[i].outbox && !Has(t.master, c) ensures c in Unknown(s) {
      InOutbox(s, i, c);
    }
    LoadCat(s.workers, [w]);
    assert [w][1..] == [];
    NothingNew(s, t, n);
  }

  lemma LeaveWeighs(s: Sys, w: nat, n: nat)
    requires Enabled(s, Leave(w))
    ensures Weight(Next(s, Leave(w)), n) <= Weight(s, n)
  {
    var t := Next(s, Leave(w));
    forall i, c | 0 <= i < |t.workers| && c in t.workers[i].outbox && !Has(t.master, c) ensures c in Unknown(s) {
      InOutbox(s, if i < w then i else i + 1, c);
    }
    LoadWithout(s.workers, w);
    NothingNew(s, t, n);
  }

  /** A snapshot goes to one worker, or to all. */
  lemma SnapshotWeighs(s: Sys, a: Step, n: nat)
    requires Enabled(s, a) && (a.Setup? || a.Reconfigure?) && |s.workers| <= n
    ensures Weight(Next(s, a), n) <= Weight(s, n) + Cost(a, n)
  {
    var t := Next(s, a);
    forall i, c | 0 <= i < |t.workers| && c in t.workers[i].outbox && !Has(t.master, c) ensures c in Unknown(s) {
      InOutbox(s, i, c);
    }
    if a.Setup? {
      LoadAt(s.workers, a.w, Send(s.workers[a.w], Create(s.master)));
    } else {
      LoadBroadcast(s.workers, UpdateConfig(s.master));
    }
    NothingNew(s, t, n);
  }

  lemma DownWeighs(s: Sys, w: nat, n: nat)
    requires Covered(s) && Enabled(s, DeliverDown(w))
    ensures Weight(Next(s, DeliverDown(w)), n) < Weight(s, n)
  {
    var t, x := Next(s, DeliverDown(w)), s.workers[w];
    assert x in s.workers && x.inbox[0] in x.inbox;
    forall i, c | 0 <= i < |t.workers| && c in t.workers[i].outbox && !Has(t.master, c) ensures c in Unknown(s) {
      InOutbox(s, i, c);
    }
    LoadAt(s.workers, w, Receive(x));
    NothingNew(s, t, n);
  }

  lemma UpWeighs(s: Sys, w: nat, n: nat)
    requires Enabled(s, DeliverUp(w)) && |s.workers| <= n
    ensures Weight(Next(s, DeliverUp(w)), n) < Weight(s, n)
  {
    var t, x := Next(s, DeliverUp(w)), s.workers[w];
    var b, x' := x.outbox[0], x.(outbox := x.outbox[1..]);
    var popped := s.workers[w := x'];
    LoadAt(s.workers, w, x');
    forall i, c | 0 <= i < |t.workers| && c in t.workers[i].outbox && !Has(t.master, c) ensures c in Unknown(s) {
      assert t.workers[i].outbox == popped[i].outbox;
      InOutbox(s, i, c);
    }
    if Has(s.master, b) {
      NothingNew(s, t, n);
    } else {
      LoadBroadcast(popped, BanIp(b));
      InOutbox(s, w, b);
      UnknownLess(s, t, {b}, {});
      WeightBy(s, t, n, 1, 0);
    }
  }

  /** A delivery takes some weight away, and any other step adds no more than it costs. */
  lemma StepWeighs(s: Sys, a: Step, n: nat)
    requires Covered(s) && Enabled(s, a) && |s.workers| <= n
    ensures Weight(Next(s, a), n) + (if IsDelivery(a) then 1 else 0) <= Weight(s, n) + Cost(a, n)
  {
    hide Covered, Weight, Next, Enabled;
    match a
    case Fork => ForkWeighs(s, n);
    case Setup(_) => SnapshotWeighs(s, a, n);
    case Leave(w) => LeaveWeighs(s, w, n);
    case BanAtMaster(b) => MasterBanWeighs(s, b, n);
    case BanAtWorker(w, b) => LocalBanWeighs(s, w, b, n);
    case Reconfigure => SnapshotWeighs(s, a, n);
    case DeliverDown(w) => DownWeighs(s, w, n);
    case DeliverUp(w) => UpWeighs(s, w, n);
  }

  /** Whatever was banned, every delivery makes the measure smaller. */
  lemma DeliveryShrinks(s: Sys, a: Step)
    requires Covered(s) && Enabled(s, a) && IsDelivery(a)
    ensures Measure(Next(s, a)) < Measure(s)
  {
    StepWeighs(s, a, |s.workers|);
  }

  function Deliveries(steps: seq<Step>): nat {
    if steps == [] then 0 else (if IsDelivery(steps[0]) then 1 else 0) + Deliveries(steps[1..])
  }

  function Costs(steps: seq<Step>, n: nat): nat {
    if steps == [] then 0 else Cost(steps[0], n) + Costs(steps[1..], n)
  }

  /** There are at most `n` workers at any time of the run. */
  ghost predicate Within(s: Sys, steps: seq<Step>, n: nat)
    decreases steps
  {
    |s.workers| <= n && (steps != [] && Enabled(s, steps[0]) ==> Within(Next(s, steps[0]), steps[1..], n))
  }

  /**
   In every run, whatever is banned and however the steps interleave: each ban at a worker causes at most
   `2n + 1` deliveries, each ban at the master and each new configuration `2n`, and each new list two.
  */
  lemma {:induction false} DeliveriesBounded(s: Sys, steps: seq<Step>, t: Sys, n: nat)
    requires Covered(s) && Run(s, steps, t) && Within(s, steps, n)
    ensures Covered(t) && Deliveries(steps) + Weight(t, n) <= Weight(s, n) + Costs(steps, n)
    decreases steps
  {
    hide Covered, Weight, Next, Enabled, Cost;
    if steps != [] {
      CoveredStays(s, steps[0]);
      StepWeighs(s, steps[0], n);
      DeliveriesBounded(Next(s, steps[0]), steps[1..], t, n);
    }
  }

  lemma DeliveriesFromStart(list: set<string>, steps: seq<Step>, t: Sys, n: nat)
    requires Run(Initial(list), steps, t) && Within(Initial(list), steps, n)
    ensures Deliveries(steps) <= Costs(steps, n)
  {
    hide Covered, Costs, Deliveries;
    CoveredStart(list);
    DeliveriesBounded(Initial(list), steps, t, n);
  }

  /**
   The echo storm dies out: whatever was banned before, there are at most `Measure` deliveries before the
   channels are empty, whatever their order. Then everyone agrees if no banned address had a bar.
  */
  lemma {:induction false} EchoesDieOut(s: Sys, steps: seq<Step>, t: Sys)
    requires Covered(s) && Run(s, steps, t) && forall a :: a in steps ==> IsDelivery(a)
    ensures |steps| + Measure(t) <= Measure(s)
    ensures (forall a :: IsDelivery(a) ==> !Enabled(t, a)) <==> Quiet(t)
    ensures Inv(s) && Quiet(t) ==> forall ip: string, domain: string :: NoBar(ip) ==> Agree(t, ip, domain)
    decreases steps
  {
    if steps != [] {
      CoveredStays(s, steps[0]);
      DeliveryShrinks(s, steps[0]);
      if Inv(s) {
        NextKeeps(s, steps[0]);
      }
      EchoesDieOut(Next(s, steps[0]), steps[1..], t);
    } else {
      StuckIsQuiet(t);
      if Inv(s) && Quiet(t) {
        AllAgree(t);
      }
    }
  }

  lemma AllAgree(t: Sys)
    requires Inv(t) && Quiet(t)
    ensures forall ip: string, domain: string :: NoBar(ip) ==> Agree(t, ip, domain)
  {
    forall ip: string, domain: string | NoBar(ip) ensures Agree(t, ip, domain) {
      forall i | 0 <= i < |t.workers| && t.workers[i].list.Some?
        ensures HasKey(t.workers[i].list.value, ip, domain) <==> HasKey(t.master, ip, domain)
      {
        QuietAgrees(t, i, ip, domain);
      }
    }
  }

  lemma StuckIsQuiet(t: Sys)
    ensures (forall a :: IsDelivery(a) ==> !Enabled(t, a)) <==> Quiet(t)
  {
    if !Quiet(t) {
      var i :| 0 <= i < |t.workers| && (t.workers[i].inbox != [] || t.workers[i].outbox != []);
      assert Enabled(t, DeliverDown(i)) || Enabled(t, DeliverUp(i));
    }
  }

  /** From every state a run of deliveries leads to empty channels. */
  lemma {:induction false} Settles(s: Sys) returns (steps: seq<Step>, t: Sys)
    requires Covered(s)
    ensures Run(s, steps, t) && Quiet(t) && forall a :: a in steps ==> IsDelivery(a)
    decreases Measure(s)
  {
    StuckIsQuiet(s);
    if Quiet(s) {
      steps, t := [], s;
    } else {
      var a :| IsDelivery(a) && Enabled(s, a);
      DeliveryShrinks(s, a);
      CoveredStays(s, a);
      var rest;
      rest, t := Settles(Next(s, a));
      steps := [a] + rest;
      assert steps[0] == a && steps[1..] == rest;
    }
  }
}
