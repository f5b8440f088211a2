/** Every step of the cluster keeps each call in exactly one place, and brings each reply to its caller. */
module IpcProofs {
  import opened Wrappers
  import opened ClusterIpc
  import Decimal

  // ----- The invariant ----------------------------------------------------------------------------

  ghost predicate OnNet(net: seq<Packet>, t: Task) {
    exists i :: 0 <= i < |net| && Carries(net[i]) == Some(t)
  }

  ghost predicate Parked(s: Sys, t: Task) {
    t.callee in s.procs && InQueue(Queue(s.procs[t.callee], t.name), t)
  }

  ghost predicate InQueue(queue: seq<Arrival>, t: Task) {
    exists i :: 0 <= i < |queue| && TaskOf(t.callee, queue[i]) == Some(t)
  }

  ghost predicate Waiting(s: Sys, t: Task) {
    t.caller in s.procs && (t.callee, ReplyKey(t.name, t.cookie)) in s.procs[t.caller].waiting
  }

  /** In how many places a call is. */
  ghost function Places(s: Sys, t: Task): nat {
    (if OnNet(s.net, t) then 1 else 0) + (if Parked(s, t) then 1 else 0) + (if t in s.running then 1 else 0)
  }

  /** Every call is in one place while its caller's table waits for it, and in none otherwise. */
  ghost predicate TaskInv(s: Sys, t: Task) {
    && Places(s, t) == (if Waiting(s, t) then 1 else 0)
    && (Waiting(s, t) ==> t.name != "" && t in s.sent)
    && (t in s.sent ==> t.callee in s.procs && t.caller in s.procs && 0 < t.cookie < s.procs[t.caller].cookie)
    && (Resumed(s, t) ==> t in s.sent && !Waiting(s, t))
    && (t in s.sent ==> Waiting(s, t) || Resumed(s, t) || t in s.expired)
  }

  /** A table entry is the one of its task. */
  ghost predicate ProcInv(me: Pid, p: Proc) {
    && p.cookie > 0
    && (forall e :: e in p.waiting ==>
          var t := p.waiting[e]; t.caller == me && e == (t.callee, ReplyKey(t.name, t.cookie)))
    && (forall n :: n in p.pending ==> n !in p.handlers)
    && (forall n, i :: n in p.pending && 0 <= i < |p.pending[n]| ==> p.pending[n][i].req.name == n)
    && (forall n {:trigger QueueOnce(me, p.pending[n])} :: n in p.pending ==> QueueOnce(me, p.pending[n]))
  }

  ghost predicate Once(net: seq<Packet>) {
    forall i, j :: 0 <= i < j < |net| && Carries(net[i]).Some? ==> Carries(net[i]) != Carries(net[j])
  }

  ghost predicate QueueOnce(q: Pid, queue: seq<Arrival>) {
    forall i, j :: 0 <= i < j < |queue| && TaskOf(q, queue[i]).Some? ==> TaskOf(q, queue[i]) != TaskOf(q, queue[j])
  }

  /** After its name and the dash, a key holds digits only. */
  lemma KeyShape(name: string, cookie: nat, i: nat)
    requires i < |ReplyKey(name, cookie)|
    ensures ReplyKey(name, cookie)[|name|] == '-'
    ensures i > |name| ==> Decimal.IsDigit(ReplyKey(name, cookie)[i])
  {
    if i > |name| {
      assert ReplyKey(name, cookie)[i] == Decimal.ToText(cookie)[i - |name| - 1];
    }
  }

  lemma NamesAlike(n1: string, c1: nat, n2: string, c2: nat)
    requires ReplyKey(n1, c1) == ReplyKey(n2, c2)
    ensures |n1| >= |n2|
  {
    KeyShape(n1, c1, |n2|);
    KeyShape(n2, c2, |n2|);
  }

  /** Two reply keys are equal only for the same name and cookie. */
  lemma ReplyKeyInjective(n1: string, c1: nat, n2: string, c2: nat)
    requires ReplyKey(n1, c1) == ReplyKey(n2, c2)
    ensures n1 == n2 && c1 == c2
  {
    NamesAlike(n1, c1, n2, c2);
    NamesAlike(n2, c2, n1, c1);
    var k := ReplyKey(n1, c1);
    assert n1 == k[..|n1|] == n2;
    assert Decimal.ToText(c1) == k[|n1| + 1..] == Decimal.ToText(c2);
    Decimal.FromToText(c1);
    Decimal.FromToText(c2);
  }

  ghost predicate Inv(s: Sys) {
    && Once(s.net)
    && (forall k :: k in s.net ==> k.from in s.procs && k.to in s.procs)
    && (forall q {:trigger ProcInv(q, s.procs[q])} :: q in s.procs ==> ProcInv(q, s.procs[q]))
    && (forall t {:trigger TaskInv(s, t)} :: TaskInv(s, t))
  }

  /** What is run is what arrived, in order and once each; what is left over is parked. */
  ghost predicate InOrder(s: Sys) {
    forall q, n :: q in s.procs ==> Log(s.arrived, q, n) == Log(s.ran, q, n) + Queue(s.procs[q], n)
  }

  /** A call carries the arguments its caller gave. */
  predicate Asked(s: Sys, q: Pid, m: Arrival) {
    match TaskOf(q, m)
    case None => true
    case Some(t) => t in s.sent && m.req.args == s.sent[t]
  }

  ghost predicate ArgsKept(s: Sys) {
    && (forall k :: k in s.net && k.body.Req? ==> Asked(s, k.to, Arrival(k.from, k.body.req)))
    && (forall q, n, m :: q in s.procs && m in Queue(s.procs[q], n) ==> Asked(s, q, m))
    && (forall t :: t in s.running ==> t in s.sent && s.running[t] == s.sent[t])
  }

  /** A reply on its way is the one the handler gave. */
  predicate Faithful(s: Sys, k: Packet) {
    k.body.Rep? ==>
      var t := Task(k.to, k.from, k.body.rep.name, k.body.rep.cookie);
      t in s.answered && s.answered[t] == k.body.rep
  }

  /** A caller is resumed at most once, with the reply that its own call got. */
  ghost predicate RepliesKept(s: Sys) {
    && (forall k :: k in s.net ==> Faithful(s, k))
    && (forall i :: 0 <= i < |s.resumed| ==>
          s.resumed[i].0 in s.answered && s.answered[s.resumed[i].0] == s.resumed[i].1)
    && (forall i, j :: 0 <= i < j < |s.resumed| ==> s.resumed[i].0 != s.resumed[j].0)
  }

  /** The request of a call is still under way. */
  ghost predicate Requested(net: seq<Packet>, t: Task) {
    exists i :: 0 <= i < |net| && net[i].body.Req? && Carries(net[i]) == Some(t)
  }

  /** What arrived at `q` for `n` was asked for under that name, and no call arrived twice or will do so. */
  ghost predicate ArrivedOnce(s: Sys, q: Pid, n: string) {
    && QueueOnce(q, Log(s.arrived, q, n))
    && (forall m :: m in Log(s.arrived, q, n) ==>
          m.req.name == n && Asked(s, q, m) && (TaskOf(q, m).Some? ==> !Requested(s.net, TaskOf(q, m).value)))
  }

  ghost predicate ArrivalsKept(s: Sys) {
    forall q, n {:trigger ArrivedOnce(s, q, n)} :: ArrivedOnce(s, q, n)
  }

  // ----- Steps keep the invariant -----------------------------------------------------------------

  lemma NetAppend(net: seq<Packet>, k: Packet)
    requires Once(net) && (Carries(k).Some? ==> !OnNet(net, Carries(k).value))
    ensures Once(net + [k])
    ensures forall t: Task :: OnNet(net + [k], t) <==> OnNet(net, t) || Carries(k) == Some(t)
  {
    forall t: Task ensures OnNet(net + [k], t) <==> OnNet(net, t) || Carries(k) == Some(t) {
      assert (net + [k])[|net|] == k;
      if OnNet(net, t) {
        var i :| 0 <= i < |net| && Carries(net[i]) == Some(t);
        assert Carries((net + [k])[i]) == Some(t);
      }
    }
  }

  lemma NetRemove(net: seq<Packet>, i: nat)
    requires Once(net) && i < |net|
    ensures Once(net[..i] + net[i + 1..])
    ensures forall t: Task :: OnNet(net[..i] + net[i + 1..], t) <==> OnNet(net, t) && Carries(net[i]) != Some(t)
  {
    var rest := net[..i] + net[i + 1..];
    forall t: Task ensures OnNet(rest, t) <==> OnNet(net, t) && Carries(net[i]) != Some(t) {
      if OnNet(net, t) && Carries(net[i]) != Some(t) {
        var j :| 0 <= j < |net| && Carries(net[j]) == Some(t);
        assert Carries(rest[if j < i then j else j - 1]) == Some(t);
      }
      if OnNet(rest, t) {
        var j :| 0 <= j < |rest| && Carries(rest[j]) == Some(t);
        assert Carries(net[if j < i then j else j + 1]) == Some(t);
      }
    }
  }

  /** The table entry that makes a task wait is its own. */
  lemma WaitingEntry(s: Sys, t: Task)
    requires Inv(s) && Waiting(s, t)
    ensures s.procs[t.caller].waiting[(t.callee, ReplyKey(t.name, t.cookie))] == t
  {
    var e := (t.callee, ReplyKey(t.name, t.cookie));
    assert ProcInv(t.caller, s.procs[t.caller]);
    var u := s.procs[t.caller].waiting[e];
    ReplyKeyInjective(t.name, t.cookie, u.name, u.cookie);
  }

  lemma CallKeeps(s: Sys, p: Pid, q: Pid, name: string, args: int)
    requires Inv(s) && Enabled(s, DoCall(p, q, name, args))
    ensures Inv(Next(s, DoCall(p, q, name, args)).value)
  {
    hide TaskInv, ProcInv, OnNet;
    var s' := Next(s, DoCall(p, q, name, args)).value;
    var t0 := Task(p, q, name, s.procs[p].cookie);
    assert TaskInv(s, t0) && ProcInv(p, s.procs[p]);
    CookiePositive(p, s.procs[p]);
    FreshTask(s, t0);
    NetAppend(s.net, Packet(p, q, Req(Call(s.procs[p], p, q, name, args).1)));
    CallProc(s.procs[p], p, q, name, args);
    forall t ensures TaskInv(s', t) {
      assert TaskInv(s, t);
      CallTask(s, p, q, name, args, t);
    }
    forall r | r in s'.procs ensures ProcInv(r, s'.procs[r]) {
      assert r != p ==> ProcInv(r, s.procs[r]);
    }
  }

  /** The next cookie of a process belongs to no call yet. */
  lemma FreshTask(s: Sys, t: Task)
    requires TaskInv(s, t) && t.caller in s.procs && t.cookie >= s.procs[t.caller].cookie
    ensures t !in s.sent && !Waiting(s, t) && !OnNet(s.net, t) && !Parked(s, t) && t !in s.running && !Resumed(s, t)
  {
  }

  lemma CallProc(p: Proc, me: Pid, to: Pid, name: string, args: int)
    requires ProcInv(me, p)
    ensures ProcInv(me, Call(p, me, to, name, args).0)
  {
  }

  lemma CallTask(s: Sys, p: Pid, q: Pid, name: string, args: int, t: Task)
    requires Enabled(s, DoCall(p, q, name, args)) && TaskInv(s, t) && s.procs[p].cookie > 0
    requires var t0 := Task(p, q, name, s.procs[p].cookie);
      && t0 !in s.running && !Parked(s, t0) && !OnNet(s.net, t0) && !Resumed(s, t0)
      && (OnNet(Next(s, DoCall(p, q, name, args)).value.net, t) <==> OnNet(s.net, t) || t == t0)
    ensures TaskInv(Next(s, DoCall(p, q, name, args)).value, t)
  {
    var s', t0 := Next(s, DoCall(p, q, name, args)).value, Task(p, q, name, s.procs[p].cookie);
    assert Parked(s', t) <==> Parked(s, t);
    assert Resumed(s', t) <==> Resumed(s, t);
    if t.caller == p && t.callee == q && ReplyKey(t.name, t.cookie) == ReplyKey(name, s.procs[p].cookie) {
      ReplyKeyInjective(t.name, t.cookie, name, s.procs[p].cookie);
      assert t == t0;
    }
    assert Waiting(s', t) <==> Waiting(s, t) || t == t0;
  }

  lemma CookiePositive(me: Pid, p: Proc)
    requires ProcInv(me, p)
    ensures p.cookie > 0
  {
  }

  lemma PostKeeps(s: Sys, p: Pid, q: Pid, name: string, args: int)
    requires Inv(s) && Enabled(s, DoPost(p, q, name, args))
    ensures Inv(Next(s, DoPost(p, q, name, args)).value)
  {
    hide ProcInv, OnNet;
    var s' := Next(s, DoPost(p, q, name, args)).value;
    NetAppend(s.net, Packet(p, q, Req(Request(name, args, None))));
    forall t ensures TaskInv(s', t) {
      assert TaskInv(s, t);
      SamePlaces(s, s', t);
    }
  }

  /** A step that leaves the tables, the calls on the net and the running handlers alone. */
  lemma SamePlaces(s: Sys, s': Sys, t: Task)
    requires TaskInv(s, t) && s'.procs.Keys == s.procs.Keys && s'.running == s.running
    requires forall p :: p in s.procs ==>
      && s'.procs[p].pending == s.procs[p].pending && s'.procs[p].waiting == s.procs[p].waiting
      && s'.procs[p].cookie == s.procs[p].cookie
    requires s'.sent == s.sent && s'.resumed == s.resumed && s.expired <= s'.expired
      && (OnNet(s'.net, t) <==> OnNet(s.net, t))
    ensures TaskInv(s', t)
  {
    assert Parked(s', t) <==> Parked(s, t);
    assert Resumed(s', t) <==> Resumed(s, t);
  }

  lemma RemoveKeeps(s: Sys, q: Pid, name: string)
    requires Inv(s) && Enabled(s, Remove(q, name))
    ensures Inv(Next(s, Remove(q, name)).value)
  {
    hide TaskInv, ProcInv;
    var s' := Next(s, Remove(q, name)).value;
    forall t ensures TaskInv(s', t) {
      assert TaskInv(s, t);
      SamePlaces(s, s', t);
    }
    forall r | r in s'.procs ensures ProcInv(r, s'.procs[r]) {
      assert ProcInv(r, s.procs[r]);
      RemovedProc(r, s.procs[r], name);
    }
  }

  lemma RemovedProc(me: Pid, p: Proc, name: string)
    requires ProcInv(me, p)
    ensures ProcInv(me, p.(handlers := p.handlers - {name}))
  {
  }

  lemma TimeOutKeeps(s: Sys, u: Task)
    requires Inv(s) && Enabled(s, TimeOut(u))
    ensures Inv(Next(s, TimeOut(u)).value)
  {
    var s' := Next(s, TimeOut(u)).value;
    forall t ensures TaskInv(s', t) {
      assert TaskInv(s, t);
      SamePlaces(s, s', t);
    }
  }

  /** The call a packet or a queue entry is about is the only one of its kind. */
  lemma OnNetAt(net: seq<Packet>, i: nat)
    requires i < |net| && Carries(net[i]).Some?
    ensures OnNet(net, Carries(net[i]).value)
  {
  }

  lemma OnlyOnNet(s: Sys, t: Task)
    requires TaskInv(s, t) && OnNet(s.net, t)
    ensures Waiting(s, t) && !Parked(s, t) && t !in s.running && t.name != "" && t.cookie > 0
    ensures t.caller in s.procs && !Resumed(s, t) && t in s.sent
  {
  }

  lemma FinishKeeps(s: Sys, u: Task, error: bool, value: int)
    requires Inv(s) && Enabled(s, Finish(u, error, value))
    ensures Inv(Next(s, Finish(u, error, value)).value)
  {
    hide ProcInv, OnNet;
    var s' := Next(s, Finish(u, error, value)).value;
    assert TaskInv(s, u);
    NetAppend(s.net, Packet(u.callee, u.caller, Rep(Reply(u.name, u.cookie, error, value))));
    forall t ensures TaskInv(s', t) {
      assert TaskInv(s, t);
      assert Parked(s', t) <==> Parked(s, t);
      assert Resumed(s', t) <==> Resumed(s, t);
    }
  }

  /** A reply finds the task that waits for it, so no process exits. */
  lemma ReplyExpected(s: Sys, i: nat)
    requires Inv(s) && Enabled(s, Receive(i)) && s.net[i].body.Rep?
    ensures var k := s.net[i];
      var t := Task(k.to, k.from, k.body.rep.name, k.body.rep.cookie);
      && k.to in s.procs && TaskInv(s, t) && OnNet(s.net, t) && Carries(k) == Some(t)
      && OnResponse(s.procs[k.to], k.from, k.body.rep).Some?
      && OnResponse(s.procs[k.to], k.from, k.body.rep).value.1 == t
  {
    var k := s.net[i];
    var t := Task(k.to, k.from, k.body.rep.name, k.body.rep.cookie);
    OnNetAt(s.net, i);
    assert TaskInv(s, t);
    OnlyOnNet(s, t);
    WaitingEntry(s, t);
  }

  lemma ReplyKeeps(s: Sys, i: nat)
    requires Inv(s) && Enabled(s, Receive(i)) && s.net[i].body.Rep?
    ensures Next(s, Receive(i)).Some? && Inv(Next(s, Receive(i)).value)
  {
    hide TaskInv, ProcInv, OnNet;
    ReplyExpected(s, i);
    NetRemove(s.net, i);
    var k, s' := s.net[i], Next(s, Receive(i)).value;
    var u := Task(k.to, k.from, k.body.rep.name, k.body.rep.cookie);
    OnlyOnNet(s, u);
    forall t ensures TaskInv(s', t) {
      assert TaskInv(s, t);
      ReplyTask(s, s', u, t);
    }
    forall r | r in s'.procs ensures ProcInv(r, s'.procs[r]) {
      assert ProcInv(r, s.procs[r]);
      ReplyProc(r, s.procs[r], s'.procs[r]);
    }
  }

  lemma ReplyProc(me: Pid, p: Proc, p': Proc)
    requires ProcInv(me, p) && p'.pending == p.pending && p'.handlers == p.handlers && p'.cookie == p.cookie
    requires forall e :: e in p'.waiting ==> e in p.waiting && p'.waiting[e] == p.waiting[e]
    ensures ProcInv(me, p')
  {
  }

  lemma ReplyTask(s: Sys, s': Sys, u: Task, t: Task)
    requires TaskInv(s, t) && TaskInv(s, u) && OnNet(s.net, u) && u.caller in s.procs && !Resumed(s, u) && u in s.sent
    requires OnNet(s'.net, t) <==> OnNet(s.net, t) && t != u
    requires s'.running == s.running && s'.sent == s.sent && s'.expired == s.expired
    requires (s'.resumed == s.resumed && u in s.expired) || exists r :: s'.resumed == s.resumed + [(u, r)]
    requires var p := s.procs[u.caller];
      s'.procs == s.procs[u.caller := p.(waiting := p.waiting - {(u.callee, ReplyKey(u.name, u.cookie))})]
    ensures TaskInv(s', t)
  {
    assert Parked(s', t) <==> Parked(s, t);
    assert Resumed(s', t) ==> Resumed(s, t) || t == u;
    if s'.resumed != s.resumed {
      var r :| s'.resumed == s.resumed + [(u, r)];
      assert s'.resumed[|s.resumed|].0 == u;
      forall i | 0 <= i < |s.resumed| ensures s'.resumed[i] == s.resumed[i] {
      }
    }
    assert Resumed(s, t) ==> Resumed(s', t);
    assert Waiting(s', t) <==> Waiting(s, t) && t != u by {
      if t.caller == u.caller && t.callee == u.callee && ReplyKey(t.name, t.cookie) == ReplyKey(u.name, u.cookie) {
        ReplyKeyInjective(t.name, t.cookie, u.name, u.cookie);
      }
    }
  }

  // ----- Arrivals and handlers --------------------------------------------------------------------

  lemma QueueSnoc(q: Pid, queue: seq<Arrival>, m: Arrival)
    requires QueueOnce(q, queue)
    requires TaskOf(q, m).Some? ==> !InQueue(queue, TaskOf(q, m).value)
    ensures QueueOnce(q, queue + [m])
    ensures forall t: Task :: t.callee == q ==>
      (InQueue(queue + [m], t) <==> InQueue(queue, t) || TaskOf(q, m) == Some(t))
  {
    forall t: Task | t.callee == q ensures InQueue(queue + [m], t) <==> InQueue(queue, t) || TaskOf(q, m) == Some(t) {
      assert (queue + [m])[|queue|] == m;
      if InQueue(queue, t) {
        var i :| 0 <= i < |queue| && TaskOf(q, queue[i]) == Some(t);
        assert TaskOf(q, (queue + [m])[i]) == Some(t);
      }
    }
  }

  lemma ParkProc(me: Pid, p: Proc, m: Arrival)
    requires ProcInv(me, p) && m.req.name !in p.handlers
    requires TaskOf(me, m).Some? ==> !InQueue(Queue(p, m.req.name), TaskOf(me, m).value)
    ensures ProcInv(me, OnCall(p, m).0)
    ensures forall t: Task :: t.callee == me ==>
      (InQueue(Queue(OnCall(p, m).0, t.name), t) <==> InQueue(Queue(p, t.name), t) || TaskOf(me, m) == Some(t))
  {
    var n := m.req.name;
    assert n in p.pending ==> QueueOnce(me, p.pending[n]);
    QueueSnoc(me, Queue(p, n), m);
  }

  lemma ArrivalKeeps(s: Sys, i: nat)
    requires Inv(s) && Enabled(s, Receive(i)) && s.net[i].body.Req?
    ensures Next(s, Receive(i)).Some? && Inv(Next(s, Receive(i)).value)
  {
    hide TaskInv, ProcInv, OnNet, InQueue, Once, Started;
    var k, s' := s.net[i], Next(s, Receive(i)).value;
    var m, c := Arrival(k.from, k.body.req), Carries(k);
    NetRemove(s.net, i);
    assert ProcInv(k.to, s.procs[k.to]);
    if c.Some? {
      OnNetAt(s.net, i);
      assert TaskInv(s, c.value);
      OnlyOnNet(s, c.value);
    }
    ArrivalProc(k.to, s.procs[k.to], m);
    StartedOne(s.running, k.to, m);
    forall t ensures TaskInv(s', t) {
      assert TaskInv(s, t);
      ArrivalTask(s, s', k.to, m, t);
    }
    forall r | r in s'.procs ensures ProcInv(r, s'.procs[r]) {
      assert ProcInv(r, s.procs[r]);
    }
  }

  lemma ArrivalProc(me: Pid, p: Proc, m: Arrival)
    requires ProcInv(me, p)
    requires TaskOf(me, m).Some? ==> !InQueue(Queue(p, m.req.name), TaskOf(me, m).value)
    ensures var (p', ran) := OnCall(p, m);
      && ProcInv(me, p') && p'.waiting == p.waiting && p'.cookie == p.cookie
      && ran == (if m.req.name in p.handlers then [m] else [])
      && (forall t: Task :: t.callee == me ==>
            (InQueue(Queue(p', t.name), t) <==>
              InQueue(Queue(p, t.name), t) || (m.req.name !in p.handlers && TaskOf(me, m) == Some(t))))
  {
    if m.req.name !in p.handlers {
      ParkProc(me, p, m);
    } else {
      assert OnCall(p, m).0.pending == p.pending;
      forall n | n in p.pending ensures QueueOnce(me, p.pending[n]) {
      }
    }
  }

  lemma StartedOne(running: map<Task, int>, q: Pid, m: Arrival)
    ensures Started(running, q, []) == running
    ensures Started(running, q, [m]) == match TaskOf(q, m) case Some(t) => running[t := m.req.args] case None => running
  {
    assert [m][1..] == [];
  }

  lemma ArrivalTask(s: Sys, s': Sys, q: Pid, m: Arrival, t: Task)
    requires TaskInv(s, t) && q in s.procs && s'.sent == s.sent && s'.resumed == s.resumed && s'.expired == s.expired
    requires var c, here := TaskOf(q, m), m.req.name in s.procs[q].handlers;
      && q in s'.procs && s'.procs == s.procs[q := s'.procs[q]]
      && s'.procs[q].waiting == s.procs[q].waiting && s'.procs[q].cookie == s.procs[q].cookie
      && (c == Some(t) ==> OnNet(s.net, t))
      && (OnNet(s'.net, t) <==> OnNet(s.net, t) && c != Some(t))
      && (t.callee == q ==>
            (InQueue(Queue(s'.procs[q], t.name), t) <==>
              InQueue(Queue(s.procs[q], t.name), t) || (!here && c == Some(t))))
      && (t in s'.running <==> t in s.running || (here && c == Some(t)))
    ensures TaskInv(s', t)
  {
    assert Resumed(s', t) <==> Resumed(s, t);
    assert TaskOf(q, m) == Some(t) ==> t.callee == q;
    assert t.callee != q ==> (Parked(s', t) <==> Parked(s, t));
  }

  /** Running a queue: a handler that removes itself takes the first entry and the rest is parked again. */
  lemma {:induction false} OnCallsRuns(p: Proc, name: string, queue: seq<Arrival>)
    requires name in p.handlers && forall m :: m in queue ==> m.req.name == name
    requires name !in p.pending
    ensures OnCalls(p, queue) ==
      if p.handlers[name] && queue != [] then
        (p.(handlers := p.handlers - {name},
         pending := if |queue| == 1 then p.pending else p.pending[name := queue[1..]]),
         queue[..1])
      else (p, queue)
    decreases queue
  {
    if queue != [] {
      if p.handlers[name] {
        var p1 := p.(handlers := p.handlers - {name});
        OnCallsParks(p1, name, queue[1..]);
        assert Queue(p1, name) + queue[1..] == queue[1..];
        assert [queue[0]] + [] == queue[..1];
      } else {
        OnCallsRuns(p, name, queue[1..]);
        assert [queue[0]] + queue[1..] == queue;
      }
    }
  }

  lemma {:induction false} OnCallsParks(p: Proc, name: string, queue: seq<Arrival>)
    requires name !in p.handlers && forall m :: m in queue ==> m.req.name == name
    ensures OnCalls(p, queue) ==
      (if queue == [] then p else p.(pending := p.pending[name := Queue(p, name) + queue]), [])
    decreases queue
  {
    if queue != [] {
      var p1, none: seq<Arrival> := OnCall(p, queue[0]).0, [];
      assert none + none == none;
      OnCallsParks(p1, name, queue[1..]);
      ParkedAgain(p, name, queue);
    }
  }

  lemma ParkedAgain(p: Proc, name: string, queue: seq<Arrival>)
    requires queue != []
    ensures var p1 := p.(pending := p.pending[name := Queue(p, name) + [queue[0]]]);
      (if |queue| == 1 then p1 else p1.(pending := p1.pending[name := Queue(p1, name) + queue[1..]])) ==
        p.(pending := p.pending[name := Queue(p, name) + queue])
  {
    var before := Queue(p, name);
    assert before + [queue[0]] + queue[1..] == before + queue;
    assert |queue| == 1 ==> queue == [queue[0]];
    assert p.pending[name := before + [queue[0]]][name := before + queue] == p.pending[name := before + queue];
  }

  /** What installing a handler does: the first entry or all of the queue is run, the rest stays parked. */
  lemma InstallRuns(me: Pid, p: Proc, name: string, once: bool)
    requires ProcInv(me, p) && name !in p.handlers
    ensures AddHandler(p, name, once).Some?
    ensures var (p', ran) := AddHandler(p, name, once).value;
      && ProcInv(me, p') && p'.waiting == p.waiting && p'.cookie == p.cookie
      && Queue(p, name) == ran + Queue(p', name) && (forall n :: n != name ==> Queue(p', n) == Queue(p, n))
      && (if once then |ran| == (if Queue(p, name) == [] then 0 else 1) else Queue(p', name) == [])
  {
    var queue, p0 := Queue(p, name), p.(handlers := p.handlers[name := once], pending := p.pending - {name});
    OnCallsRuns(p0, name, queue);
    assert queue == [] || queue == queue[..1] + queue[1..];
    assert queue + [] == queue;
    InstallProc(me, p, p0, OnCalls(p0, queue).0, name, queue);
  }

  lemma InstallProc(me: Pid, p: Proc, p0: Proc, p': Proc, name: string, queue: seq<Arrival>)
    requires ProcInv(me, p) && name !in p.handlers && queue == Queue(p, name)
    requires p0.pending == p.pending - {name} && p0.handlers.Keys == p.handlers.Keys + {name}
    requires p'.waiting == p.waiting && p'.cookie == p.cookie
    requires
      || p' == p0.(waiting := p.waiting, cookie := p.cookie)
      || (p'.handlers.Keys == p.handlers.Keys && p'.pending == p0.pending)
      || (p'.handlers.Keys == p.handlers.Keys && |queue| > 1 && p'.pending == p0.pending[name := queue[1..]])
    ensures ProcInv(me, p')
  {
    forall n | n in p'.pending ensures QueueOnce(me, p'.pending[n]) {
      assert n in p.pending && QueueOnce(me, p.pending[n]);
    }
  }

  lemma {:induction false} StartedAll(running: map<Task, int>, q: Pid, ran: seq<Arrival>)
    ensures forall t: Task :: t in Started(running, q, ran) <==> t in running || (t.callee == q && InQueue(ran, t))
    decreases ran
  {
    if ran != [] {
      var running1 := match TaskOf(q, ran[0]) case Some(t) => running[t := ran[0].req.args] case None => running;
      StartedAll(running1, q, ran[1..]);
      forall t: Task ensures t in Started(running, q, ran) <==> t in running || (t.callee == q && InQueue(ran, t)) {
        InQueueFirst(ran, t);
      }
    }
  }

  lemma InQueueFirst(queue: seq<Arrival>, t: Task)
    requires queue != []
    ensures InQueue(queue, t) <==> TaskOf(t.callee, queue[0]) == Some(t) || InQueue(queue[1..], t)
  {
    if InQueue(queue[1..], t) {
      var i :| 0 <= i < |queue[1..]| && TaskOf(t.callee, queue[1..][i]) == Some(t);
      assert TaskOf(t.callee, queue[i + 1]) == Some(t);
    }
    if InQueue(queue, t) {
      var i :| 0 <= i < |queue| && TaskOf(t.callee, queue[i]) == Some(t);
      assert i > 0 ==> queue[1..][i - 1] == queue[i];
    }
  }

  lemma BothParts(q: Pid, front: seq<Arrival>, back: seq<Arrival>, t: Task)
    requires t.callee == q && InQueue(front, t) && InQueue(back, t)
    ensures !QueueOnce(q, front + back)
  {
    var all := front + back;
    var i :| 0 <= i < |front| && TaskOf(q, front[i]) == Some(t);
    var j :| 0 <= j < |back| && TaskOf(q, back[j]) == Some(t);
    assert all[i] == front[i] && all[|front| + j] == back[j];
  }

  /** The entries of a queue are distinct calls, so a call is in one part of a split queue or the other. */
  lemma QueueSplits(q: Pid, front: seq<Arrival>, back: seq<Arrival>, t: Task)
    requires QueueOnce(q, front + back) && t.callee == q
    ensures InQueue(front + back, t) <==> InQueue(front, t) || InQueue(back, t)
    ensures !(InQueue(front, t) && InQueue(back, t))
  {
    var all := front + back;
    if InQueue(front, t) {
      var i :| 0 <= i < |front| && TaskOf(q, front[i]) == Some(t);
      assert TaskOf(q, all[i]) == Some(t);
    }
    if InQueue(front, t) && InQueue(back, t) {
      BothParts(q, front, back, t);
    }
    if InQueue(back, t) {
      var j :| 0 <= j < |back| && TaskOf(q, back[j]) == Some(t);
      assert TaskOf(q, all[|front| + j]) == Some(t);
    }
    if InQueue(all, t) {
      var i :| 0 <= i < |all| && TaskOf(q, all[i]) == Some(t);
      assert if i < |front| then all[i] == front[i] else all[i] == back[i - |front|];
    }
  }

  lemma InstallKeeps(s: Sys, q: Pid, name: string, once: bool)
    requires Inv(s) && Enabled(s, Install(q, name, once))
    ensures Inv(Next(s, Install(q, name, once)).value)
  {
    hide ProcInv, OnNet;
    var s' := Next(s, Install(q, name, once)).value;
    var (p', ran) := AddHandler(s.procs[q], name, once).value;
    assert ProcInv(q, s.procs[q]);
    InstallRuns(q, s.procs[q], name, once);
    StartedAll(s.running, q, ran);
    QueueIsOnce(q, s.procs[q], name);
    forall t ensures TaskInv(s', t) {
      assert TaskInv(s, t);
      if t.callee == q && t.name == name {
        QueueSplits(q, ran, Queue(p', name), t);
      }
      if t.callee == q && InQueue(ran, t) {
        NamesInQueue(q, s.procs[q], name, ran, t);
      }
      InstallTask(s, s', q, name, ran, t);
    }
  }

  lemma QueueIsOnce(me: Pid, p: Proc, name: string)
    requires ProcInv(me, p)
    ensures QueueOnce(me, Queue(p, name))
  {
    assert name in p.pending ==> QueueOnce(me, p.pending[name]);
  }

  /** A queue holds calls of its own name only. */
  lemma NamesInQueue(me: Pid, p: Proc, name: string, ran: seq<Arrival>, t: Task)
    requires ProcInv(me, p) && ran <= Queue(p, name) && t.callee == me && InQueue(ran, t)
    ensures t.name == name
  {
    var i :| 0 <= i < |ran| && TaskOf(me, ran[i]) == Some(t);
    assert Queue(p, name)[i] == ran[i];
  }

  lemma InstallTask(s: Sys, s': Sys, q: Pid, name: string, ran: seq<Arrival>, t: Task)
    requires TaskInv(s, t) && q in s.procs && q in s'.procs && s'.procs == s.procs[q := s'.procs[q]]
    requires s'.net == s.net && s'.sent == s.sent && s'.resumed == s.resumed && s'.expired == s.expired
    requires s'.procs[q].waiting == s.procs[q].waiting && s'.procs[q].cookie == s.procs[q].cookie
    requires t in s'.running <==> t in s.running || (t.callee == q && InQueue(ran, t))
    requires t.callee == q && InQueue(ran, t) ==> t.name == name
    requires t.callee == q && t.name != name ==> Queue(s'.procs[q], t.name) == Queue(s.procs[q], t.name)
    requires t.callee == q && t.name == name ==>
      && (InQueue(Queue(s.procs[q], name), t) <==> InQueue(ran, t) || InQueue(Queue(s'.procs[q], name), t))
      && !(InQueue(ran, t) && InQueue(Queue(s'.procs[q], name), t))
    ensures TaskInv(s', t)
  {
    assert Resumed(s', t) <==> Resumed(s, t);
    assert t.callee != q ==> (Parked(s', t) <==> Parked(s, t));
  }

  lemma NextKeeps(s: Sys, a: Step)
    requires Inv(s) && Enabled(s, a)
    ensures Next(s, a).Some? && Inv(Next(s, a).value)
  {
    hide Inv;
    match a
    case DoCall(p, q, name, args) => CallKeeps(s, p, q, name, args);
    case DoPost(p, q, name, args) => PostKeeps(s, p, q, name, args);
    case Receive(i) => if s.net[i].body.Req? { ArrivalKeeps(s, i); } else { ReplyKeeps(s, i); }
    case Finish(t, error, value) => FinishKeeps(s, t, error, value);
    case Install(q, name, once) => InstallKeeps(s, q, name, once);
    case Remove(q, name) => RemoveKeeps(s, q, name);
    case TimeOut(t) => TimeOutKeeps(s, t);
  }

  // ----- History ----------------------------------------------------------------------------------

  lemma SameQueues(s: Sys, s': Sys)
    requires InOrder(s) && s'.arrived == s.arrived && s'.ran == s.ran && s'.procs.Keys == s.procs.Keys
    requires forall r, n :: r in s.procs ==> Queue(s'.procs[r], n) == Queue(s.procs[r], n)
    ensures InOrder(s')
  {
    forall q, n | q in s'.procs ensures Log(s'.arrived, q, n) == Log(s'.ran, q, n) + Queue(s'.procs[q], n) {
      assert Log(s.arrived, q, n) == Log(s.ran, q, n) + Queue(s.procs[q], n);
    }
  }

  lemma RequestInOrder(s: Sys, i: nat)
    requires Inv(s) && InOrder(s) && Enabled(s, Receive(i)) && s.net[i].body.Req?
    ensures InOrder(Next(s, Receive(i)).value)
  {
    var k := s.net[i];
    assert k in s.net && ProcInv(k.to, s.procs[k.to]);
    hide Inv, InOrder, ProcInv;
    ArrivalInOrder(s, Next(s, Receive(i)).value, k.to, Arrival(k.from, k.body.req));
  }

  lemma ReplyInOrder(s: Sys, i: nat)
    requires InOrder(s) && Enabled(s, Receive(i)) && s.net[i].body.Rep? && Next(s, Receive(i)).Some?
    ensures InOrder(Next(s, Receive(i)).value)
  {
    hide InOrder;
    SameQueues(s, Next(s, Receive(i)).value);
  }

  lemma InstallationInOrder(s: Sys, q: Pid, name: string, once: bool)
    requires Inv(s) && InOrder(s) && Enabled(s, Install(q, name, once))
    ensures InOrder(Next(s, Install(q, name, once)).value)
  {
    assert ProcInv(q, s.procs[q]);
    hide Inv, InOrder, ProcInv;
    InstallRuns(q, s.procs[q], name, once);
    InstallInOrder(s, Next(s, Install(q, name, once)).value, q, name);
  }

  lemma OthersInOrder(s: Sys, a: Step)
    requires InOrder(s) && Enabled(s, a) && !a.Receive? && !a.Install?
    ensures InOrder(Next(s, a).value)
  {
    hide InOrder;
    SameQueues(s, Next(s, a).value);
  }

  lemma NextInOrder(s: Sys, a: Step)
    requires Inv(s) && InOrder(s) && Enabled(s, a) && Next(s, a).Some?
    ensures InOrder(Next(s, a).value)
  {
    hide Inv, InOrder, Next;
    match a
    case Receive(i) => if s.net[i].body.Req? { RequestInOrder(s, i); } else { ReplyInOrder(s, i); }
    case Install(q, name, once) => InstallationInOrder(s, q, name, once);
    case _ => OthersInOrder(s, a);
  }

  lemma ArrivalInOrder(s: Sys, s': Sys, q: Pid, m: Arrival)
    requires InOrder(s) && q in s.procs && ProcInv(q, s.procs[q])
    requires var (q', ran) := OnCall(s.procs[q], m);
      && s'.procs == s.procs[q := q']
      && s'.arrived == s.arrived[(q, m.req.name) := Log(s.arrived, q, m.req.name) + [m]]
      && s'.ran == s.ran[(q, m.req.name) := Log(s.ran, q, m.req.name) + ran]
    ensures InOrder(s')
  {
    var n := m.req.name;
    var before, run, queue := Log(s.arrived, q, n), Log(s.ran, q, n), Queue(s.procs[q], n);
    assert before == run + queue;
    assert before + [m] == run + (queue + [m]);
    assert queue == [] ==> before + [m] == run + [m] + [];
    assert run + [] + (queue + [m]) == run + (queue + [m]);
    forall r, l | r in s'.procs ensures Log(s'.arrived, r, l) == Log(s'.ran, r, l) + Queue(s'.procs[r], l) {
      if (r, l) != (q, n) {
        assert Log(s.arrived, r, l) == Log(s.ran, r, l) + Queue(s.procs[r], l);
      }
    }
  }

  lemma InstallInOrder(s: Sys, s': Sys, q: Pid, name: string)
    requires InOrder(s) && q in s.procs && q in s'.procs && s'.procs == s.procs[q := s'.procs[q]]
      && s'.arrived == s.arrived
    requires exists ran ::
      && s'.ran == s.ran[(q, name) := Log(s.ran, q, name) + ran]
      && Queue(s.procs[q], name) == ran + Queue(s'.procs[q], name)
    requires forall n :: n != name ==> Queue(s'.procs[q], n) == Queue(s.procs[q], n)
    ensures InOrder(s')
  {
    var ran :| s'.ran == s.ran[(q, name) := Log(s.ran, q, name) + ran]
      && Queue(s.procs[q], name) == ran + Queue(s'.procs[q], name);
    forall r, n | r in s'.procs ensures Log(s'.arrived, r, n) == Log(s'.ran, r, n) + Queue(s'.procs[r], n) {
      assert Log(s.arrived, r, n) == Log(s.ran, r, n) + Queue(s.procs[r], n);
      if (r, n) == (q, name) {
        assert Log(s.ran, q, name) + (ran + Queue(s'.procs[q], name))
          == Log(s.ran, q, name) + ran + Queue(s'.procs[q], name);
      }
    }
  }

  lemma AskedOnceMore(s: Sys, s': Sys, q: Pid, m: Arrival, t0: Task, args: int)
    requires Asked(s, q, m) && t0 !in s.sent && s'.sent == s.sent[t0 := args]
    ensures Asked(s', q, m)
  {
  }

  lemma CallArgs(s: Sys, p: Pid, q: Pid, name: string, args: int)
    requires Inv(s) && ArgsKept(s) && Enabled(s, DoCall(p, q, name, args))
    ensures ArgsKept(Next(s, DoCall(p, q, name, args)).value)
  {
    var s', t0 := Next(s, DoCall(p, q, name, args)).value, Task(p, q, name, s.procs[p].cookie);
    assert TaskInv(s, t0);
    FreshTask(s, t0);
    hide Inv;
    forall k | k in s'.net && k.body.Req? ensures Asked(s', k.to, Arrival(k.from, k.body.req)) {
      if k in s.net {
        AskedOnceMore(s, s', k.to, Arrival(k.from, k.body.req), t0, args);
      }
    }
    forall r, n, m | r in s'.procs && m in Queue(s'.procs[r], n) ensures Asked(s', r, m) {
      assert Queue(s'.procs[r], n) == Queue(s.procs[r], n);
      AskedOnceMore(s, s', r, m, t0, args);
    }
  }

  lemma ArrivalArgs(s: Sys, i: nat)
    requires Inv(s) && ArgsKept(s) && Enabled(s, Receive(i)) && s.net[i].body.Req?
    ensures ArgsKept(Next(s, Receive(i)).value)
  {
    var s', k := Next(s, Receive(i)).value, s.net[i];
    var m := Arrival(k.from, k.body.req);
    assert k in s.net && Asked(s, k.to, m);
    StartedOne(s.running, k.to, m);
    forall x | x in s'.net ensures x in s.net {
    }
    forall r, n, x | r in s'.procs && x in Queue(s'.procs[r], n) ensures Asked(s', r, x) {
      assert x in Queue(s.procs[r], n) || (r == k.to && x == m);
    }
  }

  lemma {:induction false} StartedArgs(s: Sys, running: map<Task, int>, q: Pid, ran: seq<Arrival>)
    requires forall m :: m in ran ==> Asked(s, q, m)
    requires forall t :: t in running ==> t in s.sent && running[t] == s.sent[t]
    ensures forall t :: t in Started(running, q, ran) ==> t in s.sent && Started(running, q, ran)[t] == s.sent[t]
    decreases ran
  {
    if ran != [] {
      assert Asked(s, q, ran[0]);
      var now := match TaskOf(q, ran[0]) case Some(t) => running[t := ran[0].req.args] case None => running;
      StartedArgs(s, now, q, ran[1..]);
    }
  }

  lemma InstallArgs(s: Sys, q: Pid, name: string, once: bool)
    requires Inv(s) && ArgsKept(s) && Enabled(s, Install(q, name, once))
    ensures ArgsKept(Next(s, Install(q, name, once)).value)
  {
    var s' := Next(s, Install(q, name, once)).value;
    var (p', ran) := AddHandler(s.procs[q], name, once).value;
    assert ProcInv(q, s.procs[q]);
    InstallRuns(q, s.procs[q], name, once);
    hide Inv, ProcInv;
    assert Queue(s.procs[q], name) == ran + Queue(p', name);
    assert forall m :: m in ran ==> m in Queue(s.procs[q], name);
    StartedArgs(s, s.running, q, ran);
    forall r, n, x | r in s'.procs && x in Queue(s'.procs[r], n) ensures Asked(s', r, x) {
      assert x in Queue(s.procs[r], n);
    }
  }

  lemma NothingAsked(s: Sys, s': Sys)
    requires ArgsKept(s) && s'.sent == s.sent && s'.procs.Keys == s.procs.Keys
    requires forall k :: k in s'.net && k.body.Req? ==> k in s.net || k.body.req.cookie.None?
    requires forall q, n :: q in s.procs ==> Queue(s'.procs[q], n) == Queue(s.procs[q], n)
    requires forall t :: t in s'.running ==> t in s.running && s'.running[t] == s.running[t]
    ensures ArgsKept(s')
  {
    forall k | k in s'.net && k.body.Req? ensures Asked(s', k.to, Arrival(k.from, k.body.req)) {
      if k in s.net {
        assert Asked(s, k.to, Arrival(k.from, k.body.req));
      }
    }
    forall q, n, m | q in s'.procs && m in Queue(s'.procs[q], n) ensures Asked(s', q, m) {
      assert Asked(s, q, m);
    }
  }

  lemma ReplyArgs(s: Sys, i: nat)
    requires ArgsKept(s) && Enabled(s, Receive(i)) && s.net[i].body.Rep? && Next(s, Receive(i)).Some?
    ensures ArgsKept(Next(s, Receive(i)).value)
  {
    hide ArgsKept;
    NothingAsked(s, Next(s, Receive(i)).value);
  }

  lemma OtherArgs(s: Sys, a: Step)
    requires ArgsKept(s) && Enabled(s, a) && !a.Receive? && !a.Install? && !a.DoCall?
    ensures ArgsKept(Next(s, a).value)
  {
    hide ArgsKept;
    NothingAsked(s, Next(s, a).value);
  }

  lemma NextArgs(s: Sys, a: Step)
    requires Inv(s) && ArgsKept(s) && Enabled(s, a) && Next(s, a).Some?
    ensures ArgsKept(Next(s, a).value)
  {
    hide Inv, ArgsKept, Next;
    match a
    case DoCall(p, q, name, args) => CallArgs(s, p, q, name, args);
    case Receive(i) => if s.net[i].body.Req? { ArrivalArgs(s, i); } else { ReplyArgs(s, i); }
    case Install(q, name, once) => InstallArgs(s, q, name, once);
    case _ => OtherArgs(s, a);
  }

  /** No arrival, and no request on the net but of new calls. */
  lemma NothingArrives(s: Sys, s': Sys)
    requires ArrivalsKept(s) && s'.arrived == s.arrived && s.sent.Keys <= s'.sent.Keys
    requires forall t :: t in s.sent ==> s'.sent[t] == s.sent[t] && (Requested(s'.net, t) ==> Requested(s.net, t))
    ensures ArrivalsKept(s')
  {
    forall q, n ensures ArrivedOnce(s', q, n) {
      assert ArrivedOnce(s, q, n);
    }
  }

  lemma RequestedMore(net: seq<Packet>, k: Packet, t: Task)
    ensures Requested(net + [k], t) <==> Requested(net, t) || (k.body.Req? && Carries(k) == Some(t))
  {
    assert (net + [k])[|net|] == k;
    if Requested(net, t) {
      var i :| 0 <= i < |net| && net[i].body.Req? && Carries(net[i]) == Some(t);
      assert (net + [k])[i] == net[i];
    }
  }

  lemma RequestedLess(net: seq<Packet>, i: nat, t: Task)
    requires i < |net| && Once(net)
    ensures Requested(net[..i] + net[i + 1..], t) ==> Requested(net, t) && Carries(net[i]) != Some(t)
  {
    var rest := net[..i] + net[i + 1..];
    if Requested(rest, t) {
      var j :| 0 <= j < |rest| && rest[j].body.Req? && Carries(rest[j]) == Some(t);
      assert net[if j < i then j else j + 1] == rest[j];
    }
  }

  lemma CallArrivals(s: Sys, p: Pid, q: Pid, name: string, args: int)
    requires Inv(s) && ArrivalsKept(s) && Enabled(s, DoCall(p, q, name, args))
    ensures ArrivalsKept(Next(s, DoCall(p, q, name, args)).value)
  {
    var s', t0 := Next(s, DoCall(p, q, name, args)).value, Task(p, q, name, s.procs[p].cookie);
    assert TaskInv(s, t0);
    FreshTask(s, t0);
    hide Inv, ArrivalsKept, TaskInv, Requested;
    forall t | t in s.sent ensures Requested(s'.net, t) ==> Requested(s.net, t) {
      RequestedMore(s.net, Packet(p, q, Req(Call(s.procs[p], p, q, name, args).1)), t);
    }
    NothingArrives(s, s');
  }

  lemma RequestArrivals(s: Sys, i: nat)
    requires Inv(s) && ArgsKept(s) && ArrivalsKept(s) && Enabled(s, Receive(i)) && s.net[i].body.Req?
    ensures ArrivalsKept(Next(s, Receive(i)).value)
  {
    var k, s' := s.net[i], Next(s, Receive(i)).value;
    var m := Arrival(k.from, k.body.req);
    assert k in s.net && Asked(s, k.to, m) && k.to in s.procs && Once(s.net);
    assert Carries(k).Some? ==> Requested(s.net, Carries(k).value);
    hide Inv, ArgsKept, Requested, Once;
    forall q, n ensures ArrivedOnce(s', q, n) {
      assert ArrivedOnce(s, q, n);
      OneArrives(s, s', i, m, q, n);
    }
  }

  lemma OneArrives(s: Sys, s': Sys, i: nat, m: Arrival, q: Pid, n: string)
    requires ArrivedOnce(s, q, n) && i < |s.net| && Once(s.net)
      && s.net[i] == Packet(s.net[i].from, s.net[i].to, Req(m.req))
    requires m.sender == s.net[i].from && Asked(s, s.net[i].to, m) && s'.sent == s.sent
    requires Carries(s.net[i]).Some? ==> Requested(s.net, Carries(s.net[i]).value)
    requires s'.net == s.net[..i] + s.net[i + 1..]
    requires var e := (s.net[i].to, m.req.name); s'.arrived == s.arrived[e := Log(s.arrived, e.0, e.1) + [m]]
    ensures ArrivedOnce(s', q, n)
  {
    hide Requested, Once;
    var log := Log(s.arrived, q, n);
    if q == s.net[i].to && n == m.req.name && TaskOf(q, m).Some? {
      assert !InQueue(log, TaskOf(q, m).value);
      QueueSnoc(q, log, m);
    }
    forall x | x in Log(s'.arrived, q, n) && TaskOf(q, x).Some? ensures !Requested(s'.net, TaskOf(q, x).value) {
      RequestedLess(s.net, i, TaskOf(q, x).value);
    }
  }

  lemma OtherArrivals(s: Sys, a: Step)
    requires Inv(s) && ArrivalsKept(s) && Enabled(s, a) && Next(s, a).Some? && !a.DoCall?
    requires a.Receive? ==> s.net[a.i].body.Rep?
    ensures ArrivalsKept(Next(s, a).value)
  {
    var s' := Next(s, a).value;
    assert Once(s.net);
    hide Inv, ArrivalsKept, Requested, Once;
    forall t | t in s.sent ensures Requested(s'.net, t) ==> Requested(s.net, t) {
      match a
      case DoPost(p, q, name, args) => RequestedMore(s.net, Packet(p, q, Req(Request(name, args, None))), t);
      case Receive(i) => RequestedLess(s.net, i, t);
      case Finish(u, error, value) =>
        RequestedMore(s.net, Packet(u.callee, u.caller, Rep(Reply(u.name, u.cookie, error, value))), t);
      case _ =>
    }
    NothingArrives(s, s');
  }

  lemma NextArrivals(s: Sys, a: Step)
    requires Inv(s) && ArgsKept(s) && ArrivalsKept(s) && Enabled(s, a) && Next(s, a).Some?
    ensures ArrivalsKept(Next(s, a).value)
  {
    hide Inv, ArgsKept, ArrivalsKept, Next;
    match a
    case DoCall(p, q, name, args) => CallArrivals(s, p, q, name, args);
    case Receive(i) => if s.net[i].body.Req? { RequestArrivals(s, i); } else { OtherArrivals(s, a); }
    case _ => OtherArrivals(s, a);
  }

  lemma FinishReplies(s: Sys, u: Task, error: bool, value: int)
    requires Inv(s) && RepliesKept(s) && Enabled(s, Finish(u, error, value))
    ensures RepliesKept(Next(s, Finish(u, error, value)).value)
  {
    var s' := Next(s, Finish(u, error, value)).value;
    assert TaskInv(s, u);
    forall k | k in s'.net ensures Faithful(s', k) {
      if k in s.net && k.body.Rep? {
        var i :| 0 <= i < |s.net| && s.net[i] == k;
        OnNetAt(s.net, i);
        assert Faithful(s, k);
      }
    }
    forall i | 0 <= i < |s.resumed| ensures s.resumed[i].0 != u {
      assert s.resumed[i].0 == u ==> Resumed(s, u);
    }
  }

  lemma ReplyReplies(s: Sys, i: nat)
    requires Inv(s) && RepliesKept(s) && Enabled(s, Receive(i)) && s.net[i].body.Rep?
    ensures Next(s, Receive(i)).Some? && RepliesKept(Next(s, Receive(i)).value)
  {
    ReplyExpected(s, i);
    var k, s' := s.net[i], Next(s, Receive(i)).value;
    var u := Task(k.to, k.from, k.body.rep.name, k.body.rep.cookie);
    OnlyOnNet(s, u);
    assert k in s.net && Faithful(s, k);
    assert forall x :: x in s'.net ==> x in s.net;
    forall j | 0 <= j < |s.resumed| ensures s.resumed[j].0 != u {
      assert s.resumed[j].0 == u ==> Resumed(s, u);
    }
  }

  lemma NextReplies(s: Sys, a: Step)
    requires Inv(s) && RepliesKept(s) && Enabled(s, a) && Next(s, a).Some?
    ensures RepliesKept(Next(s, a).value)
  {
    var s' := Next(s, a).value;
    match a
    case DoCall(p, q, name, args) =>
    case DoPost(p, q, name, args) =>
    case Receive(i) =>
      if s.net[i].body.Req? {
        assert forall x :: x in s'.net ==> x in s.net;
      } else {
        ReplyReplies(s, i);
      }
    case Finish(t, error, value) => FinishReplies(s, t, error, value);
    case Install(q, name, once) =>
    case Remove(q, name) =>
    case TimeOut(t) =>
  }

  // ----- Runs -------------------------------------------------------------------------------------

  ghost predicate Kept(s: Sys) {
    Inv(s) && InOrder(s) && ArgsKept(s) && RepliesKept(s) && ArrivalsKept(s)
  }

  function Fresh(procs: set<Pid>): Sys {
    Sys(map p | p in procs :: NEW_PROC, [], map[], map[], map[], [], {}, map[], map[])
  }

  lemma FreshKept(procs: set<Pid>)
    ensures Kept(Fresh(procs))
  {
  }

  lemma {:induction false} RunKeeps(s: Sys, steps: seq<Step>, t: Sys)
    requires Kept(s) && Run(s, steps, t)
    ensures Kept(t)
    decreases steps
  {
    hide Inv, InOrder, ArgsKept, RepliesKept, ArrivalsKept, Enabled, Next;
    if steps != [] {
      NextKeeps(s, steps[0]);
      NextInOrder(s, steps[0]);
      NextArgs(s, steps[0]);
      NextReplies(s, steps[0]);
      NextArrivals(s, steps[0]);
      RunKeeps(Next(s, steps[0]).value, steps[1..], t);
    }
  }

  /**
   In every state that a run reaches: no step makes a process exit for a reply that nobody waits for;
   each call that is waited for is in exactly one place and any other call in none, and the net and the
   queues hold no call twice; each call that was sent is waited for, was answered to its caller, or its
   caller gave up.
  */
  lemma CallsConserved(procs: set<Pid>, steps: seq<Step>, s: Sys)
    requires Run(Fresh(procs), steps, s)
    ensures forall a :: Enabled(s, a) ==> Next(s, a).Some?
    ensures forall t {:trigger Waiting(s, t)} ::
      && Places(s, t) == (if Waiting(s, t) then 1 else 0)
      && (t in s.sent ==> Waiting(s, t) || Resumed(s, t) || t in s.expired)
      && (Resumed(s, t) ==> !Waiting(s, t))
    ensures Once(s.net)
    ensures forall q, n :: q in s.procs ==>
      QueueOnce(q, Queue(s.procs[q], n)) && forall m :: m in Queue(s.procs[q], n) ==> m.req.name == n
  {
    FreshKept(procs);
    RunKeeps(Fresh(procs), steps, s);
    forall a | Enabled(s, a) ensures Next(s, a).Some? {
      NextKeeps(s, a);
    }
    forall t
      ensures Places(s, t) == if Waiting(s, t) then 1 else 0
      ensures t in s.sent ==> Waiting(s, t) || Resumed(s, t) || t in s.expired
      ensures Resumed(s, t) ==> !Waiting(s, t)
    {
      assert TaskInv(s, t);
    }
    forall q, n | q in s.procs
      ensures QueueOnce(q, Queue(s.procs[q], n)) && forall m :: m in Queue(s.procs[q], n) ==> m.req.name == n
    {
      assert ProcInv(q, s.procs[q]);
      QueueIsOnce(q, s.procs[q], n);
    }
  }

  /**
   In every state that a run reaches: each caller was resumed at most once, with the reply that the
   handler gave to its own call; a handler runs with the arguments of the call; for each process and
   handler name, what was run is what arrived, once each and in order, except for what is still parked,
   and nothing is parked while a handler is installed; what arrived was asked for, with its arguments
   and under that name; and no call arrived twice, so none is run twice, or run and still parked.
  */
  lemma RepliesAndOrder(procs: set<Pid>, steps: seq<Step>, s: Sys)
    requires Run(Fresh(procs), steps, s)
    ensures forall i, j :: 0 <= i < j < |s.resumed| ==> s.resumed[i].0 != s.resumed[j].0
    ensures forall i :: 0 <= i < |s.resumed| ==>
      s.resumed[i].0 in s.answered && s.answered[s.resumed[i].0] == s.resumed[i].1
    ensures forall t :: t in s.running ==> t in s.sent && s.running[t] == s.sent[t]
    ensures forall q, n :: q in s.procs ==> Log(s.arrived, q, n) == Log(s.ran, q, n) + Queue(s.procs[q], n)
    ensures forall q, n :: q in s.procs && n in s.procs[q].handlers ==> Queue(s.procs[q], n) == []
    ensures forall q, n, m :: m in Log(s.arrived, q, n) ==> m.req.name == n && Asked(s, q, m)
    ensures forall q, n :: q in s.procs ==> QueueOnce(q, Log(s.ran, q, n) + Queue(s.procs[q], n))
  {
    FreshKept(procs);
    RunKeeps(Fresh(procs), steps, s);
    forall q, n | q in s.procs && n in s.procs[q].handlers ensures Queue(s.procs[q], n) == [] {
      assert ProcInv(q, s.procs[q]);
    }
    hide Inv, ArgsKept;
    forall q, n, m | m in Log(s.arrived, q, n) ensures m.req.name == n && Asked(s, q, m) {
      assert ArrivedOnce(s, q, n);
    }
    forall q, n | q in s.procs ensures QueueOnce(q, Log(s.ran, q, n) + Queue(s.procs[q], n)) {
      assert ArrivedOnce(s, q, n);
    }
  }
}
