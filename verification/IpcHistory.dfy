/** What the steps of a run say about its last state: where each request is, in order, and who gave each reply. */
module IpcHistory {
  import opened Wrappers
  import opened ClusterIpc
  import opened IpcProofs

  // ----- Requests ---------------------------------------------------------------------------------

  /** What a caller asks for: the arguments, and whether it waits for a reply. */
  datatype Ask = Ask(args: int, waits: bool)

  function AskOf(r: Request): Ask {
    Ask(r.args, r.cookie.Some?)
  }

  /** What `p` asks of the handler `n` of `q` in a step. */
  function AskedBy(a: Step, p: Pid, q: Pid, n: string): seq<Ask> {
    match a
    case DoCall(p1, q1, n1, args) => if p1 == p && q1 == q && n1 == n then [Ask(args, true)] else []
    case DoPost(p1, q1, n1, args) => if p1 == p && q1 == q && n1 == n then [Ask(args, false)] else []
    case _ => []
  }

  function AskedIn(steps: seq<Step>, p: Pid, q: Pid, n: string): seq<Ask> {
    if steps == [] then [] else AskedBy(steps[0], p, q, n) + AskedIn(steps[1..], p, q, n)
  }

  /** What of `p` is among the arrivals, in order. */
  function From(log: seq<Arrival>, p: Pid): seq<Ask> {
    if log == [] then []
    else
      var m := log[|log| - 1];
      From(log[..|log| - 1], p) + if m.sender == p then [AskOf(m.req)] else []
  }

  /** What `p` has sent to the handler `n` of `q` and is still under way, in order. */
  function Travelling(net: seq<Packet>, p: Pid, q: Pid, n: string): seq<Ask> {
    if net == [] then [] else Load(net[0], p, q, n) + Travelling(net[1..], p, q, n)
  }

  function Load(k: Packet, p: Pid, q: Pid, n: string): seq<Ask> {
    if k.from == p && k.to == q && k.body.Req? && k.body.req.name == n then [AskOf(k.body.req)] else []
  }

  /** All that `p` has asked of the handler `n` of `q`, as far as it has come. */
  function Flow(s: Sys, p: Pid, q: Pid, n: string): seq<Ask> {
    From(Log(s.arrived, q, n), p) + Travelling(s.net, p, q, n)
  }

  lemma FromSnoc(log: seq<Arrival>, m: Arrival, p: Pid)
    ensures From(log + [m], p) == From(log, p) + if m.sender == p then [AskOf(m.req)] else []
  {
    assert (log + [m])[..|log|] == log;
  }

  lemma {:induction false} FromCat(a: seq<Arrival>, b: seq<Arrival>, p: Pid)
    ensures From(a + b, p) == From(a, p) + From(b, p)
  {
    hide From;
    if b == [] {
      FromNothing(p);
      assert a + b == a && From(a, p) + [] == From(a, p);
    } else {
      var front, last := b[..|b| - 1], b[|b| - 1];
      FromCat(a, front, p);
      FromSnoc(a + front, last, p);
      FromSnoc(front, last, p);
      assert a + b == a + front + [last] && b == front + [last];
    }
  }

  lemma FromNothing(p: Pid)
    ensures From([], p) == []
  {
  }

  lemma {:induction false} TravellingCat(a: seq<Packet>, b: seq<Packet>, p: Pid, q: Pid, n: string)
    ensures Travelling(a + b, p, q, n) == Travelling(a, p, q, n) + Travelling(b, p, q, n)
  {
    if a == [] {
      assert a + b == b;
    } else {
      var load, tail := Load(a[0], p, q, n), Travelling(a[1..], p, q, n);
      assert (a + b)[1..] == a[1..] + b;
      hide Load;
      TravellingCat(a[1..], b, p, q, n);
      Regroup(load, tail, Travelling(b, p, q, n));
    }
  }

  lemma TravellingOne(k: Packet, p: Pid, q: Pid, n: string)
    ensures Travelling([k], p, q, n) == Load(k, p, q, n)
  {
    assert [k][1..] == [] && Load(k, p, q, n) + [] == Load(k, p, q, n);
  }

  /** Nothing in the channel from `p` to `q`. */
  lemma {:induction false} NoneTravelling(net: seq<Packet>, p: Pid, q: Pid, n: string)
    requires forall i :: 0 <= i < |net| ==> net[i].from != p || net[i].to != q
    ensures Travelling(net, p, q, n) == []
  {
    if net != [] {
      NoneTravelling(net[1..], p, q, n);
      assert net[0].from != p || net[0].to != q;
    }
  }

  lemma SentOne(s: Sys, s': Sys, k: Packet, p: Pid, q: Pid, n: string)
    requires s'.arrived == s.arrived && s'.net == s.net + [k]
    ensures Flow(s', p, q, n) == Flow(s, p, q, n) + Load(k, p, q, n)
  {
    hide From, Travelling;
    TravellingCat(s.net, [k], p, q, n);
    TravellingOne(k, p, q, n);
    var before := From(Log(s.arrived, q, n), p);
    Regroup(before, Travelling(s.net, p, q, n), Load(k, p, q, n));
  }

  /** Taking the first packet of a channel from the net. */
  lemma TakenOne(net: seq<Packet>, i: nat, p: Pid, q: Pid, n: string)
    requires i < |net| && forall j :: 0 <= j < i ==> net[j].from != net[i].from || net[j].to != net[i].to
    ensures Travelling(net, p, q, n) == Load(net[i], p, q, n) + Travelling(net[..i] + net[i + 1..], p, q, n)
  {
    hide Travelling;
    var front, k, back := net[..i], net[i], net[i + 1..];
    assert net == front + ([k] + back);
    TravellingCat(front, [k] + back, p, q, n);
    TravellingCat([k], back, p, q, n);
    TravellingCat(front, back, p, q, n);
    TravellingOne(k, p, q, n);
    if k.from == p && k.to == q {
      NoneTravelling(front, p, q, n);
    } else {
      assert Load(k, p, q, n) == [];
    }
  }

  /** What receiving a packet does to the net and to the arrivals. */
  lemma ReceiveTakes(s: Sys, i: nat)
    requires Inv(s) && Enabled(s, Receive(i)) && Next(s, Receive(i)).Some?
    ensures var k, s' := s.net[i], Next(s, Receive(i)).value;
      && s'.net == s.net[..i] + s.net[i + 1..]
      && s'.arrived ==
        if k.body.Req? then
          var e := (k.to, k.body.req.name);
          s.arrived[e := Log(s.arrived, e.0, e.1) + [Arrival(k.from, k.body.req)]]
        else s.arrived
  {
    assert s.net[i] in s.net && s.net[i].to in s.procs;
    hide Inv, OnCall;
  }

  /** The load of a packet that is taken ends the log it goes to, and no other. */
  lemma LogGets(s: Sys, i: nat, p: Pid, q: Pid, n: string)
    requires Inv(s) && Enabled(s, Receive(i)) && Next(s, Receive(i)).Some?
    ensures From(Log(Next(s, Receive(i)).value.arrived, q, n), p) ==
      From(Log(s.arrived, q, n), p) + Load(s.net[i], p, q, n)
  {
    ReceiveTakes(s, i);
    var k := s.net[i];
    if k.body.Req? {
      LogSnoc(s.arrived, k.to, Arrival(k.from, k.body.req), p, q, n);
    }
    hide Inv, From, Next, Log;
    assert From(Log(s.arrived, q, n), p) + [] == From(Log(s.arrived, q, n), p);
  }

  lemma LogSnoc(log: map<(Pid, string), seq<Arrival>>, to: Pid, m: Arrival, p: Pid, q: Pid, n: string)
    ensures From(Log(log[(to, m.req.name) := Log(log, to, m.req.name) + [m]], q, n), p) ==
      From(Log(log, q, n), p) + if m.sender == p && to == q && m.req.name == n then [AskOf(m.req)] else []
  {
    hide From;
    FromSnoc(Log(log, q, n), m, p);
    assert From(Log(log, q, n), p) + [] == From(Log(log, q, n), p);
  }

  lemma ReceivedOne(s: Sys, i: nat, p: Pid, q: Pid, n: string)
    requires Inv(s) && Enabled(s, Receive(i)) && Next(s, Receive(i)).Some?
    ensures Flow(Next(s, Receive(i)).value, p, q, n) == Flow(s, p, q, n)
  {
    ReceiveTakes(s, i);
    LogGets(s, i, p, q, n);
    hide Inv, From, Travelling, Next, Load, Log;
    TakenOne(s.net, i, p, q, n);
    Regroup(From(Log(s.arrived, q, n), p), Load(s.net[i], p, q, n), Travelling(s.net[..i] + s.net[i + 1..], p, q, n));
  }

  lemma Regroup(a: seq<Ask>, b: seq<Ask>, c: seq<Ask>)
    ensures a + (b + c) == a + b + c
  {
  }

  lemma StepFlows(s: Sys, a: Step, p: Pid, q: Pid, n: string)
    requires Inv(s) && Enabled(s, a) && Next(s, a).Some?
    ensures Flow(Next(s, a).value, p, q, n) == Flow(s, p, q, n) + AskedBy(a, p, q, n)
  {
    hide Inv, From, Travelling;
    var s' := Next(s, a).value;
    match a
    case DoCall(p1, q1, n1, args) => SentOne(s, s', s'.net[|s.net|], p, q, n);
    case DoPost(p1, q1, n1, args) => SentOne(s, s', s'.net[|s.net|], p, q, n);
    case Finish(t, error, value) => SentOne(s, s', s'.net[|s.net|], p, q, n);
    case Receive(i) => ReceivedOne(s, i, p, q, n);
    case _ =>
  }

  lemma {:induction false} RunFlows(s: Sys, steps: seq<Step>, t: Sys, p: Pid, q: Pid, n: string)
    requires Inv(s) && Run(s, steps, t)
    ensures Flow(t, p, q, n) == Flow(s, p, q, n) + AskedIn(steps, p, q, n)
    decreases steps
  {
    hide Inv, Next, Enabled, Flow, AskedBy;
    if steps != [] {
      var s1 := Next(s, steps[0]).value;
      NextKeeps(s, steps[0]);
      StepFlows(s, steps[0], p, q, n);
      RunFlows(s1, steps[1..], t, p, q, n);
      var flow, first, rest := Flow(s, p, q, n), AskedBy(steps[0], p, q, n), AskedIn(steps[1..], p, q, n);
      Regroup(flow, first, rest);
    }
  }

  /**
   In every run, for each two processes and each handler name: what the first asked of the second, calls and
   posts with their arguments, is in order what was run, then what is parked, then what is under way. Nothing
   is lost, changed, repeated or overtaken.
  */
  lemma AsksInOrder(procs: set<Pid>, steps: seq<Step>, s: Sys, p: Pid, q: Pid, n: string)
    requires Run(Fresh(procs), steps, s) && q in procs
    ensures q in s.procs
    ensures AskedIn(steps, p, q, n) ==
      From(Log(s.ran, q, n), p) + From(Queue(s.procs[q], n), p) + Travelling(s.net, p, q, n)
  {
    FreshKept(procs);
    SameProcs(Fresh(procs), steps, s);
    RepliesAndOrder(procs, steps, s);
    FreshFlow(procs, p, q, n);
    hide Inv, Run, From, Travelling, Log, Queue, Asked, QueueOnce;
    RunFlows(Fresh(procs), steps, s, p, q, n);
    FromCat(Log(s.ran, q, n), Queue(s.procs[q], n), p);
  }

  lemma FreshFlow(procs: set<Pid>, p: Pid, q: Pid, n: string)
    ensures forall more: seq<Ask> :: Flow(Fresh(procs), p, q, n) + more == more
  {
    assert Flow(Fresh(procs), p, q, n) == [];
  }

  lemma {:induction false} SameProcs(s: Sys, steps: seq<Step>, t: Sys)
    requires Run(s, steps, t)
    ensures t.procs.Keys == s.procs.Keys
    decreases steps
  {
    if steps != [] {
      SameProcsNext(s, steps[0]);
      hide Next;
      SameProcs(Next(s, steps[0]).value, steps[1..], t);
    }
  }

  lemma SameProcsNext(s: Sys, a: Step)
    requires Enabled(s, a) && Next(s, a).Some?
    ensures Next(s, a).value.procs.Keys == s.procs.Keys
  {
  }

  // ----- Replies ----------------------------------------------------------------------------------

  /** What a handler gave to a call. */
  predicate Gave(a: Step, t: Task, r: Reply) {
    a == Finish(t, r.error, r.value) && r.name == t.name && r.cookie == t.cookie
  }

  lemma StepAnswers(s: Sys, a: Step, t: Task)
    requires Enabled(s, a) && Next(s, a).Some?
    ensures t in Next(s, a).value.answered ==>
      (t in s.answered && Next(s, a).value.answered[t] == s.answered[t]) || Gave(a, t, Next(s, a).value.answered[t])
  {
  }

  lemma {:induction false} RunAnswers(s: Sys, steps: seq<Step>, g: Sys, t: Task)
    requires Run(s, steps, g) && t in g.answered
    ensures (t in s.answered && g.answered[t] == s.answered[t]) ||
      exists k :: 0 <= k < |steps| && Gave(steps[k], t, g.answered[t])
    decreases steps
  {
    hide Enabled, Next, Gave;
    if steps != [] {
      var s1 := Next(s, steps[0]).value;
      StepAnswers(s, steps[0], t);
      RunAnswers(s1, steps[1..], g, t);
      if k :| 0 <= k < |steps[1..]| && Gave(steps[1..][k], t, g.answered[t]) {
        assert Gave(steps[k + 1], t, g.answered[t]);
      }
    }
  }

  /**
   In every run, whoever resumes does so with what the handler of its own call gave, an error or a value; and
   each reply under way is what the handler of its call gave.
  */
  lemma RepliesGiven(procs: set<Pid>, steps: seq<Step>, s: Sys)
    requires Run(Fresh(procs), steps, s)
    ensures forall i :: 0 <= i < |s.resumed| ==>
      exists k :: 0 <= k < |steps| && Gave(steps[k], s.resumed[i].0, s.resumed[i].1)
    ensures forall i :: 0 <= i < |s.net| && s.net[i].body.Rep? ==>
      exists k :: 0 <= k < |steps| && Gave(steps[k], Carries(s.net[i]).value, s.net[i].body.rep)
  {
    FreshKept(procs);
    RunKeeps(Fresh(procs), steps, s);
    hide Inv, InOrder, ArgsKept, ArrivalsKept;
    forall i | 0 <= i < |s.resumed|
      ensures exists k :: 0 <= k < |steps| && Gave(steps[k], s.resumed[i].0, s.resumed[i].1)
    {
      RunAnswers(Fresh(procs), steps, s, s.resumed[i].0);
    }
    forall i | 0 <= i < |s.net| && s.net[i].body.Rep?
      ensures exists k :: 0 <= k < |steps| && Gave(steps[k], Carries(s.net[i]).value, s.net[i].body.rep)
    {
      assert s.net[i] in s.net && Faithful(s, s.net[i]);
      RunAnswers(Fresh(procs), steps, s, Carries(s.net[i]).value);
    }
  }

  // ----- Callers that give up, and handlers -----------------------------------------------------------

  lemma StepExpires(s: Sys, a: Step, t: Task)
    requires Enabled(s, a) && Next(s, a).Some?
    ensures t in Next(s, a).value.expired <==> t in s.expired || a == TimeOut(t)
    ensures t in s.expired && !Resumed(s, t) ==> !Resumed(Next(s, a).value, t)
    ensures a == TimeOut(t) ==> !Resumed(Next(s, a).value, t)
  {
    var s' := Next(s, a).value;
    if t in s.expired && Resumed(s', t) {
      var i :| 0 <= i < |s'.resumed| && s'.resumed[i].0 == t;
      assert s.resumed[i].0 == t;
    }
  }

  lemma {:induction false} RunExpires(s: Sys, steps: seq<Step>, g: Sys, t: Task)
    requires Run(s, steps, g)
    ensures t in g.expired <==> t in s.expired || TimeOut(t) in steps
    ensures (t in s.expired ==> !Resumed(s, t)) && t in g.expired ==> !Resumed(g, t)
    decreases steps
  {
    hide Enabled, Next, Resumed;
    if steps != [] {
      StepExpires(s, steps[0], t);
      RunExpires(Next(s, steps[0]).value, steps[1..], g, t);
    }
  }

  /** In every run, exactly the callers whose timeout came have given up, and none of them is ever resumed. */
  lemma GivenUp(procs: set<Pid>, steps: seq<Step>, s: Sys, t: Task)
    requires Run(Fresh(procs), steps, s)
    ensures t in s.expired <==> TimeOut(t) in steps
    ensures t in s.expired ==> !Resumed(s, t)
  {
    RunExpires(Fresh(procs), steps, s, t);
  }

  /** The step is an arrival at `q` for `n`. */
  predicate Arrives(s: Sys, a: Step, q: Pid, n: string) {
    a.Receive? && a.i < |s.net| && s.net[a.i].to == q && s.net[a.i].body.Req? && s.net[a.i].body.req.name == n
  }

  /**
   A handler is there from its installation to its removal; one that removes itself goes with its first call,
   which may be a parked one.
  */
  lemma HandlerLives(s: Sys, a: Step, q: Pid, n: string)
    requires Inv(s) && Enabled(s, a) && Next(s, a).Some? && q in s.procs
    ensures q in Next(s, a).value.procs
    ensures var before, after := s.procs[q].handlers, Next(s, a).value.procs[q].handlers;
      n in after <==>
        || (a.Install? && a.q == q && a.name == n && (!a.once || Queue(s.procs[q], n) == []))
        || (n in before && a != Remove(q, n) && !(before[n] && Arrives(s, a, q, n)))
  {
    SameProcsNext(s, a);
    if a.Install? {
      InstallLives(s, a, q, n);
    } else if a.Receive? {
      ReceiveLives(s, a.i, q, n);
    } else {
      hide Inv;
    }
  }

  lemma InstallLives(s: Sys, a: Step, q: Pid, n: string)
    requires Inv(s) && Enabled(s, a) && a.Install? && q in s.procs
    ensures var after := Next(s, a).value.procs; q in after && (n in after[q].handlers <==>
      n in s.procs[q].handlers || (a.q == q && a.name == n && (!a.once || Queue(s.procs[q], n) == [])))
  {
    assert ProcInv(q, s.procs[q]);
    hide Inv, ProcInv, Log, Started, AddHandler;
    if a.q == q {
      Installed(q, s.procs[q], a.name, a.once, n);
    }
  }

  lemma ReceiveLives(s: Sys, i: nat, q: Pid, n: string)
    requires Inv(s) && Enabled(s, Receive(i)) && Next(s, Receive(i)).Some? && q in s.procs
    ensures var before, after := s.procs[q].handlers, Next(s, Receive(i)).value.procs;
      q in after && (n in after[q].handlers <==>
        n in before && !(before[n] && Arrives(s, Receive(i), q, n)))
  {
    assert s.net[i] in s.net && s.net[i].to in s.procs;
    hide Inv, Log, Started;
  }

  lemma Installed(me: Pid, p: Proc, name: string, once: bool, n: string)
    requires ProcInv(me, p) && name !in p.handlers
    ensures AddHandler(p, name, once).Some?
    ensures n in AddHandler(p, name, once).value.0.handlers <==>
      (n == name && (!once || Queue(p, name) == [])) || n in p.handlers
  {
    OnCallsRuns(p.(handlers := p.handlers[name := once], pending := p.pending - {name}), name, Queue(p, name));
    hide OnCalls;
  }
}
