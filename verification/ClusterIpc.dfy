/**
 Calls between the processes of a cluster (util/cluster_ipc.js), on values: the tables of one process,
 the functions that change them, and a step system of any number of processes over FIFO channels.
 Arguments and results are opaque; they are numbers here.
*/
module ClusterIpc {
  import opened Wrappers
  import Decimal

  type Pid = nat

  /** A call or a post as it is sent. A post has no cookie. */
  datatype Request = Request(name: string, args: int, cookie: Option<nat>)

  /** A reply as it is sent; `error` tells `ipc_error` from `ipc_result`. */
  datatype Reply = Reply(name: string, cookie: nat, error: bool, value: int)

  datatype Arrival = Arrival(sender: Pid, req: Request)

  /** The task that waits for the reply to one call. */
  datatype Task = Task(caller: Pid, callee: Pid, name: string, cookie: nat)

  /**
   The tables of one process. `handlers` tells of each handler whether it removes itself when first
   called; `waiting` is keyed by the process called and the reply key.
  */
  datatype Proc = Proc(
    cookie: nat,
    handlers: map<string, bool>,
    waiting: map<(Pid, string), Task>,
    pending: map<string, seq<Arrival>>)

  const NEW_PROC := Proc(1, map[], map[], map[])

  function ReplyKey(name: string, cookie: nat): string {
    name + "-" + Decimal.ToText(cookie)
  }

  function Queue(p: Proc, name: string): seq<Arrival> {
    if name in p.pending then p.pending[name] else []
  }

  // ----- The functions of util/cluster_ipc.js -----------------------------------------------------

  /** `call` (util/cluster_ipc.js:169-189): the tables of the caller and the request it sends. */
  function Call(p: Proc, me: Pid, to: Pid, name: string, args: int): (Proc, Request) {
    (p.(cookie := p.cookie + 1, waiting := p.waiting[(to, ReplyKey(name, p.cookie)) := Task(me, to, name, p.cookie)]),
     Request(name, args, Some(p.cookie)))
  }

  /** `on_call` (util/cluster_ipc.js:26-37, 235-238): the tables of the callee and what is run. */
  function OnCall(p: Proc, m: Arrival): (Proc, seq<Arrival>) {
    if m.req.name !in p.handlers then
      (p.(pending := p.pending[m.req.name := Queue(p, m.req.name) + [m]]), [])
    else
      (if p.handlers[m.req.name] then p.(handlers := p.handlers - {m.req.name}) else p, [m])
  }

  function OnCalls(p: Proc, queue: seq<Arrival>): (Proc, seq<Arrival>)
    decreases queue
  {
    if queue == [] then (p, [])
    else
      var (p1, run1) := OnCall(p, queue[0]);
      var (p2, run2) := OnCalls(p1, queue[1..]);
      (p2, run1 + run2)
  }

  /** `add_handler` (util/cluster_ipc.js:208-221); `None` is the error `handler already installed`. */
  function AddHandler(p: Proc, name: string, once: bool): Option<(Proc, seq<Arrival>)> {
    if name in p.handlers then None
    else Some(OnCalls(p.(handlers := p.handlers[name := once], pending := p.pending - {name}), Queue(p, name)))
  }

  /** `on_response` (util/cluster_ipc.js:86-117); `None` is the exit for a reply that nobody waits for. */
  function OnResponse(p: Proc, sender: Pid, r: Reply): Option<(Proc, Task)> {
    var key := (sender, ReplyKey(r.name, r.cookie));
    if r.cookie == 0 || r.name == "" || key !in p.waiting then None
    else Some((p.(waiting := p.waiting - {key}), p.waiting[key]))
  }

  // ----- Steps of the cluster ---------------------------------------------------------------------

  datatype Body = Req(req: Request) | Rep(rep: Reply)
  datatype Packet = Packet(from: Pid, to: Pid, body: Body)

  /**
   `net` holds what is sent and not yet received, in the order of sending. `running` maps the calls
   whose handlers run to their arguments. The rest is history: the arguments of each call, the reply
   that its handler gave, the reply that its caller resumed with, the callers that gave up waiting,
   and per process and handler name the arrivals and what was run, in order.
  */
  datatype Sys = Sys(
    procs: map<Pid, Proc>,
    net: seq<Packet>,
    running: map<Task, int>,
    sent: map<Task, int>,
    answered: map<Task, Reply>,
    resumed: seq<(Task, Reply)>,
    expired: set<Task>,
    arrived: map<(Pid, string), seq<Arrival>>,
    ran: map<(Pid, string), seq<Arrival>>)

  datatype Step =
    | DoCall(p: Pid, q: Pid, name: string, args: int)
    | DoPost(p: Pid, q: Pid, name: string, args: int)
    | Receive(i: nat)
    | Finish(t: Task, error: bool, value: int)
    | Install(q: Pid, name: string, once: bool)
    | Remove(q: Pid, name: string)
    | TimeOut(t: Task)

  function Log(m: map<(Pid, string), seq<Arrival>>, q: Pid, name: string): seq<Arrival> {
    if (q, name) in m then m[(q, name)] else []
  }

  /** The task of a call that arrived at `q`. */
  function TaskOf(q: Pid, m: Arrival): Option<Task> {
    if m.req.cookie.Some? then Some(Task(m.sender, q, m.req.name, m.req.cookie.value)) else None
  }

  /** The task that a packet is about. */
  function Carries(k: Packet): Option<Task> {
    match k.body
    case Req(r) => TaskOf(k.to, Arrival(k.from, r))
    case Rep(r) => Some(Task(k.to, k.from, r.name, r.cookie))
  }

  /** The calls among what is run, added to `running`. */
  function Started(running: map<Task, int>, q: Pid, ran: seq<Arrival>): map<Task, int>
    decreases ran
  {
    if ran == [] then running
    else
      var now := match TaskOf(q, ran[0]) case Some(t) => running[t := ran[0].req.args] case None => running;
      Started(now, q, ran[1..])
  }

  predicate Resumed(s: Sys, t: Task) {
    exists i :: 0 <= i < |s.resumed| && s.resumed[i].0 == t
  }

  predicate Enabled(s: Sys, a: Step) {
    match a
    case DoCall(p, q, name, _) => p in s.procs && q in s.procs && name != ""
    case DoPost(p, q, name, _) => p in s.procs && q in s.procs
    case Receive(i) =>
      i < |s.net| && forall j :: 0 <= j < i ==> s.net[j].from != s.net[i].from || s.net[j].to != s.net[i].to
    case Finish(t, _, _) => t in s.running
    case Install(q, name, _) => q in s.procs && name !in s.procs[q].handlers
    case Remove(q, _) => q in s.procs
    case TimeOut(t) => t in s.sent && !Resumed(s, t)
  }

  /** `None` is the exit of a process that gets a reply nobody waits for. */
  function Next(s: Sys, a: Step): Option<Sys>
    requires Enabled(s, a)
  {
    match a
    case DoCall(p, q, name, args) =>
      var (p', r) := Call(s.procs[p], p, q, name, args);
      Some(s.(procs := s.procs[p := p'], net := s.net + [Packet(p, q, Req(r))],
              sent := s.sent[Task(p, q, name, s.procs[p].cookie) := args]))
    case DoPost(p, q, name, args) =>
      Some(s.(net := s.net + [Packet(p, q, Req(Request(name, args, None)))]))
    case Receive(i) =>
      var k, s1 := s.net[i], s.(net := s.net[..i] + s.net[i + 1..]);
      if k.to !in s.procs then Some(s1)
      else if k.body.Req? then Some(Arrive(s1, k.to, Arrival(k.from, k.body.req)))
      else Respond(s1, k.to, k.from, k.body.rep)
    case Finish(t, error, value) =>
      var r := Reply(t.name, t.cookie, error, value);
      Some(s.(running := s.running - {t}, net := s.net + [Packet(t.callee, t.caller, Rep(r))],
              answered := s.answered[t := r]))
    case Install(q, name, once) =>
      var (q', ran) := AddHandler(s.procs[q], name, once).value;
      Some(s.(procs := s.procs[q := q'], running := Started(s.running, q, ran),
              ran := s.ran[(q, name) := Log(s.ran, q, name) + ran]))
    case Remove(q, name) =>
      Some(s.(procs := s.procs[q := s.procs[q].(handlers := s.procs[q].handlers - {name})]))
    case TimeOut(t) =>
      Some(s.(expired := s.expired + {t}))
  }

  function Arrive(s: Sys, q: Pid, m: Arrival): Sys
    requires q in s.procs
  {
    var (q', ran) := OnCall(s.procs[q], m);
    s.(procs := s.procs[q := q'], running := Started(s.running, q, ran),
       arrived := s.arrived[(q, m.req.name) := Log(s.arrived, q, m.req.name) + [m]],
       ran := s.ran[(q, m.req.name) := Log(s.ran, q, m.req.name) + ran])
  }

  /** The reply is taken; a caller that gave up waiting is not resumed again. */
  function Respond(s: Sys, p: Pid, sender: Pid, r: Reply): Option<Sys>
    requires p in s.procs
  {
    match OnResponse(s.procs[p], sender, r)
    case None => None
    case Some((p', t)) =>
      Some(s.(procs := s.procs[p := p'], resumed := if t in s.expired then s.resumed else s.resumed + [(t, r)]))
  }

  ghost predicate Run(s: Sys, steps: seq<Step>, t: Sys)
    decreases steps
  {
    if steps == [] then s == t
    else
      && Enabled(s, steps[0])
      && Next(s, steps[0]).Some?
      && Run(Next(s, steps[0]).value, steps[1..], t)
  }
}
