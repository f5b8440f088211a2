/** The module-level tables of util/cluster_ipc.js in one process, changed in place. */
module IpcTables {
  import opened Wrappers
  import opened ClusterIpc

  class Ipc {
    const me: Pid
    var currentCookie: nat
    var handlers: map<string, bool>
    var waiting: map<(Pid, string), Task>
    var incomingPending: map<string, seq<Arrival>>

    ghost function View(): Proc
      reads this
    {
      Proc(currentCookie, handlers, waiting, incomingPending)
    }

    constructor (me: Pid)
      ensures View() == NEW_PROC && this.me == me
    {
      this.me := me;
      currentCookie, handlers, waiting, incomingPending := 1, map[], map[], map[];
    }

    /** `call` (util/cluster_ipc.js:169-189): the request to send. */
    method Call(to: Pid, name: string, args: int) returns (r: Request)
      modifies this`currentCookie, this`waiting
      ensures (View(), r) == ClusterIpc.Call(old(View()), me, to, name, args)
    {
      var cookie := currentCookie;
      currentCookie := currentCookie + 1;
      waiting := waiting[(to, ReplyKey(name, cookie)) := Task(me, to, name, cookie)];
      r := Request(name, args, Some(cookie));
    }

    /** `set_incoming_pending` (util/cluster_ipc.js:26-31). */
    method SetIncomingPending(m: Arrival)
      modifies this`incomingPending
      ensures incomingPending == old(incomingPending)[m.req.name := Queue(old(View()), m.req.name) + [m]]
    {
      var queue := if m.req.name in incomingPending then incomingPending[m.req.name] else [];
      incomingPending := incomingPending[m.req.name := queue + [m]];
    }

    /** `on_call` (util/cluster_ipc.js:36-57): the arrivals whose handler is run, one or none. */
    method OnCall(m: Arrival) returns (ran: seq<Arrival>)
      modifies this`handlers, this`incomingPending
      ensures (View(), ran) == ClusterIpc.OnCall(old(View()), m)
    {
      if m.req.name !in handlers {
        SetIncomingPending(m);
        return [];
      }
      if handlers[m.req.name] {
        handlers := handlers - {m.req.name};
      }
      return [m];
    }

    /** `add_handler` (util/cluster_ipc.js:208-221). */
    method AddHandler(name: string, once: bool) returns (ok: bool, ran: seq<Arrival>)
      modifies this`handlers, this`incomingPending
      ensures ok <==> name !in old(handlers)
      ensures ok ==> ClusterIpc.AddHandler(old(View()), name, once) == Some((View(), ran))
      ensures !ok ==> View() == old(View()) && ran == []
    {
      if name in handlers {
        return false, [];
      }
      ok, ran := true, [];
      handlers := handlers[name := once];
      var queue := if name in incomingPending then incomingPending[name] else [];
      incomingPending := incomingPending - {name};
      ghost var p0 := View();
      assert queue[0..] == queue && [] + OnCalls(p0, queue).1 == OnCalls(p0, queue).1;
      for i := 0 to |queue|
        invariant var (p, rest) := OnCalls(View(), queue[i..]); OnCalls(p0, queue) == (p, ran + rest)
        invariant currentCookie == old(currentCookie) && waiting == old(waiting)
      {
        assert queue[i..][1..] == queue[i + 1..];
        var more := OnCall(queue[i]);
        assert forall rest: seq<Arrival> :: ran + (more + rest) == ran + more + rest;
        ran := ran + more;
      }
      assert queue[|queue|..] == [] && ran + [] == ran;
    }

    /** `on_response` (util/cluster_ipc.js:86-117): the task to resume; `None` is the exit of the process. */
    method OnResponse(sender: Pid, r: Reply) returns (t: Option<Task>)
      modifies this`waiting
      ensures match ClusterIpc.OnResponse(old(View()), sender, r)
        case None => t == None && View() == old(View())
        case Some((p, u)) => t == Some(u) && View() == p
    {
      if r.cookie == 0 || r.name == "" {
        return None;
      }
      var key := (sender, ReplyKey(r.name, r.cookie));
      if key !in waiting {
        return None;
      }
      t := Some(waiting[key]);
      waiting := waiting - {key};
    }
  }
}
