/**
 The throttle of lib/throttle_mgr.js: at most `limit` requests to a domain run at once, the others wait
 in a queue. `init` makes a throttle only for a limit that is not 0, and the limit stays as it is.
*/
module Throttle {
  import opened Wrappers

  type Task = nat

  /** `active` counts the requests of a domain, `throttled` holds those that wait. */
  datatype Mgr = Mgr(limit: nat, active: map<string, nat>, throttled: map<string, seq<Task>>)

  function Active(m: Mgr, domain: string): nat {
    if domain in m.active then m.active[domain] else 0
  }

  function Queue(m: Mgr, domain: string): seq<Task> {
    if domain in m.throttled then m.throttled[domain] else []
  }

  /** Neither table keeps a domain that it has nothing for. */
  predicate Tidy(m: Mgr) {
    (forall d :: d in m.active ==> m.active[d] > 0) && (forall d :: d in m.throttled ==> m.throttled[d] != [])
  }

  // ----- The manager in memory ------------------------------------------------------------------------

  class ThrottleMgr {
    const limit: nat
    var active: map<string, nat>
    var throttled: map<string, seq<Task>>

    function View(): Mgr
      reads this
    {
      Mgr(limit, active, throttled)
    }

    constructor (n: nat)
      ensures View() == Mgr(n, map[], map[])
    {
      limit, active, throttled := n, map[], map[];
    }

    /** `_increase_active` (lib/throttle_mgr.js:82-86). */
    method IncreaseActive(domain: string) returns (n: nat)
      modifies this`active
      ensures n == Active(old(View()), domain) + 1 && active == old(active)[domain := n]
    {
      n := if domain in active then active[domain] else 0;
      n := n + 1;
      active := active[domain := n];
    }

    /** `_decrease_active` (lib/throttle_mgr.js:87-96). */
    method DecreaseActive(domain: string)
      modifies this`active
      ensures var n := Active(old(View()), domain);
        active == if n == 0 then old(active)
          else if n == 1 then old(active) - {domain}
          else old(active)[domain := n - 1]
    {
      if domain !in active || active[domain] == 0 {
        return;
      }
      var n := active[domain] - 1;
      if n == 0 {
        active := active - {domain};
      } else {
        active := active[domain := n];
      }
    }

    /** `_throttle_task` (lib/throttle_mgr.js:68-72). */
    method ThrottleTask(task: Task, domain: string)
      modifies this`throttled
      ensures throttled == old(throttled)[domain := Queue(old(View()), domain) + [task]]
    {
      var tasks := if domain in throttled then throttled[domain] else [];
      throttled := throttled[domain := tasks + [task]];
    }

    /** `_get_next_task` (lib/throttle_mgr.js:73-81). */
    method GetNextTask(domain: string) returns (task: Option<Task>)
      requires Tidy(View())
      modifies this`throttled
      ensures var q := Queue(old(View()), domain);
        task == (if q == [] then None else Some(q[0])) &&
        throttled == if q == [] then old(throttled)
          else if |q| == 1 then old(throttled) - {domain}
          else old(throttled)[domain := q[1..]]
    {
      if domain !in throttled {
        return None;
      }
      var tasks := throttled[domain];
      task := Some(tasks[0]);
      tasks := tasks[1..];
      if |tasks| == 0 {
        throttled := throttled - {domain};
      } else {
        throttled := throttled[domain := tasks];
      }
    }

    /** `throttle` (lib/throttle_mgr.js:33-41): whether the request goes on at once. */
    method Throttle(task: Task, domain: string) returns (runs: bool)
      requires Tidy(View())
      modifies this
      ensures View() == Arrived(old(View()), task, domain) && runs == RunsAtOnce(old(View()), domain)
      ensures Tidy(View())
    {
      var newActive := IncreaseActive(domain);
      if newActive <= limit {
        return true;
      }
      ThrottleTask(task, domain);
      runs := false;
    }

    /** `release` (lib/throttle_mgr.js:42-52): the request that goes on, unless it is gone. */
    method Release(domain: string, canceled: bool, gone: set<Task>) returns (started: Option<Task>)
      requires Tidy(View())
      modifies this
      ensures View() == if canceled then old(View()) else Released(old(View()), domain)
      ensures started == if canceled then None else Resumed(old(View()), domain, gone)
      ensures Tidy(View())
    {
      if canceled {
        return None;
      }
      DecreaseActive(domain);
      var task := GetNextTask(domain);
      if task.None? {
        return None;
      }
      started := if task.value !in gone then task else None;
    }
  }

  // ----- The steps, as values -------------------------------------------------------------------------

  predicate RunsAtOnce(m: Mgr, domain: string) {
    Active(m, domain) < m.limit
  }

  function Arrived(m: Mgr, task: Task, domain: string): Mgr {
    var counted := m.(active := m.active[domain := Active(m, domain) + 1]);
    if RunsAtOnce(m, domain) then counted
    else counted.(throttled := m.throttled[domain := Queue(m, domain) + [task]])
  }

  function Released(m: Mgr, domain: string): Mgr {
    var n, q := Active(m, domain), Queue(m, domain);
    Mgr(m.limit,
        if n == 0 then m.active else if n == 1 then m.active - {domain} else m.active[domain := n - 1],
        if q == [] then m.throttled else if |q| == 1 then m.throttled - {domain} else m.throttled[domain := q[1..]])
  }

  /** The first in the queue is told to go on; `gone` are the requests that were aborted or lost their socket. */
  function Resumed(m: Mgr, domain: string, gone: set<Task>): Option<Task> {
    var q := Queue(m, domain);
    if q != [] && q[0] !in gone then Some(q[0]) else None
  }

  /** Who is resumed is the first in the queue, which is taken off, unless it is gone; then nobody is. */
  lemma ResumesFirst(m: Mgr, d: string, gone: set<Task>)
    requires Tidy(m)
    ensures Queue(m, d) == [] ==> Resumed(m, d, gone) == None && Queue(Released(m, d), d) == []
    ensures Queue(m, d) != [] ==>
      exists first: Task ::
        && Queue(m, d) == [first] + Queue(Released(m, d), d)
        && Resumed(m, d, gone) == if first in gone then None else Some(first)
  {
    var q := Queue(m, d);
    if q != [] {
      assert q == [q[0]] + q[1..] && Queue(Released(m, d), d) == q[1..];
    }
  }

  // ----- The requests around the manager --------------------------------------------------------------

  datatype Request = Request(domain: string, task: Task)

  /** A request whose turn came, and whether it began to run then. */
  datatype Turn = Turn(req: Request, begins: bool)

  /**
   `running` are the requests that were let through and have not ended, `passed` those that were gone when
   their turn came and have not ended. `arrived` and `turns` are all arrivals and turns, in order. `left`
   are the requests that ended while they waited: their entries are still in the queue or were taken from it.
  */
  datatype Sys = Sys(
    mgr: Mgr,
    running: seq<Request>,
    passed: seq<Request>,
    arrived: seq<Request>,
    turns: seq<Turn>,
    left: set<Request>,
    gone: set<Task>)

  function Start(limit: nat): Sys {
    Sys(Mgr(limit, map[], map[]), [], [], [], [], {}, {})
  }

  /**
   A request arrives; a request is aborted or loses its socket; or a request ends, whether it runs, was
   passed over, or still waits. The end of every request calls `release`, once
   (lib/mixins/server_handle.js:51-53, 76-90).
  */
  datatype Op =
    | Arrive(req: Request)
    | Abort(task: Task)
    | EndRunning(i: nat)
    | EndPassed(i: nat)
    | EndWaiting(domain: string, i: nat)

  predicate Legal(s: Sys, op: Op) {
    match op
    case Arrive(r) => r.task !in Of(s.arrived, r.domain)
    case Abort(_) => true
    case EndRunning(i) => i < |s.running|
    case EndPassed(i) => i < |s.passed|
    case EndWaiting(d, i) => i < |Queue(s.mgr, d)| && Request(d, Queue(s.mgr, d)[i]) !in s.left
  }

  /** `release`. A request that has ended already is told to go on in vain (util/etask.js:738-742). */
  function Release(s: Sys, d: string): Sys {
    var q, t := Queue(s.mgr, d), s.(mgr := Released(s.mgr, d));
    if q == [] then t
    else
      var r, go := Request(d, q[0]), Resumed(s.mgr, d, s.gone);
      if r in s.left then t.(turns := s.turns + [Turn(r, false)])
      else if go.Some? then
        var next := Request(d, go.value);
        t.(turns := s.turns + [Turn(next, true)], running := s.running + [next])
      else t.(turns := s.turns + [Turn(r, false)], passed := s.passed + [r])
  }

  function Next(s: Sys, op: Op): Sys
    requires Legal(s, op)
  {
    match op
    case Arrive(r) =>
      var t := s.(mgr := Arrived(s.mgr, r.task, r.domain), arrived := s.arrived + [r]);
      if RunsAtOnce(s.mgr, r.domain) then t.(running := s.running + [r], turns := s.turns + [Turn(r, true)]) else t
    case Abort(task) => s.(gone := s.gone + {task})
    case EndRunning(i) => Release(s.(running := s.running[..i] + s.running[i + 1..]), s.running[i].domain)
    case EndPassed(i) => Release(s.(passed := s.passed[..i] + s.passed[i + 1..]), s.passed[i].domain)
    case EndWaiting(d, i) => Release(s.(left := s.left + {Request(d, Queue(s.mgr, d)[i])}), d)
  }

  /** The tasks of a domain among the requests, in their order. */
  function Of(list: seq<Request>, domain: string): seq<Task> {
    if list == [] then []
    else
      var n := |list| - 1;
      Of(list[..n], domain) + if list[n].domain == domain then [list[n].task] else []
  }

  /** The requests of all turns. */
  function Taken(turns: seq<Turn>): seq<Request> {
    seq(|turns|, i requires 0 <= i < |turns| => turns[i].req)
  }

  /** How many entries of a queue are of requests that have ended. */
  function Dead(q: seq<Task>, d: string, left: set<Request>): (n: nat)
    ensures n <= |q|
  {
    if q == [] then 0 else (if Request(d, q[0]) in left then 1 else 0) + Dead(q[1..], d, left)
  }

  // ----- What every step keeps ------------------------------------------------------------------------

  predicate NoDup(q: seq<Task>) {
    forall i, j :: 0 <= i < j < |q| ==> q[i] != q[j]
  }

  /** The requests that run or were passed over, less the entries of ended ones: they fill the limit first. */
  function Filled(s: Sys, d: string): int {
    |Of(s.running, d)| + |Of(s.passed, d)| - Dead(Queue(s.mgr, d), d, s.left)
  }

  /** Who is counted, who runs and who waits, when `out` requests of the domain are just ending. */
  predicate Counted(s: Sys, d: string, out: int) {
    && Active(s.mgr, d) == Filled(s, d) + out + |Queue(s.mgr, d)|
    && Filled(s, d) + out <= s.mgr.limit
    && (Queue(s.mgr, d) != [] ==> Filled(s, d) + out == s.mgr.limit)
  }

  /** Every arrival has had its turn or is in the queue, in order, once. */
  predicate InTurn(s: Sys, d: string) {
    && Of(s.arrived, d) == Of(Taken(s.turns), d) + Queue(s.mgr, d)
    && NoDup(Of(s.arrived, d))
    && (forall r :: r in s.left && r.domain == d ==> r.task in Of(s.arrived, d))
  }

  predicate Balanced(s: Sys, d: string) {
    Counted(s, d, 0) && InTurn(s, d)
  }

  ghost predicate Inv(s: Sys) {
    Tidy(s.mgr) && s.mgr.limit > 0 && forall d {:trigger Balanced(s, d)} :: Balanced(s, d)
  }

  lemma {:induction false} OfCat(a: seq<Request>, b: seq<Request>, d: string)
    ensures Of(a + b, d) == Of(a, d) + Of(b, d)
  {
    hide Of;
    if b == [] {
      NobodyOf(d);
      assert a + b == a && Of(a, d) + [] == Of(a, d);
    } else {
      var front, last := b[..|b| - 1], b[|b| - 1];
      OfCat(a, front, d);
      OfSnoc(a + front, last, d);
      OfSnoc(front, last, d);
      assert a + b == a + front + [last] && b == front + [last];
    }
  }

  lemma OfSnoc(list: seq<Request>, r: Request, d: string)
    ensures Of(list + [r], d) == Of(list, d) + if r.domain == d then [r.task] else []
  {
    assert (list + [r])[..|list|] == list;
  }

  lemma OfOne(r: Request, d: string)
    ensures Of([r], d) == if r.domain == d then [r.task] else []
  {
    assert [r][..0] == [];
  }

  /** One request fewer, if it is the domain's. */
  lemma OfWithout(list: seq<Request>, i: nat, d: string)
    requires i < |list|
    ensures |Of(list, d)| == |Of(list[..i] + list[i + 1..], d)| + if list[i].domain == d then 1 else 0
  {
    hide Of;
    var a, b, c := list[..i], [list[i]], list[i + 1..];
    assert list == a + b + c;
    OfCat(a, c, d);
    OfCat(a, b, d);
    OfCat(a + b, c, d);
    OfOne(list[i], d);
  }

  lemma TakenSnoc(turns: seq<Turn>, t: Turn)
    ensures Taken(turns + [t]) == Taken(turns) + [t.req]
  {
  }

  lemma {:induction false} DeadSnoc(q: seq<Task>, t: Task, d: string, left: set<Request>)
    ensures Dead(q + [t], d, left) == Dead(q, d, left) + if Request(d, t) in left then 1 else 0
  {
    if q != [] {
      DeadSnoc(q[1..], t, d, left);
      assert (q + [t])[1..] == q[1..] + [t];
    } else {
      assert (q + [t])[1..] == [];
    }
  }

  lemma NoDupTail(q: seq<Task>)
    requires NoDup(q) && q != []
    ensures NoDup(q[1..]) && q[0] !in q[1..]
  {
    assert forall i :: 0 <= i < |q| - 1 ==> q[1..][i] == q[i + 1];
  }

  /** One more request has ended; its entry, if it has one here, is there once. */
  lemma {:induction false} DeadMore(q: seq<Task>, d: string, left: set<Request>, r: Request)
    requires NoDup(q) && r !in left
    ensures Dead(q, d, left + {r}) == Dead(q, d, left) + if r.domain == d && r.task in q then 1 else 0
  {
    if q != [] {
      NoDupTail(q);
      DeadMore(q[1..], d, left, r);
      assert q == [q[0]] + q[1..];
    }
  }

  lemma ArrivedBooks(m: Mgr, task: Task, e: string, d: string)
    ensures Arrived(m, task, e).limit == m.limit
    ensures Active(Arrived(m, task, e), d) == Active(m, d) + if e == d then 1 else 0
    ensures Queue(Arrived(m, task, e), d) == if e == d && !RunsAtOnce(m, e) then Queue(m, d) + [task] else Queue(m, d)
  {
  }

  lemma ReleasedBooks(m: Mgr, e: string, d: string)
    requires Tidy(m)
    ensures Released(m, e).limit == m.limit
    ensures Active(Released(m, e), d) == if e == d && Active(m, d) > 0 then Active(m, d) - 1 else Active(m, d)
    ensures Queue(Released(m, e), d) == if e == d && Queue(m, d) != [] then Queue(m, d)[1..] else Queue(m, d)
  {
  }

  lemma StartInv(limit: nat)
    requires limit > 0
    ensures Inv(Start(limit))
  {
  }

  lemma ArriveCounted(s: Sys, r: Request, d: string)
    requires Balanced(s, d) && s.mgr.limit > 0 && Legal(s, Arrive(r))
    ensures Counted(Next(s, Arrive(r)), d, 0)
  {
    hide Of, Tidy, Dead, NoDup, Taken, Arrived;
    OfOne(r, d);
    OfCat(s.running, [r], d);
    ArrivedBooks(s.mgr, r.task, r.domain, d);
    DeadSnoc(Queue(s.mgr, d), r.task, d, s.left);
  }

  lemma ArriveInTurn(s: Sys, r: Request, d: string)
    requires Balanced(s, d) && s.mgr.limit > 0 && Legal(s, Arrive(r))
    ensures InTurn(Next(s, Arrive(r)), d)
  {
    hide Of, Tidy, Dead, Taken, Arrived;
    OfOne(r, d);
    OfCat(s.arrived, [r], d);
    ArrivedBooks(s.mgr, r.task, r.domain, d);
    var taken, q := Of(Taken(s.turns), d), Queue(s.mgr, d);
    if RunsAtOnce(s.mgr, r.domain) {
      TakenSnoc(s.turns, Turn(r, true));
      OfCat(Taken(s.turns), [r], d);
      assert r.domain == d ==> q == [] && taken + [r.task] == taken + q + [r.task] + [];
    } else {
      assert taken + q + [r.task] == taken + (q + [r.task]);
    }
  }

  /** A turn of one domain, when one request of it is just ending. */
  lemma ReleaseCounted(s: Sys, e: string, d: string)
    requires Tidy(s.mgr) && Counted(s, d, if e == d then 1 else 0)
    requires e == d ==> Active(s.mgr, d) > 0
    ensures Counted(Release(s, e), d, 0)
  {
    hide Of, Tidy, NoDup, Released, Taken;
    ReleasedBooks(s.mgr, e, d);
    var q := Queue(s.mgr, e);
    if q != [] {
      var r := Request(e, q[0]);
      OfOne(r, d);
      OfCat(s.running, [r], d);
      OfCat(s.passed, [r], d);
    }
  }

  lemma ReleaseInTurn(s: Sys, e: string, d: string)
    requires Tidy(s.mgr) && InTurn(s, d)
    ensures InTurn(Release(s, e), d)
  {
    hide Of, Tidy, NoDup, Released, Taken;
    ReleasedBooks(s.mgr, e, d);
    var q := Queue(s.mgr, e);
    if q != [] {
      var r := Request(e, q[0]);
      OfOne(r, d);
      TakenSnoc(s.turns, Turn(r, true));
      TakenSnoc(s.turns, Turn(r, false));
      OfCat(Taken(s.turns), [r], d);
      var taken := Of(Taken(s.turns), d);
      assert e == d ==> taken + q == taken + [q[0]] + q[1..];
      assert e != d ==> taken + [] == taken;
    }
  }

  lemma RunningEnds(s: Sys, i: nat, d: string)
    requires Balanced(s, d) && Tidy(s.mgr) && i < |s.running|
    ensures Balanced(Next(s, EndRunning(i)), d)
  {
    hide Of, Tidy, Release, Dead, NoDup, Taken;
    var e, t := s.running[i].domain, s.(running := s.running[..i] + s.running[i + 1..]);
    OfWithout(s.running, i, d);
    ReleaseCounted(t, e, d);
    ReleaseInTurn(t, e, d);
  }

  lemma PassedEnds(s: Sys, i: nat, d: string)
    requires Balanced(s, d) && Tidy(s.mgr) && i < |s.passed|
    ensures Balanced(Next(s, EndPassed(i)), d)
  {
    hide Of, Tidy, Release, Dead, NoDup, Taken;
    var e, t := s.passed[i].domain, s.(passed := s.passed[..i] + s.passed[i + 1..]);
    OfWithout(s.passed, i, d);
    ReleaseCounted(t, e, d);
    ReleaseInTurn(t, e, d);
  }

  lemma QueueOnce(s: Sys, d: string)
    requires InTurn(s, d)
    ensures NoDup(Queue(s.mgr, d)) && forall t :: t in Queue(s.mgr, d) ==> t in Of(s.arrived, d)
  {
    var all, n := Of(s.arrived, d), |Of(Taken(s.turns), d)|;
    assert forall i :: 0 <= i < |Queue(s.mgr, d)| ==> Queue(s.mgr, d)[i] == all[n + i];
  }

  lemma WaitingEnds(s: Sys, e: string, i: nat, d: string)
    requires Balanced(s, d) && Balanced(s, e) && Tidy(s.mgr) && Legal(s, EndWaiting(e, i))
    ensures Balanced(Next(s, EndWaiting(e, i)), d)
  {
    hide Of, Tidy, Release, Dead, NoDup, Taken;
    var r := Request(e, Queue(s.mgr, e)[i]);
    var t := s.(left := s.left + {r});
    QueueOnce(s, d);
    QueueOnce(s, e);
    DeadMore(Queue(s.mgr, d), d, s.left, r);
    assert InTurn(t, d);
    ReleaseCounted(t, e, d);
    ReleaseInTurn(t, e, d);
  }

  lemma ArriveKeeps(s: Sys, r: Request, d: string)
    requires Balanced(s, d) && s.mgr.limit > 0 && Legal(s, Arrive(r))
    ensures Balanced(Next(s, Arrive(r)), d)
  {
    ArriveCounted(s, r, d);
    ArriveInTurn(s, r, d);
  }

  lemma AbortKeeps(s: Sys, t: Task, d: string)
    requires Balanced(s, d)
    ensures Balanced(Next(s, Abort(t)), d)
  {
  }

  lemma StaysTidy(s: Sys, op: Op)
    requires Tidy(s.mgr) && Legal(s, op)
    ensures Tidy(Next(s, op).mgr) && Next(s, op).mgr.limit == s.mgr.limit
  {
    hide Of, Dead, Tidy, Released, Arrived, Resumed;
    match op
    case Arrive(r) => ArrivedTidy(s.mgr, r.task, r.domain);
    case Abort(_) =>
    case EndRunning(i) => ReleasedTidy(s.mgr, s.running[i].domain);
    case EndPassed(i) => ReleasedTidy(s.mgr, s.passed[i].domain);
    case EndWaiting(d, i) => ReleasedTidy(s.mgr, d);
  }

  lemma ArrivedTidy(m: Mgr, task: Task, domain: string)
    requires Tidy(m)
    ensures Tidy(Arrived(m, task, domain)) && Arrived(m, task, domain).limit == m.limit
  {
  }

  lemma ReleasedTidy(m: Mgr, domain: string)
    requires Tidy(m)
    ensures Tidy(Released(m, domain)) && Released(m, domain).limit == m.limit
  {
  }

  lemma NextKeeps(s: Sys, op: Op)
    requires Inv(s) && Legal(s, op)
    ensures Inv(Next(s, op))
  {
    hide Balanced, Next, Tidy;
    StaysTidy(s, op);
    forall d ensures Balanced(Next(s, op), d) {
      assert Balanced(s, d);
      match op
      case Arrive(r) => ArriveKeeps(s, r, d);
      case Abort(t) => AbortKeeps(s, t, d);
      case EndRunning(i) => RunningEnds(s, i, d);
      case EndPassed(i) => PassedEnds(s, i, d);
      case EndWaiting(e, i) =>
        assert Balanced(s, e);
        WaitingEnds(s, e, i, d);
    }
  }

  // ----- Runs -------------------------------------------------------------------------------------------

  ghost predicate Run(states: seq<Sys>, ops: seq<Op>) {
    |states| == |ops| + 1 &&
    forall i :: 0 <= i < |ops| ==> Legal(states[i], ops[i]) && states[i + 1] == Next(states[i], ops[i])
  }

  lemma {:induction false} RunKeeps(states: seq<Sys>, ops: seq<Op>, limit: nat)
    requires limit > 0 && Run(states, ops) && states[0] == Start(limit)
    ensures Inv(states[|ops|]) && states[|ops|].mgr.limit == limit
    decreases |ops|
  {
    hide Inv, Next, Legal;
    if ops == [] {
      StartInv(limit);
    } else {
      var n := |ops| - 1;
      RunKeeps(states[..n + 1], ops[..n], limit);
      NextKeeps(states[n], ops[n]);
      SameLimit(states[n], ops[n]);
    }
  }

  lemma SameLimit(s: Sys, op: Op)
    requires Inv(s) && Legal(s, op)
    ensures Next(s, op).mgr.limit == s.mgr.limit
  {
    StaysTidy(s, op);
  }

  function Min(a: nat, b: nat): nat {
    if a < b then a else b
  }

  /**
   In every run, whichever requests are aborted or end while they wait: what is counted are exactly the
   requests that have arrived and not ended; the requests that run or were passed over fill the limit,
   and exceed it by the entries in the queue whose requests have ended. So more run than the limit
   allows exactly if those entries outnumber the passed ones. Turns are given in the order of arrival.
  */
  lemma RunLaw(states: seq<Sys>, ops: seq<Op>, limit: nat, d: string)
    requires limit > 0 && Run(states, ops) && states[0] == Start(limit)
    ensures var s := states[|ops|]; var q := Queue(s.mgr, d);
      var running, passed, dead := |Of(s.running, d)|, |Of(s.passed, d)|, Dead(q, d, s.left);
      && Active(s.mgr, d) == running + passed + (|q| - dead)
      && running + passed == Min(limit, Active(s.mgr, d)) + dead
      && (running <= limit <==> dead <= passed)
      && Of(s.arrived, d) == Of(Taken(s.turns), d) + q
  {
    RunKeeps(states, ops, limit);
    var s := states[|ops|];
    assert Balanced(s, d);
    hide Of, Taken, Dead, NoDup, Next, Legal;
    assert Queue(s.mgr, d) == [] ==> Dead(Queue(s.mgr, d), d, s.left) == 0;
  }

  /** How many requests of a domain end while they wait. */
  function Ends(ops: seq<Op>, d: string): nat {
    if ops == [] then 0
    else
      var n := |ops| - 1;
      Ends(ops[..n], d) + match ops[n] case EndWaiting(e, _) => if e == d then 1 else 0 case _ => 0
  }

  function LeftOf(left: set<Request>, d: string): set<Request> {
    set r | r in left && r.domain == d
  }

  /** The entries of a queue are distinct, so no more are dead than requests have ended. */
  lemma {:induction false} DeadBound(q: seq<Task>, d: string, left: set<Request>)
    requires NoDup(q)
    ensures Dead(q, d, left) <= |LeftOf(left, d)|
  {
    if q != [] {
      var r := Request(d, q[0]);
      NoDupTail(q);
      if r in left {
        DeadMore(q[1..], d, left - {r}, r);
        assert left - {r} + {r} == left && LeftOf(left - {r}, d) == LeftOf(left, d) - {r} && r in LeftOf(left, d);
        DeadBound(q[1..], d, left - {r});
      } else {
        DeadBound(q[1..], d, left);
      }
    }
  }

  lemma LeftNext(s: Sys, op: Op, d: string)
    requires Legal(s, op)
    ensures var more := match op case EndWaiting(e, _) => if e == d then 1 else 0 case _ => 0;
      |LeftOf(Next(s, op).left, d)| <= |LeftOf(s.left, d)| + more
  {
    hide Dead, Released, Arrived, Resumed;
    if op.EndWaiting? {
      var r := Request(op.domain, Queue(s.mgr, op.domain)[op.i]);
      assert Next(s, op).left == s.left + {r};
      assert LeftOf(s.left + {r}, d) == LeftOf(s.left, d) + if r.domain == d then {r} else {};
    } else {
      assert Next(s, op).left == s.left;
    }
  }

  lemma {:induction false} LeftBound(states: seq<Sys>, ops: seq<Op>, limit: nat, d: string)
    requires Run(states, ops) && states[0] == Start(limit)
    ensures |LeftOf(states[|ops|].left, d)| <= Ends(ops, d)
    decreases |ops|
  {
    hide Next, Legal;
    if ops != [] {
      var n := |ops| - 1;
      LeftBound(states[..n + 1], ops[..n], limit, d);
      LeftNext(states[n], ops[n], d);
    } else {
      assert LeftOf({}, d) == {};
    }
  }

  /**
   In every run the limit of a domain is exceeded by no more than the requests that ended while they
   waited. If there were none, it is never exceeded, whoever was aborted: those that run or were passed
   over are as many as the limit allows, and all others wait.
  */
  lemma LimitHolds(states: seq<Sys>, ops: seq<Op>, limit: nat, d: string)
    requires limit > 0 && Run(states, ops) && states[0] == Start(limit)
    ensures var s := states[|ops|];
      var running, passed, active := |Of(s.running, d)|, |Of(s.passed, d)|, Active(s.mgr, d);
      && running + passed <= limit + Ends(ops, d)
      && (Ends(ops, d) == 0 ==>
            running + passed == Min(limit, active) && active == running + passed + |Queue(s.mgr, d)|)
  {
    RunLaw(states, ops, limit, d);
    RunKeeps(states, ops, limit);
    LeftBound(states, ops, limit, d);
    var s := states[|ops|];
    assert Balanced(s, d);
    QueueOnce(s, d);
    DeadBound(Queue(s.mgr, d), d, s.left);
  }

  /** Nobody is aborted and nobody ends while waiting. */
  predicate Patient(ops: seq<Op>) {
    forall i :: 0 <= i < |ops| ==> !ops[i].Abort? && !ops[i].EndWaiting?
  }

  function Begun(turns: seq<Turn>): seq<Request> {
    if turns == [] then []
    else
      var n := |turns| - 1;
      Begun(turns[..n]) + if turns[n].begins then [turns[n].req] else []
  }

  predicate Calm(s: Sys) {
    s.gone == {} && s.left == {} && s.passed == [] && forall i :: 0 <= i < |s.turns| ==> s.turns[i].begins
  }

  lemma CalmStays(s: Sys, op: Op)
    requires Calm(s) && Legal(s, op) && !op.Abort? && !op.EndWaiting?
    ensures Calm(Next(s, op))
  {
    hide Of, Dead, Released, Arrived;
  }

  lemma {:induction false} PatientIsCalm(states: seq<Sys>, ops: seq<Op>, limit: nat)
    requires Run(states, ops) && states[0] == Start(limit) && Patient(ops)
    ensures Calm(states[|ops|])
    decreases |ops|
  {
    hide Next, Legal, Calm;
    if ops == [] {
      StartCalm(limit);
    } else {
      var n := |ops| - 1;
      PatientIsCalm(states[..n + 1], ops[..n], limit);
      CalmStays(states[n], ops[n]);
    }
  }

  lemma StartCalm(limit: nat)
    ensures Calm(Start(limit))
  {
  }

  lemma {:induction false} AllBegun(turns: seq<Turn>)
    requires forall i :: 0 <= i < |turns| ==> turns[i].begins
    ensures Begun(turns) == Taken(turns)
  {
    if turns != [] {
      AllBegun(turns[..|turns| - 1]);
    }
  }

  lemma {:induction false} NoneDead(q: seq<Task>, d: string)
    ensures Dead(q, d, {}) == 0
  {
    if q != [] {
      NoneDead(q[1..], d);
    }
  }

  /**
   In every run without aborted requests, and in which only requests that run end: as many requests of a
   domain run as the limit allows, the others wait, and they begin in the order in which they arrived.
  */
  lemma RunsInOrder(states: seq<Sys>, ops: seq<Op>, limit: nat, d: string)
    requires limit > 0 && Run(states, ops) && states[0] == Start(limit) && Patient(ops)
    ensures var s := states[|ops|]; var running, active := |Of(s.running, d)|, Active(s.mgr, d);
      active == running + |Queue(s.mgr, d)| && running == Min(limit, active) &&
      Of(s.arrived, d) == Of(Begun(s.turns), d) + Queue(s.mgr, d)
  {
    RunLaw(states, ops, limit, d);
    PatientIsCalm(states, ops, limit);
    var s := states[|ops|];
    AllBegun(s.turns);
    NoneDead(Queue(s.mgr, d), d);
    hide Next, Legal, Taken, Begun, Run;
    assert Of([], d) == [];
  }

  /** A turn that begins nothing was that of an aborted request, or of one that ended while it waited. */
  predicate TurnsExplained(s: Sys) {
    forall i :: 0 <= i < |s.turns| && !s.turns[i].begins ==>
      s.turns[i].req.task in s.gone || s.turns[i].req in s.left
  }

  lemma ExplainedStays(s: Sys, op: Op)
    requires TurnsExplained(s) && Legal(s, op)
    ensures TurnsExplained(Next(s, op))
    ensures forall t :: t in Next(s, op).gone <==> t in s.gone || op == Abort(t)
  {
    hide Of, Dead, Released, Arrived;
  }

  /** In every run a request that got its turn began to run, unless it was aborted or ended while it waited. */
  lemma {:induction false} TurnsBegin(states: seq<Sys>, ops: seq<Op>, limit: nat)
    requires Run(states, ops) && states[0] == Start(limit)
    ensures TurnsExplained(states[|ops|])
    ensures forall t :: t in states[|ops|].gone <==> Abort(t) in ops
    decreases |ops|
  {
    hide Next, Legal;
    if ops != [] {
      var n := |ops| - 1;
      TurnsBegin(states[..n + 1], ops[..n], limit);
      ExplainedStays(states[n], ops[n]);
      assert ops == ops[..n] + [ops[n]];
    }
  }

  // ----- Two runs in which the limit is missed ------------------------------------------------------------

  lemma OneRuns(d: string, a: Task)
    ensures var r := Request(d, a);
      Legal(Start(1), Arrive(r)) &&
      Next(Start(1), Arrive(r)) == Sys(Mgr(1, map[d := 1], map[]), [r], [], [r], [Turn(r, true)], {}, {})
  {
    assert map[][d := 1] == map[d := 1];
  }

  lemma SecondWaits(d: string, a: Task, b: Task)
    requires a != b
    ensures var r, w := Request(d, a), Request(d, b);
      var s := Sys(Mgr(1, map[d := 1], map[]), [r], [], [r], [Turn(r, true)], {}, {});
      Legal(s, Arrive(w)) &&
      Next(s, Arrive(w)) == RunsAndWaits(r, w)
  {
    var r, w := Request(d, a), Request(d, b);
    OfOne(r, d);
    assert [r] + [w] == [r, w];
    var none: seq<Task>, m: map<string, seq<Task>> := [], map[];
    assert map[d := 1][d := 2] == map[d := 2] && none + [b] == [b] && m[d := [b]] == map[d := [b]];
  }

  /** `r` runs and `w` waits. */
  function RunsAndWaits(r: Request, w: Request): Sys {
    Sys(Mgr(1, map[r.domain := 2], map[r.domain := [w.task]]), [r], [], [r, w], [Turn(r, true)], {}, {})
  }

  lemma TurnPasses(d: string, a: Task, b: Task)
    requires a != b
    ensures var r, w := Request(d, a), Request(d, b);
      var s := RunsAndWaits(r, w).(gone := {b});
      Next(s, EndRunning(0)) ==
        Sys(Mgr(1, map[d := 1], map[]), [], [w], [r, w], [Turn(r, true), Turn(w, false)], {}, {b})
  {
    var r, w := Request(d, a), Request(d, b);
    assert [r][..0] + [r][1..] == [];
    assert [Turn(r, true)] + [Turn(w, false)] == [Turn(r, true), Turn(w, false)];
    assert map[d := 2][d := 1] == map[d := 1];
    assert Queue(RunsAndWaits(r, w).mgr, d) == [b];
    assert map[d := [b]] - {d} == map[];
  }

  lemma PassedGoes(d: string, a: Task, b: Task)
    ensures var r, w := Request(d, a), Request(d, b);
      var s := Sys(Mgr(1, map[d := 1], map[]), [], [w], [r, w], [Turn(r, true), Turn(w, false)], {}, {b});
      Legal(s, EndPassed(0)) && Active(Next(s, EndPassed(0)).mgr, d) == 0
  {
  }

  /** The request that waits is aborted before its turn: nobody runs, until that request ends too. */
  lemma IdleSlot(d: string, a: Task, b: Task) returns (states: seq<Sys>, ops: seq<Op>)
    requires a != b
    ensures Run(states, ops) && states[0] == Start(1) && |ops| == 5
    ensures Of(states[4].running, d) == [] && Active(states[4].mgr, d) == 1 && Queue(states[4].mgr, d) == []
    ensures Active(states[5].mgr, d) == 0
  {
    var r, w := Request(d, a), Request(d, b);
    OneRuns(d, a);
    SecondWaits(d, a, b);
    Aborts(r, w);
    TurnPasses(d, a, b);
    PassedGoes(d, a, b);
    hide Next, Legal, RunsAndWaits, Run, Of;
    states, ops := Started();
    states, ops := Extended(states, ops, Arrive(r));
    states, ops := Extended(states, ops, Arrive(w));
    assert states[2] == RunsAndWaits(r, w);
    states, ops := Extended(states, ops, Abort(b));
    states, ops := Extended(states, ops, EndRunning(0));
    states, ops := Extended(states, ops, EndPassed(0));
    NobodyOf(d);
  }

  lemma NobodyOf(d: string)
    ensures Of([], d) == []
  {
  }

  lemma Started() returns (states: seq<Sys>, ops: seq<Op>)
    ensures Run(states, ops) && states == [Start(1)] && |ops| == 0
  {
    states, ops := [Start(1)], [];
  }

  /** One step more. */
  lemma Extended(states: seq<Sys>, ops: seq<Op>, op: Op) returns (states': seq<Sys>, ops': seq<Op>)
    requires Run(states, ops) && |states| == |ops| + 1 && Legal(states[|ops|], op)
    ensures |states'| == |states| + 1 && |ops'| == |ops| + 1 && Run(states', ops')
    ensures states'[..|states|] == states && states'[|states|] == Next(states[|ops|], op)
    ensures states'[0] == states[0] && forall i :: 0 <= i < |states| ==> states'[i] == states[i]
  {
    states', ops' := states + [Next(states[|ops|], op)], ops + [op];
    hide Next, Legal;
    assert forall i :: 0 <= i < |ops| ==> ops'[i] == ops[i];
  }

  lemma Aborts(r: Request, w: Request)
    ensures var s := RunsAndWaits(r, w);
      Legal(s, Abort(w.task)) && Next(s, Abort(w.task)) == s.(gone := {w.task}) &&
      Legal(s.(gone := {w.task}), EndRunning(0))
  {
    assert {} + {w.task} == {w.task};
  }

  lemma ThirdWaits(d: string, a: Task, b: Task, c: Task)
    requires a != b && b != c && a != c
    ensures var s, x := RunsAndWaits(Request(d, a), Request(d, b)), Request(d, c);
      Legal(s, Arrive(x)) && Next(s, Arrive(x)) ==
        s.(mgr := Mgr(1, map[d := 3], map[d := [b, c]]), arrived := s.arrived + [x])
  {
    var r, w, x := Request(d, a), Request(d, b), Request(d, c);
    OfOne(r, d);
    OfOne(w, d);
    OfCat([r], [w], d);
    assert [r] + [w] == [r, w] && [a] + [b] == [a, b];
    assert map[d := 2][d := 3] == map[d := 3];
    assert [b] + [c] == [b, c] && map[d := [b]][d := [b, c]] == map[d := [b, c]];
  }

  lemma LastLeaves(d: string, a: Task, b: Task, c: Task)
    requires b != c
    ensures var r, w := Request(d, a), Request(d, b);
      var s := RunsAndWaits(r, w).(mgr := Mgr(1, map[d := 3], map[d := [b, c]]), arrived := [r, w] + [Request(d, c)]);
      Legal(s, EndWaiting(d, 1)) && Next(s, EndWaiting(d, 1)).running == [r, w]
  {
    assert [Request(d, a)] + [Request(d, b)] == [Request(d, a), Request(d, b)];
    assert {} + {Request(d, c)} == {Request(d, c)};
  }

  /** A request that ends while it waits gives a turn to another: two run where one may. */
  lemma OverLimit(d: string, a: Task, b: Task, c: Task) returns (states: seq<Sys>, ops: seq<Op>)
    requires a != b && b != c && a != c
    ensures Run(states, ops) && states[0] == Start(1) && Of(states[|ops|].running, d) == [a, b]
  {
    var r, w, x := Request(d, a), Request(d, b), Request(d, c);
    OneRuns(d, a);
    SecondWaits(d, a, b);
    ThirdWaits(d, a, b, c);
    LastLeaves(d, a, b, c);
    OfOne(r, d);
    OfOne(w, d);
    OfCat([r], [w], d);
    assert [r] + [w] == [r, w] && [a] + [b] == [a, b];
    hide Next, Legal, RunsAndWaits, Run, Of;
    states, ops := Started();
    states, ops := Extended(states, ops, Arrive(r));
    states, ops := Extended(states, ops, Arrive(w));
    states, ops := Extended(states, ops, Arrive(x));
    states, ops := Extended(states, ops, EndWaiting(d, 1));
  }
}
