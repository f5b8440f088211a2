/** What the operations of a run say about its last state: who exists, who has completed, and who holds whom. */
module TaskHistory {
  import opened Wrappers
  import opened TaskTree
  import opened TaskInvariant
  import opened TaskRuns
  import TaskWindow

  /** Only its own `Begin` marks a task as completed, and only its own `End` ends the completion. */
  ghost predicate Marked(f: Forest, g: Forest, op: Op, t: Etask) {
    && (t in g.node <==> t in f.node || op == Create(t))
    && (t in g.node && g.node[t].done <==> (t in f.node && f.node[t].done) || op == Begin(t))
    && (t in g.closing <==> (t in f.closing && op != End(t)) || op == Begin(t))
  }

  /** A task is called by `u` only after a call, and is the child of `p` only after a move or such a call. */
  ghost predicate Linked(f: Forest, g: Forest, op: Op, t: Etask) {
    t in g.node ==>
      var u, p := g.node[t].up, g.node[t].parent;
      && (u.Some? ==> (t in f.node && f.node[t].up == u) || op == Call(u.value, t))
      && (p.Some? ==> (t in f.node && (f.node[t].parent == p || f.node[t].up == p)) || op == Spawn(t, p))
  }

  /** No mark and no link is added. */
  ghost predicate Steady(f: Forest, g: Forest, t: Etask)
    requires t in f.node
  {
    && t in g.node && g.node[t].done == f.node[t].done
    && (g.node[t].up.Some? ==> g.node[t].up == f.node[t].up)
    && (g.node[t].parent.Some? ==> g.node[t].parent == f.node[t].parent)
  }

  lemma MovedOther(f: Forest, g: Forest, x: Etask, dest: Option<Etask>, dead: set<Etask>, t: Etask)
    requires Moved(f, g, x, dest, dead) && t in f.node && t != x
    ensures Steady(f, g, t)
  {
  }

  lemma MovedSelf(f: Forest, g: Forest, x: Etask, dest: Option<Etask>, dead: set<Etask>)
    requires Moved(f, g, x, dest, dead)
    ensures g.node.Keys == f.node.Keys && g.closing == f.closing
    ensures x in g.node && g.node[x].done == f.node[x].done && g.node[x].up.None? && g.node[x].parent == dest
  {
  }

  lemma ReapedEach(f: Forest, g: Forest, x: Etask, dead: set<Etask>, t: Etask)
    requires Reaped(f, g, x, dead) && x in f.node && f.node[x].done
    ensures g.node.Keys == f.node.Keys && g.closing == f.closing
    ensures t in f.node ==> Steady(f, g, t)
  {
  }

  lemma SpawnMarks(f: Forest, rank: map<Etask, nat>, x: Etask, p: Option<Etask>, t: Etask)
    requires Inv(f, rank) && Answered(f) && Legal(f, Spawn(x, p))
    ensures Marked(f, Next(f, Spawn(x, p)), Spawn(x, p), t) && Linked(f, Next(f, Spawn(x, p)), Spawn(x, p), t)
  {
    var r, dead := SpawnParentKeeps(f, rank, x, p);
    hide Inv, Answered, Moved, SpawnParent, NotUnder;
    if SpawnParent(f, x, p).Some? && !(f.node[x].done && f.node[x].parent.None?) {
      var g := SpawnParent(f, x, p).value;
      var dest := if p.Some? && !f.node[p.value].free && p.value !in dead then p else None;
      MovedSelf(f, g, x, dest, dead);
      if t in f.node && t != x {
        MovedOther(f, g, x, dest, dead, t);
      }
    }
  }

  lemma CalledEach(f: Forest, g: Forest, u: Etask, d: Etask, t: Etask)
    requires u in f.node && d in f.node && u != d
    requires g ==
      Forest(f.node[u := f.node[u].(down := Some(d))][d := f.node[d].(up := Some(u))], f.root - {d}, f.closing)
    ensures Marked(f, g, Call(u, d), t) && Linked(f, g, Call(u, d), t)
  {
  }

  lemma CallMarks(f: Forest, rank: map<Etask, nat>, u: Etask, d: Etask, t: Etask)
    requires Inv(f, rank) && Answered(f) && Legal(f, Call(u, d))
    ensures Marked(f, Next(f, Call(u, d)), Call(u, d), t) && Linked(f, Next(f, Call(u, d)), Call(u, d), t)
  {
    var r := SetDownKeeps(f, rank, u, d);
    assert u != d by {
      TaskWindow.NotUnderOther(f, u, d);
    }
    hide Inv, Answered, NotUnder, SetDown;
    if SetDown(f, u, d).Some? {
      CalledEach(f, SetDown(f, u, d).value, u, d, t);
    }
  }

  lemma AdoptedEach(f: Forest, x: Etask, g: Forest, t: Etask)
    requires Answered(f) && x in f.node && f.node[x].up.Some? && x != f.node[x].up.value
    requires g == Adopt(f, x).(closing := f.closing - {x})
    ensures Marked(f, g, End(x), t) && Linked(f, g, End(x), t)
  {
    AdoptNode(f, x);
    hide Adopt, Answered;
  }

  lemma EndMarks(f: Forest, rank: map<Etask, nat>, x: Etask, t: Etask)
    requires Inv(f, rank) && Answered(f) && Legal(f, End(x))
    ensures Marked(f, Next(f, End(x)), End(x), t) && Linked(f, Next(f, End(x)), End(x), t)
  {
    TaskWindow.NextEnd(f, x);
    ClosingIsDone(f, rank, x);
    var f1, g := f.(closing := f.closing - {x}), Next(f, End(x));
    var dead := EndKeeps(f, rank, x);
    TaskWindow.NotItsCaller(f, rank, x);
    hide Next, Inv, EndComplete, Reaped, Answered, Adopt, Empty, Legal;
    if EndComplete(f, x).Some? && Empty(f.node[x]) {
      ReapedEach(f1, g, x, dead, t);
    } else if EndComplete(f, x).Some? && f.node[x].up.Some? {
      AdoptedEach(f, x, g, t);
    }
  }

  lemma NextMarks(f: Forest, rank: map<Etask, nat>, op: Op, t: Etask)
    requires Inv(f, rank) && Answered(f) && Legal(f, op)
    ensures Marked(f, Next(f, op), op, t) && Linked(f, Next(f, op), op, t)
  {
    match op
    case Create(x) => CreateKeeps(f, rank, x);
    case Spawn(x, p) => SpawnMarks(f, rank, x, p, t);
    case Call(u, d) => CallMarks(f, rank, u, d, t);
    case Begin(x) => BeginKeeps(f, rank, x);
    case End(x) => EndMarks(f, rank, x, t);
  }

  lemma {:induction false} CompletedBefore(f: Forest, rank: map<Etask, nat>, ops: seq<Op>, g: Forest, t: Etask)
    requires Inv(f, rank) && Run(f, ops, g) && t in f.node && f.node[t].done
    ensures Begin(t) !in ops
    decreases ops
  {
    hide Inv, Answered, Next;
    if ops != [] {
      NextMarks(f, rank, ops[0], t);
      var r := NextKeeps(f, rank, ops[0]);
      CompletedBefore(Next(f, ops[0]), r, ops[1..], g, t);
    }
  }

  ghost predicate RunMarks(f: Forest, ops: seq<Op>, g: Forest, t: Etask) {
    && (t in g.node <==> t in f.node || Create(t) in ops)
    && (t in g.node && g.node[t].done <==> (t in f.node && f.node[t].done) || Begin(t) in ops)
    && (t in g.closing <==> (t in f.closing || Begin(t) in ops) && End(t) !in ops)
  }

  lemma {:induction false} RunHistory(f: Forest, rank: map<Etask, nat>, ops: seq<Op>, g: Forest, t: Etask)
    requires Inv(f, rank) && Run(f, ops, g)
    ensures RunMarks(f, ops, g, t)
    decreases ops
  {
    hide Inv, Answered, Next;
    if ops != [] {
      var f1 := Next(f, ops[0]);
      NextMarks(f, rank, ops[0], t);
      var r := NextKeeps(f, rank, ops[0]);
      RunHistory(f1, r, ops[1..], g, t);
      if ops[0] == End(t) {
        ClosingIsDone(f, rank, t);
        CompletedBefore(f1, r, ops[1..], g, t);
      }
    }
  }

  lemma ClosingIsDone(f: Forest, rank: map<Etask, nat>, t: Etask)
    requires Inv(f, rank) && t in f.closing && t in f.node
    ensures f.node[t].done
  {
    SoundAt(f, {}, t);
  }

  /**
   In every state that a run reaches: the tasks are those that were created; a task is completed if and only
   if its own completion has begun, so a task that goes on running is never freed; and the completion goes on
   if and only if it has not ended.
  */
  lemma ReachableHistory(ops: seq<Op>, g: Forest, t: Etask)
    requires Run(NO_TASKS, ops, g)
    ensures t in g.node <==> Create(t) in ops
    ensures t in g.node && g.node[t].done <==> Begin(t) in ops
    ensures t in g.closing <==> Begin(t) in ops && End(t) !in ops
    ensures t in g.node && g.node[t].free ==> Begin(t) in ops
  {
    assert Inv(NO_TASKS, map[]);
    RunHistory(NO_TASKS, map[], ops, g, t);
    var rank := RunKeeps(NO_TASKS, map[], ops, g);
    if t in g.node {
      SoundAt(g, {}, t);
    }
  }

  lemma {:induction false} RunLinks(f: Forest, rank: map<Etask, nat>, ops: seq<Op>, g: Forest, t: Etask)
    requires Inv(f, rank) && Run(f, ops, g) && t in g.node
    ensures g.node[t].up.Some? ==>
      (t in f.node && f.node[t].up == g.node[t].up) || Call(g.node[t].up.value, t) in ops
    ensures var p := g.node[t].parent; p.Some? ==>
      (t in f.node && (f.node[t].parent == p || f.node[t].up == p)) || Spawn(t, p) in ops || Call(p.value, t) in ops
    decreases ops
  {
    hide Inv, Answered, Next;
    if ops != [] {
      NextMarks(f, rank, ops[0], t);
      var r := NextKeeps(f, rank, ops[0]);
      RunLinks(Next(f, ops[0]), r, ops[1..], g, t);
    }
  }

  /** A task has a caller only if that called it, and a parent only if it was moved there or adopted by its caller. */
  lemma ReachableLinks(ops: seq<Op>, g: Forest, t: Etask)
    requires Run(NO_TASKS, ops, g) && t in g.node
    ensures g.node[t].up.Some? ==> Call(g.node[t].up.value, t) in ops
    ensures g.node[t].parent.Some? ==>
      Spawn(t, g.node[t].parent) in ops || Call(g.node[t].parent.value, t) in ops
  {
    assert Inv(NO_TASKS, map[]);
    RunLinks(NO_TASKS, map[], ops, g, t);
  }
}
