/** Runs of the task tree from the empty forest, with any interleaving of completions and their handlers. */
module TaskRuns {
  import opened Wrappers
  import opened TaskTree
  import opened TaskInvariant

  datatype Op =
    | Create(t: Etask)
    | Spawn(t: Etask, p: Option<Etask>)
    | Call(u: Etask, d: Etask)
    | Begin(t: Etask)
    | End(t: Etask)

  /** What the source asks of a caller: no task goes under its own descendant, and a freed task calls nothing. */
  ghost predicate Legal(f: Forest, op: Op) {
    match op
    case Create(t) => t !in f.node
    case Spawn(t, p) => t in f.node && (p.Some? ==> p.value in f.node && NotUnder(f, p.value, t))
    case Call(u, d) => u in f.node && d in f.node && !f.node[u].free && NotUnder(f, u, d)
    case Begin(t) => t in f.node && !f.node[t].done
    case End(t) => t in f.node && t in f.closing
  }

  ghost function Apply(f: Forest, op: Op): Option<Forest>
    requires Answered(f) && Legal(f, op)
  {
    match op
    case Create(t) => Some(Construct(f, t))
    case Spawn(t, p) => SpawnParent(f, t, p)
    case Call(u, d) => SetDown(f, u, d)
    case Begin(t) => Some(BeginComplete(f, t))
    case End(t) => EndComplete(f, t)
  }

  /** A failed assertion throws before anything changes; a completion that fails does not come back. */
  ghost function Next(f: Forest, op: Op): Forest
    requires Answered(f) && Legal(f, op)
  {
    match Apply(f, op)
    case Some(g) => g
    case None => if op.End? then f.(closing := f.closing - {op.t}) else f
  }

  ghost predicate Run(f: Forest, ops: seq<Op>, g: Forest)
    decreases ops
  {
    if ops == [] then f == g
    else Answered(f) && Legal(f, ops[0]) && Run(Next(f, ops[0]), ops[1..], g)
  }

  lemma NextKeeps(f: Forest, rank: map<Etask, nat>, op: Op) returns (rank': map<Etask, nat>)
    requires Inv(f, rank) && Answered(f) && Legal(f, op)
    ensures Inv(Next(f, op), rank')
  {
    hide Inv, Answered, Shape, Ranked, NoLeak, Moved, Reaped;
    rank' := rank;
    match op
    case Create(t) =>
      CreateKeeps(f, rank, t);
      rank' := rank[t := 0];
    case Spawn(t, p) =>
      var r, dead := SpawnParentKeeps(f, rank, t, p);
      rank' := if SpawnParent(f, t, p).Some? then r else rank;
    case Call(u, d) =>
      var r := SetDownKeeps(f, rank, u, d);
      rank' := if SetDown(f, u, d).Some? then r else rank;
    case Begin(t) =>
      BeginKeeps(f, rank, t);
    case End(t) =>
      var dead := EndKeeps(f, rank, t);
      if EndComplete(f, t).None? {
        AbandonKeeps(f, rank, t);
      }
  }

  lemma {:induction false} RunKeeps(f: Forest, rank: map<Etask, nat>, ops: seq<Op>, g: Forest)
    returns (rank': map<Etask, nat>)
    requires Inv(f, rank) && Run(f, ops, g)
    ensures Inv(g, rank')
    decreases ops
  {
    hide Inv, Answered, Legal, Next;
    if ops == [] {
      rank' := rank;
    } else {
      var r := NextKeeps(f, rank, ops[0]);
      rank' := RunKeeps(Next(f, ops[0]), r, ops[1..], g);
    }
  }

  const NO_TASKS := Forest(map[], {}, {})

  /**
   In every state a run reaches: each task sits in exactly one place, the links are mutually inverse
   and ranked (so acyclic), freed tasks are linked to nothing, and a completed task that holds
   nothing is freed unless its own completion is still going on.
  */
  lemma ReachableSound(ops: seq<Op>, g: Forest) returns (rank: map<Etask, nat>)
    requires Run(NO_TASKS, ops, g)
    ensures Ranked(g, rank)
    ensures forall t :: t in g.node ==>
      && Owner(g, t) && Placed(g, t)
      && (g.node[t].free ==> g.node[t] == Node(None, None, None, {}, true, true) && t !in g.root)
      && (g.node[t].done && Empty(g.node[t]) ==> g.node[t].free || t in g.closing)
  {
    assert Inv(NO_TASKS, map[]);
    rank := RunKeeps(NO_TASKS, map[], ops, g);
    forall t | t in g.node ensures Sound(g, {}, t) {
      SoundAt(g, {}, t);
    }
  }

  /** Ranked links close no loop: a chain of holders never comes back to where it starts. */
  lemma {:induction false} NoCycle(f: Forest, rank: map<Etask, nat>, path: seq<Etask>)
    requires Ranked(f, rank) && |path| >= 2 && forall x :: x in path ==> x in f.node
    requires forall i :: 0 <= i < |path| - 1 ==> Holds(f.node[path[i]], path[i + 1])
    ensures rank[path[|path| - 1]] < rank[path[0]] && path[0] != path[|path| - 1]
  {
    var front := path[..|path| - 1];
    assert Holds(f.node[path[|path| - 2]], path[|path| - 1]);
    if |path| > 2 {
      NoCycle(f, rank, front);
    }
  }

  lemma {:induction false} RunAppend(f: Forest, ops: seq<Op>, g: Forest, more: seq<Op>, h: Forest)
    requires Run(f, ops, g) && Run(g, more, h)
    ensures Run(f, ops + more, h)
    decreases ops
  {
    if ops == [] {
      assert ops + more == more;
    } else {
      assert (ops + more)[1..] == ops[1..] + more;
      RunAppend(Next(f, ops[0]), ops[1..], g, more, h);
    }
  }
}
