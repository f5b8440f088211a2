/**
 The window of a completion: between `tm_completed` and its own `_check_free` the handlers of a task run,
 and any operation may happen (util/etask.js:298-324).
*/
module TaskWindow {
  import opened Wrappers
  import opened TaskTree
  import opened TaskInvariant
  import opened TaskRuns

  /** The step takes `t` from holding something to holding nothing. */
  ghost predicate Drains(f: Forest, op: Op, t: Etask)
    requires Answered(f) && Legal(f, op)
  {
    t in f.node && t in Next(f, op).node && !Empty(f.node[t]) && Empty(Next(f, op).node[t])
  }

  /** Some step of the run does. */
  ghost predicate Drained(f: Forest, ops: seq<Op>, g: Forest, t: Etask)
    requires Run(f, ops, g)
    decreases ops
  {
    ops != [] && (Drains(f, ops[0], t) || Drained(Next(f, ops[0]), ops[1..], g, t))
  }

  // ----- One step ---------------------------------------------------------------------------------

  /** The completion of `t` goes on, and the step frees `t` exactly if it drains it. */
  ghost predicate StepFine(f: Forest, op: Op, t: Etask)
    requires Answered(f) && Legal(f, op)
  {
    && t in f.node && t in Next(f, op).node && t in Next(f, op).closing
    && (Next(f, op).node[t].free <==> f.node[t].free || Drains(f, op, t))
  }

  /** A task that loses `dead` is left with nothing exactly if it held nothing else. */
  lemma BereftHolds(n: Node, dead: set<Etask>)
    ensures Empty(Bereft(n, dead)) <==> HoldsOnly(n, dead)
  {
    if !(n.child <= dead) {
      var c :| c in n.child && c !in dead;
      assert c in n.child - dead;
    }
  }

  lemma ClosingNode(f: Forest, rank: map<Etask, nat>, t: Etask)
    requires Inv(f, rank) && t in f.closing
    ensures Answered(f) && t in f.node && f.node[t].done && (f.node[t].free ==> Empty(f.node[t]))
  {
    InvAnswered(f);
    SoundAt(f, {}, t);
  }

  /** What freeing `dead` and moving `x` do to another completed task. */
  lemma MovedOther(f: Forest, g: Forest, x: Etask, dest: Option<Etask>, dead: set<Etask>, t: Etask)
    requires Moved(f, g, x, dest, dead) && t in f.node && t != x
      && f.node[t].done && (f.node[t].free ==> Empty(f.node[t]))
    ensures t in g.node && (g.node[t].free <==> f.node[t].free || (!Empty(f.node[t]) && Empty(g.node[t])))
  {
    BereftHolds(f.node[t], dead + {x});
  }

  lemma MovedSelf(f: Forest, g: Forest, x: Etask, dest: Option<Etask>, dead: set<Etask>)
    requires Moved(f, g, x, dest, dead)
    ensures x in g.node && g.node[x].free == f.node[x].free && (Empty(g.node[x]) <==> Empty(f.node[x]))
    ensures g.closing == f.closing
  {
  }

  lemma SpawnInWindow(f: Forest, rank: map<Etask, nat>, x: Etask, p: Option<Etask>, t: Etask)
    requires Inv(f, rank) && t in f.closing && Answered(f) && Legal(f, Spawn(x, p))
    ensures StepFine(f, Spawn(x, p), t)
  {
    ClosingNode(f, rank, t);
    var r, dead := SpawnParentKeeps(f, rank, x, p);
    hide Inv, Answered, Moved, SpawnParent, NotUnder;
    if SpawnParent(f, x, p).Some? && !(f.node[x].done && f.node[x].parent.None?) {
      var g := SpawnParent(f, x, p).value;
      var dest := if p.Some? && !f.node[p.value].free && p.value !in dead then p else None;
      MovedSelf(f, g, x, dest, dead);
      if x != t {
        MovedOther(f, g, x, dest, dead, t);
      }
    }
  }

  lemma ReapedOther(f: Forest, g: Forest, x: Etask, dead: set<Etask>, t: Etask)
    requires Reaped(f, g, x, dead) && t in f.node && t != x && f.node[t].done && (f.node[t].free ==> Empty(f.node[t]))
    ensures t in g.node && g.closing == f.closing
    ensures g.node[t].free <==> f.node[t].free || (!Empty(f.node[t]) && Empty(g.node[t]))
  {
    BereftHolds(f.node[t], dead);
  }

  /** The completed callee `x` goes from the slot of its caller to the caller's children. */
  lemma AdoptedOther(f: Forest, x: Etask, t: Etask)
    requires Answered(f) && x in f.node && f.node[x].up.Some? && x != f.node[x].up.value && t in f.node && t != x
    ensures var g := Adopt(f, x);
      t in g.node && g.node[t].free == f.node[t].free && (Empty(g.node[t]) ==> Empty(f.node[t]))
        && g.closing == f.closing
  {
    AdoptNode(f, x);
    hide Adopt, Answered;
    assert x in f.node[f.node[x].up.value].child + {x};
  }

  lemma EndInWindow(f: Forest, rank: map<Etask, nat>, x: Etask, t: Etask)
    requires Inv(f, rank) && t in f.closing && x != t && Answered(f) && Legal(f, End(x))
    ensures StepFine(f, End(x), t)
  {
    ClosingNode(f, rank, t);
    NextEnd(f, x);
    var f1 := f.(closing := f.closing - {x});
    var dead := EndKeeps(f, rank, x);
    hide Next, StepFine, Inv, EndComplete, Reaped, Answered, Adopt, Empty;
    if EndComplete(f, x).None? {
      IsFine(f, End(x), t, f1);
    } else if Empty(f.node[x]) {
      ReapedOther(f1, EndComplete(f, x).value, x, dead, t);
      IsFine(f, End(x), t, EndComplete(f, x).value);
    } else {
      if f.node[x].up.Some? {
        NotItsCaller(f, rank, x);
        AdoptedOther(f, x, t);
      }
      IsFine(f, End(x), t, EndComplete(f, x).value);
    }
  }

  lemma NextEnd(f: Forest, x: Etask)
    requires Answered(f) && Legal(f, End(x))
    ensures Next(f, End(x))
      == if EndComplete(f, x).Some? then EndComplete(f, x).value else f.(closing := f.closing - {x})
  {
  }

  lemma IsFine(f: Forest, op: Op, t: Etask, g: Forest)
    requires Answered(f) && Legal(f, op) && Next(f, op) == g
    requires t in f.node && t in g.node && t in g.closing
    requires g.node[t].free <==> f.node[t].free || (!Empty(f.node[t]) && Empty(g.node[t]))
    ensures StepFine(f, op, t)
  {
  }

  lemma NotItsCaller(f: Forest, rank: map<Etask, nat>, x: Etask)
    requires Inv(f, rank) && x in f.closing
    ensures x in f.node && (f.node[x].up.Some? ==> f.node[x].up.value != x)
  {
    SoundAt(f, {}, x);
    if f.node[x].up.Some? {
      assert Holds(f.node[f.node[x].up.value], x);
    }
  }

  lemma CalledOther(f: Forest, g: Forest, u: Etask, d: Etask, t: Etask)
    requires u in f.node && d in f.node && t in f.node && u != d
    requires g.node == f.node[u := f.node[u].(down := Some(d))][d := f.node[d].(up := Some(u))]
    ensures t in g.node && g.node[t].free == f.node[t].free && (Empty(g.node[t]) ==> Empty(f.node[t]))
  {
  }

  lemma CallInWindow(f: Forest, rank: map<Etask, nat>, u: Etask, d: Etask, t: Etask)
    requires Inv(f, rank) && t in f.closing && Answered(f) && Legal(f, Call(u, d))
    ensures StepFine(f, Call(u, d), t)
  {
    ClosingNode(f, rank, t);
    var r := SetDownKeeps(f, rank, u, d);
    assert u != d by {
      NotUnderOther(f, u, d);
    }
    hide Inv, Answered, NotUnder, SetDown, Empty;
    if SetDown(f, u, d).Some? {
      CalledOther(f, SetDown(f, u, d).value, u, d, t);
    }
  }

  lemma NotUnderOther(f: Forest, p: Etask, t: Etask)
    requires NotUnder(f, p, t)
    ensures p != t
  {
  }

  /**
   While the completion of `t` is going on, a step frees `t` exactly if it takes from `t` the last task
   that `t` holds: by completing it, or by moving it to another place.
  */
  lemma StepInWindow(f: Forest, rank: map<Etask, nat>, op: Op, t: Etask)
    requires Inv(f, rank) && t in f.closing && Answered(f) && Legal(f, op) && op != End(t)
    ensures StepFine(f, op, t)
  {
    ClosingNode(f, rank, t);
    match op
    case Create(x) =>
    case Spawn(x, p) => SpawnInWindow(f, rank, x, p, t);
    case Call(u, d) => CallInWindow(f, rank, u, d, t);
    case Begin(x) =>
    case End(x) => EndInWindow(f, rank, x, t);
  }

  // ----- The whole window ---------------------------------------------------------------------------

  lemma {:induction false} RunInWindow(f: Forest, rank: map<Etask, nat>, ops: seq<Op>, g: Forest, t: Etask)
    returns (rank': map<Etask, nat>)
    requires Inv(f, rank) && t in f.closing && t in f.node && Run(f, ops, g) && End(t) !in ops
    ensures Inv(g, rank') && t in g.closing && t in g.node
    ensures g.node[t].free <==> f.node[t].free || Drained(f, ops, g, t)
    decreases ops
  {
    hide Inv, Answered, Legal, Next, Drains;
    if ops == [] {
      rank' := rank;
    } else {
      var r := NextKeeps(f, rank, ops[0]);
      StepInWindow(f, rank, ops[0], t);
      rank' := RunInWindow(Next(f, ops[0]), r, ops[1..], g, t);
    }
  }

  lemma BeginOpens(f: Forest, rank: map<Etask, nat>, t: Etask)
    requires Inv(f, rank) && t in f.node && !f.node[t].done
    ensures var f1 := BeginComplete(f, t); Inv(f1, rank) && t in f1.closing && t in f1.node && !f1.node[t].free
  {
    SoundAt(f, {}, t);
    BeginKeeps(f, rank, t);
  }

  /**
   Whatever happens between its two halves, a completion fails exactly if some step in between takes
   from the task the last task that it holds. Otherwise it frees the task exactly if that holds
   nothing in the end, together with the completed tasks above that this leaves empty.
  */
  lemma CompletionExactly(f: Forest, rank: map<Etask, nat>, t: Etask, ops: seq<Op>, g: Forest)
    returns (dead: set<Etask>)
    requires Inv(f, rank) && t in f.node && !f.node[t].done
    requires Run(BeginComplete(f, t), ops, g) && End(t) !in ops
    ensures Answered(g) && t in g.node && Legal(g, End(t))
    ensures EndComplete(g, t).None? <==> Drained(BeginComplete(f, t), ops, g, t)
    ensures EndComplete(g, t).Some? ==>
      if Empty(g.node[t]) then Reaped(g.(closing := g.closing - {t}), EndComplete(g, t).value, t, dead) && t in dead
      else !EndComplete(g, t).value.node[t].free
  {
    hide Inv, Reaped, Answered, BeginComplete, Drained;
    BeginOpens(f, rank, t);
    var r := RunInWindow(BeginComplete(f, t), rank, ops, g, t);
    dead := EndKeeps(g, r, t);
  }

  // ----- The two ways to lose the last task -----------------------------------------------------------

  /**
   The last task that `a` holds completes, or it is a child and is moved, even to `a` itself: then `a`
   is freed and its own completion fails.
  */
  lemma LastChildInWindow(f: Forest, rank: map<Etask, nat>, a: Etask, b: Etask, op: Op)
    requires Inv(f, rank) && Answered(f) && a in f.closing && a in f.node && b in f.node
    requires Holds(f.node[a], b) && HoldsOnly(f.node[a], {b}) && Legal(f, op)
    requires (op == End(b) && Empty(f.node[b])) || (op.Spawn? && op.t == b && b in f.node[a].child)
    ensures Drains(f, op, a)
    ensures var g := Next(f, op); a in g.closing && Answered(g) && a in g.node && EndComplete(g, a).None?
  {
    HeldIsNotFree(f, rank, a, b);
    if op.Spawn? {
      MoveDrains(f, rank, a, b, op.p);
    } else {
      EndDrains(f, rank, a, b);
    }
    hide Inv, Answered, Legal, Next, Drains;
    StepInWindow(f, rank, op, a);
    var r := NextKeeps(f, rank, op);
    assert Next(f, op).node[a].free;
    var dead := EndKeeps(Next(f, op), r, a);
  }

  lemma MoveDrains(f: Forest, rank: map<Etask, nat>, a: Etask, b: Etask, p: Option<Etask>)
    requires Inv(f, rank) && Answered(f) && a in f.node && b in f.node && f.node[a].done && a != b
    requires b in f.node[a].child && HoldsOnly(f.node[a], {b}) && Legal(f, Spawn(b, p))
    ensures Drains(f, Spawn(b, p), a)
  {
    SoundAt(f, {}, a);
    var r, dead := SpawnParentKeeps(f, rank, b, p);
    hide Inv, Answered, NotUnder, SpawnParent;
    assert Dies(f.node[a], dead + {b});
  }

  lemma EndDrains(f: Forest, rank: map<Etask, nat>, a: Etask, b: Etask)
    requires Inv(f, rank) && Answered(f) && a in f.node && b in f.closing && b in f.node && f.node[a].done && a != b
    requires Holds(f.node[a], b) && HoldsOnly(f.node[a], {b}) && Empty(f.node[b]) && !f.node[b].free
    ensures Drains(f, End(b), a)
  {
    var dead := EndKeeps(f, rank, b);
    hide Inv, Answered, EndComplete, Reaped, Dies, HoldsOnly;
    ReapedHolder(f.(closing := f.closing - {b}), EndComplete(f, b).value, b, dead, a);
  }

  lemma ReapedHolder(f: Forest, g: Forest, b: Etask, dead: set<Etask>, a: Etask)
    requires Reaped(f, g, b, dead) && b in dead && a in f.node && a != b
    requires f.node[a].done && Holds(f.node[a], b) && HoldsOnly(f.node[a], {b})
    ensures a in g.node && !Empty(f.node[a]) && Empty(g.node[a])
  {
    assert Dies(f.node[a], dead);
  }

  lemma HeldIsNotFree(f: Forest, rank: map<Etask, nat>, a: Etask, b: Etask)
    requires Inv(f, rank) && a in f.closing && a in f.node && b in f.node && Holds(f.node[a], b)
    ensures !f.node[b].free && f.node[a].done && a != b
  {
    SoundAt(f, {}, a);
    SoundAt(f, {}, b);
  }

  /** `b` is a spawned child of `a`; `done` and `closing` as given. */
  function ParentAndChild(a: Etask, b: Etask, done: set<Etask>): Forest {
    Forest(map[a := Node(None, None, None, {b}, a in done, false),
               b := Node(None, None, Some(a), {}, b in done, false)],
           {a}, done)
  }

  lemma SpawnStep(a: Etask, b: Etask)
    requires a != b
    ensures var f := Construct(Construct(NO_TASKS, a), b);
      Answered(f) && Legal(f, Spawn(b, Some(a))) && Next(f, Spawn(b, Some(a))) == ParentAndChild(a, b, {})
  {
    var f := Construct(Construct(NO_TASKS, a), b);
    assert Below(f, b, {b});
    assert ParentRemove(f, b) == Some(f.(root := {a})) by {
      assert f.root - {b} == {a};
    }
    assert {} + {b} == {b};
    assert AddChild(f.(root := {a}), a, b).node == ParentAndChild(a, b, {}).node;
  }

  lemma Steps(a: Etask, b: Etask)
    requires a != b
    ensures Run(NO_TASKS, [Create(a), Create(b)] + [Spawn(b, Some(a))] + [Begin(a), Begin(b)],
      ParentAndChild(a, b, {a, b}))
  {
    var f := Construct(Construct(NO_TASKS, a), b);
    var f0 := ParentAndChild(a, b, {});
    assert [Create(a), Create(b)][1..] == [Create(b)];
    assert Run(NO_TASKS, [Create(a), Create(b)], f);
    SpawnStep(a, b);
    RunAppend(NO_TASKS, [Create(a), Create(b)], f, [Spawn(b, Some(a))], f0);
    BeginSteps(a, b);
    RunAppend(NO_TASKS, [Create(a), Create(b)] + [Spawn(b, Some(a))], f0, [Begin(a), Begin(b)],
      ParentAndChild(a, b, {a, b}));
  }

  lemma BeginSteps(a: Etask, b: Etask)
    requires a != b
    ensures Run(ParentAndChild(a, b, {}), [Begin(a), Begin(b)], ParentAndChild(a, b, {a, b}))
  {
    var f1 := BeginComplete(ParentAndChild(a, b, {}), a);
    assert f1 == ParentAndChild(a, b, {a});
    assert BeginComplete(f1, b) == ParentAndChild(a, b, {a, b});
    assert [Begin(a), Begin(b)][1..] == [Begin(b)];
  }

  /** A run from nothing that ends so. */
  lemma DisturbedCompletion(a: Etask, b: Etask)
    requires a != b
    ensures var f := ParentAndChild(a, b, {a, b});
      && Run(NO_TASKS, [Create(a), Create(b)] + [Spawn(b, Some(a))] + [Begin(a), Begin(b)], f)
      && Answered(f) && Legal(f, End(b))
      && var g := Next(f, End(b)); Answered(g) && EndComplete.requires(g, a) && EndComplete(g, a).None?
  {
    Steps(a, b);
    var f := ParentAndChild(a, b, {a, b});
    assert Inv(NO_TASKS, map[]);
    var rank := RunKeeps(NO_TASKS, map[], [Create(a), Create(b)] + [Spawn(b, Some(a))] + [Begin(a), Begin(b)], f);
    LastChildInWindow(f, rank, a, b, End(b));
  }
}
