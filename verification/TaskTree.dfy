/**
 The bookkeeping of running tasks (util/etask.js) on values.

 A `Forest` is a snapshot of every task and of the global set `root`. The functions follow the
 methods of the source statement by statement; `None` is a failed assertion of the source.
 `TaskHeap.dfy` runs the same steps on heap objects.

 `closing` holds the tasks whose completion has begun (`tm_completed` is set and their handlers may
 be running) but whose own `_check_free` call is still to come.
*/
module TaskTree {
  import opened Wrappers

  /** A running task; the fields the tree is made of. */
  class Etask {
    var up: Etask?
    var down: Etask?
    var parent: Etask?
    var child: set<Etask>
    var completed: bool
    var free: bool

    constructor ()
      ensures up == down == parent == null && child == {} && !completed && !free
    {
      up, down, parent, child, completed, free := null, null, null, {}, false, false;
    }
  }

  datatype Node = Node(
    up: Option<Etask>,
    down: Option<Etask>,
    parent: Option<Etask>,
    child: set<Etask>,
    done: bool,
    free: bool)

  datatype Forest = Forest(node: map<Etask, Node>, root: set<Etask>, closing: set<Etask>)

  /** A task holds the task it waits for in `down`, and its spawned children. */
  predicate Holds(n: Node, t: Etask) {
    n.down == Some(t) || t in n.child
  }

  predicate Empty(n: Node) {
    n.down.None? && n.child == {}
  }

  predicate HoldsOnly(n: Node, s: set<Etask>) {
    (n.down.Some? ==> n.down.value in s) && n.child <= s
  }

  function Put(f: Forest, t: Etask, n: Node): Forest {
    f.(node := f.node[t := n])
  }

  /** Every link leads to a known task, and every `up` link is answered by a `down` link. */
  ghost predicate Answered(f: Forest) {
    forall t :: t in f.node ==>
      && (f.node[t].parent.Some? ==> f.node[t].parent.value in f.node)
      && (f.node[t].up.Some? ==>
            f.node[t].up.value in f.node && f.node[f.node[t].up.value].down == Some(t))
  }

  /** One element for every `down` slot in use and one for every member of a `child` set. */
  ghost function Links(f: Forest): set<(Etask, Option<Etask>)> {
    (set h | h in f.node && f.node[h].down.Some? :: (h, None)) +
    (set h, t | h in f.node && t in f.node[h].child :: (h, Some(t)))
  }

  // ----- The steps of util/etask.js -------------------------------------------------------------

  /** The state after `this.up = this.up.down = undefined`. */
  function CutUp(f: Forest, t: Etask): Forest
    requires t in f.node && f.node[t].up.Some? && f.node[t].up.value in f.node
  {
    var u := f.node[t].up.value;
    var f1 := Put(f, u, f.node[u].(down := None));
    Put(f1, t, f1.node[t].(up := None))
  }

  function CutChild(f: Forest, p: Etask, t: Etask): Forest
    requires p in f.node
  {
    Put(f, p, f.node[p].(child := f.node[p].child - {t}))
  }

  lemma CutUpShrinks(f: Forest, t: Etask)
    requires Answered(f) && t in f.node && f.node[t].up.Some?
    ensures Answered(CutUp(f, t)) && CutUp(f, t).node.Keys == f.node.Keys
    ensures Links(CutUp(f, t)) < Links(f)
  {
    CutUpLosesSlot(f, f.node[t].up.value, t, CutUp(f, t));
  }

  lemma CutUpLosesSlot(f: Forest, u: Etask, t: Etask, g: Forest)
    requires u in f.node && f.node[u].down == Some(t) && f.node.Keys == g.node.Keys
    requires forall h :: h in f.node ==>
      g.node[h].child == f.node[h].child && g.node[h].down == (if h == u then None else f.node[h].down)
    ensures Links(g) < Links(f)
  {
    assert (u, None) in Links(f) && (u, None) !in Links(g);
  }

  lemma CutChildShrinks(f: Forest, p: Etask, t: Etask)
    requires Answered(f) && p in f.node && t in f.node[p].child
    ensures Answered(CutChild(f, p, t)) && CutChild(f, p, t).node.Keys == f.node.Keys
    ensures Links(CutChild(f, p, t)) < Links(f)
  {
    var g := CutChild(f, p, t);
    assert (p, Some(t)) in Links(f) && (p, Some(t)) !in Links(g);
  }

  /** `_parent_remove` (util/etask.js:242-263): takes a task out of the place that holds it. */
  ghost function ParentRemove(f: Forest, t: Etask): (g: Option<Forest>)
    requires Answered(f) && t in f.node
    ensures g.Some? ==> Answered(g.value) && g.value.node.Keys == f.node.Keys
    decreases Links(f), 1
  {
    if f.node[t].up.Some? then LeaveCaller(f, t)
    else if f.node[t].parent.Some? then LeaveParent(f, t)
    else if t in f.root then Some(f.(root := f.root - {t}))
    else None
  }

  ghost function LeaveCaller(f: Forest, t: Etask): (g: Option<Forest>)
    requires Answered(f) && t in f.node && f.node[t].up.Some?
    ensures g.Some? ==> Answered(g.value) && g.value.node.Keys == f.node.Keys
    decreases Links(f), 0
  {
    var u := f.node[t].up.value;
    var f1 := CutUp(f, t);
    CutUpShrinks(f, t);
    if f1.node[u].done then CheckFree(f1, u) else Some(f1)
  }

  ghost function LeaveParent(f: Forest, t: Etask): (g: Option<Forest>)
    requires Answered(f) && t in f.node && f.node[t].parent.Some?
    ensures g.Some? ==> Answered(g.value) && g.value.node.Keys == f.node.Keys
    decreases Links(f), 0
  {
    var p := f.node[t].parent.value;
    if t !in f.node[p].child then None
    else
      var f1 := CutChild(f, p, t);
      CutChildShrinks(f, p, t);
      var f2 :- if f1.node[p].done then CheckFree(f1, p) else Some(f1);
      Some(Put(f2, t, f2.node[t].(parent := None)))
  }

  /** `_check_free` (util/etask.js:265-270). */
  ghost function CheckFree(f: Forest, t: Etask): (g: Option<Forest>)
    requires Answered(f) && t in f.node
    ensures g.Some? ==> Answered(g.value) && g.value.node.Keys == f.node.Keys
    decreases Links(f), 2
  {
    if !Empty(f.node[t]) then Some(f)
    else
      var g :- ParentRemove(f, t);
      Some(Put(g, t, g.node[t].(free := true)))
  }

  // ----- The operations ---------------------------------------------------------------------------

  /** The constructor's first placement (util/etask.js:201). */
  function Construct(f: Forest, t: Etask): Forest {
    f.(node := f.node[t := Node(None, None, None, {}, false, false)], root := f.root + {t})
  }

  /** `spawn_parent` (util/etask.js:616-628). */
  ghost function SpawnParent(f: Forest, t: Etask, p: Option<Etask>): Option<Forest>
    requires Answered(f) && t in f.node && (p.Some? ==> p.value in f.node)
  {
    if f.node[t].up.Some? then None
    else if f.node[t].done && f.node[t].parent.None? then Some(f)
    else
      var g :- ParentRemove(f, t);
      if p.None? || g.node[p.value].free then Some(g.(root := g.root + {t}))
      else Some(AddChild(g, p.value, t))
  }

  function AddChild(f: Forest, p: Etask, t: Etask): Forest
    requires p in f.node && t in f.node
  {
    var f1 := Put(f, p, f.node[p].(child := f.node[p].child + {t}));
    Put(f1, t, f1.node[t].(parent := Some(p)))
  }

  /** `_set_down` (util/etask.js:512-523): `u` calls `d` and waits for it. */
  ghost function SetDown(f: Forest, u: Etask, d: Etask): Option<Forest>
    requires Answered(f) && u in f.node && d in f.node
  {
    if f.node[u].down.Some? || f.node[d].parent.Some? || f.node[d].up.Some? then None
    else
      var g :- ParentRemove(f, d);
      Some(AddDown(g, u, d))
  }

  function AddDown(f: Forest, u: Etask, d: Etask): Forest
    requires u in f.node && d in f.node
  {
    var f1 := Put(f, u, f.node[u].(down := Some(d)));
    Put(f1, d, f1.node[d].(up := Some(u)))
  }

  /** The start of `_complete` (util/etask.js:301); the task's handlers run after it. */
  function BeginComplete(f: Forest, t: Etask): Forest
    requires t in f.node
  {
    Put(f, t, f.node[t].(done := true)).(closing := f.closing + {t})
  }

  /** The end of `_complete` (util/etask.js:317-324), after the handlers. */
  ghost function EndComplete(f: Forest, t: Etask): Option<Forest>
    requires Answered(f) && t in f.node
  {
    var f1 := f.(closing := f.closing - {t});
    CheckFree(if f.node[t].up.Some? && !Empty(f.node[t]) then Adopt(f1, t) else f1, t)
  }

  /** A completed callee that still holds tasks becomes a spawned child of its caller. */
  function Adopt(f: Forest, t: Etask): (g: Forest)
    requires Answered(f) && t in f.node && f.node[t].up.Some?
    ensures Answered(g)
  {
    var u := f.node[t].up.value;
    var f1 := Put(f, u, f.node[u].(down := None, child := f.node[u].child + {t}));
    Put(f1, t, f1.node[t].(up := None, parent := Some(u)))
  }

  lemma AdoptInTwo(f: Forest, t: Etask)
    requires Answered(f) && t in f.node && f.node[t].up.Some?
    ensures AddChild(CutUp(f, t), f.node[t].up.value, t) == Adopt(f, t)
  {
    assert AddChild(CutUp(f, t), f.node[t].up.value, t).node == Adopt(f, t).node;
  }
}
