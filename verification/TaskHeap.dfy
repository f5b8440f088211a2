/**
 The methods of util/etask.js on heap objects, each proved to take the same step as its function in
 `TaskTree`. A result of `false` is a failed assertion of the source.
*/
module TaskHeap {
  import opened Wrappers
  import opened TaskTree
  import opened TaskInvariant

  function OrNone(t: Etask?): Option<Etask> {
    if t == null then None else Some(t)
  }

  function NodeOf(t: Etask): Node
    reads t
  {
    Node(OrNone(t.up), OrNone(t.down), OrNone(t.parent), t.child, t.completed, t.free)
  }

  /** The module-level state: the set `root`. The ghost fields are the tasks made so far and those completing. */
  class Tasks {
    var root: set<Etask>
    ghost var all: set<Etask>
    ghost var closing: set<Etask>
    ghost var rank: map<Etask, nat>

    ghost function View(): Forest
      reads this`root, this`all, this`closing, all
      ensures View().node.Keys == all && View().root == root && View().closing == closing
    {
      Forest(map t | t in all :: NodeOf(t), root, closing)
    }

    ghost predicate Valid()
      reads this, all
    {
      Inv(View(), rank)
    }

    lemma Node(t: Etask)
      requires t in all
      ensures View().node[t] == NodeOf(t)
    {
    }

    constructor ()
      ensures Valid() && View() == Forest(map[], {}, {})
    {
      root, all, closing, rank := {}, {}, {}, map[];
    }

    // The assignments of the source, one field at a time.

    method SetUp(t: Etask, u: Etask?)
      requires t in all
      modifies all
      ensures View() == Put(old(View()), t, old(View()).node[t].(up := OrNone(u)))
    {
      t.up := u;
    }

    method SetDownSlot(u: Etask, d: Etask?)
      requires u in all
      modifies all
      ensures View() == Put(old(View()), u, old(View()).node[u].(down := OrNone(d)))
    {
      u.down := d;
    }

    method SetParent(t: Etask, p: Etask?)
      requires t in all
      modifies all
      ensures View() == Put(old(View()), t, old(View()).node[t].(parent := OrNone(p)))
    {
      t.parent := p;
    }

    method SetChildren(p: Etask, c: set<Etask>)
      requires p in all
      modifies all
      ensures View() == Put(old(View()), p, old(View()).node[p].(child := c))
    {
      p.child := c;
    }

    method SetCompleted(t: Etask)
      requires t in all
      modifies all
      ensures View() == Put(old(View()), t, old(View()).node[t].(done := true))
    {
      t.completed := true;
    }

    method MarkFree(t: Etask)
      requires t in all
      modifies all
      ensures View() == Put(old(View()), t, old(View()).node[t].(free := true))
    {
      t.free := true;
    }

    method Unhook(t: Etask)
      requires t in all && t.up != null && t.up in all
      modifies all
      ensures View() == CutUp(old(View()), t)
    {
      hide View;
      Node(t);
      var u := t.up;
      SetDownSlot(u, null);
      SetUp(t, null);
    }

    method AddChild(p: Etask, t: Etask)
      requires p in all && t in all
      modifies all
      ensures View() == TaskTree.AddChild(old(View()), p, t)
    {
      hide View;
      Node(p);
      SetChildren(p, p.child + {t});
      SetParent(t, p);
    }

    method AddDown(u: Etask, d: Etask)
      requires u in all && d in all
      modifies all
      ensures View() == TaskTree.AddDown(old(View()), u, d)
    {
      hide View;
      SetDownSlot(u, d);
      SetUp(d, u);
    }

    method ParentRemove(t: Etask) returns (ok: bool)
      requires Answered(View()) && t in all
      modifies this`root, all
      ensures all == old(all) && closing == old(closing)
      ensures var g := TaskTree.ParentRemove(old(View()), t); ok == g.Some? && (ok ==> View() == g.value)
      ensures !ok && old(t.up == null && t.parent == null) ==> View() == old(View())
      decreases Links(View()), 1
    {
      hide View;
      Node(t);
      if t.up != null {
        ok := LeaveCaller(t);
      } else if t.parent != null {
        ok := LeaveParent(t);
      } else {
        ok := RootRemove(t);
      }
    }

    /** `_root_remove` (util/etask.js:236-240). */
    method RootRemove(t: Etask) returns (ok: bool)
      modifies this`root
      ensures ok == (t in old(root))
      ensures View() == old(View()).(root := old(root) - {t})
      ensures !ok ==> View() == old(View())
    {
      ok := t in root;
      root := root - {t};
    }

    method LeaveCaller(t: Etask) returns (ok: bool)
      requires Answered(View()) && t in all && t.up != null
      modifies this`root, all
      ensures all == old(all) && closing == old(closing)
      ensures var g := TaskTree.LeaveCaller(old(View()), t); ok == g.Some? && (ok ==> View() == g.value)
      decreases Links(View()), 0
    {
      hide View;
      Node(t);
      CutUpShrinks(View(), t);
      var u := t.up;
      Unhook(t);
      Node(u);
      ok := true;
      if u.completed {
        ok := CheckFree(u);
      }
    }

    method LeaveParent(t: Etask) returns (ok: bool)
      requires Answered(View()) && t in all && t.parent != null
      modifies this`root, all
      ensures all == old(all) && closing == old(closing)
      ensures var g := TaskTree.LeaveParent(old(View()), t); ok == g.Some? && (ok ==> View() == g.value)
      decreases Links(View()), 0
    {
      hide View;
      Node(t);
      var p := t.parent;
      Node(p);
      if t !in p.child {
        return false;
      }
      CutChildShrinks(View(), p, t);
      SetChildren(p, p.child - {t});
      Node(p);
      ok := true;
      if p.completed {
        ok := CheckFree(p);
      }
      if ok {
        SetParent(t, null);
      }
    }

    method CheckFree(t: Etask) returns (ok: bool)
      requires Answered(View()) && t in all
      modifies this`root, all
      ensures all == old(all) && closing == old(closing)
      ensures var g := TaskTree.CheckFree(old(View()), t); ok == g.Some? && (ok ==> View() == g.value)
      ensures !ok && old(t.up == null && t.parent == null) ==> View() == old(View())
      decreases Links(View()), 2
    {
      hide View;
      Node(t);
      if t.down != null || t.child != {} {
        return true;
      }
      ok := ParentRemove(t);
      if ok {
        MarkFree(t);
      }
    }
 
    // The operations. A failed assertion of the source comes before any change.

    /** The constructor: the task starts in `root`. */
    method Create() returns (t: Etask)
      requires Valid()
      modifies this`root, this`all, this`rank
      ensures Valid() && fresh(t) && all == old(all) + {t}
      ensures View() == Construct(old(View()), t)
    {
      t := new Etask();
      CreateKeeps(View(), rank, t);
      hide View, Inv;
      Enter(t);
      rank := rank[t := 0];
    }

    method Enter(t: Etask)
      requires t.up == t.down == t.parent == null && t.child == {} && !t.completed && !t.free
      modifies this`root, this`all
      ensures all == old(all) + {t} && View() == Construct(old(View()), t)
    {
      root := root + {t};
      all := all + {t};
    }

    method AddToRoot(t: Etask)
      modifies this`root
      ensures View() == old(View()).(root := old(root) + {t}) && all == old(all) && closing == old(closing)
    {
      root := root + {t};
    }

    /** `spawn` and `spawn_parent` (util/etask.js:587-602, 616-628). */
    method SpawnParent(t: Etask, p: Etask?) returns (ok: bool)
      requires Valid() && t in all && (p != null ==> p in all && NotUnder(View(), p, t))
      modifies this`root, this`rank, all
      ensures Valid() && all == old(all) && Answered(old(View()))
      ensures var g := TaskTree.SpawnParent(old(View()), t, OrNone(p));
        ok == g.Some? && View() == (if ok then g.value else old(View()))
    {
      hide Inv, Answered, NotUnder, Moved, View;
      Node(t);
      ghost var r, dead := SpawnParentKeeps(View(), rank, t, OrNone(p));
      SpawnReady(View(), rank, t);
      ok := SpawnParentSteps(t, p);
      if ok {
        rank := r;
      }
    }

    method SpawnParentSteps(t: Etask, p: Etask?) returns (ok: bool)
      requires Answered(View()) && t in all && (p != null ==> p in all)
      requires TaskTree.SpawnParent(View(), t, OrNone(p)).Some? <==> t.up == null
      modifies this`root, all
      ensures all == old(all) && closing == old(closing) && rank == old(rank)
      ensures var g := TaskTree.SpawnParent(old(View()), t, OrNone(p));
        ok == g.Some? && View() == (if ok then g.value else old(View()))
    {
      hide View;
      Node(t);
      if t.up != null {
        return false;
      }
      if t.completed && t.parent == null {
        return true;
      }
      ok := ParentRemove(t);
      if p != null {
        Node(p);
      }
      if p == null || p.free {
        AddToRoot(t);
      } else {
        AddChild(p, t);
      }
    }

    /** `_set_down` (util/etask.js:512-523). */
    method SetDown(u: Etask, d: Etask) returns (ok: bool)
      requires Valid() && u in all && d in all && !u.free && NotUnder(View(), u, d)
      modifies this`root, this`rank, all
      ensures Valid() && all == old(all) && Answered(old(View()))
      ensures var g := TaskTree.SetDown(old(View()), u, d);
        ok == g.Some? && View() == (if ok then g.value else old(View()))
    {
      hide Inv, Answered, NotUnder, View;
      Node(u);
      ghost var r := SetDownKeeps(View(), rank, u, d);
      ok := SetDownSteps(u, d);
      if ok {
        rank := r;
      }
    }

    method SetDownSteps(u: Etask, d: Etask) returns (ok: bool)
      requires Answered(View()) && u in all && d in all
      modifies this`root, all
      ensures all == old(all) && closing == old(closing) && rank == old(rank)
      ensures var g := TaskTree.SetDown(old(View()), u, d);
        ok == g.Some? && View() == (if ok then g.value else old(View()))
    {
      hide View;
      Node(u);
      Node(d);
      if u.down != null || d.parent != null || d.up != null {
        return false;
      }
      ok := ParentRemove(d);
      if ok {
        AddDown(u, d);
      }
    }

    /** The start of `_complete` (util/etask.js:301). */
    method BeginComplete(t: Etask)
      requires Valid() && t in all && !t.completed
      modifies this`closing, all
      ensures Valid() && all == old(all)
      ensures View() == TaskTree.BeginComplete(old(View()), t)
    {
      hide View, Inv;
      Node(t);
      BeginKeeps(View(), rank, t);
      SetCompleted(t);
      Open(t);
    }

    ghost method Open(t: Etask)
      modifies this`closing
      ensures View() == old(View()).(closing := old(closing) + {t})
    {
      closing := closing + {t};
    }

    /** The end of `_complete` (util/etask.js:317-324). */
    method EndComplete(t: Etask) returns (ok: bool)
      requires Valid() && t in closing && t in all
      modifies this`root, this`closing, all
      ensures Valid() && all == old(all) && ok == !old(t.free) && Answered(old(View()))
      ensures ok ==> TaskTree.EndComplete(old(View()), t) == Some(View())
      ensures !ok ==> View() == old(View()).(closing := old(closing) - {t})
    {
      hide Inv, Answered, Reaped, View;
      ghost var f := View();
      Node(t);
      ghost var dead := EndKeeps(f, rank, t);
      EndReady(f, rank, t);
      if t.free {
        AbandonKeeps(f, rank, t);
      }
      ok := EndSteps(t);
    }

    method Adopt(t: Etask)
      requires Answered(View()) && t in all && t.up != null
      modifies all
      ensures View() == TaskTree.Adopt(old(View()), t)
    {
      Node(t);
      hide View;
      var u := t.up;
      AdoptInTwo(View(), t);
      Unhook(t);
      AddChild(u, t);
    }

    ghost method Close(t: Etask)
      modifies this`closing
      ensures View() == old(View()).(closing := old(closing) - {t})
    {
      closing := closing - {t};
    }

    method EndSteps(t: Etask) returns (ok: bool)
      requires Answered(View()) && t in all
      modifies this`root, this`closing, all
      ensures all == old(all) && rank == old(rank)
      ensures var g := TaskTree.EndComplete(old(View()), t); ok == g.Some? && (ok ==> View() == g.value)
      ensures !ok && old(t.up == null && t.parent == null) ==> View() == old(View()).(closing := old(closing) - {t})
    {
      hide View;
      ghost var f := View();
      Close(t);
      Node(t);
      if t.up != null && (t.down != null || t.child != {}) {
        Adopt(t);
      }
      ok := CheckFree(t);
    }
  }
}
