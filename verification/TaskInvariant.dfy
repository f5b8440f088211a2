/**
 Every step of the task tree keeps its invariant, and a cascade frees exactly the completed tasks
 that it leaves empty.
*/
module TaskInvariant {
  import opened Wrappers
  import opened TaskTree

  // ----- The invariant --------------------------------------------------------------------------

  /** Whatever a task holds points back at it (util/etask.js:1204-1217). */
  ghost predicate Owner(f: Forest, h: Etask)
    requires h in f.node
  {
    && (f.node[h].down.Some? ==>
          var d := f.node[h].down.value;
          d in f.node && f.node[d].up == Some(h) && f.node[d].parent == None)
    && (forall c :: c in f.node[h].child ==>
          c in f.node && f.node[c].parent == Some(h) && f.node[c].up == None)
  }

  /** A task sits in exactly one place: freed, in its caller's `down`, in its parent's `child`, or in `root`. */
  ghost predicate Placed(f: Forest, t: Etask)
    requires t in f.node
  {
    var n := f.node[t];
    if n.free then n.up == n.parent == None && t !in f.root
    else if n.up.Some? then
      && n.parent == None && t !in f.root
      && n.up.value in f.node && f.node[n.up.value].down == Some(t)
    else if n.parent.Some? then
      t !in f.root && n.parent.value in f.node && t in f.node[n.parent.value].child
    else t in f.root
  }

  /** A task taken out of its place: nothing holds it. */
  ghost predicate InHand(f: Forest, t: Etask)
    requires t in f.node
  {
    && !f.node[t].free && f.node[t].up == None && t !in f.root
    && (forall h :: h in f.node ==> !Holds(f.node[h], t))
    && (f.node[t].parent.Some? ==> f.node[t].parent.value in f.node)
  }

  /** What holds of every task; the tasks of `hand` are between two places. */
  ghost predicate Sound(f: Forest, hand: set<Etask>, t: Etask)
    requires t in f.node
  {
    && Owner(f, t)
    && (if t in hand then InHand(f, t) else Placed(f, t))
    && (f.node[t].free || t in f.closing ==> f.node[t].done)
    && (f.node[t].free ==> Empty(f.node[t]))
  }

  /** Completed and empty means freed, except for the tasks in `busy`. */
  ghost predicate NoLeak(f: Forest, busy: set<Etask>) {
    forall t :: t in f.node && f.node[t].done && Empty(f.node[t]) ==>
      f.node[t].free || t in f.closing || t in busy
  }

  /** `rank` decreases along every link, so no task is above itself. */
  ghost predicate Ranked(f: Forest, rank: map<Etask, nat>) {
    && rank.Keys == f.node.Keys
    && (forall h, t :: h in f.node && Holds(f.node[h], t) && t in f.node ==> rank[t] < rank[h])
  }

  ghost predicate Shape(f: Forest, hand: set<Etask>) {
    && f.root <= f.node.Keys && f.closing <= f.node.Keys && hand <= f.node.Keys
    && (forall t {:trigger Sound(f, hand, t)} :: t in f.node ==> Sound(f, hand, t))
  }

  // ----- What a cascade does --------------------------------------------------------------------

  /** `n` after the tasks in `dead` are freed. */
  function Bereft(n: Node, dead: set<Etask>): Node {
    n.(down := if n.down.Some? && n.down.value in dead then None else n.down, child := n.child - dead)
  }

  /** A freed task: completed, and linked to nothing. */
  predicate Gone(n: Node) {
    n == Node(None, None, None, {}, true, true)
  }

  /** Completed, and left empty by the freeing of `dead`. */
  predicate Dies(n: Node, dead: set<Etask>) {
    n.done && !Empty(n) && HoldsOnly(n, dead)
  }

  /**
   `g` is `f` with exactly the tasks of `dead` freed. Besides `t`, those are the tasks that are
   completed, held something, and held only tasks of `dead`.
  */
  ghost predicate Reaped(f: Forest, g: Forest, t: Etask, dead: set<Etask>) {
    && g.node.Keys == f.node.Keys && dead <= f.node.Keys
    && g.root == f.root - dead && g.closing == f.closing
    && (forall x :: x in dead ==> Gone(g.node[x]) && !f.node[x].free)
    && (forall x :: x in f.node && x !in dead ==> g.node[x] == Bereft(f.node[x], dead))
    && (forall x :: x in f.node && x != t ==>
          (x in dead <==> Dies(f.node[x], dead)))
  }

  /** The task that a linked task sits in: its caller, or else its parent. */
  function Holder(n: Node): Option<Etask> {
    if n.up.Some? then n.up else n.parent
  }

  /** The first half of `_parent_remove` for a task that has a caller or a parent. */
  function Unlink(f: Forest, t: Etask): Forest
    requires t in f.node && Holder(f.node[t]).Some? && Holder(f.node[t]).value in f.node
  {
    if f.node[t].up.Some? then CutUp(f, t) else CutChild(f, f.node[t].parent.value, t)
  }

  /** `f1` is `f` with `t` taken from its holder `h`. */
  ghost predicate Unlinked(f: Forest, f1: Forest, t: Etask, h: Etask) {
    && t in f.node && h in f.node && h != t && Holds(f.node[h], t)
    && t !in f.root && !f.node[t].free && !f.node[h].free
    && f1.node.Keys == f.node.Keys && f1.root == f.root && f1.closing == f.closing
    && f1.node[h] == Bereft(f.node[h], {t})
    && f1.node[t] == f.node[t].(up := None)
    && (f.node[t].parent.Some? ==> f.node[t].parent.value in f.node)
    && (forall x :: x in f.node && x != h ==> !Holds(f.node[x], t))
    && (forall x :: x in f.node && x != h && x != t ==> f1.node[x] == f.node[x])
  }

  lemma UnlinkShape(f: Forest, hand: set<Etask>, rank: map<Etask, nat>, t: Etask)
    requires Shape(f, hand) && Ranked(f, rank)
    requires t in f.node && t !in hand && !f.node[t].free && Holder(f.node[t]).Some?
    ensures Holder(f.node[t]).value in f.node
    ensures Unlinked(f, Unlink(f, t), t, Holder(f.node[t]).value)
  {
    assert Sound(f, hand, t);
    var h := Holder(f.node[t]).value;
    assert Holds(f.node[h], t);
    assert Sound(f, hand, h);
    hide Sound, Ranked;
    forall x | x in f.node && x != h ensures !Holds(f.node[x], t) {
      HeldOnce(f, hand, t, x);
    }
  }

  lemma HeldOnce(f: Forest, hand: set<Etask>, t: Etask, x: Etask)
    requires t in f.node && x in f.node && Sound(f, hand, t) && Sound(f, hand, x)
      && Holder(f.node[t]).Some? && t !in hand && !f.node[t].free
    ensures Holds(f.node[x], t) ==> x == Holder(f.node[t]).value
  {
  }

  lemma UnlinkSound(f: Forest, f1: Forest, hand: set<Etask>, t: Etask, h: Etask, x: Etask)
    requires Unlinked(f, f1, t, h) && x in f.node && t !in hand && Sound(f, hand, x)
    ensures Sound(f1, hand + {t}, x)
  {
  }

  lemma UnlinkKeeps(f: Forest, f1: Forest, hand: set<Etask>, rank: map<Etask, nat>, t: Etask, h: Etask)
    requires Shape(f, hand) && Ranked(f, rank) && t !in hand && Unlinked(f, f1, t, h)
    ensures Shape(f1, hand + {t}) && Ranked(f1, rank)
  {
    hide Sound;
    forall x | x in f.node ensures Sound(f1, hand + {t}, x) {
      assert Sound(f, hand, x);
      UnlinkSound(f, f1, hand, t, h, x);
    }
  }

  lemma LeaveRoot(f: Forest, hand: set<Etask>, rank: map<Etask, nat>, t: Etask)
    requires Shape(f, hand) && Ranked(f, rank) && t in f.node && t !in hand && t in f.root
    ensures f.node[t].up.None? && f.node[t].parent.None? && !f.node[t].free
    ensures forall x :: x in f.node ==> !Holds(f.node[x], t)
    ensures var f1 := f.(root := f.root - {t}); Shape(f1, hand + {t}) && Ranked(f1, rank)
  {
    assert Sound(f, hand, t);
    var f1 := f.(root := f.root - {t});
    forall x | x in f.node ensures !Holds(f.node[x], t) {
      assert Sound(f, hand, x);
    }
    forall x | x in f.node ensures Sound(f1, hand + {t}, x) {
      assert Sound(f, hand, x);
    }
  }

  lemma NothingReaped(f: Forest, t: Etask)
    requires f.root <= f.node.Keys
    ensures Reaped(f, f, t, {})
  {
    assert f.root - {} == f.root;
    forall x | x in f.node ensures f.node[x] == Bereft(f.node[x], {}) {
      assert f.node[x].child - {} == f.node[x].child;
    }
  }

  /** A completed task that `root` holds is freed on its own. */
  lemma RootReaped(f: Forest, t: Etask)
    requires t in f.root && f.root <= f.node.Keys && !f.node[t].free
    requires forall x :: x in f.node ==> !Holds(f.node[x], t)
    ensures Reaped(f, Freed(f.(root := f.root - {t}), t), t, {t})
  {
    forall x | x in f.node ensures Bereft(f.node[x], {t}) == f.node[x] && !Dies(f.node[x], {t}) {
      assert f.node[x].child - {t} == f.node[x].child;
      assert f.node[x].child <= {t} ==> f.node[x].child == {};
    }
  }

  function Freed(g: Forest, t: Etask): Forest {
    Put(g, t, Node(None, None, None, {}, true, true))
  }

  /** Freeing a task that has been taken out of its place, once the cascade above it is done. */
  lemma FreeKeeps(g1: Forest, hand: set<Etask>, rank: map<Etask, nat>, t: Etask)
    requires Shape(g1, hand + {t}) && Ranked(g1, rank) && t !in hand && t in g1.node
    requires g1.node[t].done && Empty(g1.node[t])
    requires NoLeak(g1, hand + {t})
    ensures Shape(Freed(g1, t), hand) && Ranked(Freed(g1, t), rank) && NoLeak(Freed(g1, t), hand)
  {
    assert Sound(g1, hand + {t}, t);
    hide Sound;
    forall x | x in g1.node ensures Sound(Freed(g1, t), hand, x) {
      FreeSound(g1, hand, t, x);
    }
  }

  lemma FreeSound(g1: Forest, hand: set<Etask>, t: Etask, x: Etask)
    requires t in g1.node && t !in hand && g1.node[t].done && Empty(g1.node[t]) && x in g1.node
    requires Sound(g1, hand + {t}, t) && Sound(g1, hand + {t}, x)
    ensures Sound(Freed(g1, t), hand, x)
  {
    assert !Holds(g1.node[x], t);
  }

  lemma Prepend(f: Forest, f1: Forest, g1: Forest, t: Etask, h: Etask, dead1: set<Etask>)
    requires Unlinked(f, f1, t, h) && f.node[t].done && Empty(f.node[t])
    requires Reaped(f1, g1, h, dead1) && t !in dead1
    requires if f1.node[h].done && Empty(f1.node[h]) then h in dead1 else dead1 == {}
    ensures Reaped(f, Freed(g1, t), t, dead1 + {t})
  {
    var g, dead := Freed(g1, t), dead1 + {t};
    assert g.root == f.root - dead;
    forall x | x in f.node && x !in dead ensures g.node[x] == Bereft(f.node[x], dead) {
    }
    forall x | x in f.node && x != t ensures x in dead <==> Dies(f.node[x], dead) {
      PrependDies(f, f1, g1, t, h, dead1, x);
    }
  }

  lemma PrependDies(f: Forest, f1: Forest, g1: Forest, t: Etask, h: Etask, dead1: set<Etask>, x: Etask)
    requires Unlinked(f, f1, t, h)
    requires Reaped(f1, g1, h, dead1) && t !in dead1 && x in f.node && x != t
    requires if f1.node[h].done && Empty(f1.node[h]) then h in dead1 else dead1 == {}
    ensures x in dead1 <==> Dies(f.node[x], dead1 + {t})
  {
    if x == h {
      if !Empty(f1.node[h]) {
        assert f.node[h].child - {t} == {} <==> f.node[h].child <= {t};
      }
    } else {
      assert f1.node[x] == f.node[x];
      assert HoldsOnly(f.node[x], dead1) <==> HoldsOnly(f.node[x], dead1 + {t});
    }
  }

  lemma FreeInRoot(f: Forest, hand: set<Etask>, rank: map<Etask, nat>, t: Etask)
    requires Answered(f) && Shape(f, hand) && Ranked(f, rank) && NoLeak(f, hand + {t})
    requires t in f.node && t !in hand && f.node[t].done && !f.node[t].free
    requires Empty(f.node[t]) && Holder(f.node[t]).None?
    ensures var g := Freed(f.(root := f.root - {t}), t);
      && CheckFree(f, t) == Some(g)
      && Shape(g, hand) && Ranked(g, rank) && NoLeak(g, hand) && Reaped(f, g, t, {t})
    ensures AtOrAbove(rank, t, {t})
  {
    assert t in rank;
    hide Answered, Ranked, Shape, Reaped;
    assert t in f.root by {
      SoundAt(f, hand, t);
    }
    LeaveRoot(f, hand, rank, t);
    KnownRoot(f, hand);
    RootReaped(f, t);
    FreeKeeps(f.(root := f.root - {t}), hand, rank, t);
  }

  lemma SoundAt(f: Forest, hand: set<Etask>, t: Etask)
    requires Shape(f, hand) && t in f.node
    ensures Sound(f, hand, t)
  {
  }

  lemma KnownRoot(f: Forest, hand: set<Etask>)
    requires Shape(f, hand)
    ensures f.root <= f.node.Keys
  {
  }

  /** One step of the cascade, in terms of `Unlink`. */
  lemma CheckFreeUnfolds(f: Forest, t: Etask, h: Etask)
    requires Answered(f) && t in f.node && f.node[t].done && Empty(f.node[t])
    requires Holder(f.node[t]) == Some(h) && h in f.node && Unlinked(f, Unlink(f, t), t, h)
    requires f.node[t].up.None? ==> t in f.node[h].child
    requires f.node[t].up.Some? ==> f.node[t].parent.None?
    ensures Answered(Unlink(f, t)) && Links(Unlink(f, t)) < Links(f)
    ensures var f1 := Unlink(f, t);
      var g := if f1.node[h].done then CheckFree(f1, h) else Some(f1);
      && g.None? == CheckFree(f, t).None?
      && (g.Some? && g.value.node[t] == f1.node[t] ==> CheckFree(f, t) == Some(Freed(g.value, t)))
  {
    if f.node[t].up.Some? {
      CutUpShrinks(f, t);
      assert ParentRemove(f, t) == LeaveCaller(f, t);
    } else {
      CutChildShrinks(f, h, t);
      assert ParentRemove(f, t) == LeaveParent(f, t);
      var f1 := Unlink(f, t);
      var g := if f1.node[h].done then CheckFree(f1, h) else Some(f1);
      if g.Some? {
        PutTwice(g.value, t, g.value.node[t].(parent := None), Node(None, None, None, {}, true, true));
      }
    }
  }

  lemma UnlinkedSelf(f: Forest, f1: Forest, t: Etask, h: Etask)
    requires Unlinked(f, f1, t, h)
    ensures t in f1.node && f1.node[t] == f.node[t].(up := None)
  {
  }

  lemma PutTwice(f: Forest, t: Etask, m: Node, n: Node)
    ensures Put(Put(f, t, m), t, n) == Put(f, t, n)
  {
    assert f.node[t := m][t := n] == f.node[t := n];
  }

  lemma ReapedSpares(f: Forest, g: Forest, h: Etask, dead: set<Etask>, t: Etask)
    requires Reaped(f, g, h, dead) && t in f.node && t !in dead && Empty(f.node[t])
    ensures t in g.node && g.node[t] == f.node[t]
  {
    assert {} - dead == {};
  }

  lemma UnlinkReady(f: Forest, f1: Forest, hand: set<Etask>, rank: map<Etask, nat>, t: Etask, h: Etask)
    requires Unlinked(f, f1, t, h) && Ranked(f, rank) && NoLeak(f, hand + {t})
    requires forall s :: s in hand ==> s in f.node && rank[s] < rank[t]
    ensures h in f1.node && h !in hand + {t} && !f1.node[h].free
    ensures forall s :: s in hand + {t} ==> rank[s] < rank[h]
    ensures if f1.node[h].done then NoLeak(f1, hand + {t} + {h}) else NoLeak(f1, hand + {t})
  {
  }

  ghost predicate AtOrAbove(rank: map<Etask, nat>, t: Etask, dead: set<Etask>) {
    t in rank && forall x :: x in dead ==> x in rank && rank[t] <= rank[x]
  }

  /** A task that holds something is kept. */
  lemma StillHolds(f: Forest, hand: set<Etask>, rank: map<Etask, nat>, t: Etask)
    requires Answered(f) && Shape(f, hand) && Ranked(f, rank) && NoLeak(f, hand + {t})
    requires t in f.node && !Empty(f.node[t])
    ensures CheckFree(f, t) == Some(f) && NoLeak(f, hand) && Reaped(f, f, t, {}) && AtOrAbove(rank, t, {})
  {
    NothingReaped(f, t);
  }

  /** What is left when `t` is taken out of its place: all that the cascade above it needs. */
  lemma CascadeGoesUp(f: Forest, hand: set<Etask>, rank: map<Etask, nat>, t: Etask)
    requires Answered(f) && Shape(f, hand) && Ranked(f, rank) && NoLeak(f, hand + {t})
    requires t in f.node && t !in hand && f.node[t].done && !f.node[t].free
    requires Empty(f.node[t]) && Holder(f.node[t]).Some?
    requires forall s :: s in hand ==> s in f.node && rank[s] < rank[t]
    ensures var h, f1 := Holder(f.node[t]).value, Unlink(f, t);
      && h in f.node && rank[t] < rank[h] && Unlinked(f, f1, t, h) && Answered(f1) && Links(f1) < Links(f)
      && Shape(f1, hand + {t}) && Ranked(f1, rank) && f1.root <= f1.node.Keys
      && h in f1.node && h !in hand + {t} && !f1.node[h].free
      && (forall s :: s in hand + {t} ==> s in f1.node && rank[s] < rank[h])
      && (if f1.node[h].done then NoLeak(f1, hand + {t} + {h}) else NoLeak(f1, hand + {t}))
      && var g := if f1.node[h].done then CheckFree(f1, h) else Some(f1);
        && g.None? == CheckFree(f, t).None?
        && (g.Some? && g.value.node[t] == f1.node[t] ==> CheckFree(f, t) == Some(Freed(g.value, t)))
  {
    assert Placed(f, t) by {
      SoundAt(f, hand, t);
    }
    hide Answered, Shape, Ranked, NoLeak, Sound, CheckFree, Unlink;
    UnlinkShape(f, hand, rank, t);
    var h, f1 := Holder(f.node[t]).value, Unlink(f, t);
    UnlinkKeeps(f, f1, hand, rank, t, h);
    UnlinkReady(f, f1, hand, rank, t, h);
    hide Unlinked;
    CheckFreeUnfolds(f, t, h);
    KnownRoot(f1, hand + {t});
  }

  lemma {:induction false} CheckFreeReaps(f: Forest, hand: set<Etask>, rank: map<Etask, nat>, t: Etask)
    returns (dead: set<Etask>)
    requires Answered(f) && Shape(f, hand) && Ranked(f, rank) && NoLeak(f, hand + {t})
    requires t in f.node && t !in hand && f.node[t].done && !f.node[t].free
    requires forall s :: s in hand ==> s in f.node && rank[s] < rank[t]
    ensures CheckFree(f, t).Some?
    ensures var g := CheckFree(f, t).value;
      Shape(g, hand) && Ranked(g, rank) && NoLeak(g, hand) && Reaped(f, g, t, dead)
    ensures if Empty(f.node[t]) then t in dead else dead == {}
    ensures hand !! dead && AtOrAbove(rank, t, dead)
    decreases Links(f)
  {
    hide Answered, Shape, Ranked, NoLeak, Reaped, Unlinked, Sound, AtOrAbove, CheckFree, Unlink;
    dead := {};
    if !Empty(f.node[t]) {
      StillHolds(f, hand, rank, t);
      return;
    }
    if Holder(f.node[t]).None? {
      FreeInRoot(f, hand, rank, t);
      dead := {t};
      return;
    }
    CascadeGoesUp(f, hand, rank, t);
    var h, f1 := Holder(f.node[t]).value, Unlink(f, t);
    var g1, dead1 := f1, {};
    if f1.node[h].done {
      dead1 := CheckFreeReaps(f1, hand + {t}, rank, h);
      g1 := CheckFree(f1, h).value;
    } else {
      NothingReaped(f1, h);
    }
    dead := dead1 + {t};
    FreedAbove(f, f1, g1, hand, rank, t, h, dead1);
    RaiseRank(f, rank, t, h, dead1);
  }

  /** The cascade above `t` is done, and `t` is freed last. */
  lemma FreedAbove(
      f: Forest, f1: Forest, g1: Forest, hand: set<Etask>, rank: map<Etask, nat>, t: Etask, h: Etask, dead1: set<Etask>)
    requires Unlinked(f, f1, t, h) && f.node[t].done && Empty(f.node[t])
    requires Reaped(f1, g1, h, dead1) && t !in dead1 && t !in hand
    requires if f1.node[h].done && Empty(f1.node[h]) then h in dead1 else dead1 == {}
    requires Shape(g1, hand + {t}) && Ranked(g1, rank) && NoLeak(g1, hand + {t})
    ensures t in g1.node && t in f1.node && g1.node[t] == f1.node[t]
    ensures var g := Freed(g1, t);
      Shape(g, hand) && Ranked(g, rank) && NoLeak(g, hand) && Reaped(f, g, t, dead1 + {t})
  {
    hide Shape, Ranked, NoLeak, Reaped, Unlinked;
    UnlinkedSelf(f, f1, t, h);
    ReapedSpares(f1, g1, h, dead1, t);
    Prepend(f, f1, g1, t, h, dead1);
    FreeKeeps(g1, hand, rank, t);
  }

  lemma RaiseRank(f: Forest, rank: map<Etask, nat>, t: Etask, h: Etask, dead: set<Etask>)
    requires Ranked(f, rank) && t in f.node && h in f.node && rank[t] < rank[h]
      && (dead == {} || AtOrAbove(rank, h, dead))
    ensures AtOrAbove(rank, t, dead + {t})
  {
  }

  // ----- Every operation keeps the invariant --------------------------------------------------------

  ghost predicate Inv(f: Forest, rank: map<Etask, nat>) {
    Shape(f, {}) && Ranked(f, rank) && NoLeak(f, {})
  }

  lemma InvAnswered(f: Forest)
    requires Shape(f, {})
    ensures Answered(f)
  {
    forall t | t in f.node ensures Sound(f, {}, t) {
    }
  }

  /** `below` contains `t` and everything below it. */
  ghost predicate Below(f: Forest, t: Etask, below: set<Etask>) {
    && t in below && below <= f.node.Keys
    && (forall h, x :: h in below && x in f.node && Holds(f.node[h], x) ==> x in below)
  }

  /** `p` is neither `t` nor below `t`. */
  ghost predicate NotUnder(f: Forest, p: Etask, t: Etask) {
    exists below: set<Etask> | below <= f.node.Keys :: Below(f, t, below) && p !in below
  }

  lemma CreateKeeps(f: Forest, rank: map<Etask, nat>, t: Etask)
    requires Inv(f, rank) && t !in f.node
    ensures Inv(Construct(f, t), rank[t := 0])
    ensures Construct(f, t) == Forest(f.node[t := Node(None, None, None, {}, false, false)], f.root + {t}, f.closing)
  {
    var g := Construct(f, t);
    forall x | x in g.node ensures Sound(g, {}, x) {
      if x != t {
        assert Sound(f, {}, x);
      }
    }
  }

  lemma BeginKeeps(f: Forest, rank: map<Etask, nat>, t: Etask)
    requires Inv(f, rank) && t in f.node && !f.node[t].done
    ensures Inv(BeginComplete(f, t), rank)
    ensures var g := BeginComplete(f, t);
      && g.node.Keys == f.node.Keys && g.root == f.root && g.closing == f.closing + {t}
      && g.node[t] == f.node[t].(done := true) && forall x :: x in f.node && x != t ==> g.node[x] == f.node[x]
  {
    var g := BeginComplete(f, t);
    BeginSound(f, t, t);
    BeginNode(f, t);
    hide Sound;
    forall x | x in g.node ensures Sound(g, {}, x) {
      BeginSound(f, t, x);
    }
  }

  lemma BeginNode(f: Forest, t: Etask)
    requires t in f.node
    ensures var g := BeginComplete(f, t);
      && g.node.Keys == f.node.Keys && g.root == f.root && g.closing == f.closing + {t}
      && g.node[t] == f.node[t].(done := true) && forall x :: x in f.node && x != t ==> g.node[x] == f.node[x]
  {
  }

  lemma BeginSound(f: Forest, t: Etask, x: Etask)
    requires t in f.node && x in f.node && !f.node[t].done && Sound(f, {}, t) && Sound(f, {}, x)
    ensures Sound(BeginComplete(f, t), {}, x)
    ensures !f.node[t].free && t !in f.closing
  {
  }

  /** The ranks after attaching `t` under a task outside `below`, where `below` is what lies below `t`. */
  ghost function Lifted(rank: map<Etask, nat>, below: set<Etask>, t: Etask): map<Etask, nat>
    requires t in rank
  {
    map x | x in rank :: if x in below then rank[x] else rank[x] + rank[t] + 1
  }

  /** `t`, held by nothing, is put under `p` as a child or as the callee. */
  ghost predicate Attached(f: Forest, g: Forest, t: Etask, p: Etask) {
    && t in f.node && p in f.node && t != p && InHand(f, t) && f.node[t].parent.None? && !f.node[p].free
    && g.node.Keys == f.node.Keys && g.root == f.root && g.closing == f.closing
    && (forall x :: x in f.node && x != p && x != t ==> g.node[x] == f.node[x])
    && (|| (g.node[p] == f.node[p].(child := f.node[p].child + {t}) && g.node[t] == f.node[t].(parent := Some(p)))
        || (f.node[p].down.None? && g.node[p] == f.node[p].(down := Some(t)) && g.node[t] == f.node[t].(up := Some(p))))
  }

  lemma AttachSound(f: Forest, g: Forest, t: Etask, p: Etask, x: Etask)
    requires Attached(f, g, t, p) && x in f.node && Sound(f, {t}, x)
    ensures Sound(g, {}, x)
  {
    assert !Holds(f.node[x], t);
  }

  lemma RankedKeys(f: Forest, rank: map<Etask, nat>)
    requires Ranked(f, rank)
    ensures rank.Keys == f.node.Keys
  {
  }

  lemma AttachRanked(f: Forest, g: Forest, rank: map<Etask, nat>, t: Etask, p: Etask, below: set<Etask>)
    requires Attached(f, g, t, p) && Ranked(f, rank) && Below(f, t, below) && p !in below
    ensures Ranked(g, Lifted(rank, below, t))
  {
    var r := Lifted(rank, below, t);
    forall h, x | h in g.node && Holds(g.node[h], x) && x in g.node ensures r[x] < r[h] {
      if !(h == p && x == t) {
        assert Holds(f.node[h], x);
      }
    }
  }

  lemma AttachKeeps(f: Forest, g: Forest, rank: map<Etask, nat>, t: Etask, p: Etask, below: set<Etask>)
    requires Attached(f, g, t, p) && Shape(f, {t}) && Ranked(f, rank) && NoLeak(f, {t})
    requires Below(f, t, below) && p !in below
    requires !f.node[t].done || !Empty(f.node[t]) || t in f.closing
    ensures Inv(g, Lifted(rank, below, t))
  {
    AttachNoLeak(f, g, t, p);
    hide Sound, Below, NoLeak, Ranked, Empty;
    AttachRanked(f, g, rank, t, p, below);
    forall x | x in g.node ensures Sound(g, {}, x) {
      assert Sound(f, {t}, x);
      AttachSound(f, g, t, p, x);
    }
  }

  lemma AttachNoLeak(f: Forest, g: Forest, t: Etask, p: Etask)
    requires Attached(f, g, t, p) && NoLeak(f, {t}) && (!f.node[t].done || !Empty(f.node[t]) || t in f.closing)
    ensures NoLeak(g, {})
  {
    assert t in f.node[p].child + {t};
  }

  /**
   `g` is `f` with `t` taken out of its place and exactly the tasks of `dead` freed: those that are
   completed, held something, and held only `t` and tasks of `dead`.
  */
  ghost predicate Left(f: Forest, g: Forest, t: Etask, dead: set<Etask>) {
    && g.node.Keys == f.node.Keys && t in f.node && t !in dead && dead <= f.node.Keys
    && g.root == f.root - dead - {t} && g.closing == f.closing
    && g.node[t] == f.node[t].(up := None, parent := None)
    && (forall x :: x in dead ==> Gone(g.node[x]) && !f.node[x].free)
    && (forall x :: x in f.node && x !in dead && x != t ==> g.node[x] == Bereft(f.node[x], dead + {t}))
    && (forall x :: x in f.node && x != t ==> (x in dead <==> Dies(f.node[x], dead + {t})))
  }

  lemma UnlinkLeft(f: Forest, f1: Forest, g1: Forest, t: Etask, h: Etask, dead: set<Etask>)
    requires Unlinked(f, f1, t, h) && Reaped(f1, g1, h, dead) && t !in dead && g1.node[t] == f1.node[t]
    requires if f1.node[h].done && Empty(f1.node[h]) then h in dead else dead == {}
    ensures Left(f, Put(g1, t, g1.node[t].(parent := None)), t, dead)
  {
    forall x | x in f.node && x != t ensures x in dead <==> Dies(f.node[x], dead + {t}) {
      PrependDies(f, f1, g1, t, h, dead, x);
    }
    forall x | x in f.node && x !in dead && x != t ensures g1.node[x] == Bereft(f.node[x], dead + {t}) {
      if x != h {
        assert f1.node[x].child - dead == f.node[x].child - (dead + {t});
      } else {
        assert f1.node[h].child - dead == f.node[h].child - (dead + {t});
      }
    }
  }

  lemma ClearParent(g1: Forest, rank: map<Etask, nat>, t: Etask)
    requires Shape(g1, {t}) && Ranked(g1, rank) && NoLeak(g1, {t}) && t in g1.node
    ensures var g := Put(g1, t, g1.node[t].(parent := None)); Shape(g, {t}) && Ranked(g, rank) && NoLeak(g, {t})
  {
    var g := Put(g1, t, g1.node[t].(parent := None));
    hide Sound;
    forall x | x in g.node ensures Sound(g, {t}, x) {
      ClearSound(g1, t, x);
    }
  }

  lemma ClearSound(g1: Forest, t: Etask, x: Etask)
    requires t in g1.node && x in g1.node && Sound(g1, {t}, t) && Sound(g1, {t}, x)
    ensures Sound(Put(g1, t, g1.node[t].(parent := None)), {t}, x)
  {
    assert !Holds(g1.node[x], t);
  }

  /** `_parent_remove` on a task that only `root` holds: nothing above it to free. */
  lemma RootRemoveKeeps(f: Forest, rank: map<Etask, nat>, t: Etask)
    requires Answered(f) && Inv(f, rank) && t in f.node && !f.node[t].free && Holder(f.node[t]).None?
    ensures ParentRemove(f, t).Some?
    ensures var g := ParentRemove(f, t).value;
      Shape(g, {t}) && Ranked(g, rank) && NoLeak(g, {t}) && Left(f, g, t, {})
  {
    SoundAt(f, {}, t);
    LeaveRoot(f, {}, rank, t);
    forall x | x in f.node ensures Bereft(f.node[x], {t}) == f.node[x] && !Dies(f.node[x], {t}) {
      assert f.node[x].child - {t} == f.node[x].child;
      assert f.node[x].child <= {t} ==> f.node[x].child == {};
    }
    assert {} + {t} == {t};
  }

  /** `_parent_remove` on a spawned task. */
  lemma LeaveParentKeeps(f: Forest, rank: map<Etask, nat>, t: Etask) returns (dead: set<Etask>)
    requires Answered(f) && Inv(f, rank) && t in f.node && !f.node[t].free
    requires f.node[t].up.None? && f.node[t].parent.Some?
    ensures ParentRemove(f, t).Some?
    ensures var g := ParentRemove(f, t).value;
      Shape(g, {t}) && Ranked(g, rank) && NoLeak(g, {t}) && Left(f, g, t, dead)
  {
    assert Placed(f, t) by {
      SoundAt(f, {}, t);
    }
    var h, f1 := f.node[t].parent.value, Unlink(f, t);
    CutChildShrinks(f, h, t);
    var g1 := f1;
    g1, dead := CascadeFrom(f, rank, t);
    hide *;
    UnlinkLeft(f, f1, g1, t, h, dead);
    ClearParent(g1, rank, t);
  }

  /** The cascade that starts at the parent of a spawned task taken out of the parent's `child` set. */
  lemma CascadeFrom(f: Forest, rank: map<Etask, nat>, t: Etask) returns (g1: Forest, dead: set<Etask>)
    requires Inv(f, rank) && t in f.node && !f.node[t].free
    requires f.node[t].up.None? && f.node[t].parent.Some? && f.node[t].parent.value in f.node
    requires Answered(Unlink(f, t))
    ensures var h, f1 := f.node[t].parent.value, Unlink(f, t);
      && h in f1.node && t in f1.node
      && (if f1.node[h].done then CheckFree(f1, h) == Some(g1) else g1 == f1)
      && Unlinked(f, f1, t, h) && Reaped(f1, g1, h, dead) && t !in dead
      && (if f1.node[h].done && Empty(f1.node[h]) then h in dead else dead == {})
    ensures t in g1.node && g1.node[t] == Unlink(f, t).node[t]
    ensures Shape(g1, {t}) && Ranked(g1, rank) && NoLeak(g1, {t})
  {
    var h, f1 := f.node[t].parent.value, Unlink(f, t);
    assert {} + {t} == {t} && NoLeak(f, {t});
    UnlinkShape(f, {}, rank, t);
    UnlinkKeeps(f, f1, {}, rank, t, h);
    UnlinkedSelf(f, f1, t, h);
    hide Shape, Ranked, NoLeak, Reaped, Unlinked, AtOrAbove, Answered;
    UnlinkReady(f, f1, {}, rank, t, h);
    g1, dead := f1, {};
    if f1.node[h].done {
      dead := CheckFreeReaps(f1, {t}, rank, h);
      g1 := CheckFree(f1, h).value;
    } else {
      KnownRoot(f1, {t});
      NothingReaped(f1, h);
    }
    SpareHand(f1, g1, h, dead, rank, t);
  }

  /** A task in hand holds nothing that a cascade above it frees. */
  lemma SpareHand(f: Forest, g: Forest, h: Etask, dead: set<Etask>, rank: map<Etask, nat>, t: Etask)
    requires Reaped(f, g, h, dead) && Ranked(f, rank) && t in f.node && t !in dead && h in f.node
    requires rank[t] < rank[h] && (dead == {} || AtOrAbove(rank, h, dead))
    ensures t in g.node && g.node[t] == f.node[t]
  {
    forall c | c in f.node[t].child ensures c !in dead {
      assert Holds(f.node[t], c);
    }
    assert f.node[t].child - dead == f.node[t].child;
  }

  lemma LeftBelow(f: Forest, g: Forest, t: Etask, dead: set<Etask>, below: set<Etask>)
    requires Left(f, g, t, dead) && Below(f, t, below)
    ensures Below(g, t, below)
  {
    forall h, x | h in below && x in g.node && Holds(g.node[h], x) ensures x in below {
      assert Holds(f.node[h], x);
    }
  }

  /** `Left`, and then `t` is put into `dest.child`, or into `root` when `dest` is `None`. */
  ghost predicate Moved(f: Forest, g: Forest, t: Etask, dest: Option<Etask>, dead: set<Etask>) {
    && g.node.Keys == f.node.Keys && t in f.node && t !in dead && dead <= f.node.Keys
    && g.root == f.root - dead - {t} + (if dest.None? then {t} else {}) && g.closing == f.closing
    && g.node[t] == f.node[t].(up := None, parent := dest)
    && (forall x :: x in dead ==> Gone(g.node[x]) && !f.node[x].free)
    && (forall x :: x in f.node && x !in dead && x != t ==>
          var n := Bereft(f.node[x], dead + {t});
          g.node[x] == if dest == Some(x) then n.(child := n.child + {t}) else n)
    && (forall x :: x in f.node && x != t ==> (x in dead <==> Dies(f.node[x], dead + {t})))
  }

  /**
   Spawning under a parent, moving to another parent, or back to `root`. The source's assertion fails
   exactly for a task that a caller waits for; otherwise the task ends under `p`, unless `p` is free
   or is freed by the move, and then it ends in `root`. Leaving the old parent frees the completed
   ancestors that it leaves empty, and nothing else.
  */
  lemma SpawnParentKeeps(f: Forest, rank: map<Etask, nat>, t: Etask, p: Option<Etask>)
    returns (rank': map<Etask, nat>, dead: set<Etask>)
    requires Inv(f, rank) && t in f.node
    requires p.Some? ==> p.value in f.node && NotUnder(f, p.value, t)
    ensures Answered(f)
    ensures SpawnParent(f, t, p).Some? <==> f.node[t].up.None?
    ensures SpawnParent(f, t, p).Some? ==> var g := SpawnParent(f, t, p).value;
      && Inv(g, rank')
      && (if f.node[t].done && f.node[t].parent.None? then g == f
          else Moved(f, g, t, if p.Some? && !f.node[p.value].free && p.value !in dead then p else None, dead))
  {
    hide Inv, Moved, Left, NotUnder, Answered;
    SpawnReady(f, rank, t);
    rank', dead := rank, {};
    if f.node[t].up.Some? || (f.node[t].done && f.node[t].parent.None?) {
      return;
    }
    dead := LeaveKeeps(f, rank, t);
    rank' := Land(f, ParentRemove(f, t).value, rank, t, p, dead);
  }

  lemma SpawnReady(f: Forest, rank: map<Etask, nat>, t: Etask)
    requires Inv(f, rank) && t in f.node
    ensures Answered(f)
    ensures f.node[t].free ==> f.node[t].done && f.node[t].up.None? && f.node[t].parent.None?
    ensures f.node[t].done ==> f.node[t].free || !Empty(f.node[t]) || t in f.closing
  {
    InvAnswered(f);
    SoundAt(f, {}, t);
  }

  function Landed(m: Forest, t: Etask, p: Option<Etask>): Forest
    requires t in m.node && (p.Some? ==> p.value in m.node)
  {
    if p.None? || m.node[p.value].free then m.(root := m.root + {t}) else AddChild(m, p.value, t)
  }

  /** The second half of `spawn_parent`: putting the task where it goes. */
  lemma Land(f: Forest, m: Forest, rank: map<Etask, nat>, t: Etask, p: Option<Etask>, dead: set<Etask>)
    returns (rank': map<Etask, nat>)
    requires p.Some? ==> p.value in f.node && NotUnder(f, p.value, t)
    requires Shape(m, {t}) && Ranked(m, rank) && NoLeak(m, {t}) && Left(f, m, t, dead)
    requires f.node[t].done ==> !Empty(f.node[t]) || t in f.closing
    ensures Inv(Landed(m, t, p), rank')
    ensures Moved(f, Landed(m, t, p), t, if p.Some? && !f.node[p.value].free && p.value !in dead then p else None, dead)
  {
    hide Shape, Ranked, NoLeak, Moved, Inv;
    if p.None? || m.node[p.value].free {
      rank' := rank;
      BackToRoot(m, rank, t);
      RootMoved(f, m, t, dead);
    } else {
      var below: set<Etask> :| below <= f.node.Keys && Below(f, t, below) && p.value !in below;
      LeftBelow(f, m, t, dead, below);
      RankedKeys(m, rank);
      rank' := Lifted(rank, below, t);
      ChildAttached(m, t, p.value);
      AttachKeeps(m, AddChild(m, p.value, t), rank, t, p.value, below);
      ChildMoved(f, m, t, p.value, dead);
    }
  }

  lemma ChildAttached(m: Forest, t: Etask, p: Etask)
    requires Shape(m, {t}) && t in m.node && p in m.node && p != t && !m.node[p].free && m.node[t].parent.None?
    ensures Attached(m, AddChild(m, p, t), t, p)
  {
    SoundAt(m, {t}, t);
  }

  lemma ChildMoved(f: Forest, m: Forest, t: Etask, p: Etask, dead: set<Etask>)
    requires Left(f, m, t, dead) && p in f.node && p != t && p !in dead
    ensures Moved(f, AddChild(m, p, t), t, Some(p), dead)
  {
  }

  lemma RootMoved(f: Forest, m: Forest, t: Etask, dead: set<Etask>)
    requires Left(f, m, t, dead)
    ensures Moved(f, m.(root := m.root + {t}), t, None, dead)
  {
  }

  lemma LeaveKeeps(f: Forest, rank: map<Etask, nat>, t: Etask) returns (dead: set<Etask>)
    requires Answered(f) && Inv(f, rank) && t in f.node && !f.node[t].free && f.node[t].up.None?
    ensures ParentRemove(f, t).Some?
    ensures var g := ParentRemove(f, t).value;
      Shape(g, {t}) && Ranked(g, rank) && NoLeak(g, {t}) && Left(f, g, t, dead)
  {
    if f.node[t].parent.Some? {
      dead := LeaveParentKeeps(f, rank, t);
    } else {
      RootRemoveKeeps(f, rank, t);
      dead := {};
    }
  }

  lemma BackToRoot(m: Forest, rank: map<Etask, nat>, t: Etask)
    requires Shape(m, {t}) && Ranked(m, rank) && NoLeak(m, {t}) && t in m.node && m.node[t].parent.None?
    requires m.node[t].done ==> !Empty(m.node[t]) || t in m.closing
    ensures Inv(m.(root := m.root + {t}), rank)
  {
    var g := m.(root := m.root + {t});
    assert Sound(m, {t}, t);
    forall x | x in g.node ensures Sound(g, {}, x) {
      assert Sound(m, {t}, x);
    }
  }

  /**
   Calling a task and waiting for it. The source's assertions fail exactly when the caller already
   waits for a task, or the callee has a parent, a caller or is freed; otherwise the callee moves
   from `root` to the caller's `down` and nothing else changes.
  */
  lemma SetDownKeeps(f: Forest, rank: map<Etask, nat>, u: Etask, d: Etask) returns (rank': map<Etask, nat>)
    requires Inv(f, rank) && u in f.node && d in f.node && !f.node[u].free && NotUnder(f, u, d)
    ensures Answered(f)
    ensures SetDown(f, u, d).Some? <==>
      f.node[u].down.None? && f.node[d].parent.None? && f.node[d].up.None? && !f.node[d].free
    ensures SetDown(f, u, d).Some? ==> var g := SetDown(f, u, d).value;
      && Inv(g, rank')
      && g == Forest(f.node[u := f.node[u].(down := Some(d))][d := f.node[d].(up := Some(u))], f.root - {d}, f.closing)
  {
    InvAnswered(f);
    rank' := rank;
    if f.node[u].down.Some? || f.node[d].parent.Some? || f.node[d].up.Some? {
      return;
    }
    SoundAt(f, {}, d);
    if f.node[d].free {
      return;
    }
    rank' := CallAttach(f, rank, u, d);
  }

  lemma CallAttach(f: Forest, rank: map<Etask, nat>, u: Etask, d: Etask) returns (rank': map<Etask, nat>)
    requires Inv(f, rank) && u in f.node && d in f.node && !f.node[u].free && NotUnder(f, u, d)
    requires f.node[u].down.None? && f.node[d].parent.None? && f.node[d].up.None? && !f.node[d].free
    ensures d in f.root && u != d
    ensures Inv(AddDown(f.(root := f.root - {d}), u, d), rank')
  {
    var m := TakeFromRoot(f, rank, d);
    hide Inv, Shape, Ranked, NoLeak, Sound, Answered, Below, Attached, InHand;
    SpawnReady(f, rank, d);
    RankedKeys(m, rank);
    var below: set<Etask> :| below <= f.node.Keys && Below(f, d, below) && u !in below;
    rank' := Lifted(rank, below, d);
    BelowInRoot(f, d, below);
    CalleeAttached(m, u, d);
    AttachKeeps(m, AddDown(m, u, d), rank, d, u, below);
  }

  lemma BelowInRoot(f: Forest, d: Etask, below: set<Etask>)
    requires Below(f, d, below)
    ensures Below(f.(root := f.root - {d}), d, below) && d in below
  {
  }

  lemma CalleeAttached(m: Forest, u: Etask, d: Etask)
    requires u in m.node && d in m.node && u != d && InHand(m, d) && m.node[d].parent.None?
    requires !m.node[u].free && m.node[u].down.None?
    ensures Attached(m, AddDown(m, u, d), d, u)
  {
  }

  lemma TakeFromRoot(f: Forest, rank: map<Etask, nat>, d: Etask) returns (m: Forest)
    requires Inv(f, rank) && d in f.node && f.node[d].parent.None? && f.node[d].up.None? && !f.node[d].free
    ensures d in f.root && m == f.(root := f.root - {d})
    ensures Shape(m, {d}) && Ranked(m, rank) && NoLeak(m, {d}) && InHand(m, d)
  {
    InvAnswered(f);
    SoundAt(f, {}, d);
    RootRemoveKeeps(f, rank, d);
    m := f.(root := f.root - {d});
    assert ParentRemove(f, d) == Some(m);
    SoundAt(m, {d}, d);
  }

  lemma AdoptKeeps(f: Forest, rank: map<Etask, nat>, t: Etask)
    requires Inv(f, rank) && t in f.closing && f.node[t].up.Some? && !Empty(f.node[t])
    ensures Answered(f) && f.node[t].up.value in f.node
    ensures var u := f.node[t].up.value;
      && Adopt(f, t).node == f.node[u := f.node[u].(down := None, child := f.node[u].child + {t})]
                                   [t := f.node[t].(up := None, parent := Some(u))]
      && Inv(Adopt(f, t).(closing := f.closing - {t}), rank)
  {
    NotOwnCaller(f, rank, t);
    AdoptNode(f, t);
    AdoptRest(f, rank, t);
    AdoptShape(f, t);
  }

  lemma NotOwnCaller(f: Forest, rank: map<Etask, nat>, t: Etask)
    requires Inv(f, rank) && t in f.closing && f.node[t].up.Some?
    ensures Answered(f) && f.node[t].up.value in f.node && f.node[t].up.value != t
  {
    InvAnswered(f);
    SoundAt(f, {}, t);
    assert Holds(f.node[f.node[t].up.value], t);
  }

  lemma AdoptShape(f: Forest, t: Etask)
    requires Answered(f) && Shape(f, {}) && t in f.closing && t in f.node
      && f.node[t].up.Some? && t != f.node[t].up.value
    ensures Shape(Adopt(f, t).(closing := f.closing - {t}), {})
  {
    var u, g := f.node[t].up.value, Adopt(f, t).(closing := f.closing - {t});
    AdoptNode(f, t);
    SoundAt(f, {}, t);
    SoundAt(f, {}, u);
    hide Sound, Answered, Adopt;
    forall x | x in g.node ensures Sound(g, {}, x) {
      SoundAt(f, {}, x);
      AdoptSound(f, t, x);
    }
  }

  lemma AdoptNode(f: Forest, t: Etask)
    requires Answered(f) && t in f.node && f.node[t].up.Some?
    requires t != f.node[t].up.value
    ensures var u, g := f.node[t].up.value, Adopt(f, t);
      && u in f.node && f.node[u].down == Some(t)
      && g.node.Keys == f.node.Keys && g.root == f.root && g.closing == f.closing
      && g.node[u] == f.node[u].(down := None, child := f.node[u].child + {t})
      && g.node[t] == f.node[t].(up := None, parent := Some(u))
      && (forall x :: x in f.node && x != u && x != t ==> g.node[x] == f.node[x])
  {
  }

  lemma AdoptRest(f: Forest, rank: map<Etask, nat>, t: Etask)
    requires Answered(f) && Ranked(f, rank) && NoLeak(f, {}) && t in f.node && f.node[t].up.Some? && !Empty(f.node[t])
    requires t != f.node[t].up.value
    ensures Ranked(Adopt(f, t).(closing := f.closing - {t}), rank)
    ensures NoLeak(Adopt(f, t).(closing := f.closing - {t}), {})
  {
    var u, g := f.node[t].up.value, Adopt(f, t).(closing := f.closing - {t});
    AdoptNode(f, t);
    hide Answered, Adopt;
    assert Holds(f.node[u], t);
    forall h, x | h in g.node && Holds(g.node[h], x) && x in g.node ensures rank[x] < rank[h] {
      assert Holds(f.node[h], x);
    }
  }

  lemma AdoptSound(f: Forest, t: Etask, x: Etask)
    requires Answered(f) && t in f.closing && t in f.node && x in f.node
      && f.node[t].up.Some? && t != f.node[t].up.value
    requires Sound(f, {}, t) && Sound(f, {}, f.node[t].up.value) && Sound(f, {}, x)
    ensures Sound(Adopt(f, t).(closing := f.closing - {t}), {}, x)
  {
    AdoptNode(f, t);
    AdoptOwner(f, t, x);
    AdoptPlaced(f, t, x);
    hide Adopt, Answered, Owner, Placed;
  }

  lemma AdoptOwner(f: Forest, t: Etask, x: Etask)
    requires Answered(f) && t in f.node && x in f.node && f.node[t].up.Some? && t != f.node[t].up.value
    requires Sound(f, {}, t) && Sound(f, {}, f.node[t].up.value) && Sound(f, {}, x)
    ensures x in Adopt(f, t).node && Owner(Adopt(f, t).(closing := f.closing - {t}), x)
  {
    AdoptNode(f, t);
    hide Adopt, Answered;
  }

  lemma AdoptPlaced(f: Forest, t: Etask, x: Etask)
    requires Answered(f) && t in f.node && x in f.node && f.node[t].up.Some? && t != f.node[t].up.value
    requires Sound(f, {}, t) && Sound(f, {}, f.node[t].up.value) && Sound(f, {}, x)
    ensures x in Adopt(f, t).node && Placed(Adopt(f, t).(closing := f.closing - {t}), x)
  {
    AdoptNode(f, t);
    hide Adopt, Answered;
  }

  /**
   The end of a completion. The source's assertion `etask not in root` fails exactly when the task
   has already been freed, by a cascade that ran while its handlers did. Otherwise a task that still
   holds something is kept: under its caller as a spawned child if it has one, else where it is; and
   an empty task is freed together with the completed ancestors that this leaves empty.
  */
  lemma EndKeeps(f: Forest, rank: map<Etask, nat>, t: Etask) returns (dead: set<Etask>)
    requires Inv(f, rank) && t in f.closing
    ensures Answered(f) && t in f.node
    ensures EndComplete(f, t).Some? <==> !f.node[t].free
    ensures EndComplete(f, t).Some? ==> var g := EndComplete(f, t).value;
      && Inv(g, rank)
      && (if Empty(f.node[t]) then t in dead && Reaped(f.(closing := f.closing - {t}), g, t, dead)
          else g == (if f.node[t].up.Some? then Adopt(f, t) else f).(closing := f.closing - {t}))
  {
    hide Inv, Shape, Ranked, NoLeak, Answered, Sound, Reaped;
    EndReady(f, rank, t);
    dead := {};
    if f.node[t].free {
      return;
    }
    if !Empty(f.node[t]) && f.node[t].up.Some? {
      AdoptKeeps(f, rank, t);
      return;
    }
    CloseKeeps(f, rank, t);
    dead := ReapClosed(f, rank, t);
  }

  lemma EndReady(f: Forest, rank: map<Etask, nat>, t: Etask)
    requires Inv(f, rank) && t in f.closing
    ensures Answered(f) && t in f.node && f.node[t].done
    ensures f.node[t].free ==> EndComplete(f, t).None? && Empty(f.node[t]) && Holder(f.node[t]).None?
  {
    InvAnswered(f);
    SoundAt(f, {}, t);
    if f.node[t].free {
      FreedCannotEnd(f, t);
    }
  }

  /** A freed task sits nowhere, so `_root_remove` cannot find it. */
  lemma FreedCannotEnd(f: Forest, t: Etask)
    requires Answered(f) && t in f.node && t !in f.root
    requires Empty(f.node[t]) && f.node[t].up.None? && f.node[t].parent.None?
    ensures EndComplete(f, t).None?
  {
    var f1 := f.(closing := f.closing - {t});
    assert Answered(f1) && ParentRemove(f1, t).None?;
  }

  lemma ReapClosed(f: Forest, rank: map<Etask, nat>, t: Etask) returns (dead: set<Etask>)
    requires var g := f.(closing := f.closing - {t}); Answered(g) && Shape(g, {}) && Ranked(g, rank) && NoLeak(g, {t})
    requires t in f.node && f.node[t].done && !f.node[t].free
    ensures var f1 := f.(closing := f.closing - {t});
      && CheckFree(f1, t).Some? && Inv(CheckFree(f1, t).value, rank)
      && (if Empty(f.node[t]) then t in dead && Reaped(f1, CheckFree(f1, t).value, t, dead)
          else CheckFree(f1, t).value == f1)
  {
    hide Answered, Ranked, Shape, NoLeak, Reaped;
    assert {} + {t} == {t};
    dead := CheckFreeReaps(f.(closing := f.closing - {t}), {}, rank, t);
  }

  lemma CloseKeeps(f: Forest, rank: map<Etask, nat>, t: Etask)
    requires Inv(f, rank) && t in f.closing
    ensures var g := f.(closing := f.closing - {t}); Answered(g) && Shape(g, {}) && Ranked(g, rank) && NoLeak(g, {t})
  {
    InvAnswered(f);
    var g := f.(closing := f.closing - {t});
    forall x | x in g.node ensures Sound(g, {}, x) {
      SoundAt(f, {}, x);
    }
  }

  /** A completion that fails leaves everything as it is. */
  lemma AbandonKeeps(f: Forest, rank: map<Etask, nat>, t: Etask)
    requires Inv(f, rank) && t in f.node && f.node[t].free
    ensures Inv(f.(closing := f.closing - {t}), rank)
  {
    var g := f.(closing := f.closing - {t});
    forall x | x in g.node ensures Sound(g, {}, x) {
      SoundAt(f, {}, x);
    }
  }
}
