/** The pool of action stacks: a list of active blocks, and a list of blocks kept for reuse
    (chdk-src/core/action_stack.c:29-155, 435-480). */
module StackPool {

  const MAX_ACTION_STACKS: nat := 5

  class Block {
    var ptr: int                // below 0: the stack is empty
    var compId: nat             // 0: finished
    var next: Block?

    constructor ()
    {
      ptr, compId, next := 0, 0, null;
    }

    method Set(ptr: int, compId: nat, next: Block?)
      modifies this
      ensures this.ptr == ptr && this.compId == compId && this.next == next
    {
      this.ptr, this.compId, this.next := ptr, compId, next;
    }
  }

  // ----- Lists of blocks -----

  ghost function After(s: seq<Block>, i: nat): Block?
    requires i < |s|
  {
    if i + 1 < |s| then s[i + 1] else null
  }

  // Following next from head meets the blocks of s and ends.
  ghost predicate Chain(head: Block?, s: seq<Block>)
    reads s`next
  {
    && (head == if s == [] then null else s[0])
    && forall i: nat | i < |s| :: s[i].next == After(s, i)
  }

  ghost predicate Distinct(s: seq<Block>) { forall i, j | 0 <= i < j < |s| :: s[i] != s[j] }

  ghost function IdsOf(s: seq<Block>): (ids: seq<nat>)
    reads s`compId
    ensures |ids| == |s| && forall i | 0 <= i < |s| :: ids[i] == s[i].compId
  {
    if s == [] then [] else [s[0].compId] + IdsOf(s[1..])
  }

  // Every block of the list holds something to run, or none does.
  ghost predicate AllLoaded(s: seq<Block>)
    reads s`ptr
  {
    forall b | b in s :: b.ptr >= 0
  }

  ghost predicate AllDone(s: seq<Block>)
    reads s`ptr, s`compId
  {
    forall b | b in s :: b.ptr < 0 && b.compId == 0
  }

  function Without<T>(s: seq<T>, i: nat): (r: seq<T>)
    requires i < |s|
    ensures |r| == |s| - 1
  {
    s[..i] + s[i + 1..]
  }

  lemma PopFront(head: Block?, s: seq<Block>)
    requires Chain(head, s) && head != null
    ensures s != [] && head == s[0] && Chain(head.next, s[1..]) && s == [s[0]] + s[1..]
  {
    var t := s[1..];
    forall i: nat | i < |t| ensures t[i].next == After(t, i) {
      assert t[i] == s[i + 1];
      assert s[i + 1].next == After(s, i + 1);
    }
    assert s[0].next == After(s, 0);
  }

  lemma NoHead(head: Block?, s: seq<Block>)
    requires Chain(head, s)
    ensures (head == null) == (s == [])
  {
  }

  lemma PushFront(b: Block, s: seq<Block>)
    requires Chain(b.next, s)
    ensures Chain(b, [b] + s)
  {
    var t := [b] + s;
    forall i: nat | i < |t| ensures t[i].next == After(t, i) {
      if i > 0 {
        assert t[i] == s[i - 1];
        assert s[i - 1].next == After(s, i - 1);
      }
    }
  }

  lemma ConsIds(b: Block, s: seq<Block>)
    ensures IdsOf([b] + s) == [b.compId] + IdsOf(s)
    ensures AllLoaded([b] + s) == (b.ptr >= 0 && AllLoaded(s))
    ensures AllDone([b] + s) == (b.ptr < 0 && b.compId == 0 && AllDone(s))
  {
    hide IdsOf;
    var t := [b] + s;
    forall c: Block ensures c in t <==> c == b || c in s {
      if c == b { assert t[0] == c; }
    }
    forall i | 0 <= i < |t| ensures IdsOf(t)[i] == ([b.compId] + IdsOf(s))[i] {
      if i > 0 { assert t[i] == s[i - 1]; }
    }
  }

  // ----- Identifiers -----

  // The most recent first, all of them given out already.
  predicate IdsInOrder(ids: seq<nat>, top: nat) {
    && (forall i | 0 <= i < |ids| :: 0 < ids[i] < top)
    && (forall i, j | 0 <= i < j < |ids| :: ids[i] > ids[j])
  }

  lemma NewId(ids: seq<nat>, top: nat)
    requires IdsInOrder(ids, top) && top > 0
    ensures IdsInOrder([top] + ids, top + 1)
  {
  }

  lemma FewerIds(ids: seq<nat>, top: nat, i: nat)
    requires IdsInOrder(ids, top) && i < |ids|
    ensures IdsInOrder(Without(ids, i), top)
  {
  }

  // ----- The pool -----

  class Pool {
    var activeStacks: Block?    // the most recent first
    var freeStacks: Block?
    var numStacks: int
    var taskCompId: nat
    ghost var actives: seq<Block>
    ghost var frees: seq<Block>

    // Both lists end, they share no block, and between them they have at most five.
    ghost predicate Valid()
      reads this, actives, frees
    {
      && Chain(activeStacks, actives) && Chain(freeStacks, frees) && Distinct(actives + frees)
      && numStacks == |actives| && |actives| + |frees| <= MAX_ACTION_STACKS && taskCompId > 0
      && IdsInOrder(IdsOf(actives), taskCompId) && AllLoaded(actives) && AllDone(frees)
    }

    ghost function Ids(): seq<nat>
      reads this`actives, actives
    {
      IdsOf(actives)
    }

    constructor ()
      ensures Valid() && Ids() == [] && frees == [] && taskCompId == 1
    {
      activeStacks, freeStacks, numStacks, taskCompId := null, null, 0, 1;
      actives, frees := [], [];
    }

    // A block to use, from the free list or new.
    method TakeBlock() returns (stack: Block)
      requires Chain(freeStacks, frees) && Distinct(actives + frees) && AllDone(frees)
      modifies this`freeStacks, this`frees
      ensures Chain(freeStacks, frees) && Distinct([stack] + actives + frees) && AllDone(frees)
      ensures if old(frees) == [] then fresh(stack) && frees == [] else stack in old(frees) && old(frees) == [stack] + frees
    {
      hide *;
      NoHead(freeStacks, frees);
      if freeStacks != null {
        PopFront(freeStacks, frees);
        stack := freeStacks;
        ConsIds(stack, frees[1..]);
        Apart(actives, stack, frees[1..]);
        freeStacks := freeStacks.next;
        frees := frees[1..];
      } else {
        stack := new Block();
        NewApart(actives, stack);
      }
    }

    // Puts a block to the front of the active ones.
    method Activate(stack: Block)
      requires Chain(activeStacks, actives) && Chain(freeStacks, frees) && stack !in actives && stack !in frees
      requires IdsInOrder(IdsOf(actives), taskCompId) && taskCompId > 0 && AllLoaded(actives) && AllDone(frees)
      modifies this`activeStacks, this`actives, this`numStacks, this`taskCompId, stack
      ensures actives == [stack] + old(actives) && Chain(activeStacks, actives) && Chain(freeStacks, frees)
      ensures AllLoaded(actives) && AllDone(frees) && IdsInOrder(IdsOf(actives), taskCompId)
      ensures IdsOf(actives) == [old(taskCompId)] + old(IdsOf(actives))
      ensures numStacks == old(numStacks) + 1 && taskCompId == old(taskCompId) + 1 && stack.compId == old(taskCompId)
    {
      hide *;
      NewId(IdsOf(actives), taskCompId);
      stack.Set(1, taskCompId, activeStacks);
      assert Chain(activeStacks, actives) && Chain(freeStacks, frees) && AllLoaded(actives) && AllDone(frees);
      assert IdsOf(actives) == old(IdsOf(actives));
      PushFront(stack, actives);
      ConsIds(stack, actives);
      activeStacks := stack;
      actives := [stack] + actives;
      numStacks := numStacks + 1;
      taskCompId := taskCompId + 1;
    }

    // Starts a stack; -1 when there are five already.
    method Create() returns (id: int)
      requires Valid()
      modifies this, frees
      ensures Valid()
      ensures old(|actives|) == 5 ==> id == -1 && unchanged(this) && Ids() == old(Ids())
      ensures old(|actives|) < 5 ==>
        && id == old(taskCompId) && Ids() == [id] + old(Ids()) && taskCompId == old(taskCompId) + 1
        && |actives| > 0 && actives == [actives[0]] + old(actives)
        && if old(frees) == [] then fresh(actives[0]) && frees == [] else old(frees) == [actives[0]] + frees
    {
      hide Chain, Distinct, IdsOf, AllLoaded, AllDone, IdsInOrder;
      if numStacks == MAX_ACTION_STACKS { return -1; }
      ghost var a0 := actives;
      var stack := TakeBlock();
      FirstApart(stack, actives, frees);
      Activate(stack);
      id := stack.compId;
      assert [stack] + a0 + frees == actives + frees;
    }

    // Two stacks in a new pool.
    method TwoStacks()
      requires Valid() && Ids() == [] && frees == [] && taskCompId == 1
      modifies this
      ensures Valid() && Ids() == [2, 1] && |actives| == 2 && fresh(All())
    {
      hide AllLoaded, AllDone, Chain, Distinct, IdsInOrder;
      assert |actives| == |Ids()| == 0;
      hide IdsOf, Ids, Valid;
      var a := Create();
      assert actives == [actives[0]] + [] && Ids() == [1] + [];
      var b := Create();
    }

    // The block before p.
    method Before(p: Block, ghost k: nat) returns (prev: Block)
      requires Chain(activeStacks, actives) && Distinct(actives) && 0 < k < |actives| && actives[k] == p
      ensures prev == actives[k - 1] && prev.next == p
    {
      ghost var s := actives;
      assert activeStacks == s[0];
      prev := activeStacks;
      ghost var j := 0;
      while prev.next != p
        invariant j < k && prev == s[j] && prev.next == After(s, j)
        decreases k - j
      {
        j := j + 1;
        assert s[j].next == After(s, j);
        prev := prev.next;
      }
    }

    // Links the block before the k-th over it.
    method LinkOver(prev: Block, ghost s: seq<Block>, ghost k: nat)
      requires Chain(activeStacks, s) && Distinct(s) && 0 < k < |s| && prev == s[k - 1] && prev.next == s[k]
      requires Chain(freeStacks, frees) && prev !in frees
      modifies prev`next
      ensures Chain(activeStacks, Without(s, k)) && Chain(freeStacks, frees)
    {
      assert s[k].next == After(s, k) && activeStacks == s[0];
      assert forall i: nat | i < |s| && i != k - 1 :: s[i] != prev && s[i].next == After(s, i);
      hide Chain, Distinct, After, Without;
      prev.next := prev.next.next;
      LinkedOver(activeStacks, s, k);
    }

    // Takes p, the k-th active block, out of the list.
    method Unlink(p: Block, ghost k: nat)
      requires Chain(activeStacks, actives) && Distinct(actives) && k < |actives| && actives[k] == p
      requires Chain(freeStacks, frees) && forall b | b in actives :: b !in frees
      modifies this`activeStacks, this`actives, actives`next
      ensures actives == Without(old(actives), k) && Chain(activeStacks, actives) && Chain(freeStacks, frees)
    {
      hide *;
      ghost var s := actives;
      HeadIs(activeStacks, s, k);
      if p == activeStacks {
        PopFront(activeStacks, s);
        WithoutFirst(s);
        activeStacks := activeStacks.next;
      } else {
        var prev := Before(p, k);
        LinkOver(prev, s, k);
      }
      actives := Without(s, k);
    }

    // Cleans up a stack, unless that has been done already.
    method Finish(p: Block)
      requires Valid() && p in actives + frees
      modifies this, actives, frees
      ensures Valid() && taskCompId == old(taskCompId)
      ensures old(p.compId) == 0 ==> actives == old(actives) && frees == old(frees) && Ids() == old(Ids())
      ensures old(p.compId) != 0 ==>
        && p in old(actives) && frees == [p] + old(frees)
        && actives == Without(old(actives), Index(old(actives), p))
        && Ids() == Without(old(Ids()), Index(old(actives), p))
    {
      hide IdsOf, AllLoaded, IdsInOrder, Without, Chain, Distinct, AllDone;
      if p.compId == 0 { return; }
      ActiveIf(actives, frees, p);
      FinishActive(p, Index(actives, p));
    }

    method FinishActive(p: Block, ghost k: nat)
      requires Valid() && k < |actives| && actives[k] == p
      modifies this, actives
      ensures Valid() && taskCompId == old(taskCompId) && actives == Without(old(actives), k)
      ensures Ids() == Without(old(Ids()), k) && frees == [p] + old(frees)
    {
      hide IdsOf, AllLoaded, IdsInOrder, Without, Chain, Distinct, AllDone;
      PartsApart(actives, frees, k);
      FewerIds(IdsOf(actives), taskCompId, k);
      ghost var a0 := actives;
      Unlink(p, k);
      assert IdsOf(a0) == old(IdsOf(a0)) && AllLoaded(a0) && AllDone(frees);
      WithoutIds(a0, k);
      numStacks := numStacks - 1;
      Release(p);
    }

    // Puts a block that is in neither list to the front of the free ones.
    method Release(p: Block)
      requires Chain(freeStacks, frees) && Chain(activeStacks, actives) && AllDone(frees) && AllLoaded(actives)
      requires p !in actives && p !in frees
      modifies this`freeStacks, this`frees, p
      ensures frees == [p] + old(frees) && Chain(freeStacks, frees) && AllDone(frees)
      ensures Chain(activeStacks, actives) && AllLoaded(actives) && IdsOf(actives) == old(IdsOf(actives))
    {
      hide *;
      p.Set(-1, 0, freeStacks);
      assert Chain(activeStacks, actives) && Chain(freeStacks, frees) && AllLoaded(actives) && AllDone(frees);
      assert IdsOf(actives) == old(IdsOf(actives));
      PushFront(p, frees);
      ConsIds(p, frees);
      freeStacks := p;
      frees := [p] + frees;
    }

    // Finds an active stack.
    method Find(id: nat) returns (p: Block?)
      requires Valid()
      ensures if id in Ids() then p != null && p in actives && p.compId == id && Index(actives, p) == Index(Ids(), id)
              else p == null
    {
      hide AllLoaded, AllDone, Chain, Distinct, IdsOf;
      p := activeStacks;
      ghost var i := 0;
      AtHead(activeStacks, actives);
      while p != null
        invariant i <= |actives| && p == if i < |actives| then actives[i] else null
        invariant forall j | 0 <= j < i :: Ids()[j] != id
        decreases |actives| - i
      {
        NextOf(activeStacks, actives, i);
        if p.compId == id {
          FirstIndex(Ids(), i, id);
          assert forall j | 0 <= j < i :: actives[j].compId == Ids()[j];
          FirstIndex(actives, i, p);
          return;
        }
        p := p.next;
        i := i + 1;
      }
    }

    // Whether the stack with this id has finished.
    method IsFinished(id: nat) returns (finished: bool)
      requires Valid()
      ensures finished == (id !in Ids())
    {
      hide *;
      var p := Find(id);
      finished := p == null;
    }

    // Finds a stack and terminates it.
    method Kill(id: nat)
      requires Valid()
      modifies this, actives, frees
      ensures Valid() && taskCompId == old(taskCompId)
      ensures id !in old(Ids()) ==> actives == old(actives) && frees == old(frees) && Ids() == old(Ids())
      ensures id in old(Ids()) ==>
        && actives == Without(old(actives), Index(old(Ids()), id)) && Ids() == Without(old(Ids()), Index(old(Ids()), id))
        && frees == [old(actives)[Index(old(Ids()), id)]] + old(frees)
    {
      hide AllLoaded, AllDone, Chain, Distinct, IdsOf, IdsInOrder, Index, Without;
      var p := Find(id);
      if p != null {
        FinishActive(p, Index(actives, p));
      }
    }

    // ----- A pass over the active stacks -----

    // Every block there is.
    ghost function All(): set<Block>
      reads this
    {
      (set b | b in actives) + (set b | b in frees)
    }

    // Whether a pass has left the pool like this.
    ghost predicate Reached(s: Pass)
      reads this`actives, this`taskCompId, actives
    {
      Ids() == s.ids && taskCompId == s.top
    }

    // The same, with the running stack in the block p.
    ghost predicate At(p: Block, s: Pass)
      reads this`actives, this`frees, this`taskCompId, actives
    {
      Reached(s) && Placed(s, actives, frees, p)
    }

    lemma AtIs(p: Block, s: Pass)
      ensures At(p, s) == (Ids() == s.ids && taskCompId == s.top && Placed(s, actives, frees, p))
      ensures At(p, s) ==> Reached(s)
    {
      hide Placed, Ids;
    }

    // A stack that can run is an active one, under its own identifier.
    lemma AtLoaded(p: Block)
      requires Valid() && p in actives + frees && p.ptr >= 0
      ensures At(p, Pass(Ids(), taskCompId, p.compId, 0))
    {
      hide Chain, Distinct, IdsOf;
      assert p !in frees;
      var i :| 0 <= i < |actives| && actives[i] == p;
      hide AllLoaded, AllDone;
      assert Ids()[i] == p.compId;
      ByOrder(Ids(), taskCompId, i);
    }

    // What the block says of itself: its identifier, or none.
    lemma AtId(p: Block, s: Pass)
      requires Valid() && At(p, s)
      ensures p.compId == s.own && (s.own == 0 ==> p.ptr < 0) && (s.own != 0 ==> s.own in s.ids && p.ptr >= 0)
    {
      hide Chain, Distinct, IdsOf, IdsInOrder;
    }

    lemma PoolIs()
      requires Valid()
      ensures |actives| <= 5 && Ids() == IdsOf(actives) && |Ids()| == |actives|
      ensures IdsInOrder(Ids(), taskCompId) && taskCompId > 0
      ensures All() == (set b | b in actives) + (set b | b in frees)
    {
      hide Chain, Distinct, IdsInOrder, AllLoaded, AllDone, IdsOf;
    }

    // Starts a stack from within a pass; those still to come are the last ones of the active list.
    method StartOne(ghost w: seq<Block>, ghost p: Block, ghost s: Pass) returns (ghost made: set<Block>)
      requires Valid() && EndsWith(actives, w) && At(p, s)
      modifies this, All()
      ensures At(p, AfterOp(s, Start))
      ensures Valid() && taskCompId >= old(taskCompId) && Later(old(Ids()), Ids(), old(taskCompId))
      ensures EndsWith(actives, w) && IdsOf(w) == old(IdsOf(w))
      ensures Kept(old(actives + frees), actives + frees) && fresh(made) && All() == old(All()) + made
    {
      hide *;
      ghost var a0, f0, ids, u, top := actives, frees, Ids(), IdsOf(w), taskCompId;
      PoolIs();
      AtIs(p, s);
      EndIds(a0, w);
      var id := Create();
      PoolIs();
      AtIs(p, AfterOp(s, Start));
      if |a0| < 5 {
        ghost var b := actives[0];
        PlacedStart(s, a0, f0, p, b, frees);
        EndCons(a0, w, b);
        EndCons(ids, u, top);
        LaterCons(ids, top);
        StillThere(a0, f0, b, frees);
        OneMore(a0, f0, b, frees);
        made := if f0 == [] then {b} else {};
      } else {
        made := {};
        NoRoom(s);
        LaterSame(ids, ids, top);
        KeptSame(a0 + f0);
      }
      EndIds(actives, w);
      SameEnd(Ids(), IdsOf(w), u);
    }

    // Finishes a stack from within a pass.
    method StopOne(id: nat, ghost w: seq<Block>, ghost p: Block, ghost s: Pass)
      requires Valid() && EndsWith(actives, w) && At(p, s)
      modifies this, All()
      ensures At(p, AfterOp(s, Stop(id)))
      ensures Valid() && taskCompId == old(taskCompId) && Later(old(Ids()), Ids(), taskCompId) && id !in Ids()
      ensures id !in old(IdsOf(w)) ==> EndsWith(actives, w) && IdsOf(w) == old(IdsOf(w))
      ensures Kept(old(actives + frees), actives + frees) && All() == old(All())
    {
      hide AllLoaded, AllDone, Chain, Distinct, IdsOf, IdsInOrder, EndsWith, Later, Kept, Without, Index,
        AfterOp, Placed, At;
      ghost var a0, f0, ids, u := actives, frees, Ids(), IdsOf(w);
      EndIds(a0, w);
      AtIs(p, s);
      Kill(id);
      AtIs(p, AfterOp(s, Stop(id)));
      if id in ids {
        ghost var k := Index(ids, id);
        PlacedStop(s, a0, f0, p, id);
        OnlyOnce(ids, taskCompId, k);
        LaterSame(ids, Without(ids, k), taskCompId);
        Moved(a0, f0, k);
        if id !in u {
          BeforeEnd(ids, u, k);
          WithoutEnd(a0, w, k);
          WithoutEnd(ids, u, k);
        }
      } else {
        NotThere(s, id);
        LaterSame(ids, ids, taskCompId);
        KeptSame(a0 + f0);
      }
      SameBlocks(a0, f0);
      if id !in u {
        EndIds(actives, w);
        SameEnd(Ids(), IdsOf(w), u);
      }
    }

    // What an action does once.
    method RunOp(op: Op, ghost w: seq<Block>, ghost p: Block, ghost s: Pass) returns (ghost made: set<Block>)
      requires Valid() && EndsWith(actives, w) && At(p, s)
      modifies this, All()
      ensures At(p, AfterOp(s, op))
      ensures Valid() && taskCompId >= old(taskCompId) && Later(old(Ids()), Ids(), old(taskCompId))
      ensures op.Stop? ==> op.id !in Ids()
      ensures (op.Stop? ==> op.id !in old(IdsOf(w))) ==> EndsWith(actives, w) && IdsOf(w) == old(IdsOf(w))
      ensures Kept(old(actives + frees), actives + frees) && fresh(made) && All() == old(All()) + made
    {
      hide *;
      made := {};
      if op.Start? { made := StartOne(w, p, s); } else { StopOne(op.id, w, p, s); }
    }

    lemma SameBlocks(a: seq<Block>, f: seq<Block>)
      requires Kept(a + f, actives + frees) && Kept(actives + frees, a + f)
      ensures All() == (set b | b in a) + (set b | b in f)
    {
      forall b: Block ensures (b in a || b in f) == (b in actives || b in frees) {
        assert (b in a || b in f) == (b in a + f);
        assert (b in actives || b in frees) == (b in actives + frees);
      }
    }

    // What the actions of one stack do to the pool while it runs.
    method RunOps(ops: seq<Op>, ghost w: seq<Block>, ghost p: Block, ghost s: Pass) returns (ghost made: set<Block>)
      requires Valid() && EndsWith(actives, w) && At(p, s)
      modifies this, All()
      ensures At(p, AfterOps(s, ops, |ops|))
      ensures Valid() && taskCompId >= old(taskCompId) && Later(old(Ids()), Ids(), old(taskCompId))
      ensures Stopped(ops, |ops|, old(taskCompId), Ids())
      ensures NoneStopped(ops, |ops|, old(IdsOf(w))) ==> EndsWith(actives, w) && IdsOf(w) == old(IdsOf(w))
      ensures Kept(old(actives + frees), actives + frees)
      ensures fresh(made) && All() == old(All()) + made
    {
      hide *;
      ghost var ids, u, top, all := Ids(), IdsOf(w), taskCompId, actives + frees;
      LaterSelf(ids, top);
      KeptSame(all);
      NothingYet(ops, top, ids, u);
      NextOp(s, ops, 0);
      made := {};
      for i := 0 to |ops|
        invariant Valid() && taskCompId >= top && Later(ids, Ids(), top) && Stopped(ops, i, top, Ids())
        invariant NoneStopped(ops, i, u) ==> EndsWith(actives, w) && IdsOf(w) == u
        invariant Kept(all, actives + frees) && At(p, AfterOps(s, ops, i))
        invariant fresh(made) && All() == old(All()) + made
      {
        NextOp(s, ops, i);
        ghost var v := if NoneStopped(ops, i, u) then w else [];
        EndNone(actives);
        ghost var before, known, n := Ids(), actives + frees, taskCompId;
        ghost var more := RunOp(ops[i], v, p, AfterOps(s, ops, i));
        made := made + more;
        NextStopped(ops, i, top, n, before, Ids(), u);
        LaterTwice(ids, before, Ids(), top, n);
        KeptTwice(all, known, actives + frees);
      }
    }

    // Cleans up the stack that has run, from within a pass.
    method FinishOne(p: Block, ghost w: seq<Block>)
      requires Valid() && p in actives + frees
      modifies this, All()
      ensures Valid() && taskCompId == old(taskCompId) && Later(old(Ids()), Ids(), taskCompId)
      ensures Ids() == Removed(old(Ids()), old(p.compId))
      ensures p !in w && old(EndsWith(actives, w)) ==> EndsWith(actives, w) && IdsOf(w) == old(IdsOf(w))
      ensures Kept(old(actives + frees), actives + frees) && All() == old(All())
    {
      hide AllLoaded, AllDone, Chain, Distinct, IdsOf, IdsInOrder, EndsWith, Later, Kept, Without, Index, Removed;
      ghost var a0, f0, ids, u, c := actives, frees, Ids(), IdsOf(w), p.compId;
      NoZero(ids, taskCompId);
      ghost var goes := p !in w && EndsWith(a0, w);
      if goes { EndIds(a0, w); }
      Finish(p);
      if c != 0 {
        ghost var k := Index(a0, p);
        ByOrder(ids, taskCompId, k);
        OnlyOnce(ids, taskCompId, k);
        LaterSame(ids, Without(ids, k), taskCompId);
        Moved(a0, f0, k);
        if goes {
          BeforeEnd(a0, w, k);
          WithoutEnd(a0, w, k);
          WithoutEnd(ids, u, k);
        }
      } else {
        LaterSame(ids, ids, taskCompId);
        KeptSame(a0 + f0);
      }
      SameBlocks(a0, f0);
      if goes {
        EndIds(actives, w);
        SameEnd(Ids(), IdsOf(w), u);
      }
    }

    // Runs the stack p until one of its actions waits or it is empty.
    method RunStack(p: Block, turn: Turn, ghost w: seq<Block>) returns (ghost made: set<Block>)
      requires Valid() && EndsWith(actives, w) && p in actives + frees && p !in w && p.ptr >= 0
      modifies this, All()
      ensures Valid() && taskCompId >= old(taskCompId) && Later(old(Ids()), Ids(), old(taskCompId))
      ensures Reached(AfterTurn(old(Pass(Ids(), taskCompId, p.compId, 0)), turn))
      ensures Stopped(turn.ops, |turn.ops|, old(taskCompId), Ids())
      ensures NoneStopped(turn.ops, |turn.ops|, old(IdsOf(w))) ==> EndsWith(actives, w) && IdsOf(w) == old(IdsOf(w))
      ensures Kept(old(actives + frees), actives + frees)
      ensures fresh(made) && All() == old(All()) + made
    {
      hide *;
      ghost var ids, u, top, all := Ids(), IdsOf(w), taskCompId, actives + frees;
      ghost var s := Pass(ids, top, p.compId, 0);
      AtLoaded(p);
      made := RunOps(turn.ops, w, p, s);
      ghost var r := AfterOps(s, turn.ops, |turn.ops|);
      AtIs(p, r);
      AtId(p, r);
      TurnIs(s, turn);
      KeptIs(all, actives + frees, p);
      if turn.done || p.ptr < 0 {
        ghost var before, known, n := Ids(), actives + frees, taskCompId;
        PoolIs();
        NoZero(before, n);
        FinishOne(p, w);
        LaterTwice(ids, before, Ids(), top, n);
        StoppedLater(turn.ops, top, n, before, Ids());
        KeptTwice(all, known, actives + frees);
      }
      ReachedIs(AfterTurn(s, turn));
    }

    lemma ReachedIs(s: Pass)
      ensures Reached(s) == (Ids() == s.ids && taskCompId == s.top)
    {
    }

    // While no stack still to come has been finished, those still to come are at the end of the list,
    // with the identifiers they had, and the others have run.
    ghost predicate OnTrack(ids: seq<nat>, i: nat, p: Block?, w: seq<Block>, visited: seq<nat>)
      reads this`actives, this`taskCompId, w`compId
    {
      && i <= |ids| && IdsInOrder(ids, taskCompId)
      && EndsWith(actives, w) && IdsOf(w) == ids[i..]
      && p == (if w == [] then null else w[0]) && visited == ids[..i]
    }

    // Once one has been, it never runs; the first one has.
    ghost predicate Lost(ids: seq<nat>, k: nat, visited: seq<nat>)
      reads this`actives, this`taskCompId, actives
    {
      k < |ids| && ids[k] < taskCompId && ids[k] !in Ids() && ids[k] !in visited && [ids[0]] <= visited
    }

    lemma TrackStep(ids: seq<nat>, i: nat, p: Block, w: seq<Block>, visited: seq<nat>)
      requires Valid() && OnTrack(ids, i, p, w, visited)
      ensures i < |ids| && w != [] && EndsWith(actives, w[1..]) && p !in w[1..] && p.ptr >= 0 && p.compId == ids[i]
      ensures p.next == if w[1..] == [] then null else w[1..][0]
      ensures IdsOf(w[1..]) == ids[i + 1..]
    {
      hide Chain, Distinct, IdsInOrder, EndsWith, AllDone, IdsOf;
      var k := |actives| - |w|;
      EndTail(actives, w);
      IdsTail(w);
      NextOf(activeStacks, actives, k);
      TailApart(actives, frees, k);
      assert w[1..] == actives[k + 1..];
      assert p == actives[k] && p in actives;
      if w[1..] != [] { EndAt(actives, w[1..], 0); }
    }

    // The blocks that p may lead to.
    lemma NextKnown(p: Block)
      requires Valid() && p in actives + frees
      ensures p.next != null ==> p.next in actives + frees
    {
      hide IdsOf, IdsInOrder, AllLoaded, AllDone, Distinct;
      if p in actives {
        var i :| 0 <= i < |actives| && actives[i] == p;
        NextOf(activeStacks, actives, i);
      } else {
        var i :| 0 <= i < |frees| && frees[i] == p;
        NextOf(freeStacks, frees, i);
      }
    }

    lemma LoadedIsActive(p: Block)
      requires Valid() && p in actives + frees && p.ptr >= 0
      ensures p.compId in Ids()
    {
      var i :| 0 <= i < |actives| && actives[i] == p;
      assert Ids()[i] == p.compId;
    }

    // Runs the stack at activeStack, if there still is one in that block.
    method Visit(activeStack: Block, turn: Turn, visited: seq<nat>, ghost w: seq<Block>)
      returns (visited': seq<nat>, ghost made: set<Block>)
      requires Valid() && EndsWith(actives, w) && activeStack in actives + frees && activeStack !in w
      modifies this, All()
      ensures Valid() && taskCompId >= old(taskCompId) && Later(old(Ids()), Ids(), old(taskCompId))
      ensures old(activeStack.ptr) >= 0 ==>
        && visited' == visited + [old(activeStack.compId)] && Stopped(turn.ops, |turn.ops|, old(taskCompId), Ids())
        && Reached(AfterTurn(old(Pass(Ids(), taskCompId, activeStack.compId, 0)), turn))
        && (NoneStopped(turn.ops, |turn.ops|, old(IdsOf(w))) ==> EndsWith(actives, w) && IdsOf(w) == old(IdsOf(w)))
      ensures old(activeStack.ptr) < 0 ==> visited' == visited
      ensures Kept(old(actives + frees), actives + frees) && fresh(made) && All() == old(All()) + made
    {
      hide *;
      if activeStack.ptr >= 0 {
        visited' := visited + [activeStack.compId];
        made := RunStack(activeStack, turn, w);
      } else {
        visited' := visited;
        FinishOne(activeStack, w);
        made := {};
      }
    }

    // Where the pass is after i turns.
    ghost predicate Passing(ids: seq<nat>, top: nat, script: seq<Turn>, i: nat, p: Block?, w: seq<Block>, k: nat,
                            visited: seq<nat>)
      requires |script| >= |ids|
      reads this, actives, frees, w
    {
      && Valid() && (p != null ==> p in actives + frees)
      && if CleanUpTo(ids, script, i) then OnTrack(ids, i, p, w, visited) && Reached(AfterPass(ids, top, script, i))
         else Lost(ids, k, visited)
    }

    lemma OnTrackNext(ids: seq<nat>, script: seq<Turn>, i: nat, w: seq<Block>, visited: seq<nat>, next: Block?, top: nat)
      requires |script| >= |ids| && i < |ids| && IdsInOrder(ids, top) && taskCompId >= top
      requires EndsWith(actives, w) && IdsOf(w) == ids[i + 1..] && visited == ids[..i] + [ids[i]]
      requires next == if w == [] then null else w[0]
      ensures OnTrack(ids, i + 1, next, w, visited)
    {
      hide EndsWith, IdsOf;
    }

    // One that was finished while it was still to come.
    lemma LostNow(ids: seq<nat>, ops: seq<Op>, i: nat, visited: seq<nat>, top: nat) returns (k: nat)
      requires i < |ids| && IdsInOrder(ids, top) && taskCompId >= top && visited == ids[..i] + [ids[i]]
      requires !NoneStopped(ops, |ops|, ids[i + 1..]) && Stopped(ops, |ops|, top, Ids())
      ensures Lost(ids, k, visited)
    {
      var j :| 0 <= j < |ops| && ops[j].Stop? && ops[j].id in ids[i + 1..];
      var v := ops[j].id;
      var m :| 0 <= m < |ids[i + 1..]| && ids[i + 1..][m] == v;
      k := i + 1 + m;
      hide IdsOf;
      forall n | 0 <= n < |visited| ensures visited[n] != v { assert visited[n] == ids[n]; }
    }

    lemma LostStill(ids: seq<nat>, k: nat, before: seq<nat>, top: nat, visited: seq<nat>, visited': seq<nat>)
      requires k < |ids| && ids[k] < top <= taskCompId && ids[k] !in before && ids[k] !in visited && [ids[0]] <= visited
      requires Later(before, Ids(), top) && (visited' == visited || exists v | v in before :: visited' == visited + [v])
      ensures Lost(ids, k, visited')
    {
      hide IdsOf;
    }

    // The next turn of the pass.
    method NextTurn(ghost ids: seq<nat>, ghost top0: nat, script: seq<Turn>, i: nat, activeStack: Block,
                    visited: seq<nat>, ghost w: seq<Block>, ghost k: nat)
      returns (next: Block?, visited': seq<nat>, ghost w': seq<Block>, ghost k': nat, ghost made: set<Block>)
      requires |script| >= |ids| && i < |script| && Passing(ids, top0, script, i, activeStack, w, k, visited)
      modifies this, All()
      ensures Passing(ids, top0, script, i + 1, next, w', k', visited')
      ensures Kept(old(actives + frees), actives + frees) && fresh(made) && All() == old(All()) + made
    {
      hide Chain, Distinct, IdsOf, IdsInOrder, EndsWith, Later, Kept, Stopped, NoneStopped, AllLoaded, AllDone, CleanUpTo, Valid,
        All, AfterTurn, AfterPass, Reached;
      ghost var clean, known, before, top, ptr := CleanUpTo(ids, script, i), actives + frees, Ids(), taskCompId, activeStack.ptr;
      w', k' := [], k;
      EndNone(actives);
      if clean {
        TrackStep(ids, i, activeStack, w, visited);
        NextInPass(ids, top0, script, i);
        ReachedIs(AfterPass(ids, top0, script, i));
        w' := w[1..];
      }
      if ptr >= 0 { LoadedIsActive(activeStack); }
      next := activeStack.next;
      NextKnown(activeStack);
      CleanNext(ids, script, i);
      visited', made := Visit(activeStack, script[i], visited, w');
      if next != null { KeptIs(known, actives + frees, next); }
      if !clean {
        LostStill(ids, k, before, top, visited, visited');
      } else if NoneStopped(script[i].ops, |script[i].ops|, ids[i + 1..]) {
        OnTrackNext(ids, script, i, w', visited', next, top);
      } else {
        k' := LostNow(ids, script[i].ops, i, visited', top);
      }
    }

    // Runs the topmost function on each stack; the script says what comes of each.  The stacks that have
    // run are those that were active at the start, each once, exactly if no stack was finished by another
    // while it was still to come; the pass has then come to its end.  Otherwise one of them has not run,
    // and the pass may go on: a finished block that is used again leads back to the head of the list.
    method ProcessAll(script: seq<Turn>) returns (visited: seq<nat>, ended: bool)
      requires Valid() && |script| >= |actives|
      modifies this, All()
      ensures Valid() && Kept(old(actives + frees), actives + frees)
      ensures (visited == old(Ids())) == CleanUpTo(old(Ids()), script, old(|actives|))
      ensures CleanUpTo(old(Ids()), script, old(|actives|)) ==>
        && ended && Reached(AfterPass(old(Ids()), old(taskCompId), script, old(|actives|)))
        && Survivors(old(Ids()), script, Ids())
      ensures !CleanUpTo(old(Ids()), script, old(|actives|)) ==>
        [old(Ids())[0]] <= visited && exists v :: v in old(Ids()) && v !in visited
    {
      hide *;
      ghost var ids, top, all, w, k := Ids(), taskCompId, actives + frees, actives, 0;
      ghost var made: set<Block> := {};
      KeptSame(all);
      visited := [];
      var activeStack, i := activeStacks, 0;
      PassBegins(script);
      PoolIs();
      while activeStack != null && i < |script|
        invariant i <= |script| && Passing(ids, top, script, i, activeStack, w, k, visited)
        invariant Kept(all, actives + frees) && fresh(made) && All() == old(All()) + made
        decreases |script| - i
      {
        ghost var was := actives + frees;
        ghost var more;
        activeStack, visited, w, k, more := NextTurn(ids, top, script, i, activeStack, visited, w, k);
        made := made + more;
        KeptTwice(all, was, actives + frees);
        i := i + 1;
      }
      PassEnds(ids, top, script, i, activeStack, w, k, visited);
      ended := activeStack == null;
    }

    lemma PassBegins(script: seq<Turn>)
      requires Valid() && |script| >= |actives|
      ensures |Ids()| == |actives| && Passing(Ids(), taskCompId, script, 0, activeStacks, actives, 0, [])
    {
      AtHead(activeStacks, actives);
      hide Chain, Distinct, IdsOf, IdsInOrder, AllLoaded, AllDone;
    }

    lemma PassEnds(ids: seq<nat>, top: nat, script: seq<Turn>, i: nat, p: Block?, w: seq<Block>, k: nat, visited: seq<nat>)
      requires |script| >= |ids| && i <= |script| && Passing(ids, top, script, i, p, w, k, visited)
      requires IdsInOrder(ids, top) && top > 0
      requires p == null || i == |script|
      ensures Valid() && (visited == ids) == CleanUpTo(ids, script, |ids|)
      ensures CleanUpTo(ids, script, |ids|) ==>
        p == null && Reached(AfterPass(ids, top, script, |ids|)) && Survivors(ids, script, Ids())
      ensures !CleanUpTo(ids, script, |ids|) ==> [ids[0]] <= visited && exists v :: v in ids && v !in visited
    {
      hide Chain, Distinct, IdsInOrder, AllLoaded, AllDone, NoneStopped, Valid, IdsOf, EndsWith;
      WhoIsLeft(ids, top, script);
      hide AfterPass, Survivors;
      if CleanUpTo(ids, script, i) {
        assert |IdsOf(w)| == |w|;
      } else {
        assert ids[k] in ids;
      }
    }
  }

  // ----- Ends of lists -----

  ghost predicate EndsWith<T>(s: seq<T>, w: seq<T>) { |w| <= |s| && s[|s| - |w|..] == w }

  lemma EndAt<T>(s: seq<T>, w: seq<T>, i: nat)
    requires EndsWith(s, w) && i < |w|
    ensures |w| <= |s| && w[i] == s[|s| - |w| + i]
  {
  }

  lemma EndFits<T>(s: seq<T>, w: seq<T>)
    requires EndsWith(s, w)
    ensures |w| <= |s|
  {
  }

  lemma EndTail<T>(s: seq<T>, w: seq<T>)
    requires EndsWith(s, w) && w != []
    ensures |w| <= |s| && w[0] == s[|s| - |w|] && w[1..] == s[|s| - |w| + 1..] && EndsWith(s, w[1..])
  {
  }

  lemma IdsTail(w: seq<Block>)
    requires w != []
    ensures IdsOf(w) == [w[0].compId] + IdsOf(w[1..])
  {
  }

  lemma EndFrom<T>(s: seq<T>, w: seq<T>)
    requires |w| <= |s| && forall i | 0 <= i < |w| :: w[i] == s[|s| - |w| + i]
    ensures EndsWith(s, w)
  {
  }

  lemma EndIds(s: seq<Block>, w: seq<Block>)
    requires EndsWith(s, w)
    ensures EndsWith(IdsOf(s), IdsOf(w)) && |IdsOf(s)| == |s| && |IdsOf(w)| == |w|
  {
    hide *;
    EndFits(s, w);
    var a, b := IdsOf(s), IdsOf(w);
    forall i | 0 <= i < |b| ensures b[i] == a[|a| - |b| + i] { EndAt(s, w, i); }
    EndFrom(a, b);
  }

  lemma EndCons<T>(s: seq<T>, w: seq<T>, x: T)
    requires EndsWith(s, w)
    ensures EndsWith([x] + s, w)
  {
    assert ([x] + s)[|s| + 1 - |w|..] == s[|s| - |w|..];
  }

  lemma SameEnd<T>(s: seq<T>, a: seq<T>, b: seq<T>)
    requires EndsWith(s, a) && EndsWith(s, b) && |a| == |b|
    ensures a == b
  {
  }

  lemma BeforeEnd<T>(s: seq<T>, w: seq<T>, k: nat)
    requires EndsWith(s, w) && k < |s| && s[k] !in w
    ensures k < |s| - |w|
  {
    var n := |s| - |w|;
    forall j | n <= j < |s| ensures s[j] in w { assert s[j] == s[n..][j - n]; }
  }

  lemma WithoutEnd<T>(s: seq<T>, w: seq<T>, k: nat)
    requires EndsWith(s, w) && k < |s| - |w|
    ensures EndsWith(Without(s, k), w)
  {
    var t := Without(s, k);
    forall i | 0 <= i < |w| ensures t[|t| - |w|..][i] == w[i] {
      assert t[|t| - |w| + i] == s[|s| - |w| + i] == s[|s| - |w|..][i];
    }
  }

  lemma TailApart(a: seq<Block>, f: seq<Block>, k: nat)
    requires Distinct(a + f) && k < |a|
    ensures a[k] !in a[k + 1..]
  {
    var s := a + f;
    forall j | k < j < |a| ensures a[j] != a[k] { assert s[j] == a[j] && s[k] == a[k]; }
  }

  // ----- What comes of the ids and the blocks -----

  // Only the ids there were, and new ones.
  ghost predicate Later(ids: seq<nat>, ids': seq<nat>, top: nat) { forall v | v in ids' :: v in ids || v >= top }

  lemma LaterCons(ids: seq<nat>, top: nat)
    ensures Later(ids, [top] + ids, top)
  {
  }

  lemma LaterSame(ids: seq<nat>, ids': seq<nat>, top: nat)
    requires forall v | v in ids' :: v in ids
    ensures Later(ids, ids', top)
  {
  }

  lemma OnlyOnce(ids: seq<nat>, top: nat, k: nat)
    requires IdsInOrder(ids, top) && k < |ids|
    ensures ids[k] !in Without(ids, k) && forall v | v in Without(ids, k) :: v in ids
  {
    var t := Without(ids, k);
    forall i | 0 <= i < |t| ensures t[i] != ids[k] && t[i] in ids {
      assert t[i] == if i < k then ids[i] else ids[i + 1];
    }
  }

  // No block is lost.
  ghost predicate Kept(s: seq<Block>, t: seq<Block>) { forall b | b in s :: b in t }

  lemma KeptSame(s: seq<Block>)
    ensures Kept(s, s)
  {
  }

  lemma StillThere(a: seq<Block>, f: seq<Block>, b: Block, f': seq<Block>)
    requires (f == [] && f' == []) || f == [b] + f'
    ensures Kept(a + f, [b] + a + f')
  {
  }

  // The blocks there are, once b has been made active.
  lemma OneMore(a: seq<Block>, f: seq<Block>, b: Block, f': seq<Block>)
    requires (f == [] && f' == []) || f == [b] + f'
    ensures (set c | c in [b] + a) + (set c | c in f')
         == (set c | c in a) + (set c | c in f) + (if f == [] then {b} else {})
  {
  }

  lemma Moved(a: seq<Block>, f: seq<Block>, k: nat)
    requires k < |a|
    ensures Kept(a + f, Without(a, k) + ([a[k]] + f)) && Kept(Without(a, k) + ([a[k]] + f), a + f)
  {
    var t := Without(a, k);
    forall i | 0 <= i < |t| ensures t[i] in a {
      assert t[i] == if i < k then a[i] else a[i + 1];
    }
    forall i | 0 <= i < |a| && i != k ensures a[i] in t {
      assert a[i] == if i < k then t[i] else t[i - 1];
    }
  }

  lemma {:induction false} FirstIndex<T>(s: seq<T>, i: nat, x: T)
    requires i < |s| && s[i] == x && forall j | 0 <= j < i :: s[j] != x
    ensures x in s && Index(s, x) == i
  {
    if i > 0 { FirstIndex(s[1..], i - 1, x); }
  }

  lemma AtHead(head: Block?, s: seq<Block>)
    requires Chain(head, s)
    ensures head == if |s| > 0 then s[0] else null
  {
  }

  lemma NextOf(head: Block?, s: seq<Block>, i: nat)
    requires Chain(head, s) && i < |s|
    ensures s[i].next == if i + 1 < |s| then s[i + 1] else null
  {
    assert s[i].next == After(s, i);
  }

  // The list with its k-th block linked over.
  lemma LinkedOver(head: Block?, s: seq<Block>, k: nat)
    requires 0 < k < |s| && head == s[0] && s[k - 1].next == After(s, k)
    requires forall i: nat | i < |s| && i != k - 1 :: s[i].next == After(s, i)
    ensures Chain(head, Without(s, k))
  {
    var t := Without(s, k);
    forall i: nat | i < |t| ensures t[i].next == After(t, i) {
      if i < k - 1 {
        assert t[i] == s[i] && s[i].next == After(s, i);
      } else if i == k - 1 {
        assert t[i] == s[i];
      } else {
        assert t[i] == s[i + 1] && s[i + 1].next == After(s, i + 1);
      }
    }
  }

  // The k-th active block is in neither list once it has been taken out.
  lemma PartsApart(a: seq<Block>, f: seq<Block>, k: nat)
    requires Distinct(a + f) && k < |a|
    ensures Distinct(a) && a[k] !in Without(a, k) && (forall b | b in f :: b !in a)
    ensures Distinct(Without(a, k) + ([a[k]] + f))
  {
    var s := a + f;
    assert forall i | 0 <= i < |a| :: s[i] == a[i];
    assert forall i | 0 <= i < |f| :: s[|a| + i] == f[i];
    var t := Without(a, k) + ([a[k]] + f);
    forall i, j | 0 <= i < j < |t| ensures t[i] != t[j] {
      var i' := if i < k then i else if i < |a| - 1 then i + 1 else if i == |a| - 1 then k else i;
      var j' := if j < k then j else if j < |a| - 1 then j + 1 else if j == |a| - 1 then k else j;
      assert t[i] == s[i'] && t[j] == s[j'];
    }
  }

  lemma WithoutIds(a: seq<Block>, k: nat)
    requires k < |a|
    ensures IdsOf(Without(a, k)) == Without(IdsOf(a), k)
    ensures AllLoaded(a) ==> AllLoaded(Without(a, k))
  {
    hide IdsOf;
    var t := Without(a, k);
    forall i | 0 <= i < |t| ensures t[i] in a && IdsOf(t)[i] == Without(IdsOf(a), k)[i] {
      assert t[i] == if i < k then a[i] else a[i + 1];
    }
  }

  // The first block is the head, and no other one is.
  lemma HeadIs(head: Block?, s: seq<Block>, k: nat)
    requires Chain(head, s) && Distinct(s) && k < |s|
    ensures (head == s[k]) == (k == 0)
  {
  }

  lemma WithoutFirst<T>(s: seq<T>)
    requires s != []
    ensures Without(s, 0) == s[1..]
  {
  }

  // Where an element is, the first time.
  ghost function Index<T>(s: seq<T>, x: T): (k: nat)
    requires x in s
    ensures k < |s| && s[k] == x
  {
    if s[0] == x then 0 else 1 + Index(s[1..], x)
  }

  // A block that is not finished is an active one.
  lemma ActiveIf(a: seq<Block>, f: seq<Block>, p: Block)
    requires p in a + f && AllDone(f) && p.compId != 0
    ensures p in a
  {
  }

  lemma Apart(a: seq<Block>, b: Block, f: seq<Block>)
    requires Distinct(a + ([b] + f))
    ensures Distinct([b] + a + f)
  {
    var s, t := a + ([b] + f), [b] + a + f;
    forall i, j | 0 <= i < j < |t| ensures t[i] != t[j] {
      var i', j' := if i == 0 then |a| else if i <= |a| then i - 1 else i, if j <= |a| then j - 1 else j;
      assert t[i] == s[i'] && t[j] == s[j'];
    }
  }

  lemma NewApart(a: seq<Block>, b: Block)
    requires Distinct(a + []) && b !in a
    ensures Distinct([b] + a + [])
  {
    assert a + [] == a && [b] + a + [] == [b] + a;
  }

  lemma FirstApart(b: Block, a: seq<Block>, f: seq<Block>)
    requires Distinct([b] + a + f)
    ensures b !in a && b !in f
  {
    var t := [b] + a + f;
    assert t[0] == b;
    forall i | 0 <= i < |a| ensures a[i] != b {
      assert t[1 + i] == a[i];
    }
    forall i | 0 <= i < |f| ensures f[i] != b {
      assert t[1 + |a| + i] == f[i];
    }
  }

  lemma EndNone<T>(s: seq<T>)
    ensures EndsWith(s, [])
  {
  }

  lemma LaterSelf(ids: seq<nat>, top: nat)
    ensures Later(ids, ids, top)
  {
  }

  lemma LaterTwice(a: seq<nat>, b: seq<nat>, c: seq<nat>, top: nat, n: nat)
    requires Later(a, b, top) && Later(b, c, n) && n >= top
    ensures Later(a, c, top)
  {
  }

  lemma KeptIs(s: seq<Block>, t: seq<Block>, b: Block)
    requires Kept(s, t) && b in s
    ensures b in t
  {
  }

  lemma KeptTwice(a: seq<Block>, b: seq<Block>, c: seq<Block>)
    requires Kept(a, b) && Kept(b, c)
    ensures Kept(a, c)
  {
  }

  // ----- What a pass is made of -----

  // What a callback may do to the pool: start a stack, or finish one.
  datatype Op = Start | Stop(id: nat)

  // What running one stack comes to: what its actions do to the pool, and whether they leave it empty.
  datatype Turn = Turn(ops: seq<Op>, done: bool)

  // None of the first i operations finishes one of the stacks u.
  ghost predicate NoneStopped(ops: seq<Op>, i: nat, u: seq<nat>)
    requires i <= |ops|
  {
    forall j | 0 <= j < i :: ops[j].Stop? ==> ops[j].id !in u
  }

  // The stacks that the first i operations have finished are not active.
  ghost predicate Stopped(ops: seq<Op>, i: nat, top: nat, ids: seq<nat>)
    requires i <= |ops|
  {
    forall j | 0 <= j < i :: ops[j].Stop? && ops[j].id < top ==> ops[j].id !in ids
  }

  lemma NothingYet(ops: seq<Op>, top: nat, ids: seq<nat>, u: seq<nat>)
    ensures Stopped(ops, 0, top, ids) && NoneStopped(ops, 0, u)
  {
  }

  lemma StoppedLater(ops: seq<Op>, top: nat, n: nat, ids: seq<nat>, ids': seq<nat>)
    requires Stopped(ops, |ops|, top, ids) && Later(ids, ids', n) && n >= top
    ensures Stopped(ops, |ops|, top, ids')
  {
  }

  lemma NextStopped(ops: seq<Op>, i: nat, top: nat, n: nat, ids: seq<nat>, ids': seq<nat>, u: seq<nat>)
    requires i < |ops| && Stopped(ops, i, top, ids) && Later(ids, ids', n) && n >= top
    requires ops[i].Stop? ==> ops[i].id !in ids'
    ensures Stopped(ops, i + 1, top, ids')
    ensures NoneStopped(ops, i + 1, u) == (NoneStopped(ops, i, u) && (ops[i].Stop? ==> ops[i].id !in u))
  {
  }

  // Of the first i turns, none finishes a stack still to come.
  ghost predicate CleanUpTo(ids: seq<nat>, script: seq<Turn>, i: nat)
    requires |script| >= |ids|
  {
    forall j | 0 <= j < i && j < |ids| :: NoneStopped(script[j].ops, |script[j].ops|, ids[j + 1..])
  }

  lemma CleanNext(ids: seq<nat>, script: seq<Turn>, i: nat)
    requires |script| >= |ids|
    ensures CleanUpTo(ids, script, 0)
    ensures CleanUpTo(ids, script, i + 1) ==
      (CleanUpTo(ids, script, i) && (i < |ids| ==> NoneStopped(script[i].ops, |script[i].ops|, ids[i + 1..])))
  {
    hide NoneStopped;
  }

  // ----- What a pass leaves -----

  // The identifiers of the active stacks, the next one to be given out, and the running stack: its identifier, or
  // how deep in the free list its block is once it has been finished.
  datatype Pass = Pass(ids: seq<nat>, top: nat, own: nat, depth: nat)

  ghost function Removed(ids: seq<nat>, id: nat): seq<nat> {
    if id in ids then Without(ids, Index(ids, id)) else ids
  }

  // A stack started takes the first free block, which may be the one that is running.
  ghost function AfterOp(s: Pass, op: Op): Pass {
    match op
    case Start =>
      if |s.ids| == MAX_ACTION_STACKS then s
      else Pass([s.top] + s.ids, s.top + 1, if s.own == 0 && s.depth == 0 then s.top else s.own,
                if s.own == 0 && s.depth > 0 then s.depth - 1 else 0)
    case Stop(id) =>
      if id !in s.ids then s
      else Pass(Removed(s.ids, id), s.top, if s.own == id then 0 else s.own,
                if s.own == 0 then s.depth + 1 else 0)
  }

  ghost function AfterOps(s: Pass, ops: seq<Op>, i: nat): Pass
    requires i <= |ops|
  {
    if i == 0 then s else AfterOp(AfterOps(s, ops, i - 1), ops[i - 1])
  }

  ghost function AfterTurn(s: Pass, turn: Turn): Pass {
    var r := AfterOps(s, turn.ops, |turn.ops|);
    if turn.done && r.own != 0 then r.(ids := Removed(r.ids, r.own)) else r
  }

  // After i turns of the pass.
  ghost function AfterPass(ids: seq<nat>, top: nat, script: seq<Turn>, i: nat): Pass
    requires i <= |ids| <= |script|
  {
    if i == 0 then Pass(ids, top, 0, 0)
    else
      var r := AfterPass(ids, top, script, i - 1);
      AfterTurn(Pass(r.ids, r.top, ids[i - 1], 0), script[i - 1])
  }

  lemma NextOp(s: Pass, ops: seq<Op>, i: nat)
    ensures AfterOps(s, ops, 0) == s
    ensures i < |ops| ==> AfterOps(s, ops, i + 1) == AfterOp(AfterOps(s, ops, i), ops[i])
  {
    hide AfterOp;
  }

  lemma TurnIs(s: Pass, turn: Turn)
    ensures var r := AfterOps(s, turn.ops, |turn.ops|);
      && AfterTurn(s, turn).top == r.top
      && AfterTurn(s, turn).ids == if turn.done && r.own != 0 then Removed(r.ids, r.own) else r.ids
  {
  }

  lemma NextInPass(ids: seq<nat>, top: nat, script: seq<Turn>, i: nat)
    requires |ids| <= |script|
    ensures AfterPass(ids, top, script, 0).ids == ids && AfterPass(ids, top, script, 0).top == top
    ensures i < |ids| ==>
      var r := AfterPass(ids, top, script, i);
      AfterPass(ids, top, script, i + 1) == AfterTurn(Pass(r.ids, r.top, ids[i], 0), script[i])
  {
    hide AfterTurn;
  }

  // Where the block of the running stack is.
  ghost predicate Placed(s: Pass, a: seq<Block>, f: seq<Block>, p: Block) {
    && |a| == |s.ids|
    && if s.own != 0 then s.own in s.ids && a[Index(s.ids, s.own)] == p else s.depth < |f| && f[s.depth] == p
  }

  lemma NoRoom(s: Pass)
    requires |s.ids| == 5
    ensures AfterOp(s, Start) == s
  {
  }

  lemma NotThere(s: Pass, id: nat)
    requires id !in s.ids
    ensures AfterOp(s, Stop(id)) == s
  {
  }

  lemma PlacedStart(s: Pass, a: seq<Block>, f: seq<Block>, p: Block, b: Block, f': seq<Block>)
    requires Placed(s, a, f, p) && |s.ids| < 5 && IdsInOrder(s.ids, s.top) && s.top > 0
    requires (f == [] && f' == []) || f == [b] + f'
    ensures AfterOp(s, Start).ids == [s.top] + s.ids && AfterOp(s, Start).top == s.top + 1
    ensures Placed(AfterOp(s, Start), [b] + a, f', p)
  {
    var r := AfterOp(s, Start);
    if s.own != 0 {
      assert s.own != s.top;
      assert r.ids[0] == s.top && r.ids[1..] == s.ids;
    }
  }

  lemma WithoutAt<T>(s: seq<T>, k: nat, j: nat)
    requires k < |s| && j < |s| && j != k
    ensures Without(s, k)[if j < k then j else j - 1] == s[j]
  {
  }

  lemma PlacedStop(s: Pass, a: seq<Block>, f: seq<Block>, p: Block, id: nat)
    requires Placed(s, a, f, p) && IdsInOrder(s.ids, s.top) && id in s.ids
    ensures var k := Index(s.ids, id);
      && k < |a| && AfterOp(s, Stop(id)).ids == Without(s.ids, k) && AfterOp(s, Stop(id)).top == s.top
      && Placed(AfterOp(s, Stop(id)), Without(a, k), [a[k]] + f, p)
  {
    var k, t := Index(s.ids, id), Without(s.ids, Index(s.ids, id));
    NoZero(s.ids, s.top);
    if s.own != 0 && s.own != id {
      var j := Index(s.ids, s.own);
      WithoutAt(s.ids, k, j);
      WithoutAt(a, k, j);
      FewerIds(s.ids, s.top, k);
      ByOrder(t, s.top, if j < k then j else j - 1);
      hide Index, Without, IdsInOrder;
    }
  }

  // An id stands in one place only.
  lemma ByOrder(ids: seq<nat>, top: nat, k: nat)
    requires IdsInOrder(ids, top) && k < |ids|
    ensures Index(ids, ids[k]) == k && Removed(ids, ids[k]) == Without(ids, k)
  {
    FirstIndex(ids, k, ids[k]);
    hide Index;
  }

  lemma NoZero(ids: seq<nat>, top: nat)
    requires IdsInOrder(ids, top)
    ensures 0 !in ids && Removed(ids, 0) == ids
  {
  }

  // None of the first n turns finishes the stack id by name.
  ghost predicate Spared(script: seq<Turn>, n: nat, id: nat)
    requires n <= |script|
  {
    forall k | 0 <= k < n :: Stop(id) !in script[k].ops
  }

  // Those of the stacks ids that have neither come to their end nor been finished are among ids', and no more of them.
  ghost predicate Survivors(ids: seq<nat>, script: seq<Turn>, ids': seq<nat>)
    requires |ids| <= |script|
  {
    forall j | 0 <= j < |ids| :: ids[j] in ids' <==> !script[j].done && Spared(script, |ids|, ids[j])
  }

  // No stack that comes to its end has been finished by its own actions before.
  ghost predicate EndOnce(ids: seq<nat>, script: seq<Turn>, n: nat)
    requires n <= |ids| <= |script|
  {
    forall k | 0 <= k < n :: script[k].done ==> Stop(ids[k]) !in script[k].ops
  }

  lemma RemovedIs(ids: seq<nat>, top: nat, id: nat, v: nat)
    requires IdsInOrder(ids, top)
    ensures IdsInOrder(Removed(ids, id), top) && |Removed(ids, id)| <= |ids|
    ensures v in Removed(ids, id) <==> v in ids && v != id
  {
    if id in ids {
      var k, t := Index(ids, id), Without(ids, Index(ids, id));
      FewerIds(ids, top, k);
      OnlyOnce(ids, top, k);
      if v in ids && v != id {
        var j := Index(ids, v);
        assert t[if j < k then j else j - 1] == v;
      }
    }
  }

  lemma OpKeeps(s: Pass, op: Op, v: nat)
    requires IdsInOrder(s.ids, s.top) && s.top > 0
    ensures var r := AfterOp(s, op);
      && IdsInOrder(r.ids, r.top) && s.top <= r.top
      && (v < s.top ==> (v in r.ids <==> v in s.ids && op != Stop(v)))
      && (s.top <= v < r.top ==> v in r.ids)
      && (r.own == s.own || r.own == 0 || r.own >= s.top) && (s.own != 0 && op != Stop(s.own) ==> r.own == s.own)
  {
    match op
    case Start => NewId(s.ids, s.top);
    case Stop(id) =>
      RemovedIs(s.ids, s.top, id, v);
      hide Removed;
  }

  lemma {:induction false} OpsKeep(s: Pass, ops: seq<Op>, i: nat, v: nat)
    requires IdsInOrder(s.ids, s.top) && s.top > 0 && i <= |ops|
    ensures var r := AfterOps(s, ops, i);
      && IdsInOrder(r.ids, r.top) && s.top <= r.top
      && (v < s.top ==> (v in r.ids <==> v in s.ids && Stop(v) !in ops[..i]))
      && (s.top <= v < r.top && Stop(v) !in ops[..i] ==> v in r.ids)
      && (r.own == s.own || r.own == 0 || r.own >= s.top)
      && (s.own != 0 && Stop(s.own) !in ops[..i] ==> r.own == s.own)
  {
    hide AfterOp, IdsInOrder;
    if i > 0 {
      OpsKeep(s, ops, i - 1, v);
      OpKeeps(AfterOps(s, ops, i - 1), ops[i - 1], v);
      assert ops[..i] == ops[..i - 1] + [ops[i - 1]];
    }
  }

  lemma TurnKeeps(s: Pass, turn: Turn, v: nat)
    requires IdsInOrder(s.ids, s.top) && 0 < s.own < s.top
    ensures var r := AfterTurn(s, turn);
      && IdsInOrder(r.ids, r.top) && s.top <= r.top
      && (v < s.top ==> (v in r.ids <==> v in s.ids && Stop(v) !in turn.ops && !(turn.done && v == s.own)))
      && (s.top <= v < r.top && Stop(v) !in turn.ops && (turn.done ==> Stop(s.own) !in turn.ops) ==> v in r.ids)
  {
    var r := AfterOps(s, turn.ops, |turn.ops|);
    OpsKeep(s, turn.ops, |turn.ops|, v);
    assert turn.ops[..|turn.ops|] == turn.ops;
    RemovedIs(r.ids, r.top, r.own, v);
    hide AfterOps, IdsInOrder, Removed;
  }

  lemma {:induction false} PassKeeps(ids: seq<nat>, top: nat, script: seq<Turn>, n: nat, v: nat)
    requires IdsInOrder(ids, top) && top > 0 && n <= |ids| <= |script|
    ensures var r := AfterPass(ids, top, script, n);
      && IdsInOrder(r.ids, r.top) && top <= r.top
      && (v < top ==> (v in r.ids <==>
           v in ids && Spared(script, n, v) && forall k | 0 <= k < n :: script[k].done ==> ids[k] != v))
      && (top <= v < r.top && Spared(script, n, v) && EndOnce(ids, script, n) ==> v in r.ids)
  {
    if n > 0 {
      PassKeeps(ids, top, script, n - 1, v);
      var r := AfterPass(ids, top, script, n - 1);
      assert 0 < ids[n - 1] < top;
      hide AfterTurn, IdsInOrder;
      TurnKeeps(Pass(r.ids, r.top, ids[n - 1], 0), script[n - 1], v);
    }
  }

  // After a pass a stack is still active exactly if its turn has not emptied it and no operation has finished it; the
  // others are new, and those given out in the pass are active unless an operation has finished them.
  lemma WhoIsLeft(ids: seq<nat>, top: nat, script: seq<Turn>)
    requires IdsInOrder(ids, top) && top > 0 && |ids| <= |script|
    ensures var r, n := AfterPass(ids, top, script, |ids|), |ids|;
      && Survivors(ids, script, r.ids)
      && (forall v | v in r.ids :: v in ids || top <= v < r.top)
      && (EndOnce(ids, script, n) ==> forall v: nat | top <= v < r.top && Spared(script, n, v) :: v in r.ids)
  {
    var r, n := AfterPass(ids, top, script, |ids|), |ids|;
    forall j | 0 <= j < n ensures ids[j] in r.ids <==> !script[j].done && Spared(script, n, ids[j]) {
      PassKeeps(ids, top, script, n, ids[j]);
      assert forall k | 0 <= k < n :: ids[k] == ids[j] ==> k == j;
    }
    forall v | v in r.ids ensures v in ids || top <= v < r.top { PassKeeps(ids, top, script, n, v); }
    forall v: nat | top <= v < r.top && Spared(script, n, v) && EndOnce(ids, script, n) ensures v in r.ids {
      PassKeeps(ids, top, script, n, v);
    }
  }

  // ----- Stacks started in a pass -----

  function Starts(ops: seq<Op>, i: nat): nat
    requires i <= |ops|
  {
    if i == 0 then 0 else Starts(ops, i - 1) + if ops[i - 1].Start? then 1 else 0
  }

  function AllStarts(script: seq<Turn>, n: nat): nat
    requires n <= |script|
  {
    if n == 0 then 0 else AllStarts(script, n - 1) + Starts(script[n - 1].ops, |script[n - 1].ops|)
  }

  // As many as there is room for: from s to r they are never more, and with room all of them.
  ghost predicate Made(s: Pass, r: Pass, starts: nat) {
    && IdsInOrder(r.ids, r.top) && s.top <= r.top <= s.top + starts && |r.ids| <= |s.ids| + (r.top - s.top)
    && (|s.ids| + starts <= 5 ==> r.top == s.top + starts)
  }

  lemma MadeByOp(s: Pass, op: Op)
    requires IdsInOrder(s.ids, s.top) && s.top > 0
    ensures Made(s, AfterOp(s, op), if op.Start? then 1 else 0)
  {
    OpKeeps(s, op, 0);
    if op.Stop? { RemovedIs(s.ids, s.top, op.id, 0); }
    hide IdsInOrder, Removed;
  }

  lemma MadeBoth(s: Pass, r: Pass, q: Pass, m: nat, n: nat)
    requires Made(s, r, m) && Made(r, q, n)
    ensures Made(s, q, m + n)
  {
    hide IdsInOrder;
  }

  lemma {:induction false} MadeByOps(s: Pass, ops: seq<Op>, i: nat)
    requires IdsInOrder(s.ids, s.top) && s.top > 0 && i <= |ops|
    ensures Made(s, AfterOps(s, ops, i), Starts(ops, i))
  {
    hide AfterOp, IdsInOrder;
    if i > 0 {
      MadeByOps(s, ops, i - 1);
      var r := AfterOps(s, ops, i - 1);
      MadeByOp(r, ops[i - 1]);
      MadeBoth(s, r, AfterOp(r, ops[i - 1]), Starts(ops, i - 1), if ops[i - 1].Start? then 1 else 0);
    }
  }

  lemma MadeByTurn(s: Pass, turn: Turn)
    requires IdsInOrder(s.ids, s.top) && s.top > 0
    ensures Made(s, AfterTurn(s, turn), Starts(turn.ops, |turn.ops|))
  {
    var r := AfterOps(s, turn.ops, |turn.ops|);
    MadeByOps(s, turn.ops, |turn.ops|);
    RemovedIs(r.ids, r.top, r.own, 0);
    hide AfterOps, IdsInOrder, Removed, Starts;
  }

  // The identifiers given out in a pass: one for each start, as long as there is room.
  lemma {:induction false} StartsWithRoom(ids: seq<nat>, top: nat, script: seq<Turn>, n: nat)
    requires IdsInOrder(ids, top) && top > 0 && n <= |ids| <= |script|
    ensures var r := AfterPass(ids, top, script, n);
      && Made(Pass(ids, top, 0, 0), r, AllStarts(script, n))
  {
    hide AfterTurn, IdsInOrder, Starts;
    if n > 0 {
      StartsWithRoom(ids, top, script, n - 1);
      var r := AfterPass(ids, top, script, n - 1);
      var s, t := Pass(r.ids, r.top, ids[n - 1], 0), script[n - 1];
      MadeByTurn(s, t);
      MadeBoth(Pass(ids, top, 0, 0), r, AfterTurn(s, t), AllStarts(script, n - 1), Starts(t.ops, |t.ops|));
    }
  }

  // Two stacks, of which the first to run kills the other: the other never runs, though it was active.
  method SkippedStack() returns (visited: seq<nat>)
    ensures [2] <= visited && 1 !in visited
  {
    hide *;
    var pool := new Pool();
    pool.TwoStacks();
    var script := [Turn([Stop(1)], false), Turn([], false)];
    OneIsStopped(script);
    var ended;
    visited, ended := pool.ProcessAll(script);
    assert visited[0] == 2;
    ghost var v :| v in [2, 1] && v !in visited;
  }

  lemma OneIsStopped(script: seq<Turn>)
    requires script == [Turn([Stop(1)], false), Turn([], false)]
    ensures !CleanUpTo([2, 1], script, 2)
  {
    assert !NoneStopped(script[0].ops, 1, [2, 1][1..]) by { assert script[0].ops[0].Stop? && 1 in [2, 1][1..]; }
  }

  // Actions that finish no stack but their own spoil no pass.
  lemma OwnOnlyIsClean(ids: seq<nat>, top: nat, script: seq<Turn>)
    requires |script| >= |ids| && IdsInOrder(ids, top)
    requires forall j, op | 0 <= j < |ids| && op in script[j].ops :: op.Stop? ==> op.id == ids[j]
    ensures CleanUpTo(ids, script, |ids|)
  {
    forall j | 0 <= j < |ids| ensures NoneStopped(script[j].ops, |script[j].ops|, ids[j + 1..]) {
      forall m | 0 <= m < |script[j].ops| && script[j].ops[m].Stop? ensures script[j].ops[m].id !in ids[j + 1..] {
        assert script[j].ops[m] in script[j].ops;
      }
    }
  }
}
