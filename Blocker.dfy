/**
 * The blockers of the kernel scheduler: one constructor per blocker class,
 * `CanUnblock` for their `can_unblock` predicates and `OnUnblock` for their
 * one-shot `on_unblock` actions, all evaluated against an abstract snapshot
 * of the kernel state a blocker reads.
 */
module Blocker {
  import opened Wrappers

  type TaskId = nat
  type NodeId = nat

  /** A select event mask; 0 means that no event is ready. */
  type SelectEvent = nat

  /** An open file handle; `node` is the node it was opened on. */
  datatype Handle = Handle(id: nat, node: NodeId)

  /**
   * A task's scheduling state. Blockers only ever test for Canceled; the
   * other constructors stand for the rest of the kernel's task states.
   */
  datatype TaskState = Embryo | Running | Blocked | Canceled

  /**
   * What the blockers observe of the kernel. The node primitives, the select
   * query, the tick counter and the task fields are not code of this model,
   * so each is a field: whatever they answer at the moment of evaluation.
   */
  datatype World = World(
    lockHolder: map<NodeId, TaskId>,              // the task holding each acquired node
    acceptable: set<NodeId>,                      // fsnode_can_accept
    accepted: set<NodeId>,                        // fsnode_is_accepted
    readable: set<Handle>,                        // handle->node->can_read(handle)
    writable: set<Handle>,                        // handle->node->can_write(handle)
    select: (Handle, SelectEvent) -> SelectEvent, // fshandle_select
    tick: nat,                                    // system_get_tick
    state: TaskId -> TaskState,                   // Task::state()
    exitValue: TaskId -> int)                     // Task::exit_value

  /** fsnode_is_acquire: some task holds the node's lock. */
  predicate IsAcquired(w: World, n: NodeId) {
    n in w.lockHolder
  }

  datatype Blocker =
    | Accept(node: NodeId)
    | Connect(connection: NodeId)
    | Read(handle: Handle)
    | Select(handles: seq<Handle>, events: seq<SelectEvent>, count: nat)
    | Time(wakeupTick: nat)
    | Wait(awaited: TaskId)
    | Write(handle: Handle)
  {
    /** A select blocker's two arrays hold at least `count` entries. */
    predicate Valid() {
      Select? ==> count <= |handles| && count <= |events|
    }

    /** Accept, Read and Write take a node lock when they unblock. */
    predicate TakesLock() {
      Accept? || Read? || Write?
    }

    /** The node whose lock an Accept, Read or Write blocker tests and takes. */
    function LockedNode(): NodeId
      requires TakesLock()
    {
      if Accept? then node else handle.node
    }

    predicate TakesLockOn(n: NodeId) {
      TakesLock() && LockedNode() == n
    }
  }

  /** Entry i of a select blocker reports a non-empty ready mask. */
  predicate Fires(w: World, hs: seq<Handle>, es: seq<SelectEvent>, i: nat)
    requires i < |hs| && i < |es|
  {
    w.select(hs[i], es[i]) != 0
  }

  /** Some entry below `count` fires. */
  predicate AnyFires(w: World, hs: seq<Handle>, es: seq<SelectEvent>, count: nat)
    requires count <= |hs| && count <= |es|
  {
    exists i :: 0 <= i < count && Fires(w, hs, es, i)
  }

  /** The first entry, in registration order, that fires. */
  function FirstFiring(w: World, hs: seq<Handle>, es: seq<SelectEvent>, count: nat): (r: Option<nat>)
    requires count <= |hs| && count <= |es|
    ensures r.Some? <==> AnyFires(w, hs, es, count)
    ensures r.Some? ==> r.value < count && Fires(w, hs, es, r.value)
    ensures r.Some? ==> forall j :: 0 <= j < r.value ==> !Fires(w, hs, es, j)
  {
    if count == 0 then None
    else match FirstFiring(w, hs, es, count - 1)
      case Some(i) => Some(i)
      case None => if Fires(w, hs, es, count - 1) then Some(count - 1) else None
  }

  /**
   * can_unblock of every variant. Each is a read of the world and nothing
   * else; a lock-taking blocker only unblocks while its node is free.
   */
  function CanUnblock(b: Blocker, w: World): (r: bool)
    requires b.Valid()
    ensures r && b.TakesLock() ==> !IsAcquired(w, b.LockedNode())
  {
    match b
    case Accept(n) => !IsAcquired(w, n) && n in w.acceptable
    case Connect(c) => c in w.accepted
    case Read(h) => !IsAcquired(w, h.node) && h in w.readable
    case Select(hs, es, count) => AnyFires(w, hs, es, count)
    case Time(t) => w.tick >= t
    case Wait(t) => w.state(t) == Canceled
    case Write(h) => !IsAcquired(w, h.node) && h in w.writable
  }

  /** BlockerSelect::can_unblock as written: a scan with an early return. */
  method SelectCanUnblock(hs: seq<Handle>, es: seq<SelectEvent>, count: nat, w: World) returns (r: bool)
    requires count <= |hs| && count <= |es|
    ensures r == AnyFires(w, hs, es, count)
  {
    for i := 0 to count
      invariant forall j :: 0 <= j < i ==> !Fires(w, hs, es, j)
    {
      if w.select(hs[i], es[i]) != 0 {
        assert Fires(w, hs, es, i);
        return true;
      }
    }
    return false;
  }

  /**
   * The caller-owned locations a blocker writes when it unblocks: the
   * selected handle and its ready mask (Select) and the exit value (Wait).
   */
  datatype Slots = Slots(selected: Handle, selectedEvents: SelectEvent, exitValue: int)

  /**
   * BlockerSelect::on_unblock: writes the first firing handle and its ready
   * mask and stops; when nothing fires the slots keep what they held.
   */
  method SelectOnUnblock(hs: seq<Handle>, es: seq<SelectEvent>, count: nat, w: World, slots: Slots)
    returns (slots': Slots)
    requires count <= |hs| && count <= |es|
    ensures match FirstFiring(w, hs, es, count)
      case Some(i) => slots' == slots.(selected := hs[i], selectedEvents := w.select(hs[i], es[i]))
      case None => slots' == slots
  {
    for i := 0 to count
      invariant forall j :: 0 <= j < i ==> !Fires(w, hs, es, j)
    {
      var events := w.select(hs[i], es[i]);
      if events != 0 {
        assert Fires(w, hs, es, i);
        return slots.(selected := hs[i], selectedEvents := events);
      }
    }
    return slots;
  }

  /**
   * The world after b's on_unblock ran for `task`: Accept, Read and Write
   * acquire their node's lock for the task; no other variant changes it.
   */
  function UnblockWorld(b: Blocker, task: TaskId, w: World): (r: World)
    ensures r.(lockHolder := w.lockHolder) == w
    ensures b.TakesLock() ==> b.LockedNode() in r.lockHolder && r.lockHolder[b.LockedNode()] == task
    ensures forall n :: n in w.lockHolder && !b.TakesLockOn(n) ==> n in r.lockHolder && r.lockHolder[n] == w.lockHolder[n]
    ensures forall n :: n in r.lockHolder ==> n in w.lockHolder || b.TakesLockOn(n)
    ensures !b.TakesLock() ==> r == w
  {
    if b.TakesLock() then w.(lockHolder := w.lockHolder[b.LockedNode() := task]) else w
  }

  /**
   * on_unblock of every variant, run for the unblocking task `task`.
   * Connect and Time have no unblock action of their own.
   */
  method OnUnblock(b: Blocker, task: TaskId, w: World, slots: Slots) returns (w': World, slots': Slots)
    requires b.Valid()
    ensures w' == UnblockWorld(b, task, w)
    ensures b.Wait? ==> slots' == slots.(exitValue := w.exitValue(task))
    ensures !b.Select? && !b.Wait? ==> slots' == slots
    ensures b.Select? ==> match FirstFiring(w, b.handles, b.events, b.count)
      case Some(i) => slots' == slots.(selected := b.handles[i], selectedEvents := w.select(b.handles[i], b.events[i]))
      case None => slots' == slots
  {
    match b
    case Accept(n) =>
      w', slots' := w.(lockHolder := w.lockHolder[n := task]), slots;
    case Connect(_) =>
      w', slots' := w, slots;
    case Read(h) =>
      w', slots' := w.(lockHolder := w.lockHolder[h.node := task]), slots;
    case Select(hs, es, count) =>
      w' := w;
      slots' := SelectOnUnblock(hs, es, count, w, slots);
    case Time(_) =>
      w', slots' := w, slots;
    case Wait(_) =>
      // The exit value copied is that of the task handed to on_unblock, the
      // one that unblocks, and not that of the awaited task whose state
      // can_unblock tested. The model keeps the code's choice.
      w', slots' := w, slots.(exitValue := w.exitValue(task));
    case Write(h) =>
      w', slots' := w.(lockHolder := w.lockHolder[h.node := task]), slots;
  }

  /**
   * Unblocking an Accept, Read or Write blocker hands its node to the task,
   * leaves everything else as it was, and from then on no lock-taking blocker
   * on that node can unblock.
   */
  lemma UnblockTakesLock(b: Blocker, task: TaskId, w: World)
    requires b.Valid() && b.TakesLock()
    ensures var w' := UnblockWorld(b, task, w);
      && IsAcquired(w', b.LockedNode())
      && w'.lockHolder[b.LockedNode()] == task
      && (forall n :: n != b.LockedNode() ==> (IsAcquired(w', n) <==> IsAcquired(w, n)))
      && w'.(lockHolder := w.lockHolder) == w
      && forall b2: Blocker :: b2.Valid() && b2.TakesLockOn(b.LockedNode()) ==> !CanUnblock(b2, w')
  {
  }

  /** A time blocker that may unblock at some tick may unblock at every later one. */
  lemma TimeMonotone(wakeup: nat, w: World, w2: World)
    requires w.tick <= w2.tick
    requires CanUnblock(Time(wakeup), w)
    ensures CanUnblock(Time(wakeup), w2)
  {
  }

  /** Whether a blocker that takes no lock can unblock does not depend on the locks. */
  lemma CanUnblockIgnoresLocks(b: Blocker, w: World, locks: map<NodeId, TaskId>)
    requires b.Valid() && !b.TakesLock()
    ensures CanUnblock(b, w.(lockHolder := locks)) == CanUnblock(b, w)
  {
    if b.Select? {
      var w' := w.(lockHolder := locks);
      assert forall i :: 0 <= i < b.count ==> (Fires(w', b.handles, b.events, i) <==> Fires(w, b.handles, b.events, i));
    }
  }

  /* --- A sequential evaluation pass ------------------------------------- */

  /** A blocked task together with the blocker it waits on. */
  datatype Waiter = Waiter(task: TaskId, blocker: Blocker)

  predicate AllValid(ws: seq<Waiter>) {
    forall i :: 0 <= i < |ws| ==> ws[i].blocker.Valid()
  }

  /**
   * One pass over the waiters in order, as a scheduler would run it: each
   * blocker is asked can_unblock against the world as the earlier ones left
   * it, and the ones that can run on_unblock. Returns the world afterwards
   * and, per waiter, whether it woke. A pass only ever adds node locks.
   */
  function Pass(ws: seq<Waiter>, w: World): (r: (World, seq<bool>))
    requires AllValid(ws)
    ensures |r.1| == |ws|
    ensures r.0.(lockHolder := w.lockHolder) == w
    ensures forall n :: n in w.lockHolder ==> n in r.0.lockHolder && r.0.lockHolder[n] == w.lockHolder[n]
    decreases |ws|
  {
    if ws == [] then (w, [])
    else
      var b := ws[0].blocker;
      var woke := CanUnblock(b, w);
      var w1 := if woke then UnblockWorld(b, ws[0].task, w) else w;
      assert AllValid(ws[1..]) by {
        forall i | 0 <= i < |ws[1..]| ensures ws[1..][i].blocker.Valid() {
          assert ws[1..][i] == ws[i + 1];
        }
      }
      var rest := Pass(ws[1..], w1);
      (rest.0, [woke] + rest.1)
  }

  /**
   * Lock exclusion over a pass, for every node n: when n is already held no
   * Accept, Read or Write blocker on n wakes; of those that wake, at most one
   * is on n; that one's task holds n when the pass is over; and a node free at
   * the start is held afterwards only by a woken Accept, Read or Write on it.
   */
  lemma {:induction false} PassLockExclusion(ws: seq<Waiter>, w: World, n: NodeId)
    requires AllValid(ws)
    ensures var r := Pass(ws, w);
      && (IsAcquired(w, n) ==> forall i :: 0 <= i < |ws| && ws[i].blocker.TakesLockOn(n) ==> !r.1[i])
      && (forall i, j :: 0 <= i < j < |ws| && r.1[i] && r.1[j] && ws[i].blocker.TakesLockOn(n) ==> !ws[j].blocker.TakesLockOn(n))
      && (forall i :: 0 <= i < |ws| && r.1[i] && ws[i].blocker.TakesLockOn(n) ==>
            n in r.0.lockHolder && r.0.lockHolder[n] == ws[i].task)
      && (!IsAcquired(w, n) && n in r.0.lockHolder ==>
            exists i :: 0 <= i < |ws| && r.1[i] && ws[i].blocker.TakesLockOn(n) && ws[i].task == r.0.lockHolder[n])
  {
    if ws != [] {
      var b := ws[0].blocker;
      var woke := CanUnblock(b, w);
      var w1 := if woke then UnblockWorld(b, ws[0].task, w) else w;
      assert AllValid(ws[1..]) by {
        forall i | 0 <= i < |ws[1..]| ensures ws[1..][i].blocker.Valid() {
          assert ws[1..][i] == ws[i + 1];
        }
      }
      var rest := Pass(ws[1..], w1);
      var r := Pass(ws, w);
      assert r.0 == rest.0 && r.1 == [woke] + rest.1;
      PassLockExclusion(ws[1..], w1, n);
      assert forall i :: 0 < i < |ws| ==> ws[i] == ws[1..][i - 1] && r.1[i] == rest.1[i - 1];
      if woke && b.TakesLockOn(n) {
        assert IsAcquired(w1, n) && w1.lockHolder[n] == ws[0].task;
      }
      if IsAcquired(w, n) {
        assert IsAcquired(w1, n);
      } else if n in r.0.lockHolder {
        if woke && b.TakesLockOn(n) {
          assert r.1[0] && ws[0].task == r.0.lockHolder[n];
        } else {
          assert !IsAcquired(w1, n);
          var j :| 0 <= j < |ws[1..]| && rest.1[j] && ws[1..][j].blocker.TakesLockOn(n) && ws[1..][j].task == rest.0.lockHolder[n];
          assert r.1[j + 1] && ws[j + 1] == ws[1..][j];
        }
      }
    }
  }

  /**
   * Blockers that take no lock are unaffected by pass order: each wakes
   * exactly when it could unblock against the world the pass started from.
   */
  lemma {:induction false} PassLockFree(ws: seq<Waiter>, w: World)
    requires AllValid(ws)
    ensures forall i :: 0 <= i < |ws| && !ws[i].blocker.TakesLock() ==>
      Pass(ws, w).1[i] == CanUnblock(ws[i].blocker, w)
  {
    if ws != [] {
      var b := ws[0].blocker;
      var woke := CanUnblock(b, w);
      var w1 := if woke then UnblockWorld(b, ws[0].task, w) else w;
      assert AllValid(ws[1..]) by {
        forall i | 0 <= i < |ws[1..]| ensures ws[1..][i].blocker.Valid() {
          assert ws[1..][i] == ws[i + 1];
        }
      }
      var rest := Pass(ws[1..], w1);
      assert Pass(ws, w).1 == [woke] + rest.1;
      PassLockFree(ws[1..], w1);
      forall i | 0 < i < |ws| && !ws[i].blocker.TakesLock()
        ensures Pass(ws, w).1[i] == CanUnblock(ws[i].blocker, w)
      {
        assert ws[1..][i - 1] == ws[i];
        assert w1 == w.(lockHolder := w1.lockHolder);
        CanUnblockIgnoresLocks(ws[i].blocker, w, w1.lockHolder);
      }
    }
  }

  /** After b0 unblocks, a lock-taking blocker can still unblock unless b0 took its node. */
  lemma CanUnblockAfterUnblock(b0: Blocker, task: TaskId, w: World, b: Blocker)
    requires b0.Valid() && b.Valid() && b.TakesLock() && CanUnblock(b0, w)
    ensures CanUnblock(b, UnblockWorld(b0, task, w)) ==
      (CanUnblock(b, w) && !b0.TakesLockOn(b.LockedNode()))
  {
  }

  /**
   * Who wins a pass: an Accept, Read or Write blocker wakes exactly when it
   * could unblock against the world the pass started from and no earlier
   * waiter that woke took the same node. Pass order decides between rivals.
   */
  lemma {:induction false} PassWakes(ws: seq<Waiter>, w: World)
    requires AllValid(ws)
    ensures var woken := Pass(ws, w).1;
      forall i :: 0 <= i < |ws| && ws[i].blocker.TakesLock() ==>
        (woken[i] <==> (CanUnblock(ws[i].blocker, w) &&
          forall j :: 0 <= j < i && woken[j] ==> !ws[j].blocker.TakesLockOn(ws[i].blocker.LockedNode())))
  {
    if ws != [] {
      var b := ws[0].blocker;
      var woke := CanUnblock(b, w);
      var w1 := if woke then UnblockWorld(b, ws[0].task, w) else w;
      assert AllValid(ws[1..]) by {
        forall i | 0 <= i < |ws[1..]| ensures ws[1..][i].blocker.Valid() {
          assert ws[1..][i] == ws[i + 1];
        }
      }
      var rest := Pass(ws[1..], w1);
      var woken := Pass(ws, w).1;
      assert woken == [woke] + rest.1;
      PassWakes(ws[1..], w1);
      forall i | 0 < i < |ws| && ws[i].blocker.TakesLock()
        ensures woken[i] <==> (CanUnblock(ws[i].blocker, w) &&
          forall j :: 0 <= j < i && woken[j] ==> !ws[j].blocker.TakesLockOn(ws[i].blocker.LockedNode()))
      {
        assert ws[1..][i - 1] == ws[i];
        assert forall j :: 0 < j < i ==> ws[1..][j - 1] == ws[j] && rest.1[j - 1] == woken[j];
        if woke {
          CanUnblockAfterUnblock(b, ws[0].task, w, ws[i].blocker);
        }
      }
    }
  }

  /**
   * Two tasks reading the same free, readable node in one pass: the first
   * wakes and holds the node, the second stays blocked.
   */
  lemma TwoReadersOneWinner(w: World, h: Handle, t1: TaskId, t2: TaskId)
    requires !IsAcquired(w, h.node) && h in w.readable
    ensures var r := Pass([Waiter(t1, Read(h)), Waiter(t2, Read(h))], w);
      r.1 == [true, false] && r.0 == w.(lockHolder := w.lockHolder[h.node := t1])
  {
    var ws := [Waiter(t1, Read(h)), Waiter(t2, Read(h))];
    var w1 := UnblockWorld(Read(h), t1, w);
    var tail := [Waiter(t2, Read(h))];
    assert ws[1..] == tail && tail[1..] == [];
    assert !CanUnblock(Read(h), w1);
    assert Pass(tail, w1).0 == w1 && Pass(tail, w1).1 == [false];
  }

  /**
   * BlockerWait::on_unblock as evidently intended: the slot receives the exit
   * value of the awaited task, whose cancellation can_unblock tested, and
   * nothing else changes. `task` is the unblocking task, which it ignores.
   */
  method WaitOnUnblockIntended(b: Blocker, task: TaskId, w: World, slots: Slots) returns (w': World, slots': Slots)
    requires b.Wait?
    ensures w' == w
    ensures slots'.exitValue == w.exitValue(b.awaited)
    ensures slots'.selected == slots.selected && slots'.selectedEvents == slots.selectedEvents
  {
    w', slots' := w, slots.(exitValue := w.exitValue(b.awaited));
  }

  /**
   * The world of the wait scenarios: task 2 was canceled with exit value 42;
   * every other task is blocked and its exit value field holds 0.
   */
  function CanceledAwaitWorld(): World {
    World(map[], {}, {}, {}, {}, (h, e) => 0, 0,
          t => if t == 2 then Canceled else Blocked,
          t => if t == 2 then 42 else 0)
  }

  /**
   * Task 1 waits on task 2 in CanceledAwaitWorld. The wait unblocks, and as
   * written the slot receives the waiting task's 0, not the awaited task's 42.
   */
  method WaitScenario() returns (value: int)
    ensures value == 0
  {
    var w := CanceledAwaitWorld();
    var b := Wait(2);
    assert CanUnblock(b, w);
    var w', slots := OnUnblock(b, 1, w, Slots(Handle(0, 0), 0, -1));
    value := slots.exitValue;
  }

  /** The same wait with the intended on_unblock: the slot receives 42. */
  method WaitScenarioIntended() returns (value: int)
    ensures value == 42
  {
    var w := CanceledAwaitWorld();
    var b := Wait(2);
    assert CanUnblock(b, w);
    var w', slots := WaitOnUnblockIntended(b, 1, w, Slots(Handle(0, 0), 0, -1));
    value := slots.exitValue;
  }
}
