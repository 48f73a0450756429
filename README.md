# Blockers, legacy IRQs and the Hideo window manager, in Dafny

This project models three sequential pieces of the skift operating system and proves properties of them.

**Blockers** (module `Blocker`, `Blocker.dfy`). A blocked task waits on a blocker until its condition holds. The model has one `Blocker` constructor for each of the seven blocker classes: Accept, Connect, Read, Select, Time, Wait and Write. They are evaluated against a `World` record, which holds:
- the holder of each node lock;
- the accept, accepted, read and write capabilities of nodes and handles;
- the `select` query from a handle and an interest mask to a ready mask;
- the current tick;
- every task's state and exit value.

How each part is modelled:
- `can_unblock` is the pure function `CanUnblock`.
- Select's `can_unblock` is also the early-return scan `SelectCanUnblock`, proved equal to it.
- `on_unblock` is the method `OnUnblock`. It returns the new world and the new output slots: the selected handle and its ready mask, and the exit value. Select's loop is `SelectOnUnblock`. Accept, Read and Write take their node's lock for the unblocking task.

The scheduler is not part of this model. To state lock exclusion, the model adds `Pass`, a modelling device: one sequential pass over a list of waiters, in order. The lemmas about `Pass` prove three things:
- of the Accept, Read and Write blockers on one node, at most one wakes, and its task then holds the node;
- a lock-taking blocker wakes exactly when it could unblock at the start of the pass and no earlier winner took its node;
- blockers that take no lock do not depend on the pass order.

`BlockerWait::on_unblock` copies the exit value of the task passed to `on_unblock`. That is the unblocking (waiting) task, not the awaited task whose state `can_unblock` tests (kernel/scheduling/Blocker.cpp:90, 97). The function marks its `task` parameter unused (line 95) and then reads it, so `_task` was evidently meant. The model keeps both versions:
- `OnUnblock` does what the code does, and `WaitScenario` shows the consequence: the awaited task was canceled with exit value 42, but the waiting task receives its own value, 0.
- `WaitOnUnblockIntended` copies the awaited task's value, and `WaitScenarioIntended` shows it delivering 42.

The table under "## Findings" records this.

**Legacy devices** (module `LegacyDevice`, `LegacyDevice.dfy`). `Interrupt` maps a legacy address to its IRQ line:
- the keyboard to 1;
- COM2 and COM4 to 3;
- COM1 and COM3 to 4;
- the mouse to 12.

The source asserts that no other address is reached, so `Interrupt` has a precondition instead. A driver's `Match` compares its address with the legacy part of a device address.

**Hideo** (module `Hideo`, `Hideo.dfy`). This is the compositor's non-drawing logic:
- the rectangle test `CheckColision`;
- the window stack, as a `Context` class whose `windows` field is a sequence of `Window` objects, topmost last;
- hit-testing, cursor clamping and button edge detection;
- the focus, raise and drag bookkeeping of a cursor update;
- window creation, and the per-frame move of the dragged window.

The mouse state that the source keeps in `static` variables is an explicit pair of parameters: the previous sample and the new one.

## Model

| member | source | states |
|---|---|---|
| `Blocker.CanUnblock` | kernel/scheduling/Blocker.cpp:6-108 | The can_unblock of each of the seven variants, as a function of the world. It has no side effect, so asking again on an unchanged world gives the same answer. A lock-taking blocker (Accept, Read, Write) can unblock only while its node is not acquired. |
| `Blocker.SelectCanUnblock` | kernel/scheduling/Blocker.cpp:42-55 | The early-return scan over the first `count` entries is true exactly when some entry below `count` has a non-zero ready mask. It modifies nothing, and its answer depends only on the world. |
| `Blocker.FirstFiring` | kernel/scheduling/Blocker.cpp:61-72 | The first firing entry in registration order. It exists iff some entry fires; it fires; and no earlier entry fires. |
| `Blocker.SelectOnUnblock` | kernel/scheduling/Blocker.cpp:57-73 | Writes the handle and the ready mask of the smallest firing index into the slots. When nothing fires, the slots are unchanged. |
| `Blocker.OnUnblock` | kernel/scheduling/Blocker.cpp:13-112 | The world becomes `UnblockWorld`'s: Accept, Read and Write make the unblocking task the holder of their node, and nothing else changes. Select writes its first match. Wait writes the exit value of the task passed in, not of the awaited task, as line 97 is written. Connect and Time change nothing. |
| `Blocker.UnblockTakesLock` | kernel/scheduling/Blocker.cpp:10-15 | After an Accept, Read or Write unblock, the node is held by the task and no other node's lock changes. From then on, no Accept, Read or Write blocker on that node can unblock. |
| `Blocker.UnblockWorld` | kernel/scheduling/Blocker.cpp:13-112 | The effect on the world of the `fsnode_acquire_lock` calls at lines 15, 37 and 112. Only the lock table changes. An Accept, Read or Write makes the task the holder of its node. Every other held node keeps its holder. A node is held afterwards only if it was held before or is the blocker's own node. Connect, Select, Time and Wait leave the world unchanged. |
| `Blocker.TimeMonotone` | kernel/scheduling/Blocker.cpp:77-82 | If a Time blocker can unblock at some tick, it can unblock at every later tick. |
| `Blocker.CanUnblockIgnoresLocks` | kernel/scheduling/Blocker.cpp:20-91 | The answer of a Connect, Select, Time or Wait blocker does not depend on any node lock. |
| `Blocker.CanUnblockAfterUnblock` | kernel/scheduling/Blocker.cpp:28-38 | After one blocker unblocks, a lock-taking blocker can still unblock iff it could before and the first one did not take its node. |
| `Blocker.Pass` | kernel/scheduling/Blocker.cpp:6-16 | A sequential pass reports one flag per waiter. It changes only the lock table and never releases or reassigns a lock already held. Which free nodes gain a holder is stated by `PassLockExclusion`. |
| `Blocker.PassLockExclusion` | kernel/scheduling/Blocker.cpp:6-112 | For every node: if it is held at the start, no Accept, Read or Write blocker on it wakes. Of those that wake, at most one is on the node. That one's task holds the node after the pass. A node free at the start is held afterwards only by the task of a woken Accept, Read or Write blocker on it, so a task acquires a node only through its own on_unblock. |
| `Blocker.PassWakes` | kernel/scheduling/Blocker.cpp:28-38 | A lock-taking blocker wakes in a pass iff it could unblock at the start and no earlier woken waiter took its node. |
| `Blocker.PassLockFree` | kernel/scheduling/Blocker.cpp:20-98 | A blocker that takes no lock wakes in a pass iff it could unblock at the start, whatever the order. |
| `Blocker.TwoReadersOneWinner` | kernel/scheduling/Blocker.cpp:28-38 | Two readers of one free, readable node: the first wakes and holds the node, the second stays blocked. |
| `Blocker.WaitScenario` | kernel/scheduling/Blocker.cpp:86-98 | The awaited task is canceled with exit value 42, and the waiter's own exit value is 0. With on_unblock as written, the slot receives 0. |
| `Blocker.WaitOnUnblockIntended` | kernel/scheduling/Blocker.cpp:86-98 | The intended Wait unblock: the slot receives the exit value of the awaited task whose cancellation can_unblock tested. The world and the other slots are unchanged. |
| `Blocker.WaitScenarioIntended` | kernel/scheduling/Blocker.cpp:86-98 | In the same world, the intended Wait unblock delivers the awaited task's 42. |
| `LegacyDevice.Interrupt` | kernel/devices/LegacyDevice.h:17-41 | A known legacy address maps to the keyboard's 1, COM2/COM4's 3, COM1/COM3's 4 or the mouse's 12, so the IRQ is always in {1, 3, 4, 12}. Any other address is a precondition violation. |
| `LegacyDevice.InterruptByLine` | kernel/devices/LegacyDevice.h:22-34 | For every known address and every line, the address maps to the line iff it is listed on that line: {keyboard} on 1, {COM2, COM4} on 3, {COM1, COM3} on 4, {mouse} on 12. |
| `LegacyDevice.LinesAreUsed` | kernel/devices/LegacyDevice.h:22-34 | Each of the lines 1, 3, 4 and 12 is the IRQ of some known address. |
| `LegacyDevice.LegacyDeviceDriver.Instance` | kernel/devices/LegacyDevice.h:62-65 | The device created for an address has that address as its legacy address. |
| `LegacyDevice.MatchedInstanceInterrupt` | kernel/devices/LegacyDevice.h:57-65 | The device a driver creates for an address it matched sits at the driver's address, so it has that address's IRQ. |
| `LegacyDevice.LegacyDevice.LegacyAddressOf` | kernel/devices/LegacyDevice.h:10 | The legacy part of the device's address. It is an accessor with no contract of its own; `Instance` and `MatchedInstanceInterrupt` state its value. |
| `LegacyDevice.LegacyDeviceDriver.Match` | kernel/devices/LegacyDevice.h:57-60 | The driver's stored legacy address equals the address's legacy part. It is a predicate with no contract of its own; `MatchIsExact` states what it means. |
| `LegacyDevice.MatchIsExact` | kernel/devices/LegacyDevice.h:57-60 | A driver matches a device address at its own legacy address. Any two addresses it matches have the same legacy part, so it serves exactly one legacy address. |
| `Hideo.CheckColision` | sources/hideo/sources/main.c:19-22 | Against a 1x1 rectangle at (x, y), the test holds iff x0 <= x < x0+w0 and y0 <= y < y0+h0. |
| `Hideo.CheckColisionSymmetric` | sources/hideo/sources/main.c:19-22 | The overlap test gives the same answer with the two rectangles swapped. |
| `Hideo.TopmostAt` | sources/hideo/sources/main.c:77-92 | The topmost window containing the point: it contains the point, and no window after it does. The rectangle's height is the header height when `header` is set. It is null iff no window contains the point. |
| `Hideo.Context.WindowAt` | sources/hideo/sources/main.c:77-92 | The forward scan that keeps the last hit returns the topmost window containing the point. |
| `Hideo.Clamp` | sources/hideo/sources/main.c:102-103 | For a size of at least 1, the result lies in 0..size-1. An in-range value is unchanged; below 0 gives 0; above size-1 gives size-1. A size below 1 gives 0. |
| `Hideo.ButtonEdge` | sources/hideo/sources/main.c:113-125 | A button's state records both its current and its previous level: it is held now (Down, Pressed) iff the new level is down, and was held (Down, Released) iff the old level was. |
| `Hideo.ButtonEdgeOnto` | sources/hideo/sources/main.c:113-154 | Every button state arises from exactly the pair of levels it reports. |
| `Hideo.ButtonEdges` | sources/hideo/sources/main.c:113-154 | Pressed iff new and not old; Released iff old and not new; otherwise Down if new and Up if not. Pressed and Released never hold together. |
| `Hideo.RemoveFirst` | sources/hideo/sources/main.c:163 | `list_remove`: the list loses one element when the window is in it. A window not in the list leaves it unchanged. |
| `Hideo.RemoveFirstAt` | sources/hideo/sources/main.c:163 | Removing a window at its first position keeps all other windows in their order. |
| `Hideo.RaiseToTop` | sources/hideo/sources/main.c:163-164 | Removing a window of a duplicate-free list and pushing it back puts it last and keeps the others in order. The result is a duplicate-free permutation of the old list. |
| `Hideo.Context.Grab` | sources/hideo/sources/main.c:160-169 | The window takes focus, becomes the last of the list and becomes the drag target. The offsets satisfy win.x = c.x + offx and win.y = c.y + offy. The list stays duplicate-free. |
| `Hideo.Context.CursorUpdate` | sources/hideo/sources/main.c:94-176 | The cursor is the clamped sample, with each button's edge state. A left press over a title bar grabs the topmost window there. Otherwise focus, list and offsets are unchanged. The drag target is cleared on a left release and kept otherwise. |
| `Hideo.Context.CreateWindow` | sources/hideo/sources/main.c:26-43 | A new window with the given title and geometry is appended at the end of the list and becomes focus. The existing windows and the drag state are unchanged. |
| `Hideo.Context.WindowUpdate` | sources/hideo/sources/main.c:45-56 | The dragged window moves to cursor plus offset. Any other window is unchanged. |
| `Hideo.Context.UpdateWindows` | sources/hideo/sources/main.c:229-233 | Updating every window in list order moves the dragged window to cursor plus offset and leaves every other window where it was. |
| `Hideo.Context.constructor` | sources/hideo/sources/main.c:191-204 | A context of the given size with an empty window list, no focus and no drag target. |

## Findings

| source | as written | input that shows it | evidently intended | confidence | as-written member | corrected member |
|---|---|---|---|---|---|---|
| kernel/scheduling/Blocker.cpp:95-97 | `BlockerWait::on_unblock` marks its `task` parameter unused, then copies `task->exit_value`: the exit value of the waiting task. | Task 2 is canceled with exit value 42. Task 1, whose own exit value field holds 0, waits on it and unblocks. The slot receives 0. | Copy `_task->exit_value`, the exit value of the awaited task whose state `can_unblock` tests, so the slot receives 42. | not executed | `Blocker.WaitScenario` (over `Blocker.OnUnblock`) | `Blocker.WaitOnUnblockIntended`, with `Blocker.WaitScenarioIntended` |

## Left out

- The node primitives, the select query, the tick counter and the task fields are world fields. Their code is not part of this model: `fsnode_is_acquire`, `fsnode_can_accept`, `fsnode_is_accepted`, `fsnode_acquire_lock`, `FsNode::can_read`/`can_write`, `fshandle_select`, `system_get_tick`, `Task::state` and `exit_value`.
- Node locks are a value in the world that `OnUnblock` returns, and output pointers are out-parameters that start from the slots' old contents. Aliasing between output slots is not modelled.
- The scheduler, task state transitions and lock release are not part of this model. `Pass` is only a device for stating lock exclusion.
- Tick counts, task ids and node ids are unbounded `nat`s. A tick counter that wraps around is not modelled; `TimeMonotone` holds only for a counter that does not wrap.
- The blocker base class is not part of this model. Connect and Time are taken to have an empty `on_unblock`, because they define none.
- Task states other than canceled are placeholders, because the task header is not part of this model.
- The numeric values of legacy addresses are not modelled; the bus header is not part of this model. Any address outside the six named ones is `Unlisted`.
- Device addresses on other buses, the device class and driver registration are not modelled.
- In the compositor, these are left out as drawing, device I/O or allocation:
  - all drawing, `hideo_window_draw` and `hideo_cursor_draw`;
  - the bitmap, the `sk_io_*` calls (including writing the clamped mouse state back to the device), `printf` and `MALLOC`;
  - the endless main loop, except for its window-update loop.
- `HEADER_HEIGHT` comes from a header that is not part of this model. It is taken to be 32, the height of the title bar that the window drawing fills.
- `hideo_ctor` leaves the drag state uninitialised. The model starts it with no drag target and zero offsets.
- The list library is not part of this model. `list_remove` is taken to remove the first occurrence; the window list never holds a window twice, so no other occurrence exists.
- The right and middle buttons are first set to Down/Up and then overwritten by their edge tests. The model keeps only the final value.
- C `int` is unbounded here; overflow in rectangle sums and in the cast of the screen size is not modelled.
- Process launch in the userspace bootstrap, the serial driver and the terminal node are left out. They are I/O with no state the core reasons about; the serial and terminal readiness appears only as the world's read and write capabilities.
