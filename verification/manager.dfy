/**
 * The manager's window-list bookkeeping and the control skeleton of its main
 * loop. Native calls are recorded in a trace of actions; waiting for native
 * events and the vsync swap interval do nothing here.
 */
module Manager {

  /** A window as the manager sees it: an identity and the three things it asks of it. */
  datatype Window = Window(handle: nat, canBeClose: bool, isVisible: bool, isAlive: bool)

  /** What the manager does to the outside world, in order. */
  datatype Action =
    | Warned                       // the "at least one window is required" warning
    | WorkerStarted                // the event thread is started
    | WindowDestroyed(w: Window)   // `window.destroy()` in the close pass
    | WindowUpdated(w: Window)     // `window.update()`
    | NativeDestroyed(w: Window)   // the native handle is destroyed during cleanup
    | Terminated                   // the native framework is terminated during cleanup

  /**
   * What happens during the update step of one tick: nothing special, an
   * update hook calls `quit()`, or the native error callback raises.
   */
  datatype TickEffect = Quiet | HookQuits | NativeError

  /** How `mainloop()` ends; `Unfinished` means the script ran out while the loop was alive. */
  datatype LoopEnd = Returned | Raised | Unfinished

  /** The manager's state: the window list, both alive flags, whether the native module handle was bound, and the trace. */
  datatype Snapshot = Snapshot(
    windows: seq<Window>, isAlive: bool, workerAlive: bool, glfwBound: bool, trace: seq<Action>)

  predicate NoDup<T(==)>(xs: seq<T>) {
    forall j, k | 0 <= j < k < |xs| :: xs[j] != xs[k]
  }

  lemma {:induction false} NoDupCount<T>(xs: seq<T>, x: T)
    requires NoDup(xs)
    ensures multiset(xs)[x] <= 1
    decreases |xs|
  {
    if xs != [] {
      assert xs == [xs[0]] + xs[1..];
      assert NoDup(xs[1..]) by {
        forall j, k | 0 <= j < k < |xs[1..]| ensures xs[1..][j] != xs[1..][k] {
          assert xs[1..][j] == xs[j + 1] && xs[1..][k] == xs[k + 1];
        }
      }
      NoDupCount(xs[1..], x);
      if xs[0] == x {
        assert x !in xs[1..] by {
          forall k | 0 <= k < |xs[1..]| ensures xs[1..][k] != x {
            assert xs[1..][k] == xs[k + 1];
          }
        }
      }
    }
  }

  lemma {:induction false} CountOneIsNoDup<T>(xs: seq<T>)
    requires forall x :: multiset(xs)[x] <= 1
    ensures NoDup(xs)
  {
    forall j, k | 0 <= j < k < |xs| ensures xs[j] != xs[k] {
      var x := xs[j];
      assert xs == xs[..j] + [x] + xs[j + 1..k] + [xs[k]] + xs[k + 1..];
      assert multiset(xs)[x] >= 1 + multiset([xs[k]])[x];
    }
  }

  /** The position of the first occurrence. */
  function IndexOf<T(==)>(xs: seq<T>, x: T): (k: nat)
    requires x in xs
    ensures k < |xs| && xs[k] == x && x !in xs[..k]
  {
    if xs[0] == x then 0 else 1 + IndexOf(xs[1..], x)
  }

  /** `list.remove(x)` when `x` is present; the list unchanged otherwise. */
  function RemoveFirst<T(==)>(xs: seq<T>, x: T): (r: seq<T>)
    ensures x !in xs ==> r == xs
    ensures |r| == if x in xs then |xs| - 1 else |xs|
  {
    if xs == [] then []
    else if xs[0] == x then xs[1..]
    else
      assert xs == [xs[0]] + xs[1..];
      [xs[0]] + RemoveFirst(xs[1..], x)
  }

  /** A present element: its first occurrence is cut out and the rest keep their order. */
  lemma {:induction false} RemoveFirstShape<T>(xs: seq<T>, x: T)
    requires x in xs
    ensures RemoveFirst(xs, x) == xs[..IndexOf(xs, x)] + xs[IndexOf(xs, x) + 1..]
    decreases |xs|
  {
    if xs[0] != x {
      var tail := xs[1..];
      RemoveFirstShape(tail, x);
      var i := IndexOf(tail, x);
      assert xs[..i + 1] == [xs[0]] + tail[..i];
      assert xs[i + 2..] == tail[i + 1..];
    }
  }

  /** Removing a present element takes exactly one copy of it out of the multiset. */
  lemma {:induction false} RemoveFirstCount<T>(xs: seq<T>, x: T)
    requires x in xs
    ensures multiset(RemoveFirst(xs, x)) + multiset{x} == multiset(xs)
    decreases |xs|
  {
    assert xs == [xs[0]] + xs[1..];
    if xs[0] != x {
      RemoveFirstCount(xs[1..], x);
    }
  }

  /** The windows the close pass leaves alone, in order. */
  function Unclosable(ws: seq<Window>): seq<Window> {
    if ws == [] then []
    else (if ws[0].canBeClose then [] else [ws[0]]) + Unclosable(ws[1..])
  }

  /** Unclosable keeps exactly the windows that cannot close. */
  lemma {:induction false} UnclosableIsFilter(ws: seq<Window>)
    ensures forall w | w in Unclosable(ws) :: w in ws && !w.canBeClose
    ensures forall w | w in ws && !w.canBeClose :: w in Unclosable(ws)
    decreases |ws|
  {
    if ws != [] {
      assert ws == [ws[0]] + ws[1..];
      UnclosableIsFilter(ws[1..]);
    }
  }

  /** Removing a closable window does not touch the others or their order. */
  lemma {:induction false} UnclosableRemoveFirst(ws: seq<Window>, w: Window)
    requires w.canBeClose
    ensures Unclosable(RemoveFirst(ws, w)) == Unclosable(ws)
    decreases |ws|
  {
    if ws != [] && ws[0] != w {
      UnclosableRemoveFirst(ws[1..], w);
      assert ([ws[0]] + RemoveFirst(ws[1..], w))[1..] == RemoveFirst(ws[1..], w);
    }
  }

  /** The outcome of a close pass: the windows kept and those closed, in the order closed. */
  datatype Pass = Pass(kept: seq<Window>, closed: seq<Window>)

  /**
   * The close pass from position `i` on, as Python's list iteration runs it
   * while the loop body removes elements: the position advances past an
   * element even when that element was removed, so the one after it moves
   * into the visited slot and is skipped until the next pass.
   */
  function CloseFrom(ws: seq<Window>, i: nat): (r: Pass)
    ensures r.closed == [] ==> r.kept == ws
    decreases |ws| - i
  {
    if i >= |ws| then Pass(ws, [])
    else if ws[i].canBeClose then
      var rest := CloseFrom(RemoveFirst(ws, ws[i]), i + 1);
      Pass(rest.kept, [ws[i]] + rest.closed)
    else CloseFrom(ws, i + 1)
  }

  /** Every window of the list ends up either kept or closed. */
  lemma {:induction false} CloseFromLength(ws: seq<Window>, i: nat)
    ensures |CloseFrom(ws, i).kept| + |CloseFrom(ws, i).closed| == |ws|
    decreases |ws| - i
  {
    if i < |ws| {
      if ws[i].canBeClose {
        CloseFromLength(RemoveFirst(ws, ws[i]), i + 1);
      } else {
        CloseFromLength(ws, i + 1);
      }
    }
  }

  /** One position of the close pass: a closable window is removed and closed, another is passed over. */
  lemma CloseFromStep(ws: seq<Window>, i: nat)
    requires i < |ws|
    ensures ws[i].canBeClose ==>
      CloseFrom(ws, i) == Pass(CloseFrom(RemoveFirst(ws, ws[i]), i + 1).kept,
                               [ws[i]] + CloseFrom(RemoveFirst(ws, ws[i]), i + 1).closed)
    ensures !ws[i].canBeClose ==> CloseFrom(ws, i) == CloseFrom(ws, i + 1)
  {
  }

  /** A close pass moves windows from the list to the closed sequence: nothing is lost or invented. */
  lemma {:induction false} CloseFromConserves(ws: seq<Window>, i: nat)
    ensures multiset(CloseFrom(ws, i).kept) + multiset(CloseFrom(ws, i).closed) == multiset(ws)
    decreases |ws| - i
  {
    if i < |ws| {
      if ws[i].canBeClose {
        var r := RemoveFirst(ws, ws[i]);
        RemoveFirstCount(ws, ws[i]);
        CloseFromConserves(r, i + 1);
        var rest := CloseFrom(r, i + 1);
        assert multiset([ws[i]] + rest.closed) == multiset{ws[i]} + multiset(rest.closed);
      } else {
        CloseFromConserves(ws, i + 1);
      }
    }
  }

  /** Only windows that can close are closed. */
  lemma {:induction false} CloseFromClosesClosable(ws: seq<Window>, i: nat)
    ensures forall w | w in CloseFrom(ws, i).closed :: w.canBeClose
    decreases |ws| - i
  {
    if i < |ws| {
      if ws[i].canBeClose {
        CloseFromClosesClosable(RemoveFirst(ws, ws[i]), i + 1);
      } else {
        CloseFromClosesClosable(ws, i + 1);
      }
    }
  }

  /** The windows that cannot close all stay, in their order. */
  lemma {:induction false} CloseFromKeepsUnclosable(ws: seq<Window>, i: nat)
    ensures Unclosable(CloseFrom(ws, i).kept) == Unclosable(ws)
    decreases |ws| - i
  {
    if i < |ws| {
      if ws[i].canBeClose {
        UnclosableRemoveFirst(ws, ws[i]);
        CloseFromKeepsUnclosable(RemoveFirst(ws, ws[i]), i + 1);
      } else {
        CloseFromKeepsUnclosable(ws, i + 1);
      }
    }
  }

  /** Without duplicates, a window the pass closed is no longer in the list. */
  lemma ClosedWindowsLeave(ws: seq<Window>)
    requires NoDup(ws)
    ensures NoDup(CloseFrom(ws, 0).kept)
    ensures forall w | w in CloseFrom(ws, 0).closed :: w !in CloseFrom(ws, 0).kept
    ensures forall w | w in CloseFrom(ws, 0).kept :: w in ws
  {
    var p := CloseFrom(ws, 0);
    CloseFromConserves(ws, 0);
    forall w ensures multiset(p.kept)[w] + multiset(p.closed)[w] <= 1 {
      NoDupCount(ws, w);
    }
    CountOneIsNoDup(p.kept);
    forall w | w in p.closed ensures w !in p.kept {
      assert multiset(p.closed)[w] >= 1;
    }
    forall w | w in p.kept ensures w in ws {
      assert multiset(ws)[w] >= multiset(p.kept)[w];
    }
  }

  /** Two closable windows side by side: the second is skipped and survives the pass. */
  lemma SecondOfAdjacentClosablesSkipped(a: Window, b: Window)
    requires a.canBeClose && b.canBeClose && a != b
    ensures CloseFrom([a, b], 0) == Pass([b], [a])
  {
    assert RemoveFirst([a, b], a) == [b];
  }

  /** Every position before `j` holds an unclosable window, so the pass reaches `j`. */
  lemma {:induction false} ReachesFirstClosable(ws: seq<Window>, i: nat, j: nat)
    requires i <= j < |ws| && ws[j].canBeClose
    requires forall k | i <= k < j :: !ws[k].canBeClose
    ensures CloseFrom(ws, i).closed != [] && CloseFrom(ws, i).closed[0] == ws[j]
    decreases j - i
  {
    if i < j {
      ReachesFirstClosable(ws, i + 1, j);
    }
  }

  /** A pass over a list holding a closable window closes at least the first such window. */
  lemma PassMakesProgress(ws: seq<Window>, j: nat)
    requires j < |ws| && ws[j].canBeClose && forall k | 0 <= k < j :: !ws[k].canBeClose
    ensures CloseFrom(ws, 0).closed != [] && CloseFrom(ws, 0).closed[0] == ws[j]
    ensures |CloseFrom(ws, 0).kept| < |ws|
  {
    ReachesFirstClosable(ws, 0, j);
    var p := CloseFrom(ws, 0);
    CloseFromConserves(ws, 0);
    assert |p.kept| + |p.closed| == |ws| by {
      assert |multiset(p.kept) + multiset(p.closed)| == |multiset(ws)|;
    }
  }

  /** `window.destroy()` for each closed window, in order. */
  function DestroyCalls(ws: seq<Window>): seq<Action> {
    seq(|ws|, k requires 0 <= k < |ws| => WindowDestroyed(ws[k]))
  }

  /** The native destroy of each window still listed at cleanup, in order. */
  function NativeCalls(ws: seq<Window>): seq<Action> {
    seq(|ws|, k requires 0 <= k < |ws| => NativeDestroyed(ws[k]))
  }

  /** `update()` on the visible and alive windows, in list order. */
  function UpdateCalls(ws: seq<Window>): (r: seq<Action>)
    ensures |r| <= |ws|
  {
    if ws == [] then []
    else
      var last := ws[|ws| - 1];
      UpdateCalls(ws[..|ws| - 1]) + (if last.isVisible && last.isAlive then [WindowUpdated(last)] else [])
  }

  /** Every update goes to a listed window that is visible and alive, and every such window gets one. */
  lemma {:induction false} UpdateCallsExact(ws: seq<Window>)
    ensures |UpdateCalls(ws)| <= |ws|
    ensures forall k | 0 <= k < |UpdateCalls(ws)| ::
      UpdateCalls(ws)[k].WindowUpdated? && UpdateCalls(ws)[k].w in ws && UpdateIsLive(UpdateCalls(ws)[k])
    ensures forall w | w in ws && w.isVisible && w.isAlive :: WindowUpdated(w) in UpdateCalls(ws)
    decreases |ws|
  {
    if ws != [] {
      var front := ws[..|ws| - 1];
      assert ws == front + [ws[|ws| - 1]];
      UpdateCallsExact(front);
    }
  }

  /** `quit()`: both the manager and its event thread stop. */
  function QuitStep(s: Snapshot): (r: Snapshot)
    ensures !r.isAlive && !r.workerAlive
    ensures r.windows == s.windows && r.trace == s.trace && r.glfwBound == s.glfwBound
  {
    s.(isAlive := false, workerAlive := false)
  }

  /** The close pass of one tick: every listed window is either kept or gets one `destroy()`. */
  function ClosePassStep(s: Snapshot): (r: Snapshot)
    ensures r.isAlive == s.isAlive && r.workerAlive == s.workerAlive && r.glfwBound == s.glfwBound
    ensures s.trace <= r.trace && |r.windows| + |r.trace| == |s.windows| + |s.trace|
  {
    var p := CloseFrom(s.windows, 0);
    CloseFromLength(s.windows, 0);
    s.(windows := p.kept, trace := s.trace + DestroyCalls(p.closed))
  }

  /** `update()`: binds the native module handle, then updates the live visible windows. */
  function UpdateStep(s: Snapshot): (r: Snapshot)
    ensures r.glfwBound && r.windows == s.windows
    ensures r.isAlive == s.isAlive && r.workerAlive == s.workerAlive
    ensures s.trace <= r.trace && |r.trace| - |s.trace| <= |s.windows|
  {
    s.(glfwBound := true, trace := s.trace + UpdateCalls(s.windows))
  }

  /** Cleanup's native calls: under GLFW every listed window's handle is destroyed, then the framework terminated. */
  function CleanupCalls(ws: seq<Window>, glfw: bool): seq<Action> {
    if glfw then NativeCalls(ws) + [Terminated] else []
  }

  /**
   * `cleanup()` as it was evidently meant: under GLFW destroy every listed
   * window's native handle and terminate the framework; then `quit()`.
   */
  function CleanupStep(s: Snapshot, glfw: bool): (r: Snapshot)
    ensures !r.isAlive && !r.workerAlive && r.windows == s.windows
    ensures r.trace == s.trace + CleanupCalls(s.windows, glfw)
  {
    QuitStep(s.(trace := s.trace + CleanupCalls(s.windows, glfw)))
  }

  /**
   * `cleanup()` as written: under GLFW it reaches the native module through an
   * attribute that only `update()` assigns, so before the first update it
   * raises AttributeError, having done nothing and without calling `quit()`.
   */
  function CleanupAsWritten(s: Snapshot, glfw: bool): (r: (Snapshot, LoopEnd))
    ensures glfw && !s.glfwBound ==> r == (s, Raised)
    ensures !glfw || s.glfwBound ==> r == (CleanupStep(s, glfw), Returned)
  {
    if glfw && !s.glfwBound then (s, Raised) else (CleanupStep(s, glfw), Returned)
  }

  /** A tick that does not raise: the close pass, the update step, and `quit()` if a hook called it. */
  function Tick(s: Snapshot, effect: TickEffect): (r: Snapshot)
    ensures r.glfwBound && s.trace <= r.trace && |r.windows| <= |s.windows|
    ensures r.isAlive == (s.isAlive && effect != HookQuits)
    ensures r.workerAlive == (s.workerAlive && effect != HookQuits)
  {
    var u := UpdateStep(ClosePassStep(s));
    if effect == HookQuits then QuitStep(u) else u
  }

  /** What `mainloop()` does before its first tick. */
  function StartStep(s: Snapshot): Snapshot {
    s.(isAlive := true, trace := s.trace + (if s.windows == [] then [Warned] else []) + [WorkerStarted])
  }

  /** The ticks of the main loop, driven by one effect per tick that reaches the update step. */
  function Loop(s: Snapshot, script: seq<TickEffect>, glfw: bool): (r: (Snapshot, LoopEnd))
    ensures s.trace <= r.0.trace
    ensures r.1 == Unfinished ==> r.0.isAlive
    ensures r.1 == Raised ==> !r.0.isAlive
    decreases |script|
  {
    if !s.isAlive then (CleanupStep(s, glfw), Returned)
    else if s.windows == [] then (CleanupStep(QuitStep(s), glfw), Returned)
    else if script == [] then (s, Unfinished)
    else
      if script[0] == NativeError then (ClosePassStep(s).(glfwBound := true, isAlive := false), Raised)
      else Loop(Tick(s, script[0]), script[1..], glfw)
  }

  /** `mainloop()`: the warning when there are no windows and the thread start come before any tick. */
  function RunMainloop(s: Snapshot, script: seq<TickEffect>, glfw: bool): (r: (Snapshot, LoopEnd))
    ensures s.trace + (if s.windows == [] then [Warned] else []) + [WorkerStarted] <= r.0.trace
  {
    Loop(StartStep(s), script, glfw)
  }

  /** A loop that returns leaves both the manager and its event thread stopped. */
  lemma {:induction false} ReturnedLoopIsStopped(s: Snapshot, script: seq<TickEffect>, glfw: bool)
    ensures Loop(s, script, glfw).1 == Returned ==>
      !Loop(s, script, glfw).0.isAlive && !Loop(s, script, glfw).0.workerAlive
    decreases |script|
  {
    if s.isAlive && s.windows != [] && script != [] && script[0] != NativeError {
      ReturnedLoopIsStopped(Tick(s, script[0]), script[1..], glfw);
    }
  }

  /** Every action of `t` from position `n` on satisfies `p`. */
  ghost predicate AllFrom(t: seq<Action>, n: nat, p: Action -> bool) {
    forall k | n <= k < |t| :: p(t[k])
  }

  lemma AllFromChain(a: seq<Action>, b: seq<Action>, c: seq<Action>, p: Action -> bool)
    requires a <= b && b <= c && AllFrom(b, |a|, p) && AllFrom(c, |b|, p)
    ensures AllFrom(c, |a|, p)
  {
    forall k | |a| <= k < |c| ensures p(c[k]) {
      if k < |b| {
        assert c[k] == b[k];
      }
    }
  }

  /** The actions a tick appends: destroys from the close pass and updates. */
  predicate TickAction(a: Action) {
    a.WindowDestroyed? || a.WindowUpdated?
  }

  /** An update goes only to a visible and alive window. */
  predicate UpdateIsLive(a: Action) {
    a.WindowUpdated? ==> a.w.isVisible && a.w.isAlive
  }

  predicate NotNative(a: Action) {
    !a.NativeDestroyed?
  }

  /** A tick only appends to the trace, and what it appends are destroys and updates of live visible windows. */
  lemma TickAppendsTickActions(s: Snapshot, effect: TickEffect)
    ensures s.trace <= Tick(s, effect).trace
    ensures AllFrom(Tick(s, effect).trace, |s.trace|, TickAction)
    ensures AllFrom(Tick(s, effect).trace, |s.trace|, UpdateIsLive)
  {
    var p := CloseFrom(s.windows, 0);
    var d, u := DestroyCalls(p.closed), UpdateCalls(p.kept);
    var t := Tick(s, effect).trace;
    assert t == s.trace + d + u;
    UpdateCallsExact(p.kept);
    forall k | |s.trace| <= k < |t| ensures TickAction(t[k]) && UpdateIsLive(t[k]) {
      if k < |s.trace| + |d| {
        assert t[k] == d[k - |s.trace|];
      } else {
        assert t[k] == u[k - |s.trace| - |d|];
      }
    }
  }

  /**
   * A loop that raises leaves the manager not alive and never reaches
   * cleanup: only close-pass destroys and updates were appended.
   */
  lemma {:induction false} RaisedLoopSkipsCleanup(s: Snapshot, script: seq<TickEffect>, glfw: bool)
    requires Loop(s, script, glfw).1 == Raised
    ensures !Loop(s, script, glfw).0.isAlive
    ensures s.trace <= Loop(s, script, glfw).0.trace
    ensures AllFrom(Loop(s, script, glfw).0.trace, |s.trace|, TickAction)
    decreases |script|
  {
    var t := Loop(s, script, glfw).0.trace;
    if script[0] == NativeError {
      var d := DestroyCalls(CloseFrom(s.windows, 0).closed);
      assert t == s.trace + d;
      forall k | |s.trace| <= k < |t| ensures TickAction(t[k]) {
        assert t[k] == d[k - |s.trace|];
      }
    } else {
      var next := Tick(s, script[0]);
      TickAppendsTickActions(s, script[0]);
      RaisedLoopSkipsCleanup(next, script[1..], glfw);
      AllFromChain(s.trace, next.trace, t, TickAction);
    }
  }

  /** From position `n` on, `t` terminates the framework as its last action and nowhere before. */
  ghost predicate TerminatesLast(t: seq<Action>, n: nat) {
    && n < |t| && t[|t| - 1] == Terminated
    && forall k | n <= k < |t| - 1 :: t[k] != Terminated
  }

  /** A trace that terminates last still does so once actions without a terminate are put before it. */
  lemma TerminatesLastPrefixed(a: seq<Action>, b: seq<Action>, c: seq<Action>)
    requires a <= b && b <= c && TerminatesLast(c, |b|) && AllFrom(b, |a|, TickAction)
    ensures TerminatesLast(c, |a|)
  {
    forall k | |a| <= k < |c| - 1 ensures c[k] != Terminated {
      if k < |b| {
        assert c[k] == b[k] && TickAction(b[k]);
      }
    }
  }

  /**
   * A loop that returns under GLFW ran cleanup exactly once: the framework is
   * terminated as the very last action and at no earlier point of the loop.
   */
  lemma {:induction false} ReturnedLoopTerminatesOnce(s: Snapshot, script: seq<TickEffect>)
    requires Loop(s, script, true).1 == Returned
    ensures s.trace <= Loop(s, script, true).0.trace
    ensures TerminatesLast(Loop(s, script, true).0.trace, |s.trace|)
    decreases |script|
  {
    var t := Loop(s, script, true).0.trace;
    if !s.isAlive || s.windows == [] {
      var n := NativeCalls(s.windows);
      assert t == s.trace + n + [Terminated];
      forall k | |s.trace| <= k < |t| - 1 ensures t[k] != Terminated {
        assert t[k] == n[k - |s.trace|];
      }
    } else {
      var next := Tick(s, script[0]);
      assert Loop(s, script, true) == Loop(next, script[1..], true);
      TickAppendsTickActions(s, script[0]);
      ReturnedLoopTerminatesOnce(next, script[1..]);
      TerminatesLastPrefixed(s.trace, next.trace, t);
    }
  }

  /** Every window the loop updates was visible and alive. */
  lemma {:induction false} LoopUpdatesOnlyLiveWindows(s: Snapshot, script: seq<TickEffect>, glfw: bool)
    ensures s.trace <= Loop(s, script, glfw).0.trace
    ensures AllFrom(Loop(s, script, glfw).0.trace, |s.trace|, UpdateIsLive)
    decreases |script|
  {
    var t := Loop(s, script, glfw).0.trace;
    if !s.isAlive || s.windows == [] {
      var c := CleanupCalls(s.windows, glfw);
      assert t == s.trace + c;
      forall k | |s.trace| <= k < |t| ensures UpdateIsLive(t[k]) {
        assert t[k] == c[k - |s.trace|];
      }
    } else if script == [] {
    } else if script[0] == NativeError {
      var d := DestroyCalls(CloseFrom(s.windows, 0).closed);
      assert t == s.trace + d;
      forall k | |s.trace| <= k < |t| ensures UpdateIsLive(t[k]) {
        assert t[k] == d[k - |s.trace|];
      }
    } else {
      var next := Tick(s, script[0]);
      TickAppendsTickActions(s, script[0]);
      LoopUpdatesOnlyLiveWindows(next, script[1..], glfw);
      AllFromChain(s.trace, next.trace, t, UpdateIsLive);
    }
  }

  /** From `base` on, no window that `destroy()` was called on has its native handle destroyed as well. */
  ghost predicate SingleDestroy(t: seq<Action>, base: nat) {
    forall j, k | base <= j < |t| && base <= k < |t| && t[j].WindowDestroyed? && t[k].NativeDestroyed? ::
      t[j].w != t[k].w
  }

  /** The invariant behind a single destroy: listed windows are distinct and not yet destroyed. */
  ghost predicate DestroyLedger(s: Snapshot, base: nat) {
    && base <= |s.trace|
    && NoDup(s.windows)
    && AllFrom(s.trace, base, NotNative)
    && (forall k | base <= k < |s.trace| && s.trace[k].WindowDestroyed? :: s.trace[k].w !in s.windows)
  }

  lemma ClosePassKeepsLedger(s: Snapshot, base: nat)
    requires DestroyLedger(s, base)
    ensures DestroyLedger(ClosePassStep(s), base)
  {
    var p := CloseFrom(s.windows, 0);
    ClosedWindowsLeave(s.windows);
    var d := DestroyCalls(p.closed);
    var t := ClosePassStep(s).trace;
    assert t == s.trace + d;
    forall k | base <= k < |t| ensures NotNative(t[k]) && (t[k].WindowDestroyed? ==> t[k].w !in p.kept) {
      if k < |s.trace| {
        assert t[k] == s.trace[k];
      } else {
        assert t[k] == d[k - |s.trace|];
      }
    }
  }

  lemma UpdateKeepsLedger(s: Snapshot, base: nat)
    requires DestroyLedger(s, base)
    ensures DestroyLedger(UpdateStep(s), base)
  {
    var u := UpdateCalls(s.windows);
    UpdateCallsExact(s.windows);
    var t := UpdateStep(s).trace;
    assert t == s.trace + u;
    forall k | base <= k < |t| ensures NotNative(t[k]) && (t[k].WindowDestroyed? ==> t[k].w !in s.windows) {
      if k < |s.trace| {
        assert t[k] == s.trace[k];
      } else {
        assert t[k] == u[k - |s.trace|];
      }
    }
  }

  lemma TickKeepsLedger(s: Snapshot, base: nat, effect: TickEffect)
    requires DestroyLedger(s, base)
    ensures DestroyLedger(Tick(s, effect), base)
  {
    ClosePassKeepsLedger(s, base);
    UpdateKeepsLedger(ClosePassStep(s), base);
  }

  /** Cleanup under the ledger destroys natively only windows that `destroy()` never saw. */
  lemma CleanupKeepsSingleDestroy(s: Snapshot, base: nat, glfw: bool)
    requires DestroyLedger(s, base)
    ensures base <= |CleanupStep(s, glfw).trace|
    ensures SingleDestroy(CleanupStep(s, glfw).trace, base)
  {
    var c := CleanupCalls(s.windows, glfw);
    var t := CleanupStep(s, glfw).trace;
    assert t == s.trace + c;
    forall k | base <= k < |s.trace| ensures !t[k].NativeDestroyed? {
      assert t[k] == s.trace[k] && NotNative(s.trace[k]);
    }
    forall k | base <= k < |s.trace| && t[k].WindowDestroyed? ensures t[k].w !in s.windows {
      assert t[k] == s.trace[k];
    }
    forall k | |s.trace| <= k < |t| ensures !t[k].WindowDestroyed? && (t[k].NativeDestroyed? ==> t[k].w in s.windows) {
      assert t[k] == c[k - |s.trace|];
    }
  }

  /** A trace with no native destroys from `base` on trivially destroys nothing twice. */
  lemma NoNativeSingleDestroy(t: seq<Action>, base: nat)
    requires AllFrom(t, base, NotNative)
    ensures SingleDestroy(t, base)
  {
    assert forall k | base <= k < |t| :: !t[k].NativeDestroyed? by {
      forall k | base <= k < |t| ensures !t[k].NativeDestroyed? {
        assert NotNative(t[k]);
      }
    }
  }

  /**
   * Single destroy: when the listed windows are distinct, no window that the
   * close pass destroyed is destroyed again natively by cleanup.
   */
  lemma {:induction false} NoWindowDestroyedTwice(s: Snapshot, base: nat, script: seq<TickEffect>, glfw: bool)
    requires DestroyLedger(s, base)
    ensures base <= |Loop(s, script, glfw).0.trace|
    ensures SingleDestroy(Loop(s, script, glfw).0.trace, base)
    decreases |script|
  {
    if !s.isAlive {
      CleanupKeepsSingleDestroy(s, base, glfw);
    } else if s.windows == [] {
      CleanupKeepsSingleDestroy(QuitStep(s), base, glfw);
    } else if script == [] {
      NoNativeSingleDestroy(s.trace, base);
    } else if script[0] == NativeError {
      var d := DestroyCalls(CloseFrom(s.windows, 0).closed);
      var t := s.trace + d;
      forall k | base <= k < |t| ensures NotNative(t[k]) {
        if k >= |s.trace| {
          assert t[k] == d[k - |s.trace|];
        }
      }
      NoNativeSingleDestroy(t, base);
    } else {
      TickKeepsLedger(s, base, script[0]);
      NoWindowDestroyedTwice(Tick(s, script[0]), base, script[1..], glfw);
    }
  }

  /** `mainloop()` with no windows warns, shuts down in its first tick and cleans up once. */
  lemma EmptyMainloopShutsDown(s: Snapshot, script: seq<TickEffect>, glfw: bool)
    requires s.windows == []
    ensures RunMainloop(s, script, glfw).1 == Returned
    ensures !RunMainloop(s, script, glfw).0.isAlive && !RunMainloop(s, script, glfw).0.workerAlive
    ensures RunMainloop(s, script, glfw).0.trace ==
      s.trace + [Warned, WorkerStarted] + (if glfw then [Terminated] else [])
  {
    assert NativeCalls([]) == [];
  }

  /**
   * As written, `mainloop()` with no windows under GLFW reaches `cleanup()`
   * before any `update()`, and cleanup raises instead of terminating the framework.
   */
  lemma EmptyMainloopAsWrittenRaises(s: Snapshot)
    requires s.windows == [] && !s.glfwBound
    ensures var reached := QuitStep(StartStep(s));
      CleanupAsWritten(reached, true) == (reached, Raised)
    ensures Terminated !in QuitStep(StartStep(s)).trace[|s.trace|..]
  {
    assert QuitStep(StartStep(s)).trace[|s.trace|..] == [Warned, WorkerStarted];
  }

  /** The manager object. */
  class CharmyManager {
    const uiFrameworkName: string
    var windows: seq<Window>
    var isAlive: bool
    var workerAlive: bool
    var glfwBound: bool
    var trace: seq<Action>

    function State(): Snapshot
      reads this
    {
      Snapshot(windows, isAlive, workerAlive, glfwBound, trace)
    }

    predicate IsGlfw() {
      uiFrameworkName == "GLFW"
    }

    /** A new manager: no windows, not running. */
    constructor (uiFrameworkName: string, workerAlive: bool)
      ensures this.uiFrameworkName == uiFrameworkName && this.workerAlive == workerAlive
      ensures windows == [] && !isAlive && !glfwBound && trace == []
    {
      this.uiFrameworkName := uiFrameworkName;
      this.workerAlive := workerAlive;
      windows, isAlive, glfwBound, trace := [], false, false, [];
    }

    /** `add_window`: appends, without checking for duplicates. */
    method AddWindow(w: Window)
      modifies this
      ensures windows == old(windows) + [w]
      ensures isAlive == old(isAlive) && workerAlive == old(workerAlive)
      ensures glfwBound == old(glfwBound) && trace == old(trace)
    {
      windows := windows + [w];
    }

    /** `destroy_window`: removes the first occurrence; an absent window changes nothing. */
    method DestroyWindow(w: Window)
      modifies this
      ensures windows == RemoveFirst(old(windows), w)
      ensures w in old(windows) ==> |windows| == |old(windows)| - 1
      ensures isAlive == old(isAlive) && workerAlive == old(workerAlive)
      ensures glfwBound == old(glfwBound) && trace == old(trace)
    {
      if w in windows {
        windows := RemoveFirst(windows, w);
      }
    }

    /** `quit`: the manager and its event thread are no longer alive. */
    method Quit()
      modifies this
      ensures State() == QuitStep(old(State()))
      ensures !isAlive && !workerAlive
    {
      isAlive := false;
      workerAlive := false;
    }

    /** The close pass of a tick, iterating the list it removes from. */
    method ClosePass()
      modifies this
      ensures State() == ClosePassStep(old(State()))
    {
      ghost var goal := CloseFrom(windows, 0);
      var i := 0;
      ghost var closed: seq<Window> := [];
      while i < |windows|
        invariant CloseFrom(windows, i).kept == goal.kept
        invariant closed + CloseFrom(windows, i).closed == goal.closed
        invariant trace == old(trace) + DestroyCalls(closed)
        invariant isAlive == old(isAlive) && workerAlive == old(workerAlive) && glfwBound == old(glfwBound)
        decreases |windows| - i
      {
        var w := windows[i];
        CloseFromStep(windows, i);
        i := i + 1;
        if w.canBeClose {
          DestroyWindow(w);
          trace := trace + [WindowDestroyed(w)];
          assert DestroyCalls(closed + [w]) == DestroyCalls(closed) + [WindowDestroyed(w)];
          closed := closed + [w];
        }
      }
    }

    /** The window step of `update()`: update each visible and alive window, in order. */
    method Update()
      modifies this
      ensures State() == UpdateStep(old(State()))
    {
      glfwBound := true;
      var i := 0;
      while i < |windows|
        invariant i <= |windows|
        invariant trace == old(trace) + UpdateCalls(windows[..i])
        invariant windows == old(windows) && isAlive == old(isAlive) && workerAlive == old(workerAlive)
        invariant glfwBound
      {
        var w := windows[i];
        assert windows[..i + 1][..i] == windows[..i];
        if w.isVisible && w.isAlive {
          trace := trace + [WindowUpdated(w)];
        }
        i := i + 1;
      }
      assert windows[..i] == windows;
    }

    /** `cleanup()`, with the native module bound before use (see CleanupAsWritten). */
    method Cleanup()
      modifies this
      ensures State() == CleanupStep(old(State()), IsGlfw())
    {
      if IsGlfw() {
        var i := 0;
        while i < |windows|
          invariant i <= |windows|
          invariant trace == old(trace) + NativeCalls(windows[..i])
          invariant windows == old(windows) && isAlive == old(isAlive)
          invariant workerAlive == old(workerAlive) && glfwBound == old(glfwBound)
        {
          assert windows[..i + 1][..i] == windows[..i];
          trace := trace + [NativeDestroyed(windows[i])];
          i := i + 1;
        }
        assert windows[..i] == windows;
        trace := trace + [Terminated];
      }
      Quit();
    }

    /** `mainloop()`, with one effect per tick from the script. */
    method Mainloop(script: seq<TickEffect>) returns (end: LoopEnd)
      modifies this
      ensures (State(), end) == RunMainloop(old(State()), script, IsGlfw())
    {
      if windows == [] {
        trace := trace + [Warned];
      }
      isAlive := true;
      trace := trace + [WorkerStarted];
      ghost var goal := RunMainloop(old(State()), script, IsGlfw());
      assert State() == StartStep(old(State()));
      var k := 0;
      assert script[k..] == script;
      while isAlive
        invariant k <= |script|
        invariant Loop(State(), script[k..], IsGlfw()) == goal
        decreases |script| - k
      {
        if windows == [] {
          Quit();
          break;
        }
        if k == |script| {
          return Unfinished;
        }
        ghost var before := State();
        ClosePass();
        var effect := script[k];
        assert script[k..][1..] == script[k + 1..];
        k := k + 1;
        if effect == NativeError {
          glfwBound := true;
          isAlive := false;
          return Raised;
        }
        Update();
        if effect == HookQuits {
          Quit();
        }
        assert State() == Tick(before, effect);
      }
      Cleanup();
      end := Returned;
    }
  }
}
