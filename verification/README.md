# charmy core, modelled in Dafny

This project models the non-graphical core of the charmy UI toolkit: the object base
class with its ids, registries, instance census and shared attribute store
(`charmy/object.py`), the rectangle value object (`charmy/rect.py`), the typed value
holders (`charmy/var.py`), and the manager's window-list bookkeeping and main-loop
control skeleton (`charmy/cmm.py`).

Layout, one Dafny module per file:

- `wrappers.dfy`: the `Option` and `Result` datatypes.
- `decimal.dfy`: the decimal text Python's `str()` writes for an integer, and the numerals `int()` reads.
  Both the automatic ids and the `IntVar` coercion rely on these. This file places no limit on the number of digits.
- `pyvalues.dfy`: the Python values a holder sees (None, bool, int, str, tuple).
  It also gives their `==`, `str()`, `int()` and `bool()`, including `True == 1`.
  `str()` and `int()` enforce CPython's default limit of 4300 digits on conversions between int and str: past it, both raise ValueError.
- `registry.dfy`: `CharmyObject` and the process-wide state behind it.
  The class-level dictionaries `objects`, `objects_sorted` and `attributes`, and each class's weak instance set, are modelled as the fields of one `Runtime` object.
  A class is a `PyClass` object with a name. Two distinct classes may share a name, so the census is keyed by the class object and `objects_sorted` by the name.
- `geometry.dfy`: `Rect`, a class whose four integer fields are updated in place.
  It comes with a pure `Apply` function that specifies `__call__`.
- `vars.dfy`: `Var` and its typed subclasses, as a class with the stored value and a log of the "change" events it triggered.
- `manager.dfy`: `CharmyManager`, as a class with its window list, the two alive flags and a trace of the calls it makes to the outside world.
  Its methods are proved equal to pure step functions (`ClosePassStep`, `UpdateStep`, `CleanupStep`, `Loop`), and the properties are lemmas about those functions.

Modelling choices that follow the code where its documentation or intent says otherwise:

- `Var.__init__` stores a one-element tuple because of a trailing comma (charmy/var.py:17).
  The model keeps this. A freshly built holder never compares equal to its default, nor to any value that is not a tuple.
  So right after construction, assigning a non-tuple value is never ignored as unchanged.
  A tuple equal to the stored one-element tuple is still ignored. A failed coercion is ignored as well.
- The `value` setter compares the raw input with the stored value, not its coercion.
  A ValueError from the coercion is silently ignored and any other exception escapes (charmy/var.py:26-32).
- Automatic ids are the class name followed by the census count (charmy/object.py:53-55).
  They can collide across classes: `A1` with count 0 and `A` with count 10 both give `A10`.
  They can also collide within a class after an unregistered instance has been collected, because the count then drops.
  A collision raises KeyError, which the model returns as a `Failure`.
- The census is the exact-type weak set: only an instance whose type is exactly the class joins it (charmy/object.py:23-24).
  Each class object has its own set (charmy/object.py:18).
  A subclass that reuses its parent's name therefore counts from zero, and its first automatic id collides with the parent's first one.
  Registered objects are held strongly by the id map, so only an object built with no id can ever leave it.
- `add_window` appends without checking for duplicates.
- The close pass removes windows from the list it is iterating over, so the window after a removed one is skipped until the next tick (charmy/cmm.py:108-111).
- `cleanup` uses the native module handle, which only `update` assigns (see Findings).
  The manager class runs the corrected cleanup; the code as written is kept beside it as `CleanupAsWritten`.

## Model

| member | source | states |
|---|---|---|
| Decimal.NatToString | charmy/object.py:55 | `str(n)` of a natural is a non-empty run of digits with no leading zero unless n is 0 |
| Decimal.DigitsRoundTrip | charmy/object.py:55 | reading the digits of `str(n)` back gives n |
| Decimal.NatToStringInjective | charmy/object.py:55 | different counts have different numerals |
| Decimal.IntToString | charmy/var.py:28 | the text `str(i)` writes starts with a minus sign exactly when i is negative (no digit limit here) |
| Decimal.ParseUnsigned | charmy/var.py:28 | a non-empty run of plain digits reads as the number it denotes (no digit limit here) |
| Decimal.ParseIntSign | charmy/var.py:28 | a negative result of `int()` comes only from text whose first non-space character is a minus sign |
| Decimal.NumeralDigitCount | charmy/var.py:28 | the text of `str(i)` holds exactly as many digits as the numeral of i, the measure the digit limit applies to |
| Decimal.ParseIntNeedsDigit | charmy/var.py:28-30 | `int()` raises ValueError on every string that holds no digit |
| Decimal.NatRoundTrip | charmy/var.py:28 | reading back the numeral of a natural n gives n, at any length |
| Decimal.NegativeRoundTrip | charmy/var.py:28 | reading back the signed numeral of a negative i gives i, at any length |
| Decimal.IntRoundTrip | charmy/var.py:28 | reading back the numeral of any integer i gives i, at any length; PyValues.IntStrRoundTrip adds the digit limit |
| PyValues.Eq | charmy/var.py:26 | values that compare equal are of the same kind, with bool and int counted as one kind and tuples as another |
| PyValues.EqReflexive | charmy/var.py:26 | every value compares equal to itself, so the setter's inequality test is false for the stored value |
| PyValues.EqSymmetric | charmy/var.py:26 | `a == b` exactly when `b == a` |
| PyValues.SingletonNeverEqualsScalar | charmy/var.py:17-26 | a one-element tuple never compares equal to a value that is not a tuple, in either order |
| PyValues.NeverEqualsOwnSingleton | charmy/var.py:17-26 | no value compares equal to the one-element tuple holding it, however deeply tuples nest |
| PyValues.Str | charmy/var.py:35-39 | the text of an int reads back as that int, and the text of a tuple is enclosed in parentheses |
| PyValues.Truth | charmy/var.py:49-53 | a value is false exactly when it is None, equal to 0 (False included), the empty string or the empty tuple |
| PyValues.ToStr | charmy/var.py:35-39 | `str(v)` never raises TypeError; it raises ValueError exactly when an int inside v has more than 4300 digits; otherwise it gives a string, and a string back unchanged |
| PyValues.ToBool | charmy/var.py:49-53 | `bool(v)` never raises, always gives a bool, and gives a bool back unchanged |
| PyValues.ToInt | charmy/var.py:42-46 | `int(v)` gives an int equal to a numeric input or parsed from text; TypeError exactly for None and tuples; ValueError only for text, and always for text with more than 4300 digits |
| PyValues.IntStrRoundTrip | charmy/var.py:28 | for an int of at most 4300 digits, `str()` succeeds and `int()` of its text gives that int back |
| PyValues.LongIntConversionsFail | charmy/var.py:28-30 | for an int of more than 4300 digits, `str()` raises ValueError, and so does `int()` of its numeral |
| Vars.Assign | charmy/var.py:24-32 | an assignment is ignored exactly when the input equals the stored value; otherwise the coerced value is stored, a ValueError is ignored, and another error escapes |
| Vars.InitialValue | charmy/var.py:17 | the start value is a one-element tuple holding the default, or the type's zero value when the default is None |
| Vars.DefaultNotStored | charmy/var.py:17 | the start value never compares equal to the default it was built from |
| Vars.Var.constructor | charmy/var.py:14-18 | the holder stores the one-element tuple, which never compares equal to the default, and has triggered no event |
| Vars.Var.StringVar | charmy/var.py:35-39 | a string holder starts from the tuple of its default ("" unless given) with `str` as its type |
| Vars.Var.IntVar | charmy/var.py:42-46 | an int holder starts from the tuple of its default (0 unless given) with `int` as its type |
| Vars.Var.BooleanVar | charmy/var.py:49-53 | a bool holder starts from the tuple of its default (False unless given) with `bool` as its type |
| Vars.Var.Value | charmy/var.py:20-22 | the getter returns the stored value, and assigning that value back is ignored as unchanged |
| Vars.Var.SetValue | charmy/var.py:24-32 | new stored value per `Assign`; a "change" event carrying the raw input is appended exactly when a value was stored; `raised` exactly when the coercion's error escapes |
| Vars.TextOfStoredIntStillFires | charmy/var.py:26-32 | an int holder storing n of at most 4300 digits, given the text of n, stores n again and fires "change" |
| Vars.TextOfLongIntIgnored | charmy/var.py:26-30 | an int holder storing n of more than 4300 digits, given the text of n, ignores the ValueError and stores nothing |
| Vars.FirstAssignmentNotSuppressed | charmy/var.py:17-26 | right after construction, assigning any non-tuple value is never ignored as unchanged |
| Vars.ReassignSuppressed | charmy/var.py:26 | assigning the stored value again is always ignored |
| Vars.TypedHoldersStoreTheirType | charmy/var.py:35-53 | string, int and bool holders only ever store a value of their own type |
| Vars.StringAndBoolHolderErrors | charmy/var.py:35-53 | string and bool holders never raise; a bool holder never ignores an error; a string holder ignores an input exactly when it is not equal to the stored value and holds an int of more than 4300 digits |
| Vars.IntHolderErrors | charmy/var.py:42-46 | an int holder ignores an error only for text, and raises only for None or a tuple |
| Geometry.Apply | charmy/rect.py:30-47 | `left`/`top` win over `x`/`y`; `right`/`bottom` fix the right and bottom edges against the updated corner; otherwise `width`/`height` apply; absent keys keep the old value |
| Geometry.ApplyNothing | charmy/rect.py:30-47 | a call without keywords changes nothing |
| Geometry.LeftRightSpan | charmy/rect.py:30-47 | with both `left` and `right` given, the rectangle spans from left to right whatever x and width say |
| Geometry.Rect.constructor | charmy/rect.py:20-28 | a new rectangle is the origin box with the keywords applied, so it is all zeros without keywords |
| Geometry.Rect.Call | charmy/rect.py:30-47 | the in-place field updates produce exactly `Apply` of the old value |
| Geometry.Rect.Left | charmy/rect.py:55-57 | the left edge is the stored x, the field `x` and `left` both write |
| Geometry.Rect.Top | charmy/rect.py:63-65 | the top edge is the stored y, the field `y` and `top` both write |
| Geometry.Rect.Width | charmy/rect.py:87-89 | the width is the stored width |
| Geometry.Rect.Height | charmy/rect.py:95-97 | the height is the stored height |
| Geometry.Rect.Right | charmy/rect.py:71-73 | the right edge is the left edge plus the width |
| Geometry.Rect.Bottom | charmy/rect.py:79-81 | the bottom edge is the top edge plus the height |
| Geometry.Rect.SetLeft | charmy/rect.py:59-61 | the left edge moves, the width is kept, so the right edge moves by the same amount; top and height unchanged |
| Geometry.Rect.SetTop | charmy/rect.py:67-69 | the top edge moves, the height is kept, so the bottom edge moves by the same amount; left and width unchanged |
| Geometry.Rect.SetRight | charmy/rect.py:75-77 | the right edge becomes the value and the left edge stays; top and height unchanged |
| Geometry.Rect.SetBottom | charmy/rect.py:83-85 | the bottom edge becomes the value and the top edge stays; left and width unchanged |
| Geometry.Rect.SetWidth | charmy/rect.py:91-93 | only the width changes |
| Geometry.Rect.SetHeight | charmy/rect.py:99-101 | only the height changes |
| Registry.AutoId | charmy/object.py:53-55 | the automatic id starts with the class name and ends with a digit |
| Registry.AutoIdsDistinct | charmy/object.py:53-55 | within one class, different census counts give different automatic ids |
| Registry.AutoIdsOfDifferentClassesMayCoincide | charmy/object.py:53-57 | classes `A1` and `A` can produce the same automatic id `A10` |
| Registry.ChosenId | charmy/object.py:53-58 | no id exactly for `ID.NONE`; an explicit id is kept; an automatic id starts with the class name |
| Registry.RegisterKeepsViews | charmy/object.py:58-65 | registering under a free id keeps the by-id and by-class views in agreement |
| Registry.RegisterKeepsIds | charmy/object.py:58-60 | registering a counted object under its own id keeps every object under its own id and live |
| Registry.EnlistKeepsCensus | charmy/object.py:20-26 | adding an instance to its own class object's census keeps every census typed by its class object |
| Registry.Runtime.constructor | charmy/object.py:35-39 | the process starts with no objects, no classes, empty censuses and no attributes |
| Registry.Runtime.InstanceCount | charmy/object.py:79-82 | the instance count is the size of the class object's own census, zero exactly when it is empty |
| Registry.Runtime.Construct | charmy/object.py:41-65 | the automatic id uses the class name and the class object's own count; fails with KeyError(id) exactly when the chosen id is taken, with nothing changed; otherwise the object joins its class object's census (count + 1, every other class object, a same-named parent included, unchanged) and, unless its id is none, both views under the class name |
| Registry.Runtime.Enlist | charmy/object.py:23-24 | the new instance is added to its own class object's census and nothing else changes |
| Registry.Runtime.Register | charmy/object.py:58-65 | the object is entered under its id in both views, creating its class's group if needed |
| Registry.Runtime.Release | charmy/object.py:79-82 | collecting an unregistered instance takes it out of its class object's census, and that count drops by one |
| Registry.Runtime.GetObj | charmy/object.py:88-95 | the object registered under the id, which carries that id, or the default when none is |
| Registry.Runtime.CGet | charmy/object.py:110-123 | the shared attribute when it was set, the default otherwise |
| Registry.Runtime.CSet | charmy/object.py:101-108 | the attribute now reads as the value for every default; every other attribute reads as before |
| Registry.Runtime.CConfig | charmy/object.py:125-132 | the store becomes the old store overridden by the keywords; names not given read as before |
| Registry.SameNamedSubclassCollides | charmy/object.py:16-57 | a subclass named like its parent counts its own instances, so after the parent's first automatic id "Window0" the subclass's first construction raises KeyError("Window0") |
| Manager.IndexOf | charmy/cmm.py:133-135 | the position of the first occurrence |
| Manager.RemoveFirst | charmy/cmm.py:133-135 | an absent element leaves the list as it was; a present one shortens it by one |
| Manager.RemoveFirstShape | charmy/cmm.py:133-135 | `list.remove` cuts out the first occurrence and keeps the rest in order |
| Manager.RemoveFirstCount | charmy/cmm.py:133-135 | removing takes exactly one copy of the element out of the list's multiset |
| Manager.NoDupCount | charmy/cmm.py:108-111 | a list without duplicates holds each element at most once |
| Manager.CountOneIsNoDup | charmy/cmm.py:108-111 | a list holding each element at most once has no duplicates |
| Manager.UnclosableIsFilter | charmy/cmm.py:108-110 | the windows that cannot close are exactly the listed windows whose `can_be_close()` is false |
| Manager.UnclosableRemoveFirst | charmy/cmm.py:108-111 | removing a closable window keeps the unclosable ones and their order |
| Manager.CloseFrom | charmy/cmm.py:108-111 | a close pass that closes nothing leaves the list as it was |
| Manager.CloseFromStep | charmy/cmm.py:108-111 | at each position a closable window is removed and closed and the position still advances; another window is passed over |
| Manager.CloseFromLength | charmy/cmm.py:108-111 | every listed window ends up either kept or closed |
| Manager.CloseFromConserves | charmy/cmm.py:108-111 | a close pass loses and invents no window: kept plus closed is the original list as a multiset |
| Manager.CloseFromClosesClosable | charmy/cmm.py:108-111 | only windows whose `can_be_close()` is true are closed |
| Manager.CloseFromKeepsUnclosable | charmy/cmm.py:108-111 | every window that cannot close stays, in its order |
| Manager.ClosedWindowsLeave | charmy/cmm.py:108-111 | with distinct windows, a closed window is no longer listed, the list stays distinct, and nothing new is listed |
| Manager.SecondOfAdjacentClosablesSkipped | charmy/cmm.py:108-111 | of two adjacent closable windows the pass closes the first and skips the second |
| Manager.ReachesFirstClosable | charmy/cmm.py:108-111 | a pass starting before the first closable window closes it first |
| Manager.PassMakesProgress | charmy/cmm.py:108-111 | a list holding a closable window gets shorter in one pass |
| Manager.UpdateCalls | charmy/cmm.py:64-66 | at most one update per listed window |
| Manager.UpdateCallsExact | charmy/cmm.py:64-66 | `update()` goes to listed windows that are visible and alive, and every such window gets one |
| Manager.QuitStep | charmy/cmm.py:147-150 | both the manager and its event thread stop; nothing else changes |
| Manager.ClosePassStep | charmy/cmm.py:108-111 | the flags are untouched and the trace only grows; each listed window is either kept or adds one `destroy()` |
| Manager.UpdateStep | charmy/cmm.py:58-82 | binds the native handle, keeps the list and flags, and appends at most one update per window |
| Manager.Tick | charmy/cmm.py:102-113 | a tick binds the native handle, only appends to the trace, never lengthens the list, and stops the manager and its thread exactly when a hook quit |
| Manager.CleanupStep | charmy/cmm.py:137-145 | cleanup ends with both flags false, keeps the list, and under GLFW appends one native destroy per listed window and then terminate |
| Manager.CleanupAsWritten | charmy/cmm.py:137-143 | under GLFW before any `update()` cleanup raises with nothing done; otherwise it is `CleanupStep` |
| Manager.Loop | charmy/cmm.py:101-118 | the loop only appends to the trace; a loop that raises leaves the manager not alive, and one cut off by the end of the script leaves it alive |
| Manager.RunMainloop | charmy/cmm.py:84-118 | the trace starts with the warning when there are no windows, then the thread start, before any tick |
| Manager.ReturnedLoopIsStopped | charmy/cmm.py:101-118 | a main loop that returns leaves the manager and its event thread not alive |
| Manager.TickAppendsTickActions | charmy/cmm.py:108-113 | a tick only appends to the trace, and appends only destroys and updates of visible, alive windows |
| Manager.RaisedLoopSkipsCleanup | charmy/cmm.py:113-116 | a loop that raises leaves the manager not alive and never reaches cleanup's native calls |
| Manager.ReturnedLoopTerminatesOnce | charmy/cmm.py:101-118 | a loop that returns under GLFW terminates the framework as its very last call and at no earlier point |
| Manager.LoopUpdatesOnlyLiveWindows | charmy/cmm.py:101-118 | every window the loop updates was visible and alive |
| Manager.ClosePassKeepsLedger | charmy/cmm.py:108-111 | a close pass keeps the windows distinct and no destroyed window listed |
| Manager.UpdateKeepsLedger | charmy/cmm.py:64-66 | the update step destroys nothing and leaves the list alone |
| Manager.TickKeepsLedger | charmy/cmm.py:108-112 | a whole tick keeps the single-destroy invariant |
| Manager.CleanupKeepsSingleDestroy | charmy/cmm.py:137-145 | under the invariant, cleanup never natively destroys a window that `destroy()` was already called on |
| Manager.NoNativeSingleDestroy | charmy/cmm.py:108-116 | a trace without native destroys destroys no window twice |
| Manager.NoWindowDestroyedTwice | charmy/cmm.py:101-118 | with distinct windows, no window closed in the loop is destroyed again by cleanup |
| Manager.EmptyMainloopShutsDown | charmy/cmm.py:92-118 | with no windows, mainloop warns, starts the thread, quits in its first tick and cleans up once |
| Manager.EmptyMainloopAsWrittenRaises | charmy/cmm.py:92-118 | as written, mainloop with no windows under GLFW reaches cleanup before any update, and cleanup raises without terminating |
| Manager.CharmyManager.constructor | charmy/cmm.py:24-50 | a new manager has no windows, is not alive and has made no call |
| Manager.CharmyManager.AddWindow | charmy/cmm.py:120-126 | the window is appended at the end, duplicates included; nothing else changes |
| Manager.CharmyManager.DestroyWindow | charmy/cmm.py:128-135 | the first occurrence is removed, so a present window shortens the list by one; an absent one changes nothing |
| Manager.CharmyManager.Quit | charmy/cmm.py:147-150 | both alive flags are false and nothing else changes |
| Manager.CharmyManager.ClosePass | charmy/cmm.py:108-111 | the iterate-and-remove loop yields exactly `ClosePassStep`: the kept windows, and one `destroy()` per closed window in order |
| Manager.CharmyManager.Update | charmy/cmm.py:58-82 | binds the native handle and updates exactly the visible, alive windows in list order |
| Manager.CharmyManager.Cleanup | charmy/cmm.py:137-145 | yields exactly `CleanupStep`, the corrected cleanup of the Findings table |
| Manager.CharmyManager.Mainloop | charmy/cmm.py:84-118 | final state and outcome are exactly `RunMainloop` of the initial state and the script, ending in the corrected cleanup |

## Left out

- Window internals are not part of this model: native creation, callbacks, drawing and the `destroy()` body (charmy/widgets/windowbase.py).
  A window is an immutable record: a handle and its `can_be_close()`, `is_visible` and `is_alive` answers.
  `window.destroy()` is recorded as one action. Its own second call to `destroy_window` is not modelled; with distinct windows that call finds nothing.
- The framework objects (charmy/frameworks) and all GLFW calls are recorded as actions or do nothing: `init`, `wait_events` and `swap_interval`.
  The native error callback is modelled as a per-tick `NativeError` effect that raises at the start of the update step, after the close pass.
- The event thread (`WorkingThread`) runs concurrently in the source. Only its alive flag is modelled; `start()` is recorded as an action.
- `Event` triggering (charmy/event.py) is not part of this model. A holder's triggered events are kept in its `events` log.
- Manager.CharmyManager.Mainloop: the loop runs on a finite script of per-tick effects. When the script runs out while the manager is alive, the result is `Unfinished`, so ticks beyond the script's length are not described.
- Manager.CharmyManager.Mainloop: an exception can only arise at the start of the update step. It cannot arise after some windows were updated, from a window's `update()` or `can_be_close()`, from `destroy()` in the close pass, or from the later `swap_interval`/`wait_events` calls (charmy/cmm.py:66-82).
- Manager.CharmyManager.Mainloop: it ends in the corrected cleanup. As written, with no windows under GLFW it raises AttributeError from cleanup; the model returns (see Findings, `EmptyMainloopAsWrittenRaises`).
- Manager.CharmyManager.Cleanup: it runs the corrected cleanup. As written, under GLFW before any `update()` it raises AttributeError at charmy/cmm.py:142-143 and does not quit; `CleanupAsWritten` models that.
- `FloatVar` (charmy/var.py:56-60) and floats are left out. Python floats are not in the value universe.
- Python's `int()` also accepts non-ASCII digits and Unicode whitespace, and `repr()` escapes quotes. The model covers ASCII digits and ASCII whitespace, and quotes strings with plain single quotes.
- IntToString: writes a numeral of any length. Python's 4300-digit limit on `str()` of an int is applied by `PyValues.ToStr`, not here.
- ParseUnsigned: reads a numeral of any length. Python's 4300-digit limit on `int()` of a string is applied by `PyValues.ToInt`, not here.
- NatRoundTrip: holds for numerals of any length. Within the digit limit, `PyValues.IntStrRoundTrip` states the round trip through `str()` and `int()`. Past the limit, `PyValues.LongIntConversionsFail` states that both raise.
- NegativeRoundTrip: as NatRoundTrip, for negative integers.
- IntRoundTrip: as NatRoundTrip, for every integer.
- PyValues.MaxStrDigits is CPython's default limit. Changing it through `sys.set_int_max_str_digits`, `PYTHONINTMAXSTRDIGITS` or `-X int_max_str_digits` is not modelled.
- Vars.InitialValue: `value_type()` is assumed to succeed and give the type's zero. `Var` with the default `typing.Any` type is not modelled.
- Registry.Runtime.Construct: `ID.NONE` is assumed never to be a key of `objects`. The registration done by a subclass's constructor (`Rect`, `CharmyManager`) is not wired to its own model.
- Registry.Runtime.Release: garbage collection is an explicit call on an instance nothing refers to; its timing is not modelled.
- The `instances` property (charmy/object.py:74-77) and the `__str__` methods of `CharmyObject` and `Rect` are left out. Neither is used by the rest of the core.
- The module-level manager, its `MANAGER_ID` registration, the framework set-up in its constructor, and the `mainloop()`/`cquit()` wrappers are left out (charmy/cmm.py:24-56,164-180).
- Manager.CharmyManager.constructor: the window list is a field of the manager. In the source the list lives in the attribute store that every object shares, under "ui.windows" (charmy/cmm.py:44, charmy/object.py:39,108).
  So in the source, a `cset`/`cconfig` of that name on any object, or building a second manager, replaces the running manager's list. The model does not capture this sharing, and the other framework settings kept there are not modelled either.

## Findings

| source | as written | input that shows it | evidently intended | confidence | as-written member | corrected member |
|---|---|---|---|---|---|---|
| charmy/cmm.py:137-143 | `cleanup()` calls `self.glfw.destroy_window` and `self.glfw.terminate`, but `self.glfw` is only assigned in `update()` (charmy/cmm.py:61) | `mainloop()` with no windows under GLFW: the first tick quits before any `update()`, so cleanup raises AttributeError and the framework is never terminated | cleanup reaches the native module whether or not a tick has run, and terminates it | high, not executed | Manager.CleanupAsWritten, Manager.EmptyMainloopAsWrittenRaises | Manager.CleanupStep, Manager.EmptyMainloopShutsDown |
