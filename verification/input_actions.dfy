/**
 The portal actions as they are coded: loops that arm a release guard, await portal calls that
 may fail, and disarm. Each is proved to issue exactly its script, or a beginning of
 it that ends with the failed await, and to leave in the guard what the script says.
 */
module InputActions {
  import opened Prelude
  import opened InputScripts

  /** What an action has issued when it returns: its whole script, or up to the await that failed. */
  predicate ExitsFrom(script: seq<Instr>, trace: seq<Instr>, ok: bool)
  {
    && trace <= script
    && (ok ==> trace == script)
    && (!ok ==> trace != [] && Awaits(trace[|trace| - 1]))
  }

  lemma {:induction false} GuardAfterSnoc(kind: GuardKind, guard: seq<Key>, trace: seq<Instr>, i: Instr)
    ensures GuardAfter(kind, guard, trace + [i]) == GuardStep(kind, GuardAfter(kind, guard, trace), i)
    decreases |trace|
  {
    if trace == [] {
      assert [] + [i] == [i];
      assert GuardAfter(kind, guard, [i]) == GuardAfter(kind, GuardStep(kind, guard, i), []);
    } else {
      assert (trace + [i])[1..] == trace[1..] + [i];
      GuardAfterSnoc(kind, GuardStep(kind, guard, trace[0]), trace[1..], i);
    }
  }

  class PointerReleaseGuard {
    var button: Option<int>
    ghost const script: seq<Instr>
    ghost var trace: seq<Instr>
    ghost var todo: seq<Instr>

    /** What was issued and what is left make up the script, and the guard is what the issued part arms. */
    ghost predicate Valid()
      reads this
    {
      && trace + todo == script
      && GuardAfter(PointerGuard, [], trace) == if button.None? then [] else [Button(button.value)]
    }

    constructor (ghost script: seq<Instr>)
      ensures Valid() && this.script == script && trace == [] && todo == script && button.None?
    {
      button := None;
      this.script := script;
      trace := [];
      todo := script;
    }

    ghost predicate Fresh()
      reads this
    {
      Valid() && trace == [] && todo == script
    }

    method Arm(b: int)
      requires Valid() && todo != [] && todo[0] == InputScripts.Arm(Button(b))
      modifies this
      ensures Valid() && trace == old(trace) + [InputScripts.Arm(Button(b))] && todo == old(todo)[1..]
    {
      GuardAfterSnoc(PointerGuard, [], trace, InputScripts.Arm(Button(b)));
      button := Some(b);
      trace, todo := trace + [InputScripts.Arm(Button(b))], todo[1..];
    }

    method Disarm()
      requires Valid() && todo != [] && todo[0] == InputScripts.Disarm
      modifies this
      ensures Valid() && trace == old(trace) + [InputScripts.Disarm] && todo == old(todo)[1..]
    {
      GuardAfterSnoc(PointerGuard, [], trace, InputScripts.Disarm);
      button := None;
      trace, todo := trace + [InputScripts.Disarm], todo[1..];
    }

    /** A portal call or a sleep; the outcome is not ours to choose. */
    method Await(i: Instr) returns (ok: bool)
      requires Valid() && Awaits(i) && todo != [] && todo[0] == i
      modifies this`trace, this`todo
      ensures Valid() && trace == old(trace) + [i] && todo == old(todo)[1..]
      ensures ExitsFrom(script, trace, false)
    {
      GuardAfterSnoc(PointerGuard, [], trace, i);
      trace, todo := trace + [i], todo[1..];
      ok := *;
    }
  }

  class KeyboardReleaseGuard {
    var pressed: seq<Key>
    ghost const script: seq<Instr>
    ghost var trace: seq<Instr>
    ghost var todo: seq<Instr>

    /** What was issued and what is left make up the script, and the guard is what the issued part arms. */
    ghost predicate Valid()
      reads this
    {
      && trace + todo == script
      && pressed == GuardAfter(KeyboardGuard, [], trace)
    }

    constructor (ghost script: seq<Instr>)
      ensures Valid() && this.script == script && trace == [] && todo == script && pressed == []
    {
      pressed := [];
      this.script := script;
      trace := [];
      todo := script;
    }

    ghost predicate Fresh()
      reads this
    {
      Valid() && trace == [] && todo == script
    }

    method Push(key: Key)
      requires Valid() && todo != [] && todo[0] == Arm(key)
      modifies this
      ensures Valid() && trace == old(trace) + [Arm(key)] && todo == old(todo)[1..]
    {
      GuardAfterSnoc(KeyboardGuard, [], trace, Arm(key));
      pressed := pressed + [key];
      trace, todo := trace + [Arm(key)], todo[1..];
    }

    method Pop()
      requires Valid() && todo != [] && todo[0] == Disarm
      modifies this
      ensures Valid() && trace == old(trace) + [Disarm] && todo == old(todo)[1..]
    {
      GuardAfterSnoc(KeyboardGuard, [], trace, Disarm);
      if pressed != [] {
        pressed := pressed[..|pressed| - 1];
      }
      trace, todo := trace + [Disarm], todo[1..];
    }

    /** A portal call or a sleep; the outcome is not ours to choose. */
    method Await(i: Instr) returns (ok: bool)
      requires Valid() && Awaits(i) && todo != [] && todo[0] == i
      modifies this`trace, this`todo
      ensures Valid() && trace == old(trace) + [i] && todo == old(todo)[1..]
      ensures ExitsFrom(script, trace, false)
    {
      GuardAfterSnoc(KeyboardGuard, [], trace, i);
      trace, todo := trace + [i], todo[1..];
      ok := *;
    }
  }

  lemma TapHead(key: Key, rest: seq<Instr>)
    ensures var s := Tap(key) + rest;
            && s[0] == Arm(key) && s[1..][0] == Press(key) && s[1..][1..][0] == Pause
            && s[1..][1..][1..][0] == Release(key) && s[1..][1..][1..][1..][0] == Disarm
            && s[1..][1..][1..][1..][1..] == rest
  {
  }

  /** One press and release of a pointer button. */
  method ClickOnce(guard: PointerReleaseGuard, button: int, ghost rest: seq<Instr>) returns (ok: bool)
    requires guard.Valid() && guard.todo == Tap(Button(button)) + rest
    modifies guard
    ensures guard.Valid() && (ok ==> guard.todo == rest) && (!ok ==> ExitsFrom(guard.script, guard.trace, false))
  {
    var key := Button(button);
    TapHead(key, rest);
    guard.Arm(button);
    ok := guard.Await(Press(key));
    if !ok { return; }
    ok := guard.Await(Pause);
    if !ok { return; }
    ok := guard.Await(Release(key));
    if !ok { return; }
    guard.Disarm();
  }

  method Click(guard: PointerReleaseGuard, at: Spot, button: int, clickCount: nat) returns (ok: bool)
    requires guard.Fresh() && guard.script == ClickScript(at, button, clickCount)
    modifies guard
    ensures guard.Valid() && ExitsFrom(guard.script, guard.trace, ok)
    ensures ok ==>
              var strokes := Strokes(guard.trace);
              && strokes != [] && strokes[0] == Moved(at)
              && AreTaps(strokes[1..], Button(button), if clickCount == 0 then 1 else clickCount)
  {
    ClickClicks(at, button, clickCount);
    var count := if clickCount == 0 then 1 else clickCount;
    ok := guard.Await(Motion(at));
    if !ok { return; }
    for i := 0 to count
      invariant guard.Valid() && guard.todo == Taps(Button(button), count - i) && ok
    {
      ok := ClickOnce(guard, button, Taps(Button(button), count - i - 1));
      if !ok { return; }
    }
  }

  method DragPointer(guard: PointerReleaseGuard, start: Spot, end: Spot) returns (ok: bool)
    requires guard.Fresh() && guard.script == DragScript(start, end)
    modifies guard
    ensures guard.Valid() && ExitsFrom(guard.script, guard.trace, ok)
    ensures ok ==> Strokes(guard.trace) == [Moved(start), Down(Button(0x110)), Moved(end), Up(Button(0x110))]
  {
    DragDrags(start, end);
    var left := Button(BTN_LEFT);
    ok := guard.Await(Motion(start));
    if !ok { return; }
    guard.Arm(BTN_LEFT);
    ok := guard.Await(Press(left));
    if !ok { return; }
    ok := guard.Await(Pause);
    if !ok { return; }
    ok := guard.Await(Motion(end));
    if !ok { return; }
    ok := guard.Await(Pause);
    if !ok { return; }
    ok := guard.Await(Release(left));
    if !ok { return; }
    guard.Disarm();
  }

  /** One press and release of a key. */
  method TapKey(guard: KeyboardReleaseGuard, key: Key, ghost rest: seq<Instr>) returns (ok: bool)
    requires guard.Valid() && guard.todo == Tap(key) + rest
    modifies guard
    ensures guard.Valid() && (ok ==> guard.todo == rest) && (!ok ==> ExitsFrom(guard.script, guard.trace, false))
  {
    TapHead(key, rest);
    guard.Push(key);
    ok := guard.Await(Press(key));
    if !ok { return; }
    ok := guard.Await(Pause);
    if !ok { return; }
    ok := guard.Await(Release(key));
    if !ok { return; }
    guard.Pop();
  }

  method TypeTextWithKeysyms(guard: KeyboardReleaseGuard, keysyms: seq<int>) returns (ok: bool)
    requires guard.Fresh() && guard.script == TextScript(keysyms)
    modifies guard
    ensures guard.Valid() && ExitsFrom(guard.script, guard.trace, ok)
    ensures ok ==> TypesKeysyms(Strokes(guard.trace), keysyms)
  {
    ok := true;
    for i := 0 to |keysyms|
      invariant guard.Valid() && guard.todo == TextScript(keysyms[i..]) && ok
    {
      ghost var rest := TextScript(keysyms[i + 1..]);
      assert keysyms[i..][1..] == keysyms[i + 1..];
      assert guard.todo == Tap(Keysym(keysyms[i])) + ([Pause] + rest);
      ok := TapKey(guard, Keysym(keysyms[i]), [Pause] + rest);
      if !ok { return; }
      ok := guard.Await(Pause);
      if !ok { return; }
    }
    TextTypes(keysyms);
  }

  lemma {:induction false} ReleaseAllSnoc(modifiers: seq<int>, last: int)
    ensures ReleaseAll(modifiers + [last]) == [Release(Keycode(last)), Disarm] + ReleaseAll(modifiers)
  {
    if modifiers == [] {
      assert [] + [last] == [last];
      assert ReleaseAll([last]) == ReleaseAll([]) + [Release(Keycode(last)), Disarm];
    } else {
      assert (modifiers + [last])[1..] == modifiers[1..] + [last];
      ReleaseAllSnoc(modifiers[1..], last);
    }
  }

  method PressModifiers(guard: KeyboardReleaseGuard, modifiers: seq<int>, ghost tail: seq<Instr>) returns (ok: bool)
    requires guard.Valid() && guard.todo == PressAll(modifiers) + tail
    modifies guard
    ensures guard.Valid() && (ok ==> guard.todo == tail) && (!ok ==> ExitsFrom(guard.script, guard.trace, false))
  {
    ok := true;
    assert modifiers[0..] == modifiers;
    for i := 0 to |modifiers|
      invariant guard.Valid() && guard.todo == PressAll(modifiers[i..]) + tail && ok
    {
      var modifier := Keycode(modifiers[i]);
      assert modifiers[i..][1..] == modifiers[i + 1..];
      PressAllCons(modifiers[i..], tail);
      guard.Push(modifier);
      ok := guard.Await(Press(modifier));
      if !ok { return; }
    }
  }

  method ReleaseModifiers(guard: KeyboardReleaseGuard, modifiers: seq<int>) returns (ok: bool)
    requires guard.Valid() && guard.todo == ReleaseAll(modifiers)
    modifies guard
    ensures guard.Valid() && (ok ==> guard.todo == []) && (!ok ==> ExitsFrom(guard.script, guard.trace, false))
  {
    ok := true;
    var i := |modifiers|;
    assert modifiers[..i] == modifiers;
    while i > 0
      invariant 0 <= i <= |modifiers|
      invariant guard.Valid() && guard.todo == ReleaseAll(modifiers[..i]) && ok
    {
      i := i - 1;
      var modifier := Keycode(modifiers[i]);
      assert modifiers[..i + 1] == modifiers[..i] + [modifiers[i]];
      ReleaseAllSnoc(modifiers[..i], modifiers[i]);
      assert guard.todo[1..][1..] == ReleaseAll(modifiers[..i]);
      ok := guard.Await(Release(modifier));
      if !ok { return; }
      guard.Pop();
    }
  }

  method PressKeycodeChord(guard: KeyboardReleaseGuard, modifiers: seq<int>, keycode: int) returns (ok: bool)
    requires guard.Fresh() && guard.script == ChordScript(modifiers, keycode)
    modifies guard
    ensures guard.Valid() && ExitsFrom(guard.script, guard.trace, ok)
    ensures ok ==> PlaysChord(Strokes(guard.trace), modifiers, keycode)
  {
    ChordPlays(modifiers, keycode);
    ghost var tail := Tap(Keycode(keycode)) + ReleaseAll(modifiers);
    assert guard.script == PressAll(modifiers) + tail;
    ok := PressModifiers(guard, modifiers, tail);
    if !ok { return; }
    ok := TapKey(guard, Keycode(keycode), ReleaseAll(modifiers));
    if !ok { return; }
    ok := ReleaseModifiers(guard, modifiers);
  }

  /** A beginning of a safe script leaves the rest of it safe. */
  lemma {:induction false} SafeAfter(kind: GuardKind, head: seq<Instr>, tail: seq<Instr>, guard: seq<Key>, down: multiset<Key>)
    requires Safe(kind, head + tail, guard, down)
    ensures Safe(kind, tail, GuardAfter(kind, guard, head), DownAfter(down, head))
    decreases |head|
  {
    if head == [] {
      assert head + tail == tail;
    } else {
      assert (head + tail)[0] == head[0] && (head + tail)[1..] == head[1..] + tail;
      SafeAfter(kind, head[1..], tail, GuardStep(kind, guard, head[0]), DownStep(down, head[0]));
    }
  }

  function DownAfter(down: multiset<Key>, trace: seq<Instr>): multiset<Key>
    decreases |trace|
  {
    if trace == [] then down else DownAfter(DownStep(down, trace[0]), trace[1..])
  }

  /** The keys that may be down when an action returns: after a failure, the last press may have gone
      through and the last release may not have. */
  function DownAtExit(trace: seq<Instr>, ok: bool): multiset<Key> {
    if ok || trace == [] then DownAfter(multiset{}, trace)
    else DownAfterFailure(DownAfter(multiset{}, trace[..|trace| - 1]), trace[|trace| - 1])
  }

  /** An instruction awaited in a safe rest of a script and failed leaves no more down than the guard knows. */
  lemma FailedAwait(kind: GuardKind, rest: seq<Instr>, guard: seq<Key>, down: multiset<Key>)
    requires Safe(kind, rest, guard, down) && rest != [] && Awaits(rest[0])
    ensures DownAfterFailure(down, rest[0]) <= multiset(guard) && GuardStep(kind, guard, rest[0]) == guard
  {
  }

  /** A safe script that fails at the await after `head` leaves no more down than its guard knows. */
  lemma FailedExit(kind: GuardKind, head: seq<Instr>, tail: seq<Instr>)
    requires tail != [] && Awaits(tail[0]) && Safe(kind, head + tail, [], multiset{})
    ensures DownAtExit(head + [tail[0]], false) <= multiset(GuardAfter(kind, [], head + [tail[0]]))
  {
    SafeAfter(kind, head, tail, [], multiset{});
    GuardAfterSnoc(kind, [], head, tail[0]);
    FailedAwait(kind, tail, GuardAfter(kind, [], head), DownAfter(multiset{}, head));
    assert (head + [tail[0]])[..|head|] == head;
  }

  /** A safe script that went through leaves nothing down and nothing in its guard. */
  lemma CleanExit(kind: GuardKind, script: seq<Instr>)
    requires Safe(kind, script, [], multiset{})
    ensures GuardAfter(kind, [], script) == [] && DownAtExit(script, true) == multiset{}
  {
    assert script + [] == script;
    SafeAfter(kind, script, [], [], multiset{});
  }

  /** Wherever an action exits, its guard knows every key that may be down; at the end of a successful
      one it is empty. */
  lemma ExitLeavesGuardAhead(action: Action, trace: seq<Instr>, ok: bool)
    requires ExitsFrom(action.Script(), trace, ok)
    ensures DownAtExit(trace, ok) <= multiset(GuardAfter(action.Kind(), [], trace))
    ensures ok ==> GuardAfter(action.Kind(), [], trace) == [] && DownAtExit(trace, ok) == multiset{}
  {
    ActionSafe(action);
    ExitOfSafe(action.Kind(), action.Script(), trace, ok);
  }

  lemma ExitOfSafe(kind: GuardKind, script: seq<Instr>, trace: seq<Instr>, ok: bool)
    requires Safe(kind, script, [], multiset{}) && ExitsFrom(script, trace, ok)
    ensures DownAtExit(trace, ok) <= multiset(GuardAfter(kind, [], trace))
    ensures ok ==> GuardAfter(kind, [], trace) == [] && DownAtExit(trace, ok) == multiset{}
  {
    if ok {
      CleanExit(kind, script);
    } else {
      var n := |trace| - 1;
      var (head, tail) := (script[..n], script[n..]);
      assert head + tail == script && tail[0] == trace[n];
      assert trace == head + [tail[0]];
      FailedExit(kind, head, tail);
    }
  }
}
