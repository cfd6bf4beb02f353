/**
 The portal input actions as the instructions they issue, and the release guards that go with
 them. `Arm` and `Disarm` are the synchronous bookkeeping of the guard; the other
 instructions are awaited and may fail or be cancelled.
 */
module InputScripts {
  datatype Key = Keysym(sym: int) | Keycode(code: int) | Button(button: int)

  /** A place on a shared stream. */
  datatype Spot = Spot(stream: nat, x: int, y: int)

  datatype Instr = Motion(to: Spot) | Arm(key: Key) | Press(key: Key) | Pause | Release(key: Key) | Disarm

  datatype GuardKind = PointerGuard | KeyboardGuard

  const BTN_LEFT: int := 0x110

  predicate Awaits(i: Instr)
  {
    !i.Arm? && !i.Disarm?
  }

  /** A pointer guard remembers one button, a keyboard guard a stack of keys. */
  function Armed(kind: GuardKind, guard: seq<Key>, key: Key): seq<Key>
  {
    if kind.PointerGuard? then [key] else guard + [key]
  }

  function Disarmed(kind: GuardKind, guard: seq<Key>): seq<Key>
  {
    if kind.PointerGuard? || guard == [] then [] else guard[..|guard| - 1]
  }

  function GuardStep(kind: GuardKind, guard: seq<Key>, i: Instr): seq<Key>
  {
    match i
    case Arm(k) => Armed(kind, guard, k)
    case Disarm => Disarmed(kind, guard)
    case _ => guard
  }

  /** The keys that may be down after an instruction went through. */
  function DownStep(down: multiset<Key>, i: Instr): multiset<Key>
  {
    match i
    case Press(k) => down + multiset{k}
    case Release(k) => down - multiset{k}
    case _ => down
  }

  /** The keys that may be down after an instruction failed or was cancelled: a press may have
      gone through, a release may not have. */
  function DownAfterFailure(down: multiset<Key>, i: Instr): multiset<Key>
  {
    if i.Press? then down + multiset{i.key} else down
  }

  /** The guard once a whole script has gone through. */
  function GuardAfter(kind: GuardKind, guard: seq<Key>, script: seq<Instr>): seq<Key>
    decreases |script|
  {
    if script == [] then guard else GuardAfter(kind, GuardStep(kind, guard, script[0]), script[1..])
  }

  /** At every point of the rest of the script the guard knows every key that may be down,
      counting repetitions, and at its end the guard is empty. */
  predicate Safe(kind: GuardKind, script: seq<Instr>, guard: seq<Key>, down: multiset<Key>)
    decreases |script|
  {
    && down <= multiset(guard)
    && if script == [] then guard == []
       else Safe(kind, script[1..], GuardStep(kind, guard, script[0]), DownStep(down, script[0]))
  }

  // ----- the actions -----

  function Tap(key: Key): seq<Instr>
  {
    [Arm(key), Press(key), Pause, Release(key), Disarm]
  }

  function Taps(key: Key, count: nat): seq<Instr>
  {
    if count == 0 then [] else Tap(key) + Taps(key, count - 1)
  }

  function ClickScript(at: Spot, button: int, clickCount: nat): seq<Instr>
  {
    [Motion(at)] + Taps(Button(button), if clickCount == 0 then 1 else clickCount)
  }

  function DragScript(start: Spot, end: Spot): seq<Instr>
  {
    var left := Button(BTN_LEFT);
    [Motion(start), Arm(left), Press(left), Pause, Motion(end), Pause, Release(left), Disarm]
  }

  function TextScript(keysyms: seq<int>): seq<Instr>
  {
    if keysyms == [] then [] else Tap(Keysym(keysyms[0])) + [Pause] + TextScript(keysyms[1..])
  }

  function PressAll(modifiers: seq<int>): seq<Instr>
  {
    if modifiers == [] then []
    else [Arm(Keycode(modifiers[0])), Press(Keycode(modifiers[0]))] + PressAll(modifiers[1..])
  }

  /** Releases the modifiers, last one first. */
  function ReleaseAll(modifiers: seq<int>): seq<Instr>
  {
    if modifiers == [] then []
    else ReleaseAll(modifiers[1..]) + [Release(Keycode(modifiers[0])), Disarm]
  }

  function ChordScript(modifiers: seq<int>, keycode: int): seq<Instr>
  {
    PressAll(modifiers) + Tap(Keycode(keycode)) + ReleaseAll(modifiers)
  }

  datatype Action =
    | Click(at: Spot, button: int, clickCount: nat)
    | Drag(start: Spot, end: Spot)
    | TypeText(keysyms: seq<int>)
    | Chord(modifiers: seq<int>, keycode: int)
  {
    function Script(): seq<Instr>
    {
      match this
      case Click(at, button, clickCount) => ClickScript(at, button, clickCount)
      case Drag(start, end) => DragScript(start, end)
      case TypeText(keysyms) => TextScript(keysyms)
      case Chord(modifiers, keycode) => ChordScript(modifiers, keycode)
    }

    function Kind(): GuardKind
    {
      if Click? || Drag? then PointerGuard else KeyboardGuard
    }
  }

  // ----- every action is safe -----

  lemma SafeCons(kind: GuardKind, i: Instr, rest: seq<Instr>, guard: seq<Key>, down: multiset<Key>)
    requires down <= multiset(guard)
    requires Safe(kind, rest, GuardStep(kind, guard, i), DownStep(down, i))
    ensures Safe(kind, [i] + rest, guard, down)
  {
    assert ([i] + rest)[1..] == rest;
  }

  /** The guard of a key on top of others knows one more key. */
  lemma ArmedKeys(kind: GuardKind, guard: seq<Key>, key: Key)
    requires kind.PointerGuard? ==> guard == []
    ensures Armed(kind, guard, key) == guard + [key]
    ensures Disarmed(kind, guard + [key]) == guard
    ensures multiset(guard + [key]) == multiset(guard) + multiset{key}
  {
  }

  /** `[Release(key), Disarm]` leads from a guard with `key` on top to the guard without it. */
  lemma LetGoSafe(kind: GuardKind, key: Key, rest: seq<Instr>, guard: seq<Key>, down: multiset<Key>)
    requires kind.PointerGuard? ==> guard == []
    requires Safe(kind, rest, guard, down) && down <= multiset(guard)
    ensures Safe(kind, [Release(key)] + ([Disarm] + rest), guard + [key], down + multiset{key})
  {
    ArmedKeys(kind, guard, key);
    assert down + multiset{key} - multiset{key} == down;
    SafeCons(kind, Disarm, rest, guard + [key], down);
    SafeCons(kind, Release(key), [Disarm] + rest, guard + [key], down + multiset{key});
  }

  /** `[Arm(key), Press(key)]` leads from a guard to the guard with `key` on top. */
  lemma TakeSafe(kind: GuardKind, key: Key, rest: seq<Instr>, guard: seq<Key>, down: multiset<Key>)
    requires kind.PointerGuard? ==> guard == []
    requires down <= multiset(guard)
    requires Safe(kind, rest, guard + [key], down + multiset{key})
    ensures Safe(kind, [Arm(key)] + ([Press(key)] + rest), guard, down)
  {
    ArmedKeys(kind, guard, key);
    SafeCons(kind, Press(key), rest, guard + [key], down);
    SafeCons(kind, Arm(key), [Press(key)] + rest, guard, down);
  }

  /** A tap may stand in front of a safe script whenever nothing else is armed, and on a keyboard always. */
  lemma TapSafe(kind: GuardKind, key: Key, rest: seq<Instr>, guard: seq<Key>, down: multiset<Key>)
    requires kind.PointerGuard? ==> guard == []
    requires Safe(kind, rest, guard, down) && down <= multiset(guard)
    ensures Safe(kind, Tap(key) + rest, guard, down)
  {
    var release := [Release(key)] + ([Disarm] + rest);
    LetGoSafe(kind, key, rest, guard, down);
    ArmedKeys(kind, guard, key);
    SafeCons(kind, Pause, release, guard + [key], down + multiset{key});
    TakeSafe(kind, key, [Pause] + release, guard, down);
    TapCons(key, rest);
  }

  lemma TapCons(key: Key, rest: seq<Instr>)
    ensures Tap(key) + rest == [Arm(key)] + ([Press(key)] + ([Pause] + ([Release(key)] + ([Disarm] + rest))))
  {
  }

  lemma {:induction false} TapsSafe(key: Key, count: nat)
    ensures Safe(PointerGuard, Taps(key, count), [], multiset{})
  {
    if count > 0 {
      TapsSafe(key, count - 1);
      TapSafe(PointerGuard, key, Taps(key, count - 1), [], multiset{});
    }
  }

  lemma {:induction false} TextSafe(keysyms: seq<int>)
    ensures Safe(KeyboardGuard, TextScript(keysyms), [], multiset{})
  {
    if keysyms != [] {
      var rest := TextScript(keysyms[1..]);
      TextSafe(keysyms[1..]);
      assert ([Pause] + rest)[1..] == rest;
      assert Safe(KeyboardGuard, [Pause] + rest, [], multiset{});
      TapSafe(KeyboardGuard, Keysym(keysyms[0]), [Pause] + rest, [], multiset{});
      assert Tap(Keysym(keysyms[0])) + ([Pause] + rest) == TextScript(keysyms);
    }
  }

  function Codes(modifiers: seq<int>): seq<Key>
  {
    if modifiers == [] then [] else [Keycode(modifiers[0])] + Codes(modifiers[1..])
  }

  lemma CodesCons(guard: seq<Key>, modifiers: seq<int>)
    requires modifiers != []
    ensures (guard + [Keycode(modifiers[0])]) + Codes(modifiers[1..]) == guard + Codes(modifiers)
  {
  }

  lemma ReleaseAllCons(modifiers: seq<int>, rest: seq<Instr>)
    requires modifiers != []
    ensures ReleaseAll(modifiers) + rest ==
            ReleaseAll(modifiers[1..]) + ([Release(Keycode(modifiers[0]))] + ([Disarm] + rest))
  {
  }

  lemma PressAllCons(modifiers: seq<int>, rest: seq<Instr>)
    requires modifiers != []
    ensures PressAll(modifiers) + rest ==
            [Arm(Keycode(modifiers[0]))] + ([Press(Keycode(modifiers[0]))] + (PressAll(modifiers[1..]) + rest))
  {
  }

  /** Releasing in reverse order what is armed on top of `guard` leads back to `guard`. */
  lemma {:induction false} ReleaseAllSafe(modifiers: seq<int>, rest: seq<Instr>, guard: seq<Key>)
    requires Safe(KeyboardGuard, rest, guard, multiset(guard))
    ensures Safe(KeyboardGuard, ReleaseAll(modifiers) + rest,
                 guard + Codes(modifiers), multiset(guard + Codes(modifiers)))
  {
    if modifiers == [] {
      assert ReleaseAll(modifiers) + rest == rest && guard + Codes(modifiers) == guard;
    } else {
      var key := Keycode(modifiers[0]);
      LetGoSafe(KeyboardGuard, key, rest, guard, multiset(guard));
      ArmedKeys(KeyboardGuard, guard, key);
      ReleaseAllSafe(modifiers[1..], [Release(key)] + ([Disarm] + rest), guard + [key]);
      ReleaseAllCons(modifiers, rest);
      CodesCons(guard, modifiers);
    }
  }

  lemma {:induction false} PressAllSafe(modifiers: seq<int>, rest: seq<Instr>, guard: seq<Key>)
    requires Safe(KeyboardGuard, rest, guard + Codes(modifiers), multiset(guard + Codes(modifiers)))
    ensures Safe(KeyboardGuard, PressAll(modifiers) + rest, guard, multiset(guard))
  {
    if modifiers == [] {
      assert PressAll(modifiers) + rest == rest && guard + Codes(modifiers) == guard;
    } else {
      var key := Keycode(modifiers[0]);
      CodesCons(guard, modifiers);
      PressAllSafe(modifiers[1..], rest, guard + [key]);
      ArmedKeys(KeyboardGuard, guard, key);
      TakeSafe(KeyboardGuard, key, PressAll(modifiers[1..]) + rest, guard, multiset(guard));
      PressAllCons(modifiers, rest);
    }
  }

  /** A chord is safe for every list of modifiers, repeated ones included. */
  lemma ChordSafe(modifiers: seq<int>, keycode: int)
    ensures Safe(KeyboardGuard, ChordScript(modifiers, keycode), [], multiset{})
  {
    var armed := Codes(modifiers);
    var release := ReleaseAll(modifiers);
    assert [] + armed == armed;
    assert release + [] == release;
    ReleaseAllSafe(modifiers, [], []);
    TapSafe(KeyboardGuard, Keycode(keycode), release, armed, multiset(armed));
    PressAllSafe(modifiers, Tap(Keycode(keycode)) + release, []);
    assert PressAll(modifiers) + (Tap(Keycode(keycode)) + release) == ChordScript(modifiers, keycode);
  }

  lemma DragSafe(start: Spot, end: Spot)
    ensures Safe(PointerGuard, DragScript(start, end), [], multiset{})
  {
    var left := Button(BTN_LEFT);
    var one := multiset{left};
    assert one - one == multiset{} && multiset{} + one == one;
    var s1 := [Release(left)] + [Disarm];
    var s2 := [Pause] + ([Motion(end)] + ([Pause] + s1));
    SafeCons(PointerGuard, Disarm, [], [left], multiset{});
    assert [Disarm] + [] == [Disarm];
    SafeCons(PointerGuard, Release(left), [Disarm], [left], one);
    SafeCons(PointerGuard, Pause, s1, [left], one);
    SafeCons(PointerGuard, Motion(end), [Pause] + s1, [left], one);
    SafeCons(PointerGuard, Pause, [Motion(end)] + ([Pause] + s1), [left], one);
    SafeCons(PointerGuard, Press(left), s2, [left], multiset{});
    SafeCons(PointerGuard, Arm(left), [Press(left)] + s2, [], multiset{});
    SafeCons(PointerGuard, Motion(start), [Arm(left)] + ([Press(left)] + s2), [], multiset{});
    DragCons(start, end);
  }

  lemma DragCons(start: Spot, end: Spot)
    ensures var left := Button(BTN_LEFT);
            DragScript(start, end) ==
            [Motion(start)] + ([Arm(left)] + ([Press(left)] + ([Pause] + ([Motion(end)] + ([Pause] + ([Release(left)] + [Disarm]))))))
  {
  }

  /** Every click, drag, text and chord keeps the guard ahead of the keys that may be down. */
  lemma ActionSafe(action: Action)
    ensures Safe(action.Kind(), action.Script(), [], multiset{})
  {
    match action
    case Click(at, button, clickCount) =>
      var taps := Taps(Button(button), if clickCount == 0 then 1 else clickCount);
      TapsSafe(Button(button), if clickCount == 0 then 1 else clickCount);
      assert ClickScript(at, button, clickCount)[1..] == taps;
    case Drag(start, end) => DragSafe(start, end);
    case TypeText(keysyms) => TextSafe(keysyms);
    case Chord(modifiers, keycode) => ChordSafe(modifiers, keycode);
  }

  // ----- what the user sees -----

  /** What the compositor is told: where the pointer goes and what goes down and up. */
  datatype Stroke = Moved(to: Spot) | Down(key: Key) | Up(key: Key)

  function Strokes(trace: seq<Instr>): seq<Stroke>
  {
    if trace == [] then []
    else
      var rest := Strokes(trace[1..]);
      match trace[0]
      case Motion(to) => [Moved(to)] + rest
      case Press(key) => [Down(key)] + rest
      case Release(key) => [Up(key)] + rest
      case _ => rest
  }

  lemma {:induction false} StrokesConcat(a: seq<Instr>, b: seq<Instr>)
    ensures Strokes(a + b) == Strokes(a) + Strokes(b)
  {
    if a == [] {
      assert a + b == b;
    } else {
      assert (a + b)[1..] == a[1..] + b;
      StrokesConcat(a[1..], b);
    }
  }

  lemma StrokesPair(i: Instr, j: Instr, rest: seq<Instr>)
    ensures Strokes([i, j] + rest) == Strokes([i]) + Strokes([j]) + Strokes(rest)
  {
    assert [i, j] + rest == [i] + ([j] + rest);
    StrokesConcat([i], [j] + rest);
    StrokesConcat([j], rest);
  }

  lemma StrokesTap(key: Key)
    ensures Strokes(Tap(key)) == [Down(key), Up(key)]
  {
    StrokesPair(Arm(key), Press(key), [Pause, Release(key), Disarm]);
    StrokesPair(Pause, Release(key), [Disarm]);
  }

  /** `n` presses of `key`, each released before the next. */
  predicate AreTaps(strokes: seq<Stroke>, key: Key, n: nat)
  {
    && |strokes| == 2 * n
    && forall i | 0 <= i < n :: strokes[2 * i] == Down(key) && strokes[2 * i + 1] == Up(key)
  }

  lemma {:induction false} TapsTap(key: Key, count: nat)
    ensures AreTaps(Strokes(Taps(key, count)), key, count)
  {
    if count > 0 {
      var rest := Strokes(Taps(key, count - 1));
      TapsTap(key, count - 1);
      StrokesConcat(Tap(key), Taps(key, count - 1));
      StrokesTap(key);
      var all := [Down(key), Up(key)] + rest;
      forall i | 0 <= i < count ensures all[2 * i] == Down(key) && all[2 * i + 1] == Up(key) {
        assert i > 0 ==> rest[2 * (i - 1)] == Down(key) && rest[2 * (i - 1) + 1] == Up(key);
      }
    }
  }

  /** A click moves to its spot and then presses and releases its button as often as asked, at least once. */
  lemma ClickClicks(at: Spot, button: int, clickCount: nat)
    ensures var strokes := Strokes(ClickScript(at, button, clickCount));
            && strokes != [] && strokes[0] == Moved(at)
            && AreTaps(strokes[1..], Button(button), if clickCount == 0 then 1 else clickCount)
  {
    var taps := Taps(Button(button), if clickCount == 0 then 1 else clickCount);
    StrokesConcat([Motion(at)], taps);
    TapsTap(Button(button), if clickCount == 0 then 1 else clickCount);
    assert Strokes([Motion(at)]) == [Moved(at)];
    assert ([Moved(at)] + Strokes(taps))[1..] == Strokes(taps);
  }

  /** A drag presses the left button at its start and releases it at its end. */
  lemma DragDrags(start: Spot, end: Spot)
    ensures Strokes(DragScript(start, end)) == [Moved(start), Down(Button(0x110)), Moved(end), Up(Button(0x110))]
  {
    var left := Button(BTN_LEFT);
    var tail := [Pause, Release(left), Disarm];
    StrokesPair(Motion(start), Arm(left), [Press(left), Pause] + ([Motion(end)] + tail));
    StrokesPair(Press(left), Pause, [Motion(end)] + tail);
    StrokesConcat([Motion(end)], tail);
    StrokesPair(Pause, Release(left), [Disarm]);
    assert tail == [Pause, Release(left)] + [Disarm];
    assert DragScript(start, end) == [Motion(start), Arm(left)] + ([Press(left), Pause] + ([Motion(end)] + tail));
  }

  /** The keysyms in order, each pressed and released before the next. */
  predicate TypesKeysyms(strokes: seq<Stroke>, keysyms: seq<int>)
  {
    && |strokes| == 2 * |keysyms|
    && forall i | 0 <= i < |keysyms| ::
         strokes[2 * i] == Down(Keysym(keysyms[i])) && strokes[2 * i + 1] == Up(Keysym(keysyms[i]))
  }

  lemma {:induction false} TextTypes(keysyms: seq<int>)
    ensures TypesKeysyms(Strokes(TextScript(keysyms)), keysyms)
  {
    if keysyms != [] {
      var (key, rest) := (Keysym(keysyms[0]), keysyms[1..]);
      TextTypes(rest);
      StrokesConcat(Tap(key) + [Pause], TextScript(rest));
      StrokesConcat(Tap(key), [Pause]);
      StrokesTap(key);
      var (typed, all) := (Strokes(TextScript(rest)), [Down(key), Up(key)] + Strokes(TextScript(rest)));
      forall i | 0 <= i < |keysyms| ensures all[2 * i] == Down(Keysym(keysyms[i])) && all[2 * i + 1] == Up(Keysym(keysyms[i])) {
        assert i > 0 ==> typed[2 * (i - 1)] == Down(Keysym(rest[i - 1])) && typed[2 * (i - 1) + 1] == Up(Keysym(rest[i - 1]));
      }
    }
  }

  /** The modifiers go down in order, the key goes down and up, and the modifiers go up in reverse. */
  predicate PlaysChord(strokes: seq<Stroke>, modifiers: seq<int>, keycode: int)
  {
    var n := |modifiers|;
    && |strokes| == 2 * n + 2
    && (forall i | 0 <= i < n :: strokes[i] == Down(Keycode(modifiers[i])))
    && strokes[n] == Down(Keycode(keycode)) && strokes[n + 1] == Up(Keycode(keycode))
    && (forall i | 0 <= i < n :: strokes[2 * n + 1 - i] == Up(Keycode(modifiers[i])))
  }

  lemma {:induction false} PressAllPresses(modifiers: seq<int>)
    ensures |Strokes(PressAll(modifiers))| == |modifiers|
    ensures forall i | 0 <= i < |modifiers| :: Strokes(PressAll(modifiers))[i] == Down(Keycode(modifiers[i]))
  {
    if modifiers != [] {
      var key := Keycode(modifiers[0]);
      PressAllPresses(modifiers[1..]);
      StrokesPair(Arm(key), Press(key), PressAll(modifiers[1..]));
    }
  }

  lemma {:induction false} ReleaseAllReleases(modifiers: seq<int>)
    ensures |Strokes(ReleaseAll(modifiers))| == |modifiers|
    ensures forall i | 0 <= i < |modifiers| ::
              Strokes(ReleaseAll(modifiers))[|modifiers| - 1 - i] == Up(Keycode(modifiers[i]))
  {
    if modifiers != [] {
      var (key, rest) := (Keycode(modifiers[0]), modifiers[1..]);
      ReleaseAllReleases(rest);
      StrokesConcat(ReleaseAll(rest), [Release(key), Disarm]);
      StrokesPair(Release(key), Disarm, []);
      assert [Release(key), Disarm] + [] == [Release(key), Disarm];
    }
  }

  lemma ChordPlays(modifiers: seq<int>, keycode: int)
    ensures PlaysChord(Strokes(ChordScript(modifiers, keycode)), modifiers, keycode)
  {
    StrokesConcat(PressAll(modifiers) + Tap(Keycode(keycode)), ReleaseAll(modifiers));
    StrokesConcat(PressAll(modifiers), Tap(Keycode(keycode)));
    PressAllPresses(modifiers);
    StrokesTap(Keycode(keycode));
    ReleaseAllReleases(modifiers);
  }
}
