/**
 Key strings such as "Ctrl+Shift+P" for three keyboard backends: evdev key codes, a list of press
 and release events, and the key names of xdotool.
 */
module KeyChords {
  import opened Prelude
  import Text
  import InputScripts

  datatype Chord = Chord(modifiers: seq<int>, key: int)

  function Lower(c: char): (r: char)
    ensures if 'A' <= c <= 'Z' then 'a' <= r <= 'z' && r as int - 'a' as int == c as int - 'A' as int else r == c
  {
    if 'A' <= c <= 'Z' then (c as int + 32) as char else c
  }

  /** Lower case, without dashes and blanks. */
  function Folded(s: string): string {
    if s == [] then []
    else if s[0] == '-' || s[0] == ' ' then Folded(s[1..])
    else [Lower(s[0])] + Folded(s[1..])
  }

  /** Folding works on each character by itself. */
  lemma {:induction false} FoldedConcat(a: string, b: string)
    ensures Folded(a + b) == Folded(a) + Folded(b)
  {
    if a == [] {
      assert a + b == b;
    } else {
      assert (a + b)[1..] == a[1..] + b;
      FoldedConcat(a[1..], b);
    }
  }

  lemma FoldedChar(c: char)
    ensures Folded([c]) == if c == '-' || c == ' ' then [] else [Lower(c)]
  {
    assert Folded([c][1..]) == [];
  }

  function NormalizeKey(key: string): string {
    Folded(Text.Trim(key))
  }

  function TrimmedParts(pieces: seq<string>): (r: seq<string>)
    ensures |r| <= |pieces|
  {
    if pieces == [] then []
    else
      var rest := TrimmedParts(pieces[1..]);
      if Text.Trim(pieces[0]) == [] then rest else [Text.Trim(pieces[0])] + rest
  }

  /** The non-empty parts between plus signs. */
  function Parts(key: string): seq<string> {
    TrimmedParts(Text.Split(key, '+'))
  }

  lemma {:induction false} TrimmedPartsConcat(a: seq<string>, b: seq<string>)
    ensures TrimmedParts(a + b) == TrimmedParts(a) + TrimmedParts(b)
  {
    if a == [] {
      assert a + b == b;
    } else {
      assert (a + b)[1..] == a[1..] + b;
      TrimmedPartsConcat(a[1..], b);
    }
  }

  /** A plus sign separates: the parts of both sides, in order. */
  lemma PartsAtPlus(a: string, b: string)
    ensures Parts(a + "+" + b) == Parts(a) + Parts(b)
  {
    Text.SplitAtSeparator(a, b, '+');
    TrimmedPartsConcat(Text.Split(a, '+'), Text.Split(b, '+'));
  }

  /** Without a plus sign the trimmed string is the only part, and a blank string has none. */
  lemma PartsWithoutPlus(a: string)
    requires '+' !in a
    ensures Parts(a) == if Text.IsBlank(a) then [] else [Text.Trim(a)]
  {
    Text.SplitWhole(a, '+');
    Text.TrimIsEmpty(a);
    assert TrimmedParts([a][1..]) == [];
  }

  // ----- evdev key codes -----

  function ModifierCode(key: string): Option<int> {
    var k := NormalizeKey(key);
    if k == "ctrl" || k == "control" then Some(29)
    else if k == "alt" || k == "option" then Some(56)
    else if k == "shift" then Some(42)
    else if k == "meta" || k == "super" || k == "cmd" || k == "command" then Some(125)
    else None
  }

  function AsciiCode(c: char): Option<int> {
    match c
    case 'a' => Some(30) case 'b' => Some(48) case 'c' => Some(46) case 'd' => Some(32)
    case 'e' => Some(18) case 'f' => Some(33) case 'g' => Some(34) case 'h' => Some(35)
    case 'i' => Some(23) case 'j' => Some(36) case 'k' => Some(37) case 'l' => Some(38)
    case 'm' => Some(50) case 'n' => Some(49) case 'o' => Some(24) case 'p' => Some(25)
    case 'q' => Some(16) case 'r' => Some(19) case 's' => Some(31) case 't' => Some(20)
    case 'u' => Some(22) case 'v' => Some(47) case 'w' => Some(17) case 'x' => Some(45)
    case 'y' => Some(21) case 'z' => Some(44)
    case '1' => Some(2) case '2' => Some(3) case '3' => Some(4) case '4' => Some(5) case '5' => Some(6)
    case '6' => Some(7) case '7' => Some(8) case '8' => Some(9) case '9' => Some(10) case '0' => Some(11)
    case _ => None
  }

  function NamedCode(k: string): Option<int> {
    if k == "enter" || k == "return" then Some(28)
    else if k == "escape" || k == "esc" then Some(1)
    else if k == "tab" then Some(15)
    else if k == "backspace" then Some(14)
    else if k == "delete" || k == "del" then Some(111)
    else if k == "space" then Some(57)
    else if k == "home" then Some(102)
    else if k == "end" then Some(107)
    else if k == "pageup" || k == "page_up" then Some(104)
    else if k == "pagedown" || k == "page_down" then Some(109)
    else if k == "arrowleft" || k == "left" then Some(105)
    else if k == "arrowright" || k == "right" then Some(106)
    else if k == "arrowup" || k == "up" then Some(103)
    else if k == "arrowdown" || k == "down" then Some(108)
    else if k == "f1" then Some(59)
    else if k == "f2" then Some(60)
    else if k == "f3" then Some(61)
    else if k == "f4" then Some(62)
    else if k == "f5" then Some(63)
    else if k == "f6" then Some(64)
    else if k == "f7" then Some(65)
    else if k == "f8" then Some(66)
    else if k == "f9" then Some(67)
    else if k == "f10" then Some(68)
    else if k == "f11" then Some(87)
    else if k == "f12" then Some(88)
    else None
  }

  function KeyCode(key: string): Option<int> {
    var k := NormalizeKey(key);
    if NamedCode(k).Some? then NamedCode(k)
    else if |k| == 1 && k[0] < '\U{80}' then AsciiCode(k[0])
    else None
  }

  // ----- xdotool names -----

  function XdotoolModifierName(key: string): Option<string> {
    var k := NormalizeKey(key);
    if k == "ctrl" || k == "control" then Some("ctrl")
    else if k == "alt" || k == "option" then Some("alt")
    else if k == "shift" then Some("shift")
    else if k == "meta" || k == "super" || k == "cmd" || k == "command" then Some("super")
    else None
  }

  function XdotoolNamed(k: string): Option<string> {
    if k == "enter" || k == "return" then Some("Return")
    else if k == "escape" || k == "esc" then Some("Escape")
    else if k == "tab" then Some("Tab")
    else if k == "backspace" then Some("BackSpace")
    else if k == "delete" || k == "del" then Some("Delete")
    else if k == "space" then Some("space")
    else if k == "home" then Some("Home")
    else if k == "end" then Some("End")
    else if k == "pageup" || k == "page_up" then Some("Page_Up")
    else if k == "pagedown" || k == "page_down" then Some("Page_Down")
    else if k == "arrowleft" || k == "left" then Some("Left")
    else if k == "arrowright" || k == "right" then Some("Right")
    else if k == "arrowup" || k == "up" then Some("Up")
    else if k == "arrowdown" || k == "down" then Some("Down")
    else if k == "f1" then Some("F1")
    else if k == "f2" then Some("F2")
    else if k == "f3" then Some("F3")
    else if k == "f4" then Some("F4")
    else if k == "f5" then Some("F5")
    else if k == "f6" then Some("F6")
    else if k == "f7" then Some("F7")
    else if k == "f8" then Some("F8")
    else if k == "f9" then Some("F9")
    else if k == "f10" then Some("F10")
    else if k == "f11" then Some("F11")
    else if k == "f12" then Some("F12")
    else None
  }

  predicate IsAsciiAlphanumeric(c: char) {
    'a' <= c <= 'z' || 'A' <= c <= 'Z' || '0' <= c <= '9'
  }

  function XdotoolKeysymName(key: string): Option<string> {
    var k := NormalizeKey(key);
    if XdotoolNamed(k).Some? then XdotoolNamed(k)
    else if |k| == 1 && IsAsciiAlphanumeric(k[0]) then Some(k)
    else None
  }

  // ----- chords -----

  /** The codes of all parts, if all of them are modifiers. */
  function ModifierCodes(parts: seq<string>): (r: Option<seq<int>>)
    ensures r.Some? ==> |r.value| == |parts|
  {
    if parts == [] then Some([])
    else
      var before := ModifierCodes(parts[..|parts| - 1]);
      var last := ModifierCode(parts[|parts| - 1]);
      if before.None? || last.None? then None else Some(before.value + [last.value])
  }

  function ChordOf(key: string): Option<Chord> {
    ChordOfParts(Parts(key))
  }

  function ChordOfParts(parts: seq<string>): Option<Chord> {
    if parts == [] then None
    else
      var (last, before) := (parts[|parts| - 1], parts[..|parts| - 1]);
      if before == [] && ModifierCode(last).Some? then Some(Chord([], ModifierCode(last).value))
      else
        var modifiers := ModifierCodes(before);
        if modifiers.None? || KeyCode(last).None? then None else Some(Chord(modifiers.value, KeyCode(last).value))
  }

  lemma {:induction false} NoModifierNoCodes(parts: seq<string>, i: nat)
    requires i < |parts| && ModifierCode(parts[i]).None?
    ensures ModifierCodes(parts).None?
  {
    if i < |parts| - 1 {
      NoModifierNoCodes(parts[..|parts| - 1], i);
    }
  }

  method CollectModifierCodes(parts: seq<string>) returns (codes: Option<seq<int>>)
    ensures codes == ModifierCodes(parts)
  {
    var list: seq<int> := [];
    for i := 0 to |parts|
      invariant ModifierCodes(parts[..i]) == Some(list)
    {
      assert parts[..i + 1][..i] == parts[..i];
      var modifier := ModifierCode(parts[i]);
      if modifier.None? {
        NoModifierNoCodes(parts, i);
        return None;
      }
      list := list + [modifier.value];
    }
    assert parts[..|parts|] == parts;
    codes := Some(list);
  }

  /** The chord of parts: all but the last are modifiers, in order, and the last is the key, which may be
      a modifier when it stands alone. */
  predicate IsChordOf(chord: Chord, parts: seq<string>) {
    && |parts| == |chord.modifiers| + 1
    && (forall i | 0 <= i < |chord.modifiers| :: ModifierCode(parts[i]) == Some(chord.modifiers[i]))
    && var last := parts[|parts| - 1];
       if |parts| == 1 && ModifierCode(last).Some? then ModifierCode(last) == Some(chord.key)
       else KeyCode(last) == Some(chord.key)
  }

  lemma {:induction false} CodesOfParts(parts: seq<string>, codes: seq<int>)
    ensures ModifierCodes(parts) == Some(codes) <==>
              |parts| == |codes| && forall i | 0 <= i < |codes| :: ModifierCode(parts[i]) == Some(codes[i])
  {
    if parts != [] && |parts| == |codes| {
      var n := |parts| - 1;
      CodesOfParts(parts[..n], codes[..n]);
      assert codes == codes[..n] + [codes[n]];
      assert forall i | 0 <= i < n :: parts[..n][i] == parts[i] && codes[..n][i] == codes[i];
    }
  }

  /** Parts have a chord exactly when they make one up, and then that chord only. */
  lemma ChordMeans(parts: seq<string>, chord: Chord)
    ensures ChordOfParts(parts) == Some(chord) <==> IsChordOf(chord, parts)
  {
    if |parts| == 1 {
      assert |chord.modifiers| == 0 ==> chord.modifiers == [];
      assert ModifierCodes([]) == Some([]) && parts[..0] == [];
    } else if parts != [] {
      LongChordMeans(parts, chord);
    }
  }

  lemma LongChordMeans(parts: seq<string>, chord: Chord)
    requires |parts| > 1
    ensures ChordOfParts(parts) == Some(chord) <==> IsChordOf(chord, parts)
  {
    var (last, before) := (parts[|parts| - 1], parts[..|parts| - 1]);
    CodesOfParts(before, chord.modifiers);
    assert before != [] && forall i | 0 <= i < |before| :: before[i] == parts[i];
    assert ChordOfParts(parts) == Some(chord) <==>
           ModifierCodes(before) == Some(chord.modifiers) && KeyCode(last) == Some(chord.key);
  }

  method KeyChord(key: string) returns (chord: Option<Chord>)
    ensures chord == ChordOf(key)
    ensures chord.Some? ==> IsChordOf(chord.value, Parts(key))
    ensures chord.None? ==> forall c :: !IsChordOf(c, Parts(key))
  {
    forall c ensures ChordOf(key) == Some(c) <==> IsChordOf(c, Parts(key)) {
      ChordMeans(Parts(key), c);
    }
    var parts := Parts(key);
    if parts == [] {
      return None;
    }
    var (last, before) := (parts[|parts| - 1], parts[..|parts| - 1]);
    if before == [] {
      var modifier := ModifierCode(last);
      if modifier.Some? {
        return Some(Chord([], modifier.value));
      }
    }
    var modifiers := CollectModifierCodes(before);
    if modifiers.None? {
      return None;
    }
    var code := KeyCode(last);
    chord := if code.None? then None else Some(Chord(modifiers.value, code.value));
  }

  // ----- press and release events -----

  datatype KeyEvent = KeyEvent(code: int, pressed: bool)

  function Presses(modifiers: seq<int>): seq<KeyEvent> {
    seq(|modifiers|, i requires 0 <= i < |modifiers| => KeyEvent(modifiers[i], true))
  }

  /** The releases of the modifiers, last one first. */
  function Releases(modifiers: seq<int>): seq<KeyEvent> {
    seq(|modifiers|, i requires 0 <= i < |modifiers| => KeyEvent(modifiers[|modifiers| - 1 - i], false))
  }

  function EventsOf(chord: Chord): seq<KeyEvent> {
    Presses(chord.modifiers) + [KeyEvent(chord.key, true), KeyEvent(chord.key, false)] + Releases(chord.modifiers)
  }

  /** The modifiers are pressed in order, the key is pressed and released, and the modifiers are released in reverse. */
  predicate PlayChord(events: seq<KeyEvent>, chord: Chord) {
    var n := |chord.modifiers|;
    && |events| == 2 * n + 2
    && (forall i | 0 <= i < n ::
          var code := chord.modifiers[i];
          events[i] == KeyEvent(code, true) && events[2 * n + 1 - i] == KeyEvent(code, false))
    && events[n] == KeyEvent(chord.key, true) && events[n + 1] == KeyEvent(chord.key, false)
  }

  lemma EventsPlayChord(chord: Chord)
    ensures PlayChord(EventsOf(chord), chord)
  {
    var (m, n) := (chord.modifiers, |chord.modifiers|);
    forall i | 0 <= i < n ensures Releases(m)[n - 1 - i] == KeyEvent(m[i], false) {
    }
  }

  method ReleaseInReverse(pressed: seq<KeyEvent>, modifiers: seq<int>) returns (list: seq<KeyEvent>)
    ensures list == pressed + Releases(modifiers)
  {
    list := pressed;
    for i := |modifiers| downto 0
      invariant list == pressed + Releases(modifiers)[..|modifiers| - i]
    {
      list := list + [KeyEvent(modifiers[i], false)];
    }
  }

  method PlayInOrder(modifiers: seq<int>, code: int) returns (list: seq<KeyEvent>)
    ensures list == EventsOf(Chord(modifiers, code))
  {
    list := [];
    for i := 0 to |modifiers|
      invariant list == Presses(modifiers[..i])
    {
      list := list + [KeyEvent(modifiers[i], true)];
    }
    assert modifiers[..|modifiers|] == modifiers;
    list := list + [KeyEvent(code, true)] + [KeyEvent(code, false)];
    list := ReleaseInReverse(list, modifiers);
  }

  method KeySequence(key: string) returns (events: Option<seq<KeyEvent>>)
    ensures events.Some? <==> ChordOf(key).Some?
    ensures events.Some? ==> events.value == EventsOf(ChordOf(key).value) && PlayChord(events.value, ChordOf(key).value)
  {
    var chord := KeyChord(key);
    if chord.None? {
      return None;
    }
    var list := PlayInOrder(chord.value.modifiers, chord.value.key);
    EventsPlayChord(chord.value);
    events := Some(list);
  }

  /** What is held after the events, newest last; none when a release does not match the newest press. */
  function Held(events: seq<KeyEvent>, stack: seq<int>): Option<seq<int>>
    decreases |events|
  {
    if events == [] then Some(stack)
    else if events[0].pressed then Held(events[1..], stack + [events[0].code])
    else if stack == [] || stack[|stack| - 1] != events[0].code then None
    else Held(events[1..], stack[..|stack| - 1])
  }

  lemma {:induction false} HeldConcat(a: seq<KeyEvent>, b: seq<KeyEvent>, stack: seq<int>)
    requires Held(a, stack).Some?
    ensures Held(a + b, stack) == Held(b, Held(a, stack).value)
    decreases |a|
  {
    if a == [] {
      assert a + b == b;
    } else {
      assert (a + b)[1..] == a[1..] + b;
      HeldConcat(a[1..], b, if a[0].pressed then stack + [a[0].code] else stack[..|stack| - 1]);
    }
  }

  lemma {:induction false} PressesHold(modifiers: seq<int>, stack: seq<int>)
    ensures Held(Presses(modifiers), stack) == Some(stack + modifiers)
    decreases |modifiers|
  {
    if modifiers == [] {
      assert stack + modifiers == stack;
    } else {
      assert Presses(modifiers)[1..] == Presses(modifiers[1..]);
      PressesHold(modifiers[1..], stack + [modifiers[0]]);
      assert (stack + [modifiers[0]]) + modifiers[1..] == stack + modifiers;
    }
  }

  lemma {:induction false} ReleasesLetGo(modifiers: seq<int>, stack: seq<int>)
    ensures Held(Releases(modifiers), stack + modifiers) == Some(stack)
    decreases |modifiers|
  {
    if modifiers == [] {
      assert stack + modifiers == stack;
    } else {
      var rest := modifiers[..|modifiers| - 1];
      assert Releases(modifiers)[1..] == Releases(rest);
      assert (stack + modifiers)[..|stack + modifiers| - 1] == stack + rest;
      ReleasesLetGo(rest, stack);
    }
  }

  lemma TapHoldsNothing(code: int, rest: seq<KeyEvent>, stack: seq<int>)
    ensures Held([KeyEvent(code, true), KeyEvent(code, false)] + rest, stack) == Held(rest, stack)
  {
    var release := [KeyEvent(code, false)] + rest;
    assert ([KeyEvent(code, true), KeyEvent(code, false)] + rest)[1..] == release;
    assert release[1..] == rest;
    assert (stack + [code])[..|stack|] == stack;
  }

  /** The events of every chord are well nested and leave nothing pressed, repeated modifiers included. */
  lemma EventsAreWellNested(chord: Chord)
    ensures Held(EventsOf(chord), []) == Some([])
  {
    var m := chord.modifiers;
    var tap := [KeyEvent(chord.key, true), KeyEvent(chord.key, false)];
    PressesHold(m, []);
    assert [] + m == m;
    HeldConcat(Presses(m), tap + Releases(m), []);
    assert Presses(m) + (tap + Releases(m)) == EventsOf(chord);
    TapHoldsNothing(chord.key, Releases(m), m);
    ReleasesLetGo(m, []);
  }

  /** The presses and releases among the instructions of a portal script. */
  function Sent(script: seq<InputScripts.Instr>): seq<KeyEvent> {
    if script == [] then []
    else
      var rest := Sent(script[1..]);
      match script[0]
      case Press(Keycode(code)) => [KeyEvent(code, true)] + rest
      case Release(Keycode(code)) => [KeyEvent(code, false)] + rest
      case _ => rest
  }

  lemma {:induction false} SentConcat(a: seq<InputScripts.Instr>, b: seq<InputScripts.Instr>)
    ensures Sent(a + b) == Sent(a) + Sent(b)
  {
    if a == [] {
      assert a + b == b;
    } else {
      assert (a + b)[1..] == a[1..] + b;
      SentConcat(a[1..], b);
    }
  }

  lemma SentCons(i: InputScripts.Instr, rest: seq<InputScripts.Instr>)
    ensures Sent([i] + rest) == Sent([i]) + Sent(rest)
  {
    SentConcat([i], rest);
  }

  lemma {:induction false} SentPressAll(modifiers: seq<int>)
    ensures Sent(InputScripts.PressAll(modifiers)) == Presses(modifiers)
  {
    if modifiers != [] {
      var key := InputScripts.Keycode(modifiers[0]);
      var rest := InputScripts.PressAll(modifiers[1..]);
      SentPressAll(modifiers[1..]);
      SentPair(InputScripts.Arm(key), InputScripts.Press(key), rest);
      assert Presses(modifiers) == [KeyEvent(modifiers[0], true)] + Presses(modifiers[1..]);
    }
  }

  lemma SentPair(i: InputScripts.Instr, j: InputScripts.Instr, rest: seq<InputScripts.Instr>)
    ensures Sent([i, j] + rest) == Sent([i]) + Sent([j]) + Sent(rest)
  {
    assert [i, j] + rest == [i] + ([j] + rest);
    SentCons(i, [j] + rest);
    SentCons(j, rest);
  }

  lemma {:induction false} SentReleaseAll(modifiers: seq<int>)
    ensures Sent(InputScripts.ReleaseAll(modifiers)) == Releases(modifiers)
  {
    if modifiers != [] {
      var key := InputScripts.Keycode(modifiers[0]);
      SentReleaseAll(modifiers[1..]);
      SentConcat(InputScripts.ReleaseAll(modifiers[1..]), [InputScripts.Release(key), InputScripts.Disarm]);
      SentPair(InputScripts.Release(key), InputScripts.Disarm, []);
      assert [InputScripts.Release(key), InputScripts.Disarm] + [] == [InputScripts.Release(key), InputScripts.Disarm];
      assert Releases(modifiers) == Releases(modifiers[1..]) + [KeyEvent(modifiers[0], false)];
    }
  }

  lemma SentTap(code: int)
    ensures Sent(InputScripts.Tap(InputScripts.Keycode(code))) == [KeyEvent(code, true), KeyEvent(code, false)]
  {
    var key := InputScripts.Keycode(code);
    SentPair(InputScripts.Arm(key), InputScripts.Press(key), [InputScripts.Pause, InputScripts.Release(key), InputScripts.Disarm]);
    SentPair(InputScripts.Pause, InputScripts.Release(key), [InputScripts.Disarm]);
  }

  /** The event list names exactly the presses and releases the portal chord sends, in order. */
  lemma PortalSendsTheSameEvents(chord: Chord)
    ensures Sent(InputScripts.ChordScript(chord.modifiers, chord.key)) == EventsOf(chord)
  {
    var press := InputScripts.PressAll(chord.modifiers);
    var tap := InputScripts.Tap(InputScripts.Keycode(chord.key));
    SentConcat(press + tap, InputScripts.ReleaseAll(chord.modifiers));
    SentConcat(press, tap);
    SentPressAll(chord.modifiers);
    SentTap(chord.key);
    SentReleaseAll(chord.modifiers);
  }
}
