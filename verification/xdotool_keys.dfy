/**
 The key strings of the xdotool backend: which ones it accepts, and that what it types is the chord
 the other backends type, read off against the X names of the evdev keys.
 */
module XdotoolKeys {
  import opened Prelude
  import opened KeyChords
  import Text

  // ----- the fallback -----

  function ModifierNames(parts: seq<string>): Option<seq<string>> {
    if parts == [] then Some([])
    else
      var before := ModifierNames(parts[..|parts| - 1]);
      var last := XdotoolModifierName(parts[|parts| - 1]);
      if before.None? || last.None? then None else Some(before.value + [last.value])
  }

  /** The names that make up the specification of a key string. */
  function SpecNames(key: string): Option<seq<string>> {
    var parts := Parts(key);
    if parts == [] || ChordOf(key).None? then None
    else
      var (last, before) := (parts[|parts| - 1], parts[..|parts| - 1]);
      var names := ModifierNames(before);
      if names.None? then None
      else if before == [] && XdotoolModifierName(last).Some? then Some([XdotoolModifierName(last).value])
      else if XdotoolKeysymName(last).None? then None
      else Some(names.value + [XdotoolKeysymName(last).value])
  }

  lemma {:induction false} NoModifierNoNames(parts: seq<string>, i: nat)
    requires i < |parts| && XdotoolModifierName(parts[i]).None?
    ensures ModifierNames(parts).None?
  {
    if i < |parts| - 1 {
      NoModifierNoNames(parts[..|parts| - 1], i);
    }
  }

  method CollectModifierNames(parts: seq<string>) returns (names: Option<seq<string>>)
    ensures names == ModifierNames(parts)
  {
    var list: seq<string> := [];
    for i := 0 to |parts|
      invariant ModifierNames(parts[..i]) == Some(list)
    {
      assert parts[..i + 1][..i] == parts[..i];
      var name := XdotoolModifierName(parts[i]);
      if name.None? {
        NoModifierNoNames(parts, i);
        return None;
      }
      list := list + [name.value];
    }
    assert parts[..|parts|] == parts;
    names := Some(list);
  }

  method XdotoolKeySpec(key: string) returns (spec: Option<string>)
    ensures spec.Some? <==> SpecNames(key).Some?
    ensures spec.Some? ==> spec.value == Text.Join(SpecNames(key).value, '+')
  {
    var parts := Parts(key);
    if parts == [] {
      return None;
    }
    var (last, before) := (parts[|parts| - 1], parts[..|parts| - 1]);
    var chord := KeyChord(key);
    if chord.None? {
      return None;
    }
    var names := CollectModifierNames(before);
    if names.None? {
      return None;
    }
    if before == [] {
      var bare := XdotoolModifierName(last);
      if bare.Some? {
        return bare;
      }
    }
    var name := XdotoolKeysymName(last);
    if name.None? {
      return None;
    }
    spec := Some(Text.Join(names.value + [name.value], '+'));
  }

  // ----- what the names mean -----

  /** The X modifier that xdotool calls `name` is the evdev key `code`. */
  predicate IsModifier(name: string, code: int) {
    || (name == "ctrl" && code == 29) || (name == "alt" && code == 56)
    || (name == "shift" && code == 42) || (name == "super" && code == 125)
  }

  /** The keys of one row of the keyboard have consecutive codes. */
  predicate IsOnRow(c: char, code: int, row: string, first: int) {
    first <= code < first + |row| && row[code - first] == c
  }

  /** The letters and digits by the rows of the keyboard. */
  predicate IsCharacterKey(c: char, code: int) {
    || IsOnRow(c, code, "1234567890", 2) || IsOnRow(c, code, "qwertyuiop", 16)
    || IsOnRow(c, code, "asdfghjkl", 30) || IsOnRow(c, code, "zxcvbnm", 44)
  }

  /** The codes of letters and digits are those of their places on the keyboard, and nothing else has one. */
  lemma AsciiCodesFollowRows(c: char, code: int)
    ensures AsciiCode(c) == Some(code) <==> IsCharacterKey(c, code)
  {
  }

  /** The X keysym `name` is typed by the evdev key `code`. */
  predicate IsKeysym(name: string, code: int) {
    IsNamedKeysym(name, code) || (|name| == 1 && IsCharacterKey(name[0], code))
  }

  predicate IsNamedKeysym(name: string, code: int) {
    || (name == "Return" && code == 28) || (name == "Escape" && code == 1) || (name == "Tab" && code == 15)
    || (name == "BackSpace" && code == 14) || (name == "Delete" && code == 111) || (name == "space" && code == 57)
    || (name == "Home" && code == 102) || (name == "End" && code == 107)
    || (name == "Page_Up" && code == 104) || (name == "Page_Down" && code == 109)
    || (name == "Left" && code == 105) || (name == "Right" && code == 106)
    || (name == "Up" && code == 103) || (name == "Down" && code == 108)
    || (name == "F1" && code == 59) || (name == "F2" && code == 60) || (name == "F3" && code == 61)
    || (name == "F4" && code == 62) || (name == "F5" && code == 63) || (name == "F6" && code == 64)
    || (name == "F7" && code == 65) || (name == "F8" && code == 66) || (name == "F9" && code == 67)
    || (name == "F10" && code == 68) || (name == "F11" && code == 87) || (name == "F12" && code == 88)
  }

  /** No name means two keys. */
  lemma ModifierNamesAreDistinct(name: string, a: int, b: int)
    requires IsModifier(name, a) && IsModifier(name, b)
    ensures a == b
  {
  }

  lemma KeysymNamesAreDistinct(name: string, a: int, b: int)
    requires IsKeysym(name, a) && IsKeysym(name, b)
    ensures a == b
  {
    if |name| == 1 {
      AsciiCodesFollowRows(name[0], a);
      AsciiCodesFollowRows(name[0], b);
    }
  }

  lemma ModifierTablesAgree(part: string)
    ensures XdotoolModifierName(part).Some? <==> ModifierCode(part).Some?
    ensures ModifierCode(part).Some? ==> IsModifier(XdotoolModifierName(part).value, ModifierCode(part).value)
    ensures XdotoolModifierName(part).Some? ==> '+' !in XdotoolModifierName(part).value
  {
  }

  lemma {:induction false} FoldedIsLower(s: string, i: nat)
    requires i < |Folded(s)|
    ensures !('A' <= Folded(s)[i] <= 'Z')
  {
    if s[0] == '-' || s[0] == ' ' {
      FoldedIsLower(s[1..], i);
    } else if i > 0 {
      FoldedIsLower(s[1..], i - 1);
    }
  }

  lemma NamedTablesAgree(k: string)
    ensures XdotoolNamed(k).Some? <==> NamedCode(k).Some?
    ensures NamedCode(k).Some? ==> IsNamedKeysym(XdotoolNamed(k).value, NamedCode(k).value)
  {
    if |k| <= 3 {
      ShortTablesAgree(k);
    } else {
      LongTablesAgree(k);
    }
  }

  lemma ShortTablesAgree(k: string)
    requires |k| <= 3
    ensures XdotoolNamed(k).Some? <==> NamedCode(k).Some?
    ensures NamedCode(k).Some? ==> IsNamedKeysym(XdotoolNamed(k).value, NamedCode(k).value)
  {
  }

  lemma LongTablesAgree(k: string)
    requires |k| > 3
    ensures XdotoolNamed(k).Some? <==> NamedCode(k).Some?
    ensures NamedCode(k).Some? ==> IsNamedKeysym(XdotoolNamed(k).value, NamedCode(k).value)
  {
  }

  /** A key string and the X name it stands for are spelt alike, but for the other words for nine keys. */
  predicate AreOneKey(k: string, name: string) {
    || (|k| == |name| && forall i | 0 <= i < |k| :: k[i] == Lower(name[i]))
    || (k == "enter" && name == "Return") || (k == "esc" && name == "Escape") || (k == "del" && name == "Delete")
    || (k == "pageup" && name == "Page_Up") || (k == "pagedown" && name == "Page_Down")
    || (k == "arrowleft" && name == "Left") || (k == "arrowright" && name == "Right")
    || (k == "arrowup" && name == "Up") || (k == "arrowdown" && name == "Down")
  }

  lemma NamesSpellKeys(k: string)
    ensures XdotoolNamed(k).Some? ==> AreOneKey(k, XdotoolNamed(k).value)
  {
    if |k| <= 2 {
      TwoLetterNames(k);
    } else if |k| <= 3 {
      ThreeLetterNames(k);
    } else if |k| <= 5 {
      MiddleNames(k);
    } else if |k| <= 7 {
      LongNames(k);
    } else {
      LongestNames(k);
    }
  }

  lemma TwoLetterNames(k: string)
    requires |k| <= 2
    ensures XdotoolNamed(k).Some? ==> AreOneKey(k, XdotoolNamed(k).value)
  {
  }

  lemma ThreeLetterNames(k: string)
    requires |k| == 3
    ensures XdotoolNamed(k).Some? ==> AreOneKey(k, XdotoolNamed(k).value)
  {
  }

  lemma MiddleNames(k: string)
    requires 3 < |k| <= 5
    ensures XdotoolNamed(k).Some? ==> AreOneKey(k, XdotoolNamed(k).value)
  {
  }

  lemma LongNames(k: string)
    requires 5 < |k| <= 7
    ensures XdotoolNamed(k).Some? ==> AreOneKey(k, XdotoolNamed(k).value)
  {
  }

  lemma LongestNames(k: string)
    requires |k| > 7
    ensures XdotoolNamed(k).Some? ==> AreOneKey(k, XdotoolNamed(k).value)
  {
  }

  lemma NamedKeysymHasNoPlus(name: string, code: int)
    requires IsNamedKeysym(name, code)
    ensures '+' !in name
  {
  }

  lemma AsciiTablesAgree(c: char)
    requires !('A' <= c <= 'Z')
    ensures AsciiCode(c).Some? <==> IsAsciiAlphanumeric(c)
  {
  }

  lemma KeyTablesAgree(part: string)
    ensures XdotoolKeysymName(part).Some? <==> KeyCode(part).Some?
    ensures KeyCode(part).Some? ==> IsKeysym(XdotoolKeysymName(part).value, KeyCode(part).value)
    ensures KeyCode(part).Some? ==> '+' !in XdotoolKeysymName(part).value
  {
    var k := NormalizeKey(part);
    NamedTablesAgree(k);
    if NamedCode(k).Some? {
      NamedKeysymHasNoPlus(XdotoolNamed(k).value, NamedCode(k).value);
    }
    if NamedCode(k).None? && |k| == 1 {
      FoldedIsLower(Text.Trim(part), 0);
      AsciiTablesAgree(k[0]);
      if KeyCode(part).Some? {
        AsciiCodesFollowRows(k[0], KeyCode(part).value);
      }
    }
  }

  /** `names` are the X modifiers of `codes`, in order. */
  predicate AreModifiers(names: seq<string>, codes: seq<int>) {
    |names| == |codes| && forall i | 0 <= i < |names| :: IsModifier(names[i], codes[i]) && '+' !in names[i]
  }

  lemma {:induction false} ModifierListsAgree(parts: seq<string>)
    ensures ModifierNames(parts).Some? <==> ModifierCodes(parts).Some?
    ensures ModifierCodes(parts).Some? ==> AreModifiers(ModifierNames(parts).value, ModifierCodes(parts).value)
  {
    if parts != [] {
      ModifierListsAgree(parts[..|parts| - 1]);
      ModifierTablesAgree(parts[|parts| - 1]);
    }
  }

  /** The names denote the chord: its modifiers in order and then its key, which alone may be a modifier. */
  predicate Denote(names: seq<string>, chord: Chord) {
    && names != []
    && var (last, before) := (names[|names| - 1], names[..|names| - 1]);
       && AreModifiers(before, chord.modifiers)
       && '+' !in last
       && (IsKeysym(last, chord.key) || (before == [] && IsModifier(last, chord.key)))
  }

  lemma SpecDenotesChord(key: string)
    ensures SpecNames(key).Some? <==> ChordOf(key).Some?
    ensures ChordOf(key).Some? ==> Denote(SpecNames(key).value, ChordOf(key).value)
  {
    var parts := Parts(key);
    if parts != [] {
      var (last, before) := (parts[|parts| - 1], parts[..|parts| - 1]);
      ModifierListsAgree(before);
      ModifierTablesAgree(last);
      KeyTablesAgree(last);
      if SpecNames(key).Some? {
        var names := SpecNames(key).value;
        assert names[..|names| - 1] == ModifierNames(before).value;
      }
    }
  }

  /** The xdotool backend accepts exactly the key strings the evdev backends accept, and the names
      between the plus signs of what it is given denote exactly the chord they type. */
  lemma XdotoolAgrees(key: string)
    ensures SpecNames(key).Some? <==> ChordOf(key).Some?
    ensures ChordOf(key).Some? ==>
              Denote(Text.Split(Text.Join(SpecNames(key).value, '+'), '+'), ChordOf(key).value)
  {
    SpecDenotesChord(key);
    if ChordOf(key).Some? {
      var names := SpecNames(key).value;
      forall i | 0 <= i < |names| ensures '+' !in names[i] {
        assert i < |names| - 1 ==> names[..|names| - 1][i] == names[i];
      }
      Text.SplitUndoesJoin(names, '+');
    }
  }
}
