/**
 * Keyboard constants shared with LibreOfficeKit and the mapping from
 * browser event modifiers to LibreOffice key modifiers
 * (src/electron/office/office_keys.h).  Modifier sets are 32-bit words,
 * as the C++ `int` they travel in.
 */
module OfficeKeys {
  type Word = bv32

  // Browser event modifier bits (`Modifiers`, compatible with Blink's)

  const ShiftKey: Word := 1 << 0
  const ControlKey: Word := 1 << 1
  const AltKey: Word := 1 << 2
  const MetaKey: Word := 1 << 3
  const IsKeyPad: Word := 1 << 4
  const IsAutoRepeat: Word := 1 << 5
  const LeftButtonDown: Word := 1 << 6
  const MiddleButtonDown: Word := 1 << 7
  const RightButtonDown: Word := 1 << 8
  const CapsLockOn: Word := 1 << 9
  const NumLockOn: Word := 1 << 10
  const IsLeft: Word := 1 << 11
  const IsRight: Word := 1 << 12
  const IsComposing: Word := 1 << 14
  const AltGrKey: Word := 1 << 15
  const FnKey: Word := 1 << 16
  const SymbolKey: Word := 1 << 17
  const KeyModifiers: Word :=
    SymbolKey | FnKey | AltGrKey | MetaKey | AltKey | ControlKey | ShiftKey
  const NoModifiers: Word := 0

  // LibreOffice key modifiers (`LOKModifiers`, an `unsigned short`)

  const LokShift: Word := 0x1000
  const LokMod1: Word := 0x2000
  const LokMod2: Word := 0x4000
  const LokMod3: Word := 0x8000
  const LokMask: Word := 0xF000

  // LibreOffice key codes (`LOKKeyCodes`)

  /**
   * A run of enumerators of `LOKKeyCodes`: the first has the explicit
   * initialiser `first`, and each later one, having none, is one more than
   * the one before it.
   */
  datatype KeyGroup = KeyGroup(first: nat, names: seq<string>)

  const DigitKeys: KeyGroup := KeyGroup(256,
    ["NUM0", "NUM1", "NUM2", "NUM3", "NUM4", "NUM5", "NUM6", "NUM7", "NUM8", "NUM9"])

  const LetterKeys: KeyGroup := KeyGroup(512,
    ["A", "B", "C", "D", "E", "F", "G", "H", "I", "J", "K", "L", "M",
     "N", "O", "P", "Q", "R", "S", "T", "U", "V", "W", "X", "Y", "Z"])

  const FunctionKeys: KeyGroup := KeyGroup(768,
    ["F1", "F2", "F3", "F4", "F5", "F6", "F7", "F8", "F9", "F10", "F11", "F12", "F13",
     "F14", "F15", "F16", "F17", "F18", "F19", "F20", "F21", "F22", "F23", "F24", "F25", "F26"])

  const NavigationKeys: KeyGroup := KeyGroup(1024,
    ["DOWN", "UP", "LEFT", "RIGHT", "HOME", "END", "PAGEUP", "PAGEDOWN"])

  const CommandKeys: KeyGroup := KeyGroup(1280,
    ["RETURN", "ESCAPE", "TAB", "BACKSPACE", "SPACE", "INSERT", "DEL", "ADD", "SUBTRACT",
     "MULTIPLY", "DIVIDE", "POINT", "COMMA", "LESS", "GREATER", "EQUAL", "OPEN", "CUT",
     "COPY", "PASTE", "UNDO", "REPEAT", "FIND", "PROPERTIES", "FRONT", "CONTEXTMENU",
     "MENU", "HELP", "HANGUL_HANJA", "DECIMAL", "TILDE", "QUOTELEFT", "BRACKETLEFT",
     "BRACKETRIGHT", "SEMICOLON", "QUOTERIGHT", "CAPSLOCK", "NUMLOCK", "SCROLLLOCK"])

  /** The enumeration in declaration order. */
  const KeyGroups: seq<KeyGroup> := [DigitKeys, LetterKeys, FunctionKeys, NavigationKeys, CommandKeys]

  /** The value of the `k`-th enumerator of a group, by the C++ enumerator rule. */
  function KeyCode(g: KeyGroup, k: nat): nat
    requires k < |g.names|
  {
    g.first + k
  }

  datatype NamedKey = Unnamed | Named(name: string)

  /** Whether `code` falls in the run of a group. */
  predicate InGroup(g: KeyGroup, code: nat)
  {
    g.first <= code < g.first + |g.names|
  }

  /** The enumerator whose value is `code`, if there is one. */
  function KeyNameOf(code: nat): (r: NamedKey)
    ensures r.Named? <==> exists i :: 0 <= i < |KeyGroups| && InGroup(KeyGroups[i], code)
  {
    if InGroup(KeyGroups[0], code) then Named(DigitKeys.names[code - DigitKeys.first])
    else if InGroup(KeyGroups[1], code) then Named(LetterKeys.names[code - LetterKeys.first])
    else if InGroup(KeyGroups[2], code) then Named(FunctionKeys.names[code - FunctionKeys.first])
    else if InGroup(KeyGroups[3], code) then Named(NavigationKeys.names[code - NavigationKeys.first])
    else if InGroup(KeyGroups[4], code) then Named(CommandKeys.names[code - CommandKeys.first])
    else
      assert forall i | 0 <= i < |KeyGroups| :: !InGroup(KeyGroups[i], code) by {
        forall i | 0 <= i < |KeyGroups| ensures !InGroup(KeyGroups[i], code) {
          assert KeyGroups[i] in {DigitKeys, LetterKeys, FunctionKeys, NavigationKeys, CommandKeys};
        }
      }
      Unnamed
  }

  /**
   * The values the header leaves implicit: each group holds the number of
   * enumerators listed, and its last one has the value given here.
   */
  lemma ImplicitKeyValues()
    ensures |DigitKeys.names| == 10 && DigitKeys.names[9] == "NUM9" && KeyCode(DigitKeys, 9) == 265
    ensures |LetterKeys.names| == 26 && LetterKeys.names[25] == "Z" && KeyCode(LetterKeys, 25) == 537
    ensures |FunctionKeys.names| == 26 && FunctionKeys.names[25] == "F26" && KeyCode(FunctionKeys, 25) == 793
    ensures |NavigationKeys.names| == 8 && NavigationKeys.names[7] == "PAGEDOWN" && KeyCode(NavigationKeys, 7) == 1031
    ensures |CommandKeys.names| == 39 && CommandKeys.names[38] == "SCROLLLOCK" && KeyCode(CommandKeys, 38) == 1318
  {
  }

  /**
   * The groups lie in increasing order, each ending before the next one's
   * explicit initialiser, so no two enumerators share a value, and every
   * value fits the `unsigned short` the enumeration is based on.
   */
  lemma KeyCodesDistinct(i: nat, a: nat, j: nat, b: nat)
    requires i < |KeyGroups| && a < |KeyGroups[i].names|
    requires j < |KeyGroups| && b < |KeyGroups[j].names|
    ensures KeyCode(KeyGroups[i], a) < 0x1_0000
    ensures KeyCode(KeyGroups[i], a) == KeyCode(KeyGroups[j], b) ==> i == j && a == b
    ensures i < j ==> KeyCode(KeyGroups[i], a) < KeyCode(KeyGroups[j], b)
  {
    if i < j {
      GroupsOrdered(i, j);
    } else if j < i {
      GroupsOrdered(j, i);
    }
  }

  /** Each group ends before the next group's first value. */
  lemma GroupsOrdered(i: nat, j: nat)
    requires i < j < |KeyGroups|
    ensures KeyGroups[i].first + |KeyGroups[i].names| <= KeyGroups[j].first
  {
  }

  /** The name found for an enumerator's value is that enumerator's. */
  lemma KeyNameRoundTrip(i: nat, k: nat)
    requires i < |KeyGroups| && k < |KeyGroups[i].names|
    ensures KeyNameOf(KeyCode(KeyGroups[i], k)) == Named(KeyGroups[i].names[k])
  {
    var code := KeyCode(KeyGroups[i], k);
    forall j: nat | j < i ensures !InGroup(KeyGroups[j], code) {
      GroupsOrdered(j, i);
    }
    if i == 0 {
    } else if i == 1 {
      assert !InGroup(KeyGroups[0], code);
    } else if i == 2 {
      assert !InGroup(KeyGroups[0], code) && !InGroup(KeyGroups[1], code);
    } else if i == 3 {
      assert !InGroup(KeyGroups[0], code) && !InGroup(KeyGroups[1], code) && !InGroup(KeyGroups[2], code);
    } else {
      assert !InGroup(KeyGroups[0], code) && !InGroup(KeyGroups[1], code) && !InGroup(KeyGroups[2], code);
      assert !InGroup(KeyGroups[3], code);
    }
  }

  /** `EventModifiersToLOKModifiers`. */
  function EventModifiersToLokModifiers(modifiers: Word): (r: Word)
    ensures r & !LokMask == 0
  {
    (if modifiers & ShiftKey != 0 then LokShift else 0)
    | (if modifiers & ControlKey != 0 then LokMod1 else 0)
    | (if modifiers & AltKey != 0 then LokMod2 else 0)
    | (if modifiers & MetaKey != 0 then LokMod3 else 0)
  }

  /** Shift, Control, Alt and Meta become the four LibreOffice modifier bits, one for one. */
  lemma LokModifierBits(modifiers: Word)
    ensures var r := EventModifiersToLokModifiers(modifiers);
      (r & LokShift != 0 <==> modifiers & ShiftKey != 0) &&
      (r & LokMod1 != 0 <==> modifiers & ControlKey != 0) &&
      (r & LokMod2 != 0 <==> modifiers & AltKey != 0) &&
      (r & LokMod3 != 0 <==> modifiers & MetaKey != 0)
  {
  }

  /** The mapping moves the low four modifier bits up by twelve places. */
  lemma LokModifiersShift(modifiers: Word)
    ensures EventModifiersToLokModifiers(modifiers) == (modifiers & 0xF) << 12
  {
  }

  /** No modifier maps to none, and the mapping distributes over `|`. */
  lemma LokModifiersDistribute(a: Word, b: Word)
    ensures EventModifiersToLokModifiers(NoModifiers) == 0
    ensures EventModifiersToLokModifiers(a | b) ==
      EventModifiersToLokModifiers(a) | EventModifiersToLokModifiers(b)
  {
    LokModifiersShift(a);
    LokModifiersShift(b);
    LokModifiersShift(a | b);
  }

  /**
   * Only the key modifiers count, and of them only Shift, Control, Alt
   * and Meta: AltGr, Fn, Symbol, the mouse buttons and the lock states are
   * ignored.
   */
  lemma LokModifiersIgnoreOtherBits(modifiers: Word)
    ensures EventModifiersToLokModifiers(modifiers) ==
      EventModifiersToLokModifiers(modifiers & KeyModifiers)
    ensures EventModifiersToLokModifiers(modifiers) ==
      EventModifiersToLokModifiers(modifiers & (ShiftKey | ControlKey | AltKey | MetaKey))
  {
    LokModifiersShift(modifiers);
    LokModifiersShift(modifiers & KeyModifiers);
    LokModifiersShift(modifiers & (ShiftKey | ControlKey | AltKey | MetaKey));
  }
}
