/**
 * The input simulation used by the tests (src/electron/office/test/
 * simulated_input.cc): parsing a key chord such as "Ctrl+Shift+a" into
 * modifier bits and a key, the text a simulated key event carries, and
 * simulated mouse events.  Key names are ASCII; the UTF-8 to UTF-16
 * conversion is the identity on them.  The platform is a parameter
 * (`isMac`), as is what the key-name table outside this file reports.
 */
module SimulatedInput {
  import opened OfficeKeys

  // Lower-casing

  function LowerAscii(c: char): (l: char)
    ensures 'A' <= c <= 'Z' ==> l as int == c as int + 32
    ensures !('A' <= c <= 'Z') ==> l == c
  {
    if 'A' <= c <= 'Z' then (c as int + 32) as char else c
  }

  /** `base::ToLowerASCII`. */
  function ToLowerAscii(s: string): (r: string)
    ensures |r| == |s|
  {
    if s == [] then [] else ToLowerAscii(s[..|s| - 1]) + [LowerAscii(s[|s| - 1])]
  }

  lemma {:induction false} ToLowerAsciiAt(s: string, k: nat)
    requires k < |s|
    ensures ToLowerAscii(s)[k] == LowerAscii(s[k])
    decreases |s|
  {
    if k < |s| - 1 {
      ToLowerAsciiAt(s[..|s| - 1], k);
    }
  }

  // Splitting on '+'

  /**
   * The `+`-separated pieces of `s`, empty ones included: there is always
   * one more piece than there are `+` signs.
   */
  function Pieces(s: string): (ps: seq<string>)
    ensures |ps| >= 1
  {
    if s == [] then [""]
    else
      var ps := Pieces(s[..|s| - 1]);
      var c := s[|s| - 1];
      if c == '+' then ps + [""] else ps[..|ps| - 1] + [ps[|ps| - 1] + [c]]
  }

  /** Pieces joined with `+` between them. */
  function Join(ps: seq<string>): string
    requires |ps| >= 1
  {
    if |ps| == 1 then ps[0] else Join(ps[..|ps| - 1]) + "+" + ps[|ps| - 1]
  }

  predicate PlusFree(p: string)
  {
    forall k | 0 <= k < |p| :: p[k] != '+'
  }

  predicate AllPlusFree(ps: seq<string>)
  {
    forall k | 0 <= k < |ps| :: PlusFree(ps[k])
  }

  /** The pieces hold no `+`, and joining them gives the text back. */
  lemma {:induction false} PiecesJoin(s: string)
    ensures AllPlusFree(Pieces(s)) && Join(Pieces(s)) == s
    decreases |s|
  {
    if s != [] {
      var init, c := s[..|s| - 1], s[|s| - 1];
      assert s == init + [c];
      PiecesJoin(init);
      PiecesSnoc(init, c);
      if c == '+' {
        PiecesJoinPlus(init);
      } else {
        PiecesJoinChar(init, c);
      }
    }
  }

  /** `PiecesJoin` after a `+`. */
  lemma PiecesJoinPlus(init: string)
    requires AllPlusFree(Pieces(init)) && Join(Pieces(init)) == init
    requires Pieces(init + ['+']) == Pieces(init) + [""]
    ensures AllPlusFree(Pieces(init + ['+'])) && Join(Pieces(init + ['+'])) == init + ['+']
  {
    var ps := Pieces(init);
    JoinSnoc(ps, "");
    assert forall k | 0 <= k < |ps| :: (ps + [""])[k] == ps[k];
  }

  /** `PiecesJoin` after any other character. */
  lemma PiecesJoinChar(init: string, c: char)
    requires c != '+'
    requires AllPlusFree(Pieces(init)) && Join(Pieces(init)) == init
    requires var ps := Pieces(init);
      Pieces(init + [c]) == ps[..|ps| - 1] + [ps[|ps| - 1] + [c]]
    ensures AllPlusFree(Pieces(init + [c])) && Join(Pieces(init + [c])) == init + [c]
  {
    var ps := Pieces(init);
    var last := ps[|ps| - 1];
    var qs := ps[..|ps| - 1] + [last + [c]];
    assert Pieces(init + [c]) == qs;
    JoinExtendLast(ps, c);
    assert PlusFree(last);
    forall k | 0 <= k < |qs|
      ensures PlusFree(qs[k])
    {
      if k < |ps| - 1 {
        assert qs[k] == ps[k];
      } else {
        assert qs[k] == last + [c];
        assert forall j | 0 <= j < |last| :: (last + [c])[j] == last[j];
      }
    }
  }

  lemma Snoc<T>(xs: seq<T>)
    requires |xs| >= 1
    ensures xs == xs[..|xs| - 1] + [xs[|xs| - 1]]
  {
  }

  lemma SnocParts<T>(xs: seq<T>, x: T)
    ensures (xs + [x])[..|xs|] == xs && (xs + [x])[|xs|] == x
  {
  }

  /** Joining one more piece. */
  lemma JoinSnoc(ps: seq<string>, p: string)
    requires |ps| >= 1
    ensures Join(ps + [p]) == Join(ps) + "+" + p
  {
    SnocParts(ps, p);
  }

  /** Extending the last piece extends the joined text. */
  lemma JoinExtendLast(ps: seq<string>, c: char)
    requires |ps| >= 1
    ensures Join(ps[..|ps| - 1] + [ps[|ps| - 1] + [c]]) == Join(ps) + [c]
  {
    var init, last := ps[..|ps| - 1], ps[|ps| - 1];
    if |ps| > 1 {
      JoinSnoc(init, last + [c]);
      Snoc(ps);
      JoinSnoc(init, last);
      AppendChar(Join(init) + "+", last, c);
    }
  }

  lemma AppendChar(x: string, y: string, c: char)
    ensures x + (y + [c]) == (x + y) + [c]
  {
  }

  /** Pieces without `+`, joined, split back into the same pieces. */
  lemma {:induction false} JoinPieces(ps: seq<string>)
    requires |ps| >= 1 && AllPlusFree(ps)
    ensures Pieces(Join(ps)) == ps
    decreases |Join(ps)|
  {
    var p := ps[|ps| - 1];
    if p != [] {
      var init := ps[..|ps| - 1] + [p[..|p| - 1]];
      JoinPiecesShorter(ps);
      JoinPieces(init);
      JoinPiecesChar(ps);
    } else if |ps| > 1 {
      var init := ps[..|ps| - 1];
      JoinEmptyLast(ps);
      JoinPieces(init);
      PiecesSnoc(Join(init), '+');
      Snoc(ps);
    }
  }

  /** An empty last piece is what a final `+` leaves. */
  lemma JoinEmptyLast(ps: seq<string>)
    requires |ps| > 1 && AllPlusFree(ps) && ps[|ps| - 1] == []
    ensures var init := ps[..|ps| - 1];
      AllPlusFree(init) && Join(ps) == Join(init) + ['+']
  {
    var init := ps[..|ps| - 1];
    assert forall k | 0 <= k < |init| :: init[k] == ps[k];
    JoinSnoc(init, "");
    Snoc(ps);
  }

  /** Dropping the last character of a non-empty last piece. */
  lemma JoinPiecesShorter(ps: seq<string>)
    requires |ps| >= 1 && AllPlusFree(ps) && ps[|ps| - 1] != []
    ensures var p := ps[|ps| - 1];
      var init := ps[..|ps| - 1] + [p[..|p| - 1]];
      AllPlusFree(init) && Join(ps) == Join(init) + [p[|p| - 1]] && p[|p| - 1] != '+'
  {
    var p := ps[|ps| - 1];
    var init := ps[..|ps| - 1] + [p[..|p| - 1]];
    assert PlusFree(p);
    assert PlusFree(p[..|p| - 1]) by {
      assert forall k | 0 <= k < |p| - 1 :: p[..|p| - 1][k] == p[k];
    }
    SnocParts(ps[..|ps| - 1], p[..|p| - 1]);
    assert forall k | 0 <= k < |ps| - 1 :: init[k] == ps[k];
    Snoc(p);
    JoinExtendLast(init, p[|p| - 1]);
    Snoc(ps);
  }

  /** `JoinPieces` for a non-empty last piece, from the pieces without its last character. */
  lemma JoinPiecesChar(ps: seq<string>)
    requires |ps| >= 1 && ps[|ps| - 1] != []
    requires var p := ps[|ps| - 1];
      var init := ps[..|ps| - 1] + [p[..|p| - 1]];
      Join(ps) == Join(init) + [p[|p| - 1]] && p[|p| - 1] != '+' && Pieces(Join(init)) == init
    ensures Pieces(Join(ps)) == ps
  {
    var p := ps[|ps| - 1];
    var init := ps[..|ps| - 1] + [p[..|p| - 1]];
    PiecesSnoc(Join(init), p[|p| - 1]);
    SnocParts(ps[..|ps| - 1], p[..|p| - 1]);
    Snoc(p);
    Snoc(ps);
  }

  // Modifier names

  /** The modifier bit a chord piece names; other pieces name none. */
  function TokenBits(t: string, isMac: bool): (bit: Word)
    ensures bit == NoModifiers || bit == ShiftKey || bit == ControlKey || bit == AltKey || bit == MetaKey
  {
    if t == "ctrl" then ControlKey
    else if t == "cmd" || t == "win" || t == "meta" then MetaKey
    else if t == "shift" then ShiftKey
    else if t == "alt" then AltKey
    else if t == "mod" then (if isMac then MetaKey else ControlKey)
    else NoModifiers
  }

  /** The modifier bits named by all pieces, OR-ed together. */
  function ModifiersOf(ps: seq<string>, isMac: bool): Word
  {
    if ps == [] then NoModifiers
    else ModifiersOf(ps[..|ps| - 1], isMac) | TokenBits(ps[|ps| - 1], isMac)
  }

  /** Control is named by `ctrl`, and by `mod` away from macOS. */
  lemma ControlNames(t: string, isMac: bool)
    ensures TokenBits(t, isMac) == ControlKey <==> t == "ctrl" || (t == "mod" && !isMac)
  {
  }

  /** Meta is named by `cmd`, `win` and `meta`, and by `mod` on macOS. */
  lemma MetaNames(t: string, isMac: bool)
    ensures TokenBits(t, isMac) == MetaKey <==>
      t == "cmd" || t == "win" || t == "meta" || (t == "mod" && isMac)
  {
  }

  /** A modifier bit is set exactly when some piece names it. */
  lemma {:induction false} ModifiersOfBit(ps: seq<string>, isMac: bool, bit: Word)
    requires ChordBit(bit)
    ensures ModifiersOf(ps, isMac) & bit != 0 <==>
      exists k | 0 <= k < |ps| :: TokenBits(ps[k], isMac) & bit != 0
    decreases |ps|
  {
    if ps != [] {
      var init := ps[..|ps| - 1];
      ModifiersOfBit(init, isMac, bit);
      Snoc(ps);
      BitOfSnoc(init, ps[|ps| - 1], isMac, bit);
      if exists k | 0 <= k < |init| :: TokenBits(init[k], isMac) & bit != 0 {
        var k :| 0 <= k < |init| && TokenBits(init[k], isMac) & bit != 0;
        assert ps[k] == init[k];
      }
      if exists k | 0 <= k < |ps| :: TokenBits(ps[k], isMac) & bit != 0 {
        var k :| 0 <= k < |ps| && TokenBits(ps[k], isMac) & bit != 0;
        if k < |init| {
          assert init[k] == ps[k];
        }
      }
    }
  }

  /** The bits a chord can name. */
  predicate ChordBit(bit: Word)
  {
    bit == ShiftKey || bit == ControlKey || bit == AltKey || bit == MetaKey
  }

  lemma BitOfSnoc(ps: seq<string>, p: string, isMac: bool, bit: Word)
    requires ChordBit(bit)
    ensures ModifiersOf(ps + [p], isMac) & bit != 0 <==>
      ModifiersOf(ps, isMac) & bit != 0 || TokenBits(p, isMac) & bit != 0
  {
    ModifiersOfSnoc(ps, p, isMac);
    OrBit(ModifiersOf(ps + [p], isMac), ModifiersOf(ps, isMac), TokenBits(p, isMac), bit);
  }

  lemma OrBit(m: Word, a: Word, b: Word, bit: Word)
    requires m == a | b && ChordBit(bit)
    ensures m & bit != 0 <==> a & bit != 0 || b & bit != 0
  {
    assert (a | b) & bit == (a & bit) | (b & bit);
  }

  /** The pieces of a chord, lower-cased. */
  function ChordPieces(input: string): (ps: seq<string>)
    ensures |ps| >= 1
  {
    Pieces(ToLowerAscii(input))
  }

  /** The key of a chord: its last piece. */
  function ChordKey(input: string): string
  {
    var ps := ChordPieces(input);
    ps[|ps| - 1]
  }

  /**
   * `ExtractModifiers`: the chord is lower-cased and read piece by piece;
   * the answer is every modifier the pieces name, and the last piece as
   * the key (empty when the chord is empty or ends in `+`).
   */
  method ExtractModifiers(input: string, isMac: bool) returns (modifiers: Word, key: string)
    ensures modifiers == ModifiersOf(ChordPieces(input), isMac) && key == ChordKey(input)
  {
    var lower := ToLowerAscii(input);
    modifiers := NoModifiers;
    key := "";
    ghost var done: seq<string> := [];
    var i := 0;
    while i < |lower|
      invariant 0 <= i <= |lower|
      invariant Pieces(lower[..i]) == done + [key]
      invariant modifiers == ModifiersOf(done, isMac)
    {
      var c := lower[i];
      assert lower[..i + 1] == lower[..i] + [c];
      PiecesSnoc(lower[..i], c);
      if c == '+' {
        ModifiersOfSnoc(done, key, isMac);
        modifiers := modifiers | TokenBits(key, isMac);
        done := done + [key];
        key := "";
      } else {
        key := key + [c];
      }
      i := i + 1;
    }
    assert lower[..i] == lower;
    FinalPiece(done, key, modifiers, isMac);
    if key != [] {
      modifiers := modifiers | TokenBits(key, isMac);
    }
  }

  /**
   * `getline` reads the last piece only when it is not empty; an empty one
   * names no modifier anyway.
   */
  lemma FinalPiece(done: seq<string>, key: string, m: Word, isMac: bool)
    requires m == ModifiersOf(done, isMac)
    ensures ModifiersOf(done + [key], isMac) == if key != [] then m | TokenBits(key, isMac) else m
  {
    ModifiersOfSnoc(done, key, isMac);
    if key == [] {
      EmptyPieceNamesNothing(m, isMac);
    }
  }

  /** One more character: a `+` starts a new piece, anything else extends the last one. */
  lemma PiecesSnoc(s: string, c: char)
    ensures Pieces(s + [c]) ==
      if c == '+' then Pieces(s) + [""]
      else Pieces(s)[..|Pieces(s)| - 1] + [Pieces(s)[|Pieces(s)| - 1] + [c]]
  {
    assert (s + [c])[..|s|] == s;
  }

  lemma ModifiersOfSnoc(ps: seq<string>, p: string, isMac: bool)
    ensures ModifiersOf(ps + [p], isMac) == ModifiersOf(ps, isMac) | TokenBits(p, isMac)
  {
    SnocParts(ps, p);
  }

  /** An empty piece, as `getline` leaves after a final `+`, adds no modifier. */
  lemma EmptyPieceNamesNothing(m: Word, isMac: bool)
    ensures m | TokenBits("", isMac) == m
  {
    assert TokenBits("", isMac) == NoModifiers;
  }

  /** The key is lower-case: `TranslateKeyEvent`'s upper-case branch is never taken. */
  lemma KeyIsLowerCase(input: string, isMac: bool)
    ensures NoUpper(ChordKey(input))
  {
    var lower := ToLowerAscii(input);
    forall k | 0 <= k < |lower|
      ensures !('A' <= lower[k] <= 'Z')
    {
      ToLowerAsciiAt(input, k);
    }
    LowerPieces(lower);
  }

  predicate NoUpper(p: string)
  {
    forall k | 0 <= k < |p| :: !('A' <= p[k] <= 'Z')
  }

  /** Every piece of a text without upper-case letters is without them. */
  lemma {:induction false} LowerPieces(s: string)
    requires NoUpper(s)
    ensures forall j | 0 <= j < |Pieces(s)| :: NoUpper(Pieces(s)[j])
    decreases |s|
  {
    if s != [] {
      var init, c := s[..|s| - 1], s[|s| - 1];
      assert NoUpper(init) by {
        assert forall k | 0 <= k < |init| :: init[k] == s[k];
      }
      LowerPieces(init);
      var ps := Pieces(init);
      assert forall j | 0 <= j < |ps| :: NoUpper(ps[j]);
      if c != '+' {
        var last := ps[|ps| - 1];
        assert NoUpper(last);
        assert !('A' <= c <= 'Z');
        var qs := ps[..|ps| - 1] + [last + [c]];
        assert Pieces(s) == qs;
        forall j | 0 <= j < |qs|
          ensures NoUpper(qs[j])
        {
          if j < |ps| - 1 {
            assert qs[j] == ps[j];
          } else {
            assert qs[j] == last + [c];
          }
        }
      } else {
        assert Pieces(s) == ps + [""];
        assert forall j | 0 <= j < |ps| :: (ps + [""])[j] == ps[j];
      }
    }
  }

  // Keyboard events

  /** Blink's `WebKeyboardEvent::kTextLengthCap`. */
  const TextLengthCap: nat := 4

  const Nul: char := 0 as char

  function Zeros(n: nat): (z: seq<char>)
    ensures |z| == n && forall k | 0 <= k < n :: z[k] == Nul
  {
    seq(n, _ => Nul)
  }

  /** With Control held, a leading letter becomes its control character (`a` and `A` are 1). */
  function ControlChar(key: string): (c: char)
  {
    var first := if key == [] then Nul else key[0];
    if 'a' <= first <= 'z' then (first as int - 'a' as int + 1) as char
    else if 'A' <= first <= 'Z' then (first as int - 'A' as int + 1) as char
    else Nul
  }

  /** The text of a Control chord: the control character, then zeros. */
  function ControlText(key: string): seq<char>
  {
    [ControlChar(key)] + Zeros(TextLengthCap - 1)
  }

  function Min(a: nat, b: nat): nat
  {
    if a <= b then a else b
  }

  /** The text of any other chord: as much of the key as fits before a final zero. */
  function CopiedText(key: string): seq<char>
  {
    var n := Min(TextLengthCap - 1, |key|);
    key[..n] + Zeros(TextLengthCap - n)
  }

  /**
   * `TranslateKeyEvent`, the modifiers and text of the event: the chord's
   * modifiers, plus Shift when the key name stands for a shifted
   * character (`shiftedChar`, as the key-name table reports it); the text
   * buffers are zero-filled and then receive either the control character
   * or a copy of the key.
   */
  method TranslateKeyEvent(keys: string, isMac: bool, shiftedChar: bool)
    returns (modifiers: Word, text: array<char>, unmodifiedText: array<char>)
    ensures fresh(text) && fresh(unmodifiedText)
    ensures modifiers == ModifiersOf(ChordPieces(keys), isMac) | (if shiftedChar then ShiftKey else NoModifiers)
    ensures modifiers & ControlKey != 0 ==>
      text[..] == ControlText(ChordKey(keys)) && unmodifiedText[..] == Zeros(TextLengthCap)
    ensures modifiers & ControlKey == 0 ==>
      text[..] == CopiedText(ChordKey(keys)) && unmodifiedText[..] == CopiedText(ChordKey(keys))
  {
    var key;
    modifiers, key := ExtractModifiers(keys, isMac);
    if shiftedChar {
      modifiers := modifiers | ShiftKey;
    }
    text := new char[TextLengthCap](_ => Nul);
    unmodifiedText := new char[TextLengthCap](_ => Nul);
    var first := if key == [] then Nul else key[0];
    if modifiers & ControlKey != 0 {
      if 'a' <= first <= 'z' {
        text[0] := (first as int - 'a' as int + 1) as char;
      }
      if 'A' <= first <= 'Z' {
        text[0] := (first as int - 'A' as int + 1) as char;
      }
      assert text[..] == ControlText(key);
    } else {
      var n := Min(TextLengthCap - 1, |key|);
      var i := 0;
      while i < n
        invariant 0 <= i <= n
        invariant text[..] == key[..i] + Zeros(TextLengthCap - i)
        invariant unmodifiedText[..] == key[..i] + Zeros(TextLengthCap - i)
      {
        text[i] := key[i];
        unmodifiedText[i] := key[i];
        assert key[..i + 1] == key[..i] + [key[i]];
        i := i + 1;
      }
    }
  }

  /** The text up to its first zero, as a C string reads it. */
  function CString(text: seq<char>): string
  {
    if text == [] || text[0] == Nul then [] else [text[0]] + CString(text[1..])
  }

  /**
   * A key without zero characters is copied whole when it fits, and cut
   * to three characters otherwise; either way the text stays
   * zero-terminated.
   */
  lemma CopiedTextReads(key: string)
    requires forall k | 0 <= k < |key| :: key[k] != Nul
    ensures CopiedText(key)[TextLengthCap - 1] == Nul
    ensures CString(CopiedText(key)) == key[..Min(TextLengthCap - 1, |key|)]
  {
    var n := Min(TextLengthCap - 1, |key|);
    CStringOfPrefix(key[..n], Zeros(TextLengthCap - n));
  }

  lemma {:induction false} CStringOfPrefix(p: string, z: seq<char>)
    requires (forall k | 0 <= k < |p| :: p[k] != Nul) && z != [] && z[0] == Nul
    ensures CString(p + z) == p
    decreases |p|
  {
    if p != [] {
      assert (p + z)[1..] == p[1..] + z;
      CStringOfPrefix(p[1..], z);
    } else {
      assert p + z == z;
    }
  }

  /**
   * With Control held, the text is one control character 1 to 26 when the
   * key starts with a letter, and empty otherwise.
   */
  lemma ControlTextReads(key: string)
    ensures var c := ControlChar(key);
      (1 <= c as int <= 26 <==> key != [] && ('a' <= key[0] <= 'z' || 'A' <= key[0] <= 'Z')) &&
      (c != Nul ==> CString(ControlText(key)) == [c]) &&
      (c == Nul ==> CString(ControlText(key)) == [])
  {
    var t := ControlText(key);
    assert t[1..] == Zeros(TextLengthCap - 1);
  }

  // Mouse events

  /** A simulated mouse event: its type, its position and its click count. */
  datatype MouseEvent = MouseEvent(eventType: int, x: real, y: real, clickCount: int)

  /**
   * `CreateMouseEvent`.  The modifiers it extracts, and the type and
   * buttons it ORs into them, are not stored in the event.
   */
  function CreateMouseEvent(eventType: int, buttons: Word, x: real, y: real, modifiers: string): (e: MouseEvent)
  {
    MouseEvent(eventType, x, y, 1)
  }

  function GetClickCount(e: MouseEvent): int
  {
    e.clickCount
  }

  function GetMousePosition(e: MouseEvent): (real, real)
  {
    (e.x, e.y)
  }

  /** A created event reads back the position it was given and one click. */
  lemma CreatedMouseEventReads(eventType: int, buttons: Word, x: real, y: real, modifiers: string)
    ensures var e := CreateMouseEvent(eventType, buttons, x, y, modifiers);
      GetClickCount(e) == 1 && GetMousePosition(e) == (x, y) && e.eventType == eventType
  {
  }
}
