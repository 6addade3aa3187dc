/**
 * Parsing of LibreOfficeKit callback payloads
 * (src/electron/office/lok_callback.cc).  A payload is a C string, held
 * here as `seq<char>` with an index standing for the iterator the C++
 * parsers advance; reading at the end of the payload sees its terminating
 * NUL.  Numbers accumulate in 64-bit unsigned arithmetic.
 */
module LokCallback {
  import TileGrid

  datatype Option<T> = None | Some(value: T)

  /** 2^64: `uint64_t` arithmetic wraps modulo this. */
  const U64Modulus: nat := 0x1_0000_0000_0000_0000

  // Characters

  predicate IsDigit(c: char) { '0' <= c <= '9' }

  function DigitValue(c: char): (d: nat)
    requires IsDigit(c)
    ensures d <= 9
  {
    c as int - '0' as int
  }

  /** `std::iswspace` on the ASCII range. */
  predicate IsSpace(c: char)
  {
    c == ' ' || c == '\t' || c == '\n' || c == '\r' || c as int == 0x0B || c as int == 0x0C
  }

  /** `*target` for a payload held as a C string: at the end it reads the NUL. */
  function At(s: string, i: nat): char
  {
    if i < |s| then s[i] else '\0'
  }

  predicate AllDigits(ds: string)
  {
    forall k | 0 <= k < |ds| :: IsDigit(ds[k])
  }

  predicate NoDigits(s: string, i: nat, j: nat)
    requires i <= j <= |s|
  {
    forall k | i <= k < j :: !IsDigit(s[k])
  }

  predicate HasDigitFrom(s: string, i: nat)
  {
    exists k :: i <= k < |s| && IsDigit(s[k])
  }

  // Scanning functions

  /** Where the run of whitespace starting at `i` ends. */
  function SpaceRunEnd(s: string, i: nat): (j: nat)
    requires i <= |s|
    ensures i <= j <= |s| && (j == |s| || !IsSpace(s[j]))
    decreases |s| - i
  {
    if i < |s| && IsSpace(s[i]) then SpaceRunEnd(s, i + 1) else i
  }

  /** Where the run of digits starting at `i` ends. */
  function DigitRunEnd(s: string, i: nat): (j: nat)
    requires i <= |s|
    ensures i <= j <= |s| && (j == |s| || !IsDigit(s[j]))
    decreases |s| - i
  {
    if i < |s| && IsDigit(s[i]) then DigitRunEnd(s, i + 1) else i
  }

  /** Where the run of non-digits starting at `i` ends: the next digit, or the end. */
  function NonDigitRunEnd(s: string, i: nat): (j: nat)
    requires i <= |s|
    ensures i <= j <= |s| && (j < |s| ==> IsDigit(s[j]))
    decreases |s| - i
  {
    if i < |s| && !IsDigit(s[i]) then NonDigitRunEnd(s, i + 1) else i
  }

  /** The run skipped holds no digit, and it stops before the end exactly when a digit is left. */
  lemma {:induction false} NonDigitRunFacts(s: string, i: nat)
    requires i <= |s|
    ensures NoDigits(s, i, NonDigitRunEnd(s, i))
    ensures NonDigitRunEnd(s, i) < |s| <==> HasDigitFrom(s, i)
    decreases |s| - i
  {
    if i < |s| && !IsDigit(s[i]) {
      NonDigitRunFacts(s, i + 1);
      if HasDigitFrom(s, i) {
        var k :| i <= k < |s| && IsDigit(s[k]);
        assert k != i;
      }
    }
  }

  /**
   * The value `ParseLong` accumulates from `init` over the digits `ds`:
   * `value * 10 + digit`, wrapping modulo 2^64.
   */
  function Accumulate(init: nat, ds: string): (v: nat)
    requires init < U64Modulus
    ensures v < U64Modulus
  {
    if ds == [] then init
    else (Accumulate(init, ds[..|ds| - 1]) * 10 + (ds[|ds| - 1] as int - '0' as int)) % U64Modulus
  }

  /** `Accumulate` over the characters of `s` from `i` to `j`, read in place. */
  function AccumulateAt(s: string, init: nat, i: nat, j: nat): (v: nat)
    requires init < U64Modulus && i <= j <= |s|
    ensures v < U64Modulus
    decreases j - i
  {
    if j == i then init
    else (AccumulateAt(s, init, i, j - 1) * 10 + (s[j - 1] as int - '0' as int)) % U64Modulus
  }

  /** Reading in place is reading the slice. */
  lemma {:induction false} AccumulateAtSlice(s: string, init: nat, i: nat, j: nat)
    requires init < U64Modulus && i <= j <= |s|
    ensures AccumulateAt(s, init, i, j) == Accumulate(init, s[i..j])
    decreases j - i
  {
    if j > i {
      AccumulateAtSlice(s, init, i, j - 1);
      assert s[i..j][..j - 1 - i] == s[i..j - 1];
    }
  }

  /** `ParseLong` from 0: the number starting at `i` and where it ends. */
  function LongFrom(s: string, i: nat): (r: (nat, nat))
    requires i <= |s|
    ensures r.1 == DigitRunEnd(s, i)
  {
    var j := DigitRunEnd(s, i);
    (AccumulateAt(s, 0, i, j), j)
  }

  // The C++ scanners

  /** `SkipWhitespace`: moves past the whitespace at the iterator. */
  method SkipWhitespace(s: string, i: nat) returns (j: nat)
    requires i <= |s|
    ensures j == SpaceRunEnd(s, i)
  {
    j := i;
    while j < |s| && IsSpace(s[j])
      invariant i <= j <= |s| && SpaceRunEnd(s, j) == SpaceRunEnd(s, i)
      decreases |s| - j
    {
      j := j + 1;
    }
  }

  /**
   * `ParseLong`: consumes the maximal run of digits at the iterator,
   * accumulating onto `init`.
   */
  method ParseLong(s: string, i: nat, init: nat) returns (value: nat, j: nat)
    requires i <= |s| && init < U64Modulus
    ensures j == DigitRunEnd(s, i) && value == AccumulateAt(s, init, i, j)
  {
    value, j := init, i;
    while j < |s| && IsDigit(s[j])
      invariant i <= j <= |s| && DigitRunEnd(s, j) == DigitRunEnd(s, i)
      invariant value == AccumulateAt(s, init, i, j)
      decreases |s| - j
    {
      value := (value * 10 + DigitValue(s[j])) % U64Modulus;
      j := j + 1;
    }
  }

  /**
   * `SkipNonNumeric` with the end check the parser needs: moves to the next
   * digit, or to the end when there is none.
   */
  method SkipNonNumeric(s: string, i: nat) returns (j: nat)
    requires i <= |s|
    ensures j == NonDigitRunEnd(s, i)
  {
    j := i;
    while j < |s| && !IsDigit(s[j])
      invariant i <= j <= |s| && NonDigitRunEnd(s, j) == NonDigitRunEnd(s, i)
      decreases |s| - j
    {
      j := j + 1;
    }
  }

  // Comma-separated numbers

  /**
   * What `ParseCSV` returns from position `i`, and where it leaves the
   * iterator: it stops after a `;`, and before anything that, once a `,`
   * and whitespace are skipped, is not a digit.
   */
  function CsvFrom(s: string, i: nat): (r: (seq<nat>, nat))
    requires i <= |s|
    ensures i <= r.1 <= |s|
    decreases |s| - i
  {
    if i == |s| then ([], i)
    else if s[i] == ';' then ([], i + 1)
    else
      var j := SpaceRunEnd(s, if s[i] == ',' then i + 1 else i);
      if !IsDigit(At(s, j)) then ([], j)
      else
        var (value, k) := LongFrom(s, j);
        var rest := CsvFrom(s, k);
        ([value] + rest.0, rest.1)
  }

  /** One number of `ParseCSV`: the list from `i` is that number and the list after it. */
  lemma CsvNumberStep(s: string, i: nat, j: nat)
    requires i < |s| && s[i] != ';'
    requires j == SpaceRunEnd(s, if s[i] == ',' then i + 1 else i) && IsDigit(At(s, j))
    ensures var (value, k) := LongFrom(s, j);
      CsvFrom(s, i) == ([value] + CsvFrom(s, k).0, CsvFrom(s, k).1)
  {
  }

  /** A number that starts right at `i`: the list from `i` is that number and the list after it. */
  lemma CsvDigitStep(s: string, i: nat, n: nat, e: nat)
    requires i < |s| && IsDigit(s[i]) && LongFrom(s, i) == (n, e)
    ensures CsvFrom(s, i) == ([n] + CsvFrom(s, e).0, CsvFrom(s, e).1)
  {
    assert SpaceRunEnd(s, i) == i;
    CsvNumberStep(s, i, i);
  }

  /** `ParseCSV`. */
  method ParseCSV(s: string, i: nat) returns (result: seq<nat>, next: nat)
    requires i <= |s|
    ensures (result, next) == CsvFrom(s, i)
  {
    result, next := [], i;
    assert result + CsvFrom(s, i).0 == CsvFrom(s, i).0;
    while next < |s|
      invariant i <= next <= |s|
      invariant CsvFrom(s, i) == (result + CsvFrom(s, next).0, CsvFrom(s, next).1)
      decreases |s| - next
    {
      if s[next] == ';' {
        assert result + [] == result;
        next := next + 1;
        return;
      }
      var j := if s[next] == ',' then next + 1 else next;
      j := SkipWhitespace(s, j);
      if !IsDigit(At(s, j)) {
        assert result + [] == result;
        next := j;
        return;
      }
      var value, k := ParseLong(s, j, 0);
      CsvNumberStep(s, next, j);
      assert result + ([value] + CsvFrom(s, k).0) == (result + [value]) + CsvFrom(s, k).0;
      result := result + [value];
      next := k;
    }
    assert result + [] == result;
  }

  /** The characters `ParseCSV` can consume. */
  predicate IsCsvChar(c: char)
  {
    IsDigit(c) || c == ',' || c == ';' || IsSpace(c)
  }

  predicate CsvOnly(s: string, i: nat)
  {
    forall k | i <= k < |s| :: IsCsvChar(s[k])
  }

  /** On a character it can consume, `ParseCSV` moves the iterator. */
  lemma CsvProgress(s: string, i: nat)
    requires i < |s| && IsCsvChar(s[i])
    ensures CsvFrom(s, i).1 > i
  {
  }

  /**
   * On any other character `ParseCSV` returns nothing and leaves the
   * iterator where it was, so `ParseMultipleCSV`, which repeats it until the
   * end, never finishes.
   */
  lemma CsvStalls(s: string, i: nat)
    requires i < |s| && !IsCsvChar(s[i])
    ensures CsvFrom(s, i) == ([], i)
  {
  }

  /** What `ParseMultipleCSV` returns: `ParseCSV` repeated to the end. */
  function MultipleCsvFrom(s: string, i: nat): (lists: seq<seq<nat>>)
    requires i <= |s| && CsvOnly(s, i)
    ensures |lists| <= |s| - i
    decreases |s| - i
  {
    if i == |s| then []
    else
      CsvProgress(s, i);
      var (list, next) := CsvFrom(s, i);
      [list] + MultipleCsvFrom(s, next)
  }

  /**
   * `ParseMultipleCSV`.  The C++ loop does not terminate once the iterator
   * sits on a character `ParseCSV` cannot consume (`CsvStalls`), so callers
   * must pass payloads made of digits, separators and whitespace.
   */
  method ParseMultipleCSV(s: string, i: nat) returns (result: seq<seq<nat>>)
    requires i <= |s| && CsvOnly(s, i)
    ensures result == MultipleCsvFrom(s, i)
  {
    result := [];
    var next := i;
    while next < |s|
      invariant i <= next <= |s|
      invariant MultipleCsvFrom(s, i) == result + MultipleCsvFrom(s, next)
      decreases |s| - next
    {
      CsvProgress(s, next);
      var list;
      list, next := ParseCSV(s, next);
      result := result + [list];
    }
  }

  /**
   * The evidently intended `ParseMultipleCSV`: the lists up to the first
   * position where `ParseCSV` makes no progress, instead of looping there.
   */
  function MultipleCsvUntilStuck(s: string, i: nat): (lists: seq<seq<nat>>)
    requires i <= |s|
    ensures |lists| <= |s| - i
    ensures i < |s| && !IsCsvChar(s[i]) ==> lists == []
    decreases |s| - i
  {
    if i == |s| then []
    else
      var (list, next) := CsvFrom(s, i);
      if next == i then []
      else [list] + MultipleCsvUntilStuck(s, next)
  }

  /** On payloads `ParseMultipleCSV` finishes, the guarded reading agrees with it. */
  lemma {:induction false} UntilStuckAgrees(s: string, i: nat)
    requires i <= |s| && CsvOnly(s, i)
    ensures MultipleCsvUntilStuck(s, i) == MultipleCsvFrom(s, i)
    decreases |s| - i
  {
    if i < |s| {
      CsvProgress(s, i);
      UntilStuckAgrees(s, CsvFrom(s, i).1);
    }
  }

  /** `ParseMultipleCSV` with the progress check that ends the loop on a stuck iterator. */
  method ParseMultipleCSVGuarded(s: string, i: nat) returns (result: seq<seq<nat>>)
    requires i <= |s|
    ensures result == MultipleCsvUntilStuck(s, i)
  {
    result := [];
    var next := i;
    while next < |s|
      invariant i <= next <= |s|
      invariant MultipleCsvUntilStuck(s, i) == result + MultipleCsvUntilStuck(s, next)
      decreases |s| - next
    {
      var list, after := ParseCSV(s, next);
      if after == next {
        assert result + [] == result;
        return;
      }
      assert result + ([list] + MultipleCsvUntilStuck(s, after)) == (result + [list]) + MultipleCsvUntilStuck(s, after);
      result := result + [list];
      next := after;
    }
    assert result + [] == result;
  }

  // Rectangles

  const EmptyRect: TileGrid.Rect := TileGrid.Rect(0, 0, 0, 0)

  /** Largest value of a 32-bit `int`. */
  const IntMax: int := 0x7FFF_FFFF

  /**
   * A parsed `uint64_t` stored into a `long` and passed on as an `int`: on
   * two's complement targets, with a 32- or 64-bit `long`, what is left is
   * the low 32 bits read as a signed number.
   */
  function ToInt(n: nat): (r: int)
    ensures -IntMax - 1 <= r <= IntMax
    ensures n <= IntMax ==> r == n
  {
    var low := n % 0x1_0000_0000;
    if low > IntMax then low - 0x1_0000_0000 else low
  }

  /** The narrowing keeps the value modulo 2^32: it is the wrap-around of a 32-bit `int`. */
  lemma ToIntWraps(n: nat)
    ensures (n - ToInt(n)) % 0x1_0000_0000 == 0
    ensures n >= 0x8000_0000 && n < 0x1_0000_0000 ==> ToInt(n) == n - 0x1_0000_0000
  {
    var low := n % 0x1_0000_0000;
    assert n == (n / 0x1_0000_0000) * 0x1_0000_0000 + low;
  }

  /** `gfx::Rect(x, y, width, height)` from parsed numbers: `gfx::Size` turns a negative side into 0. */
  function GfxRect(x: nat, y: nat, w: nat, h: nat): (r: TileGrid.Rect)
    ensures r.x == ToInt(x) && r.y == ToInt(y)
    ensures 0 <= r.width <= IntMax && 0 <= r.height <= IntMax
    ensures x <= IntMax && y <= IntMax && w <= IntMax && h <= IntMax ==> r == TileGrid.Rect(x, y, w, h)
  {
    var width := ToInt(w);
    var height := ToInt(h);
    TileGrid.Rect(ToInt(x), ToInt(y), if width < 0 then 0 else width, if height < 0 then 0 else height)
  }

  /**
   * `SkipNonNumeric` as written: it has no end check, so with no digit left
   * it reads the terminating NUL, steps past it and reads beyond the
   * payload.  `None` stands for that out-of-bounds read.
   */
  function SkipNonNumericAsWritten(s: string, i: nat): (j: Option<nat>)
    requires i <= |s|
    ensures j.None? <==> !HasDigitFrom(s, i)
    ensures j.Some? ==> j.value == NonDigitRunEnd(s, i) && j.value < |s|
    decreases |s| - i
  {
    if i == |s| then None
    else if IsDigit(s[i]) then Some(i)
    else SkipNonNumericAsWritten(s, i + 1)
  }

  /** A skip as written followed by `ParseLong`. */
  function NumberAfterAsWritten(s: string, i: nat): (r: Option<(nat, nat)>)
    requires i <= |s|
  {
    match SkipNonNumericAsWritten(s, i)
    case None => None
    case Some(j) => Some(LongFrom(s, j))
  }

  /**
   * `ParseRect` as written: `None` when a skip runs off the end.  Its guard
   * for an iterator at the end after the first skip is kept, though that
   * skip never stops at the end.
   */
  function RectAsWritten(s: string, i: nat): (r: Option<(TileGrid.Rect, nat)>)
    requires i <= |s|
  {
    match SkipNonNumericAsWritten(s, i)
    case None => None
    case Some(j) =>
      if j == |s| then Some((EmptyRect, j))
      else
        var (x, j1) := LongFrom(s, j);
        match NumberAfterAsWritten(s, j1)
        case None => None
        case Some(yj) =>
          match NumberAfterAsWritten(s, yj.1)
          case None => None
          case Some(wj) =>
            match NumberAfterAsWritten(s, wj.1)
            case None => None
            case Some(hj) => Some((GfxRect(x, yj.0, wj.0, hj.0), hj.1))
  }

  /** A skip that stops at the end, followed by `ParseLong`. */
  function NumberAfter(s: string, i: nat): (r: (nat, nat))
    requires i <= |s|
    ensures i <= r.1 <= |s|
  {
    LongFrom(s, NonDigitRunEnd(s, i))
  }

  /**
   * `ParseRect` with the skip stopping at the end: the empty rect when no
   * digit is left, otherwise four numbers separated by non-digit runs (a
   * number missing at the end reads as 0), narrowed into a `gfx::Rect`.
   */
  function RectFrom(s: string, i: nat): (r: (TileGrid.Rect, nat))
    requires i <= |s|
    ensures i <= r.1 <= |s|
    ensures i < |s| ==> i < r.1
  {
    var j := NonDigitRunEnd(s, i);
    if j == |s| then (EmptyRect, j)
    else
      var (x, j1) := LongFrom(s, j);
      var (y, j2) := NumberAfter(s, j1);
      var (w, j3) := NumberAfter(s, j2);
      var (h, j4) := NumberAfter(s, j3);
      (GfxRect(x, y, w, h), j4)
  }

  /** Where the parser as written stays in bounds, it agrees with `RectFrom`. */
  lemma RectAsWrittenAgrees(s: string, i: nat)
    requires i <= |s|
    ensures RectAsWritten(s, i).Some? ==> RectAsWritten(s, i) == Some(RectFrom(s, i))
  {
  }

  /**
   * With no digit left, the parser as written reads past the payload where
   * its guard meant to return the empty rect; "" is such a payload.
   */
  lemma RectAsWrittenOverruns(s: string, i: nat)
    requires i <= |s| && !HasDigitFrom(s, i)
    ensures RectAsWritten(s, i).None?
    ensures RectFrom(s, i) == (EmptyRect, |s|)
  {
    NonDigitRunFacts(s, i);
  }

  lemma EmptyPayloadOverruns()
    ensures RectAsWritten("", 0).None? && RectFrom("", 0) == (EmptyRect, 0)
  {
    RectAsWrittenOverruns("", 0);
  }

  /** `ParseRect`, with the corrected skip. */
  method ParseRect(s: string, i: nat) returns (rect: TileGrid.Rect, next: nat)
    requires i <= |s|
    ensures (rect, next) == RectFrom(s, i)
  {
    var j := SkipNonNumeric(s, i);
    if j == |s| {
      return EmptyRect, j;
    }
    var x, y, w, h;
    x, next := ParseLong(s, j, 0);
    next := SkipNonNumeric(s, next);
    y, next := ParseLong(s, next, 0);
    next := SkipNonNumeric(s, next);
    w, next := ParseLong(s, next, 0);
    next := SkipNonNumeric(s, next);
    h, next := ParseLong(s, next, 0);
    rect := GfxRect(x, y, w, h);
  }

  /** What `ParseMultipleRects` returns: `ParseRect` repeated to the end. */
  function RectsFrom(s: string, i: nat): (rects: seq<TileGrid.Rect>)
    requires i <= |s|
    ensures |rects| <= |s| - i
    decreases |s| - i
  {
    if i == |s| then []
    else
      var (rect, next) := RectFrom(s, i);
      [rect] + RectsFrom(s, next)
  }

  /** One rectangle read by `ParseMultipleRects`. */
  lemma RectsStep(s: string, i: nat)
    requires i < |s|
    ensures RectsFrom(s, i) == [RectFrom(s, i).0] + RectsFrom(s, RectFrom(s, i).1)
  {
  }

  /** The loop step of `ParseMultipleRects`: the rectangle read at `next` joins those read before. */
  lemma RectsAppend(s: string, i: nat, next: nat, result: seq<TileGrid.Rect>, rect: TileGrid.Rect, after: nat)
    requires i <= next < |s| && (rect, after) == RectFrom(s, next)
    requires RectsFrom(s, i) == result + RectsFrom(s, next)
    ensures next < after <= |s| && RectsFrom(s, i) == (result + [rect]) + RectsFrom(s, after)
  {
    RectsStep(s, next);
    assert result + ([rect] + RectsFrom(s, after)) == (result + [rect]) + RectsFrom(s, after);
  }

  /** `ParseMultipleRects`; `size` only reserves capacity. */
  method ParseMultipleRects(s: string, i: nat, size: nat) returns (result: seq<TileGrid.Rect>)
    requires i <= |s|
    ensures result == RectsFrom(s, i)
  {
    result := [];
    var next := i;
    while next < |s|
      invariant i <= next <= |s|
      invariant RectsFrom(s, i) == result + RectsFrom(s, next)
      decreases |s| - next
    {
      var rect, after := ParseRect(s, next);
      RectsAppend(s, i, next, result, rect, after);
      result, next := result + [rect], after;
    }
  }

  // Round trips: printing numbers the way LibreOfficeKit does and parsing
  // them back

  function DigitChar(d: nat): (c: char)
    requires d <= 9
    ensures IsDigit(c) && DigitValue(c) == d
  {
    ('0' as int + d) as char
  }

  /** The decimal digits of `n`. */
  function Decimal(n: nat): (ds: string)
    ensures |ds| > 0
  {
    if n < 10 then [DigitChar(n)] else Decimal(n / 10) + [DigitChar(n % 10)]
  }

  /** The decimal digits are digits. */
  lemma {:induction false} DecimalDigits(n: nat)
    ensures AllDigits(Decimal(n))
  {
    if n >= 10 {
      DecimalDigits(n / 10);
      var ds := Decimal(n);
      assert forall k | 0 <= k < |ds| - 1 :: ds[k] == Decimal(n / 10)[k];
    }
  }

  /** Parsing the decimal digits of a 64-bit value gives the value back. */
  lemma {:induction false} DecimalValue(n: nat)
    requires n < U64Modulus
    ensures Accumulate(0, Decimal(n)) == n
  {
    var ds := Decimal(n);
    if n >= 10 {
      assert ds[..|ds| - 1] == Decimal(n / 10);
      DecimalValue(n / 10);
    }
  }

  /** A run of digits followed by a non-digit or the end is one number. */
  lemma {:induction false} DigitRunOver(s: string, i: nat, ds: string)
    requires i + |ds| <= |s| && s[i..i + |ds|] == ds && AllDigits(ds)
    requires i + |ds| == |s| || !IsDigit(s[i + |ds|])
    ensures DigitRunEnd(s, i) == i + |ds|
    decreases |ds|
  {
    if ds != [] {
      assert s[i] == ds[0];
      assert s[i + 1..i + 1 + |ds[1..]|] == ds[1..];
      DigitRunOver(s, i + 1, ds[1..]);
    }
  }

  /** The number printed at `i` is parsed back, ending where it ends. */
  lemma NumberAt(s: string, i: nat, n: nat, j: nat)
    requires n < U64Modulus && j == i + |Decimal(n)|
    requires j <= |s| && s[i..j] == Decimal(n)
    requires j == |s| || !IsDigit(s[j])
    ensures i < |s| && IsDigit(s[i])
    ensures LongFrom(s, i) == (n, j)
  {
    DecimalDigits(n);
    assert s[i] == Decimal(n)[0];
    DigitRunOver(s, i, Decimal(n));
    DecimalValue(n);
    AccumulateAtSlice(s, 0, i, i + |Decimal(n)|);
  }

  /** Numbers joined by ", ", as LibreOfficeKit prints its CSV payloads. */
  function FormatCsv(ns: seq<nat>): (text: string)
    ensures |text| == CsvLength(ns)
  {
    if ns == [] then ""
    else if |ns| == 1 then Decimal(ns[0])
    else Decimal(ns[0]) + ", " + FormatCsv(ns[1..])
  }

  /** The length of a printed list. */
  function CsvLength(ns: seq<nat>): nat
  {
    if ns == [] then 0
    else if |ns| == 1 then |Decimal(ns[0])|
    else |Decimal(ns[0])| + 2 + CsvLength(ns[1..])
  }

  predicate AllU64(ns: seq<nat>)
  {
    forall k | 0 <= k < |ns| :: ns[k] < U64Modulus
  }

  /**
   * `ns` printed with ", " between the numbers sits at position `i` of
   * `s`; stated piece by piece, so that no proof has to unfold the printed
   * text as a whole.
   */
  predicate CsvPrintedAt(s: string, i: nat, ns: seq<nat>)
    decreases |ns|
  {
    ns == [] ||
    var d := |Decimal(ns[0])|;
    i + d <= |s| && s[i..i + d] == Decimal(ns[0]) &&
    (|ns| == 1 ||
     (i + d + 2 <= |s| && s[i + d] == ',' && s[i + d + 1] == ' ' && CsvPrintedAt(s, i + d + 2, ns[1..])))
  }

  /** A printed non-empty list starts with a digit. */
  lemma PrintedStart(s: string, i: nat, ns: seq<nat>)
    requires ns != [] && CsvPrintedAt(s, i, ns)
    ensures i < |s| && IsDigit(s[i])
  {
    DecimalDigits(ns[0]);
    assert s[i] == s[i..i + |Decimal(ns[0])|][0];
  }

  /**
   * Before a digit, `ParseCSV` skips a `,` (or anything that is not `;`)
   * and whitespace, and carries on as from the digit.
   */
  lemma CsvSkip(s: string, i: nat, j: nat)
    requires i < |s| && s[i] != ';'
    requires j == SpaceRunEnd(s, if s[i] == ',' then i + 1 else i)
    requires j < |s| && IsDigit(s[j])
    ensures CsvFrom(s, i) == CsvFrom(s, j)
  {
  }

  /** The ", " separator at `k` is skipped up to the next number. */
  lemma SeparatorSkipped(s: string, k: nat)
    requires k + 2 < |s| && s[k] == ',' && s[k + 1] == ' ' && IsDigit(s[k + 2])
    ensures CsvFrom(s, k) == CsvFrom(s, k + 2)
  {
    assert SpaceRunEnd(s, k + 2) == k + 2;
    CsvSkip(s, k, k + 2);
  }

  /** Where `ParseCSV` leaves the iterator after a list printed at `i` with `length` characters. */
  function ListEnd(s: string, i: nat, length: nat): nat
  {
    if i + length == |s| then |s| else i + length + 1
  }

  /** At the end or at `;` the list is empty. */
  lemma CsvEmptyList(s: string, i: nat)
    requires i == |s| || (i < |s| && s[i] == ';')
    ensures CsvFrom(s, i) == ([], ListEnd(s, i, 0))
  {
  }

  /** A printed number at `i` followed by the end or `;` is the whole list. */
  lemma CsvLastNumber(s: string, i: nat, n: nat)
    requires n < U64Modulus
    requires i + |Decimal(n)| <= |s| && s[i..i + |Decimal(n)|] == Decimal(n)
    requires i + |Decimal(n)| == |s| || s[i + |Decimal(n)|] == ';'
    ensures CsvFrom(s, i) == ([n], ListEnd(s, i, |Decimal(n)|))
  {
    var e := i + |Decimal(n)|;
    NumberAt(s, i, n, e);
    CsvDigitStep(s, i, n, e);
    CsvEmptyList(s, e);
    assert [n] + [] == [n];
  }

  /**
   * A printed number at `i` followed by ", " and a list at `j`: the list
   * from `i` is the number and the list from `j`.
   */
  lemma CsvNextNumber(s: string, i: nat, n: nat, j: nat, tail: seq<nat>, end: nat)
    requires n < U64Modulus && j == i + |Decimal(n)| + 2
    requires j < |s| && s[i..i + |Decimal(n)|] == Decimal(n)
    requires s[j - 2] == ',' && s[j - 1] == ' ' && IsDigit(s[j])
    requires CsvFrom(s, j) == (tail, end)
    ensures CsvFrom(s, i) == ([n] + tail, end)
  {
    NumberAt(s, i, n, j - 2);
    CsvDigitStep(s, i, n, j - 2);
    SeparatorSkipped(s, j - 2);
  }

  /**
   * `ParseCSV` reads back a printed list that ends the payload or is
   * followed by `;`.
   */
  lemma {:induction false} CsvRoundTrip(ns: seq<nat>, s: string, i: nat)
    requires AllU64(ns) && CsvPrintedAt(s, i, ns)
    requires i + CsvLength(ns) == |s| || (i + CsvLength(ns) < |s| && s[i + CsvLength(ns)] == ';')
    ensures CsvFrom(s, i) == (ns, ListEnd(s, i, CsvLength(ns)))
    decreases |ns|
  {
    if |ns| <= 1 {
      CsvShortList(ns, s, i);
    } else {
      var j := i + |Decimal(ns[0])| + 2;
      CsvTailPrinted(ns, s, i);
      CsvRoundTrip(ns[1..], s, j);
      CsvConsList(ns, s, i);
    }
  }

  /** `CsvRoundTrip` for at most one number. */
  lemma CsvShortList(ns: seq<nat>, s: string, i: nat)
    requires |ns| <= 1 && AllU64(ns) && CsvPrintedAt(s, i, ns)
    requires i + CsvLength(ns) == |s| || (i + CsvLength(ns) < |s| && s[i + CsvLength(ns)] == ';')
    ensures CsvFrom(s, i) == (ns, ListEnd(s, i, CsvLength(ns)))
  {
    if ns == [] {
      CsvEmptyList(s, i);
    } else {
      CsvLastNumber(s, i, ns[0]);
      assert [ns[0]] == ns;
    }
  }

  /** The tail of a printed list of two or more numbers is printed after ", ". */
  lemma CsvTailPrinted(ns: seq<nat>, s: string, i: nat)
    requires |ns| > 1 && AllU64(ns) && CsvPrintedAt(s, i, ns)
    requires i + CsvLength(ns) == |s| || (i + CsvLength(ns) < |s| && s[i + CsvLength(ns)] == ';')
    ensures var j := i + |Decimal(ns[0])| + 2;
      AllU64(ns[1..]) && CsvPrintedAt(s, j, ns[1..]) &&
      (j + CsvLength(ns[1..]) == |s| || (j + CsvLength(ns[1..]) < |s| && s[j + CsvLength(ns[1..])] == ';'))
  {
  }

  /** The step of `CsvRoundTrip` from the tail of the list to the whole list. */
  lemma CsvConsList(ns: seq<nat>, s: string, i: nat)
    requires |ns| > 1 && AllU64(ns) && CsvPrintedAt(s, i, ns)
    requires var j := i + |Decimal(ns[0])| + 2;
      CsvFrom(s, j) == (ns[1..], ListEnd(s, j, CsvLength(ns[1..])))
    ensures CsvFrom(s, i) == (ns, ListEnd(s, i, CsvLength(ns)))
  {
    var j := i + |Decimal(ns[0])| + 2;
    var e := ListEnd(s, j, CsvLength(ns[1..]));
    PrintedHead(s, i, ns);
    PrintedStart(s, j, ns[1..]);
    CsvNextNumber(s, i, ns[0], j, ns[1..], e);
    assert CsvLength(ns) == |Decimal(ns[0])| + 2 + CsvLength(ns[1..]);
    assert ListEnd(s, i, CsvLength(ns)) == e;
    assert [ns[0]] + ns[1..] == ns;
  }

  /** The pieces of a printed list of two or more numbers. */
  lemma PrintedHead(s: string, i: nat, ns: seq<nat>)
    requires |ns| > 1 && CsvPrintedAt(s, i, ns)
    ensures var d := |Decimal(ns[0])|;
      i + d + 2 <= |s| && s[i..i + d] == Decimal(ns[0]) &&
      s[i + d] == ',' && s[i + d + 1] == ' ' && CsvPrintedAt(s, i + d + 2, ns[1..])
  {
  }

  /** `a`, then `sep` and a space, then `c`, found at `i`: each piece is found at its place. */
  lemma SeparatedPieces(s: string, i: nat, a: string, sep: char, c: string, f: string)
    requires f == a + [sep, ' '] + c
    requires i + |f| <= |s| && s[i..i + |f|] == f
    ensures s[i..i + |a|] == a && s[i + |a|] == sep && s[i + |a| + 1] == ' '
    ensures s[i + |a| + 2..i + |f|] == c
  {
    var d := |a|;
    assert f[..d] == a && f[d] == sep && f[d + 1] == ' ' && f[d + 2..] == c;
    SliceOfText(s, i, f, 0, d);
    SliceOfText(s, i, f, d + 2, |f|);
    CharOfText(s, i, f, d);
    CharOfText(s, i, f, d + 1);
  }

  /** A character of a text found at `i`. */
  lemma CharOfText(s: string, i: nat, f: string, k: nat)
    requires i + |f| <= |s| && s[i..i + |f|] == f && k < |f|
    ensures s[i + k] == f[k]
  {
    assert s[i..i + |f|][k] == s[i + k];
  }

  /** A piece of a text found at `i` is found at the matching place. */
  lemma SliceOfText(s: string, i: nat, f: string, a: nat, b: nat)
    requires i + |f| <= |s| && s[i..i + |f|] == f && a <= b <= |f|
    ensures s[i + a..i + b] == f[a..b]
  {
    assert forall k | i <= k < i + |f| :: s[k] == s[i..i + |f|][k - i];
  }

  /** The printed text, placed at `i`, is printed there piece by piece. */
  lemma {:induction false} FormatCsvPrinted(s: string, i: nat, ns: seq<nat>)
    requires i + |FormatCsv(ns)| <= |s| && s[i..i + |FormatCsv(ns)|] == FormatCsv(ns)
    ensures CsvPrintedAt(s, i, ns)
    decreases |ns|
  {
    if |ns| > 1 {
      var ds, rest := Decimal(ns[0]), FormatCsv(ns[1..]);
      SeparatedPieces(s, i, ds, ',', rest, FormatCsv(ns));
      FormatCsvPrinted(s, i + |ds| + 2, ns[1..]);
    } else if |ns| == 1 {
      assert s[i..i + |Decimal(ns[0])|] == FormatCsv(ns);
    }
  }

  /** Printing a list and parsing it back gives the list. */
  lemma CsvParsesPrinted(ns: seq<nat>)
    requires AllU64(ns)
    ensures CsvFrom(FormatCsv(ns), 0) == (ns, |FormatCsv(ns)|)
  {
    var s := FormatCsv(ns);
    assert s[0..|s|] == s;
    FormatCsvPrinted(s, 0, ns);
    CsvRoundTrip(ns, s, 0);
  }

  /** A ", " separator at `k` followed by a printed number: the skip and `ParseLong` read that number. */
  lemma SeparatedNumberAt(s: string, k: nat, n: nat, j: nat)
    requires n < U64Modulus && j == k + 2 + |Decimal(n)| && j <= |s|
    requires s[k] == ',' && s[k + 1] == ' ' && s[k + 2..j] == Decimal(n)
    requires j == |s| || !IsDigit(s[j])
    ensures NumberAfter(s, k) == (n, j)
  {
    NumberAt(s, k + 2, n, j);
    assert NonDigitRunEnd(s, k + 2) == k + 2;
    assert NonDigitRunEnd(s, k + 1) == NonDigitRunEnd(s, k + 2);
    assert NonDigitRunEnd(s, k) == NonDigitRunEnd(s, k + 1);
  }

  /**
   * `ParseRect` reads back a rectangle printed as "x, y, w, h", as
   * LibreOfficeKit prints an invalidated area or a page rectangle, when
   * every number fits an `int` and a non-digit or the end follows.
   */
  lemma RectRoundTrip(s: string, i: nat, x: nat, y: nat, w: nat, h: nat)
    requires x <= IntMax && y <= IntMax && w <= IntMax && h <= IntMax
    requires CsvPrintedAt(s, i, [x, y, w, h])
    requires i + CsvLength([x, y, w, h]) == |s| || (i + CsvLength([x, y, w, h]) < |s| && !IsDigit(s[i + CsvLength([x, y, w, h])]))
    ensures RectFrom(s, i) == (TileGrid.Rect(x, y, w, h), i + CsvLength([x, y, w, h]))
  {
    var k1, k2, k3, e := RectPieces(s, i, x, y, w, h);
    RectFromPieces(s, i, x, y, w, h, k1, k2, k3, e);
  }

  /** The four numbers found at their places, with ", " between them, are read as the rectangle. */
  lemma RectFromPieces(s: string, i: nat, x: nat, y: nat, w: nat, h: nat, k1: nat, k2: nat, k3: nat, e: nat)
    requires x <= IntMax && y <= IntMax && w <= IntMax && h <= IntMax
    requires k1 == i + |Decimal(x)| && k2 == k1 + 2 + |Decimal(y)| && k3 == k2 + 2 + |Decimal(w)|
    requires e == k3 + 2 + |Decimal(h)| && e <= |s|
    requires s[i..k1] == Decimal(x) && s[k1 + 2..k2] == Decimal(y)
    requires s[k2 + 2..k3] == Decimal(w) && s[k3 + 2..e] == Decimal(h)
    requires s[k1] == ',' && s[k1 + 1] == ' ' && s[k2] == ',' && s[k2 + 1] == ' '
    requires s[k3] == ',' && s[k3 + 1] == ' '
    requires e == |s| || !IsDigit(s[e])
    ensures RectFrom(s, i) == (TileGrid.Rect(x, y, w, h), e)
  {
    NumberAt(s, i, x, k1);
    SeparatedNumberAt(s, k1, y, k2);
    SeparatedNumberAt(s, k2, w, k3);
    SeparatedNumberAt(s, k3, h, e);
    RectFromNumbers(s, i, x, y, w, h, k1, k2, k3, e);
  }

  /** Where the four numbers of a rectangle printed at `i` end, and the separators between them. */
  lemma RectPieces(s: string, i: nat, x: nat, y: nat, w: nat, h: nat) returns (k1: nat, k2: nat, k3: nat, e: nat)
    requires CsvPrintedAt(s, i, [x, y, w, h])
    ensures k1 == i + |Decimal(x)| && k2 == k1 + 2 + |Decimal(y)| && k3 == k2 + 2 + |Decimal(w)|
    ensures e == k3 + 2 + |Decimal(h)| && e == i + CsvLength([x, y, w, h]) && e <= |s|
    ensures s[i..k1] == Decimal(x) && s[k1 + 2..k2] == Decimal(y)
    ensures s[k2 + 2..k3] == Decimal(w) && s[k3 + 2..e] == Decimal(h)
    ensures s[k1] == ',' && s[k1 + 1] == ' ' && s[k2] == ',' && s[k2 + 1] == ' '
    ensures s[k3] == ',' && s[k3 + 1] == ' '
  {
    k1 := PrintedFirst(s, i, [x, y, w, h]);
    assert [x, y, w, h][1..] == [y, w, h];
    k2 := PrintedFirst(s, k1 + 2, [y, w, h]);
    assert [y, w, h][1..] == [w, h];
    k3 := PrintedFirst(s, k2 + 2, [w, h]);
    assert [w, h][1..] == [h];
    e := PrintedFirst(s, k3 + 2, [h]);
  }

  /**
   * The first number of a list printed at `i` ends at `k`, and either the
   * list ends there or ", " and the rest of the list follow.
   */
  lemma PrintedFirst(s: string, i: nat, ns: seq<nat>) returns (k: nat)
    requires ns != [] && CsvPrintedAt(s, i, ns)
    ensures k == i + |Decimal(ns[0])| && k <= |s| && s[i..k] == Decimal(ns[0])
    ensures |ns| == 1 ==> CsvLength(ns) == k - i
    ensures |ns| > 1 ==> k + 2 <= |s| && s[k] == ',' && s[k + 1] == ' ' && CsvPrintedAt(s, k + 2, ns[1..])
    ensures |ns| > 1 ==> CsvLength(ns) == k + 2 - i + CsvLength(ns[1..])
  {
    k := i + |Decimal(ns[0])|;
  }

  /** `RectFrom` assembled from the four numbers it reads. */
  lemma RectFromNumbers(s: string, i: nat, x: nat, y: nat, w: nat, h: nat, k1: nat, k2: nat, k3: nat, e: nat)
    requires i < |s| && IsDigit(s[i]) && k1 <= |s| && k2 <= |s| && k3 <= |s|
    requires LongFrom(s, i) == (x, k1) && NumberAfter(s, k1) == (y, k2)
    requires NumberAfter(s, k2) == (w, k3) && NumberAfter(s, k3) == (h, e)
    ensures RectFrom(s, i) == (GfxRect(x, y, w, h), e)
  {
    assert NonDigitRunEnd(s, i) == i;
  }

  /** Printing a rectangle and parsing it back gives the rectangle. */
  lemma RectParsesPrinted(x: nat, y: nat, w: nat, h: nat)
    requires x <= IntMax && y <= IntMax && w <= IntMax && h <= IntMax
    ensures RectFrom(FormatCsv([x, y, w, h]), 0) == (TileGrid.Rect(x, y, w, h), |FormatCsv([x, y, w, h])|)
  {
    var s := FormatCsv([x, y, w, h]);
    assert s[0..|s|] == s;
    FormatCsvPrinted(s, 0, [x, y, w, h]);
    RectRoundTrip(s, 0, x, y, w, h);
  }

  /** Lists joined by "; ", as in a text selection payload. */
  function FormatMultipleCsv(lists: seq<seq<nat>>): string
  {
    if lists == [] then ""
    else if |lists| == 1 then FormatCsv(lists[0])
    else FormatCsv(lists[0]) + "; " + FormatMultipleCsv(lists[1..])
  }

  predicate PrintableLists(lists: seq<seq<nat>>)
  {
    forall k | 0 <= k < |lists| :: lists[k] != [] && AllU64(lists[k])
  }

  /** `lists` printed with "; " between them from `i` to the end of `s`. */
  predicate MultiplePrintedAt(s: string, i: nat, lists: seq<seq<nat>>)
    decreases |lists|
  {
    if lists == [] then i == |s|
    else
      var e := i + CsvLength(lists[0]);
      CsvPrintedAt(s, i, lists[0]) &&
      if |lists| == 1 then e == |s|
      else e + 2 <= |s| && s[e] == ';' && s[e + 1] == ' ' && MultiplePrintedAt(s, e + 2, lists[1..])
  }

  lemma {:induction false} FormatCsvOnly(ns: seq<nat>)
    ensures CsvOnly(FormatCsv(ns), 0)
    decreases |ns|
  {
    if ns != [] {
      DecimalDigits(ns[0]);
    }
    if |ns| > 1 {
      FormatCsvOnly(ns[1..]);
      var ds, rest := Decimal(ns[0]), FormatCsv(ns[1..]);
      assert forall k | |ds| + 2 <= k < |ds| + 2 + |rest| :: FormatCsv(ns)[k] == rest[k - |ds| - 2];
    }
  }

  lemma {:induction false} FormatMultipleCsvOnly(lists: seq<seq<nat>>)
    ensures CsvOnly(FormatMultipleCsv(lists), 0)
    decreases |lists|
  {
    if lists != [] {
      FormatCsvOnly(lists[0]);
    }
    if |lists| > 1 {
      FormatMultipleCsvOnly(lists[1..]);
      var head, rest := FormatCsv(lists[0]), FormatMultipleCsv(lists[1..]);
      assert forall k | |head| + 2 <= k < |head| + 2 + |rest| ::
        FormatMultipleCsv(lists)[k] == rest[k - |head| - 2];
    }
  }

  /** The printed text, from `i` to the end of `s`, is printed there piece by piece. */
  lemma {:induction false} FormatMultiplePrinted(s: string, i: nat, lists: seq<seq<nat>>)
    requires i <= |s| && s[i..] == FormatMultipleCsv(lists)
    ensures MultiplePrintedAt(s, i, lists)
    decreases |lists|
  {
    var f := FormatMultipleCsv(lists);
    assert s[i..i + |f|] == f;
    if |lists| == 1 {
      FormatCsvPrinted(s, i, lists[0]);
    } else if |lists| > 1 {
      var head, rest := FormatCsv(lists[0]), FormatMultipleCsv(lists[1..]);
      SeparatedPieces(s, i, head, ';', rest, f);
      FormatCsvPrinted(s, i, lists[0]);
      assert s[i + |head| + 2..] == rest;
      FormatMultiplePrinted(s, i + |head| + 2, lists[1..]);
    }
  }

  /** A list parsed up to "; " and a further list: `ParseMultipleCSV` goes on from the list. */
  lemma MultipleNext(s: string, e: nat)
    requires e + 2 < |s| && s[e] == ';' && s[e + 1] == ' ' && IsDigit(s[e + 2]) && CsvOnly(s, e + 1)
    ensures MultipleCsvFrom(s, e + 1) == MultipleCsvFrom(s, e + 2)
  {
    assert SpaceRunEnd(s, e + 2) == e + 2;
    CsvSkip(s, e + 1, e + 2);
  }

  /** A list ending in "; " before a further list, read by `ParseMultipleCSV`. */
  lemma MultipleCons(s: string, i: nat, e: nat, head: seq<nat>, tail: seq<seq<nat>>)
    requires i <= e && e + 2 < |s| && CsvOnly(s, i)
    requires s[e] == ';' && s[e + 1] == ' ' && IsDigit(s[e + 2])
    requires CsvFrom(s, i) == (head, e + 1) && MultipleCsvFrom(s, e + 2) == tail
    ensures MultipleCsvFrom(s, i) == [head] + tail
  {
    MultipleNext(s, e);
  }

  /**
   * `ParseMultipleCSV` reads back non-empty lists printed with "; " between
   * them, from position `i` to the end of the payload.
   */
  lemma {:induction false} MultipleCsvRoundTrip(lists: seq<seq<nat>>, s: string, i: nat)
    requires PrintableLists(lists) && i <= |s| && CsvOnly(s, i)
    requires MultiplePrintedAt(s, i, lists)
    ensures MultipleCsvFrom(s, i) == lists
    decreases |lists|
  {
    if lists != [] {
      var e := i + CsvLength(lists[0]);
      CsvRoundTrip(lists[0], s, i);
      if |lists| > 1 {
        assert MultiplePrintedAt(s, e + 2, lists[1..]);
        PrintedStart(s, e + 2, lists[1][..]);
        assert lists[1..][0] == lists[1];
        MultipleCsvRoundTrip(lists[1..], s, e + 2);
        MultipleCons(s, i, e, lists[0], lists[1..]);
        assert [lists[0]] + lists[1..] == lists;
      }
    }
  }

  /** Printing a text selection's lists and parsing them back gives them back. */
  lemma MultipleCsvParsesPrinted(lists: seq<seq<nat>>)
    requires PrintableLists(lists)
    ensures CsvOnly(FormatMultipleCsv(lists), 0)
    ensures MultipleCsvFrom(FormatMultipleCsv(lists), 0) == lists
  {
    var s := FormatMultipleCsv(lists);
    assert s[0..] == s;
    FormatMultipleCsvOnly(lists);
    FormatMultiplePrinted(s, 0, lists);
    MultipleCsvRoundTrip(lists, s, 0);
  }

  /** Four numbers that fit an `int`, as LibreOfficeKit prints a page rectangle. */
  predicate PrintableRects(lists: seq<seq<nat>>)
  {
    forall k | 0 <= k < |lists| :: RectNumbers(lists[k])
  }

  /** Four numbers, each within an `int`. */
  predicate RectNumbers(ns: seq<nat>)
  {
    |ns| == 4 && ns[0] <= IntMax && ns[1] <= IntMax && ns[2] <= IntMax && ns[3] <= IntMax
  }

  /** The rectangles the printed lists stand for, in order. */
  function RectsOf(lists: seq<seq<nat>>): (rects: seq<TileGrid.Rect>)
    requires PrintableRects(lists)
    ensures |rects| == |lists|
  {
    if lists == [] then []
    else [TileGrid.Rect(lists[0][0], lists[0][1], lists[0][2], lists[0][3])] + RectsOf(lists[1..])
  }

  /** Between two rectangles `ParseMultipleRects` skips the "; " and reads on from the next digit. */
  lemma RectSeparatorSkipped(s: string, e: nat)
    requires e + 2 < |s| && !IsDigit(s[e]) && !IsDigit(s[e + 1]) && IsDigit(s[e + 2])
    ensures RectsFrom(s, e) == RectsFrom(s, e + 2)
  {
    assert NonDigitRunEnd(s, e + 2) == e + 2;
    assert NonDigitRunEnd(s, e) == e + 2;
    RectsStep(s, e);
    RectsStep(s, e + 2);
  }

  /**
   * `ParseMultipleRects` reads back rectangles printed as "x, y, w, h" with
   * "; " between them, from position `i` to the end of the payload, in
   * order, as `getPartPageRectangles` prints the page rectangles.
   */
  lemma {:induction false} MultipleRectsRoundTrip(lists: seq<seq<nat>>, s: string, i: nat)
    requires PrintableRects(lists) && i <= |s|
    requires MultiplePrintedAt(s, i, lists)
    ensures RectsFrom(s, i) == RectsOf(lists)
    decreases |lists|
  {
    if lists == [] {
    } else if |lists| == 1 {
      RectsSingle(lists, s, i);
    } else {
      var e := RectsTailPrinted(lists, s, i);
      MultipleRectsRoundTrip(lists[1..], s, e + 2);
      RectsConsList(lists, s, i, e);
    }
  }

  /** A single printed rectangle up to the end is read back. */
  lemma RectsSingle(lists: seq<seq<nat>>, s: string, i: nat)
    requires |lists| == 1 && PrintableRects(lists) && MultiplePrintedAt(s, i, lists)
    ensures RectsFrom(s, i) == RectsOf(lists)
  {
    SinglePrinted(lists, s, i);
    RectsLast(lists[0], s, i);
    assert RectsOf(lists) == [TileGrid.Rect(lists[0][0], lists[0][1], lists[0][2], lists[0][3])];
  }

  lemma SinglePrinted(lists: seq<seq<nat>>, s: string, i: nat)
    requires |lists| == 1 && PrintableRects(lists) && MultiplePrintedAt(s, i, lists)
    ensures RectNumbers(lists[0]) && CsvPrintedAt(s, i, lists[0]) && i + CsvLength(lists[0]) == |s|
  {
  }

  /** A printed rectangle that ends the payload is the last one read. */
  lemma RectsLast(ns: seq<nat>, s: string, i: nat)
    requires RectNumbers(ns) && CsvPrintedAt(s, i, ns) && i + CsvLength(ns) == |s|
    ensures RectsFrom(s, i) == [TileGrid.Rect(ns[0], ns[1], ns[2], ns[3])]
  {
    var e := RectsHead(s, i, ns);
    RectsOne(s, i, TileGrid.Rect(ns[0], ns[1], ns[2], ns[3]));
  }

  /** After the first printed rectangle come "; " and the rest, printed from `e + 2`. */
  lemma RectsTailPrinted(lists: seq<seq<nat>>, s: string, i: nat) returns (e: nat)
    requires |lists| > 1 && PrintableRects(lists) && MultiplePrintedAt(s, i, lists)
    ensures e == i + CsvLength(lists[0]) && e + 2 <= |s| && s[e] == ';' && s[e + 1] == ' '
    ensures PrintableRects(lists[1..]) && MultiplePrintedAt(s, e + 2, lists[1..])
    ensures RectNumbers(lists[0]) && CsvPrintedAt(s, i, lists[0]) && e + 2 < |s| && IsDigit(s[e + 2])
  {
    e := i + CsvLength(lists[0]);
    assert CsvPrintedAt(s, e + 2, lists[1..][0]);
    PrintedStart(s, e + 2, lists[1..][0]);
  }

  /** The step of `MultipleRectsRoundTrip` from the rest of the list to the whole list. */
  lemma RectsConsList(lists: seq<seq<nat>>, s: string, i: nat, e: nat)
    requires |lists| > 1 && PrintableRects(lists) && CsvPrintedAt(s, i, lists[0])
    requires e == i + CsvLength(lists[0]) && e + 2 < |s| && s[e] == ';' && s[e + 1] == ' ' && IsDigit(s[e + 2])
    requires RectsFrom(s, e + 2) == RectsOf(lists[1..])
    ensures RectsFrom(s, i) == RectsOf(lists)
  {
    assert RectNumbers(lists[0]);
    var _ := RectsHead(s, i, lists[0]);
    RectsCons(s, i, TileGrid.Rect(lists[0][0], lists[0][1], lists[0][2], lists[0][3]), e, RectsOf(lists[1..]));
  }

  /** One printed rectangle at `i`, then the end or a non-digit: `ParseRect` reads it and stops at `e`. */
  lemma RectsHead(s: string, i: nat, ns: seq<nat>) returns (e: nat)
    requires RectNumbers(ns) && CsvPrintedAt(s, i, ns)
    requires i + CsvLength(ns) == |s| || (i + CsvLength(ns) < |s| && !IsDigit(s[i + CsvLength(ns)]))
    ensures e == i + CsvLength(ns) && i < e <= |s|
    ensures RectFrom(s, i) == (TileGrid.Rect(ns[0], ns[1], ns[2], ns[3]), e)
  {
    var x, y, w, h := ns[0], ns[1], ns[2], ns[3];
    assert ns == [x, y, w, h];
    e := i + CsvLength(ns);
    PrintedStart(s, i, ns);
    RectRoundTrip(s, i, x, y, w, h);
  }

  /** A rectangle read up to the end is the last one. */
  lemma RectsOne(s: string, i: nat, r: TileGrid.Rect)
    requires i < |s| && RectFrom(s, i) == (r, |s|)
    ensures RectsFrom(s, i) == [r]
  {
    RectsStep(s, i);
    assert [r] + [] == [r];
  }

  /** A rectangle read up to a separator of two non-digits before the next digit, and the rest. */
  lemma RectsCons(s: string, i: nat, r: TileGrid.Rect, e: nat, rest: seq<TileGrid.Rect>)
    requires i < |s| && RectFrom(s, i) == (r, e)
    requires e + 2 < |s| && !IsDigit(s[e]) && !IsDigit(s[e + 1]) && IsDigit(s[e + 2])
    requires RectsFrom(s, e + 2) == rest
    ensures RectsFrom(s, i) == [r] + rest
  {
    RectsStep(s, i);
    RectSeparatorSkipped(s, e);
  }

  /** Printing page rectangles and parsing them back gives them back. */
  lemma MultipleRectsParsesPrinted(lists: seq<seq<nat>>)
    requires PrintableRects(lists)
    ensures RectsFrom(FormatMultipleCsv(lists), 0) == RectsOf(lists)
  {
    var s := FormatMultipleCsv(lists);
    assert s[0..] == s;
    FormatMultiplePrinted(s, 0, lists);
    MultipleRectsRoundTrip(lists, s, 0);
  }

  /**
   * A trailing `;` (or any other text without a digit) is read as one more
   * rectangle, the empty one: the reader stops only at the end.
   */
  lemma TrailingSeparatorGivesEmptyRect(s: string, i: nat)
    requires i < |s| && !HasDigitFrom(s, i)
    ensures RectsFrom(s, i) == [EmptyRect]
  {
    NonDigitRunFacts(s, i);
    RectsStep(s, i);
  }

  /**
   * A last rectangle followed by a terminating `;` (or other text without a
   * digit) reads as that rectangle and then the empty rectangle.
   */
  lemma LastRectThenTerminator(ns: seq<nat>, s: string, i: nat)
    requires RectNumbers(ns) && CsvPrintedAt(s, i, ns)
    requires i + CsvLength(ns) < |s| && !HasDigitFrom(s, i + CsvLength(ns))
    ensures RectsFrom(s, i) == [TileGrid.Rect(ns[0], ns[1], ns[2], ns[3]), EmptyRect]
  {
    assert !IsDigit(s[i + CsvLength(ns)]);
    var e := RectsHead(s, i, ns);
    var r := TileGrid.Rect(ns[0], ns[1], ns[2], ns[3]);
    TrailingSeparatorGivesEmptyRect(s, e);
    RectsStep(s, i);
    assert [r] + [EmptyRect] == [r, EmptyRect];
  }

  // Callback types

  /**
   * The LibreOfficeKit callback types that have an event name, and any
   * other `int` (`Code`).  The library's numeric values are not part of
   * this model: the named types are taken to be distinct from each other
   * and from every `Code`, which is what the lookups below rely on.
   */
  datatype CallbackType =
    | InvalidateTiles
    | InvalidateVisibleCursor
    | TextSelection
    | TextSelectionStart
    | TextSelectionEnd
    | CursorVisible
    | ViewCursorVisible
    | GraphicSelection
    | GraphicViewSelection
    | CellCursor
    | HyperlinkClicked
    | MousePointer
    | StateChanged
    | StatusIndicatorStart
    | StatusIndicatorSetValue
    | StatusIndicatorFinish
    | SearchNotFound
    | DocumentSizeChanged
    | SetPart
    | SearchResultSelection
    | DocumentPassword
    | DocumentPasswordToModify
    | ContextMenu
    | InvalidateViewCursor
    | TextViewSelection
    | CellViewCursor
    | CellAddress
    | CellFormula
    | UnoCommandResult
    | Error
    | ViewLock
    | RedlineTableSizeChanged
    | RedlineTableEntryModified
    | InvalidateHeader
    | Comment
    | RulerUpdate
    | Window
    | ValidityListButton
    | ValidityInputHelp
    | ClipboardChanged
    | ContextChanged
    | SignatureStatus
    | ProfileFrame
    | CellSelectionArea
    | CellAutoFillArea
    | TableSelected
    | ReferenceMarks
    | Jsdialog
    | CalcFunctionList
    | TabStopList
    | FormFieldButton
    | InvalidateSheetGeometry
    | DocumentBackgroundColor
    | CommandBlocked
    | ScFollowJump
    | ContentControl
    | PrintRanges
    | FontsMissing
    | MacroColorizer
    | MacroOverlay
    | MediaShape
    | ExportFile
    | ViewRenderState
    | ApplicationBackgroundColor
    | A11yFocusChanged
    | A11yCaretChanged
    | A11yTextSelectionChanged
    | ColorPalettes
    | DocumentPasswordReset
    | A11yFocusedCellChanged
    | Code(value: int)

  /** The code of the internal "ready" event. */
  const ReadyCode: int := 300

  /** The code `EventStringToType` answers for an unknown name. */
  const UnknownCode: int := -1

  /** The name under which `EventStringToType`'s table lists a type. */
  function EventName(t: CallbackType): Option<string>
  {
    match t
    case InvalidateTiles => Some("invalidate_tiles")
    case InvalidateVisibleCursor => Some("invalidate_visible_cursor")
    case TextSelection => Some("text_selection")
    case TextSelectionStart => Some("text_selection_start")
    case TextSelectionEnd => Some("text_selection_end")
    case CursorVisible => Some("cursor_visible")
    case ViewCursorVisible => Some("view_cursor_visible")
    case GraphicSelection => Some("graphic_selection")
    case GraphicViewSelection => Some("graphic_view_selection")
    case CellCursor => Some("cell_cursor")
    case HyperlinkClicked => Some("hyperlink_clicked")
    case MousePointer => Some("mouse_pointer")
    case StateChanged => Some("state_changed")
    case StatusIndicatorStart => Some("status_indicator_start")
    case StatusIndicatorSetValue => Some("status_indicator_set_value")
    case StatusIndicatorFinish => Some("status_indicator_finish")
    case SearchNotFound => Some("search_not_found")
    case DocumentSizeChanged => Some("document_size_changed")
    case SetPart => Some("set_part")
    case SearchResultSelection => Some("search_result_selection")
    case DocumentPassword => Some("document_password")
    case DocumentPasswordToModify => Some("document_password_to_modify")
    case ContextMenu => Some("context_menu")
    case InvalidateViewCursor => Some("invalidate_view_cursor")
    case TextViewSelection => Some("text_view_selection")
    case CellViewCursor => Some("cell_view_cursor")
    case CellAddress => Some("cell_address")
    case CellFormula => Some("cell_formula")
    case UnoCommandResult => Some("uno_command_result")
    case Error => Some("error")
    case ViewLock => Some("view_lock")
    case RedlineTableSizeChanged => Some("redline_table_size_changed")
    case RedlineTableEntryModified => Some("redline_table_entry_modified")
    case InvalidateHeader => Some("invalidate_header")
    case Comment => Some("comment")
    case RulerUpdate => Some("ruler_update")
    case Window => Some("window")
    case ValidityListButton => Some("validity_list_button")
    case ValidityInputHelp => Some("validity_input_help")
    case ClipboardChanged => Some("clipboard_changed")
    case ContextChanged => Some("context_changed")
    case SignatureStatus => Some("signature_status")
    case ProfileFrame => Some("profile_frame")
    case CellSelectionArea => Some("cell_selection_area")
    case CellAutoFillArea => Some("cell_auto_fill_area")
    case TableSelected => Some("table_selected")
    case ReferenceMarks => Some("reference_marks")
    case Jsdialog => Some("jsdialog")
    case CalcFunctionList => Some("calc_function_list")
    case TabStopList => Some("tab_stop_list")
    case FormFieldButton => Some("form_field_button")
    case InvalidateSheetGeometry => Some("invalidate_sheet_geometry")
    case DocumentBackgroundColor => Some("document_background_color")
    case CommandBlocked => Some("lok_command_blocked")
    case ScFollowJump => Some("sc_follow_jump")
    case ContentControl => Some("content_control")
    case PrintRanges => Some("print_ranges")
    case FontsMissing => Some("fonts_missing")
    case MacroColorizer => Some("macro_colorizer")
    case MacroOverlay => Some("macro_overlay")
    case MediaShape => Some("media_shape")
    case ExportFile => Some("export_file")
    case ViewRenderState => Some("view_render_state")
    case ApplicationBackgroundColor => Some("application_background_color")
    case A11yFocusChanged => Some("a11y_focus_changed")
    case A11yCaretChanged => Some("a11y_caret_changed")
    case A11yTextSelectionChanged => Some("a11y_text_selection_changed")
    case ColorPalettes => Some("color_palettes")
    case DocumentPasswordReset => Some("document_password_reset")
    case A11yFocusedCellChanged => Some("a11y_focused_cell_changed")
    case Code(value) => if value == ReadyCode then Some("ready") else None
  }

  /** The types the table lists, in its order. */
  const EventTypes: seq<CallbackType> := [
    InvalidateTiles,
    InvalidateVisibleCursor,
    TextSelection,
    TextSelectionStart,
    TextSelectionEnd,
    CursorVisible,
    ViewCursorVisible,
    GraphicSelection,
    GraphicViewSelection,
    CellCursor,
    HyperlinkClicked,
    MousePointer,
    StateChanged,
    StatusIndicatorStart,
    StatusIndicatorSetValue,
    StatusIndicatorFinish,
    SearchNotFound,
    DocumentSizeChanged,
    SetPart,
    SearchResultSelection,
    DocumentPassword,
    DocumentPasswordToModify,
    ContextMenu,
    InvalidateViewCursor,
    TextViewSelection,
    CellViewCursor,
    CellAddress,
    CellFormula,
    UnoCommandResult,
    Error,
    ViewLock,
    RedlineTableSizeChanged,
    RedlineTableEntryModified,
    InvalidateHeader,
    Comment,
    RulerUpdate,
    Window,
    ValidityListButton,
    ValidityInputHelp,
    ClipboardChanged,
    ContextChanged,
    SignatureStatus,
    ProfileFrame,
    CellSelectionArea,
    CellAutoFillArea,
    TableSelected,
    ReferenceMarks,
    Jsdialog,
    CalcFunctionList,
    TabStopList,
    FormFieldButton,
    InvalidateSheetGeometry,
    DocumentBackgroundColor,
    CommandBlocked,
    ScFollowJump,
    ContentControl,
    PrintRanges,
    FontsMissing,
    MacroColorizer,
    MacroOverlay,
    MediaShape,
    ExportFile,
    ViewRenderState,
    ApplicationBackgroundColor,
    A11yFocusChanged,
    A11yCaretChanged,
    A11yTextSelectionChanged,
    ColorPalettes,
    DocumentPasswordReset,
    A11yFocusedCellChanged,
    Code(ReadyCode)
  ]

  /** Whether some listed type is named `s`. */
  predicate IsEventName(s: string)
  {
    exists m | 0 <= m < |EventTypes| :: EventName(EventTypes[m]) == Some(s)
  }

  /** The first position from `k` on whose listed type is named `s`. */
  function FindEvent(s: string, k: nat): (m: Option<nat>)
    requires k <= |EventTypes|
    ensures m.Some? ==> k <= m.value < |EventTypes| && EventName(EventTypes[m.value]) == Some(s)
    ensures m.None? ==> forall n | k <= n < |EventTypes| :: EventName(EventTypes[n]) != Some(s)
    decreases |EventTypes| - k
  {
    if k == |EventTypes| then None
    else if EventName(EventTypes[k]) == Some(s) then Some(k)
    else FindEvent(s, k + 1)
  }

  /** A type that has a name is not the unknown code. */
  lemma NamedIsKnown(t: CallbackType)
    requires EventName(t).Some?
    ensures t != Code(UnknownCode)
  {
  }

  /**
   * `EventStringToType`: the listed type named `s`, or -1.  The answer is
   * always a type whose name is `s`, and it is -1 exactly when no listed
   * type has that name.
   */
  function EventStringToType(s: string): (t: CallbackType)
    ensures t == Code(UnknownCode) || EventName(t) == Some(s)
    ensures t == Code(UnknownCode) <==> !IsEventName(s)
  {
    match FindEvent(s, 0)
    case Some(m) =>
      NamedIsKnown(EventTypes[m]);
      EventTypes[m]
    case None => Code(UnknownCode)
  }

  /** `IsTypeJSON`. */
  predicate IsTypeJSON(t: CallbackType)
  {
    match t
    case InvalidateVisibleCursor
      | CursorVisible
      | ViewCursorVisible
      | GraphicSelection
      | GraphicViewSelection
      | SetPart
      | SearchResultSelection
      | ContextMenu
      | InvalidateViewCursor
      | TextViewSelection
      | CellViewCursor
      | UnoCommandResult
      | Error
      | ViewLock
      | RedlineTableSizeChanged
      | RedlineTableEntryModified
      | Comment
      | RulerUpdate
      | Window
      | ValidityInputHelp
      | ClipboardChanged
      | ReferenceMarks
      | Jsdialog
      | MacroOverlay
      | MacroColorizer
      | CalcFunctionList
      | TabStopList
      | CommandBlocked
      | TableSelected
      | FormFieldButton
      | ContentControl
      | PrintRanges
      | StatusIndicatorSetValue => true
    case _ => false
  }

  /** `IsTypeCSV`. */
  predicate IsTypeCSV(t: CallbackType)
  {
    match t
    case InvalidateVisibleCursor
      | InvalidateTiles
      | TextSelectionStart
      | TextSelectionEnd
      | CellCursor
      | DocumentSizeChanged
      | ValidityListButton
      | CellSelectionArea
      | CellAutoFillArea
      | ScFollowJump => true
    case _ => false
  }

  /** `IsTypeMultipleCSV`. */
  predicate IsTypeMultipleCSV(t: CallbackType)
  {
    match t
    case TextSelection => true
    case _ => false
  }
  /**
   * The classes overlap only at the visible-cursor type, which carries
   * either kind of payload; text selection is the one multiple-list type and
   * lies in neither of the others.
   */
  lemma PayloadClasses(t: CallbackType)
    ensures IsTypeJSON(t) && IsTypeCSV(t) <==> t == InvalidateVisibleCursor
    ensures IsTypeMultipleCSV(t) <==> t == TextSelection
    ensures IsTypeMultipleCSV(t) ==> !IsTypeJSON(t) && !IsTypeCSV(t)
  {
  }

  // Payload values

  /**
   * The value handed to script: `Json(text)` is the value the host's JSON
   * parser builds from `text`.
   */
  datatype LocalValue =
    | Null
    | Numbers(values: seq<nat>)
    | NumberLists(lists: seq<seq<nat>>)
    | Pair(numbers: seq<nat>, rest: LocalValue)
    | Json(text: string)
    | Text(text: string)

  /** `ParseJSON`: an empty string is null. */
  function ParseJSON(text: string): (v: LocalValue)
    ensures v == Null <==> text == ""
    ensures v != Null ==> v == Json(text)
  {
    if |text| == 0 then Null else Json(text)
  }

  /**
   * `GraphicSelectionPayloadToLocalValue`: the leading numbers, and the JSON
   * that follows them, or null when nothing follows.
   */
  function GraphicSelectionValue(payload: string): (v: LocalValue)
    ensures v.Pair? && v.numbers == CsvFrom(payload, 0).0
    ensures v.rest == Null <==> CsvFrom(payload, 0).1 == |payload|
  {
    var (numbers, next) := CsvFrom(payload, 0);
    Pair(numbers, if next == |payload| then Null else ParseJSON(payload[next..]))
  }

  /** `PayloadToLocalValue`; a null payload is `None`. */
  function PayloadToLocalValue(t: CallbackType, payload: Option<string>): (v: LocalValue)
    ensures payload.None? ==> v == Null
    ensures payload.Some? && t == GraphicSelection ==> v.Pair?
    ensures payload.Some? && t == InvalidateVisibleCursor ==>
      if At(payload.value, 0) == '{' then v == ParseJSON(payload.value)
      else v == Numbers(CsvFrom(payload.value, 0).0)
    ensures payload.Some? && t == StateChanged ==>
      if At(payload.value, 0) == '{' then v == ParseJSON(payload.value) else v == Text(payload.value)
    ensures payload.Some? && t == TextSelection ==> v == NumberLists(MultipleCsvUntilStuck(payload.value, 0))
    ensures payload.Some? && t != GraphicSelection && IsTypeCSV(t) && At(payload.value, 0) != '{' ==>
      v == Numbers(CsvFrom(payload.value, 0).0)
    ensures payload.Some? && t != GraphicSelection && IsTypeJSON(t) && !(IsTypeCSV(t) && At(payload.value, 0) != '{') ==>
      v == ParseJSON(payload.value)
    ensures payload.Some? && !IsTypeJSON(t) && !IsTypeCSV(t) && !IsTypeMultipleCSV(t) && t != StateChanged ==>
      v == Text(payload.value)
  {
    match payload
    case None => Null
    case Some(p) =>
      if t == GraphicSelection then GraphicSelectionValue(p)
      else if IsTypeCSV(t) && At(p, 0) != '{' then Numbers(CsvFrom(p, 0).0)
      else if IsTypeMultipleCSV(t) then NumberLists(MultipleCsvUntilStuck(p, 0))
      else if !IsTypeJSON(t) && !(t == StateChanged && At(p, 0) == '{') then Text(p)
      else ParseJSON(p)
  }
}
