/** The placeholder QR picture: a 25 by 25 grid of cells whose colour
    comes from a 32-bit rolling hash of the displayed string. JavaScript
    numbers are modelled as integers; every intermediate value of the hash
    stays far below 2^53, so double arithmetic is exact there. */
module QrCode {

  /** A UTF-16 code unit, what `charCodeAt` returns. */
  type CodeUnit = x: int | 0 <= x < 0x1_0000

  predicate IsInt32(x: int) {
    -0x8000_0000 <= x < 0x8000_0000
  }

  /** ECMAScript's ToInt32 on an integral number, as applied by `| 0` and
      `<<`: reduce modulo 2^32 into the signed 32-bit range. */
  function ToInt32(x: int): (r: int)
    ensures IsInt32(r)
    ensures IsInt32(x) ==> r == x
  {
    var m := x % 0x1_0000_0000;
    if m >= 0x8000_0000 then m - 0x1_0000_0000 else m
  }

  /** ToInt32 moves its argument by a whole multiple of 2^32. */
  lemma ToInt32Offset(x: int) returns (q: int)
    ensures x == ToInt32(x) + 0x1_0000_0000 * q
  {
    q := x / 0x1_0000_0000;
    if x % 0x1_0000_0000 >= 0x8000_0000 {
      q := q + 1;
    }
  }

  /** Euclidean division by 2^32 has one remainder. */
  lemma Mod2To32Unique(x: int, d: int, r: int)
    requires x == 0x1_0000_0000 * d + r && 0 <= r < 0x1_0000_0000
    ensures x % 0x1_0000_0000 == r
  {
    var q, m := x / 0x1_0000_0000, x % 0x1_0000_0000;
    assert x == 0x1_0000_0000 * q + m;
    assert 0x1_0000_0000 * (d - q) == m - r;
  }

  /** ToInt32 only sees its argument modulo 2^32: adding a multiple of 2^32
      changes nothing. */
  lemma ToInt32Shift(y: int, k: int)
    ensures ToInt32(y + 0x1_0000_0000 * k) == ToInt32(y)
  {
    var m, q := y % 0x1_0000_0000, y / 0x1_0000_0000;
    assert y == 0x1_0000_0000 * q + m;
    Mod2To32Unique(y + 0x1_0000_0000 * k, q + k, m);
  }

  /** The UTF-16 code units of one character: itself below U+10000,
      otherwise a high and a low surrogate that encode it. */
  function EncodeChar(c: char): (units: seq<CodeUnit>)
    ensures |units| == 1 ==> units[0] == c as int
    ensures |units| == 2 ==>
      && 0xD800 <= units[0] < 0xDC00 && 0xDC00 <= units[1] < 0xE000
      && 0x1_0000 + (units[0] as int - 0xD800) * 0x400 + (units[1] as int - 0xDC00) == c as int
    ensures |units| == (if c as int < 0x1_0000 then 1 else 2)
  {
    var v := c as int;
    if v < 0x1_0000 then [v]
    else
      var w := v - 0x1_0000;
      [0xD800 + w / 0x400, 0xDC00 + w % 0x400]
  }

  /** `value.split('')`: the string as JavaScript holds it, one code unit
      per element. */
  function Utf16(s: string): (units: seq<CodeUnit>)
    ensures |units| >= |s|
  {
    if s == [] then [] else EncodeChar(s[0]) + Utf16(s[1..])
  }

  /** A string of characters below U+10000 is its own code units. */
  lemma {:induction false} Utf16OfBmp(s: string)
    requires forall i :: 0 <= i < |s| ==> s[i] as int < 0x1_0000
    ensures |Utf16(s)| == |s|
    ensures forall i :: 0 <= i < |s| ==> Utf16(s)[i] == s[i] as int
  {
    if s != [] {
      Utf16OfBmp(s[1..]);
    }
  }

  /** One step of the reduce, as written: `((a << 5) - a + c) | 0`. */
  function Step(a: int, c: CodeUnit): (r: int)
    ensures IsInt32(r)
  {
    ToInt32(ToInt32(ToInt32(a) * 32) - a + c)
  }

  /** The step is the classic `31 * a + c`, wrapped to 32 bits. */
  lemma StepIsTimes31(a: int, c: CodeUnit)
    ensures Step(a, c) == ToInt32(31 * a + c)
  {
    var t := ToInt32(a);
    var k1 := ToInt32Offset(a);
    var u := ToInt32(t * 32);
    var k2 := ToInt32Offset(t * 32);
    assert u - a + c == (31 * a + c) + 0x1_0000_0000 * (-32 * k1 - k2);
    ToInt32Shift(31 * a + c, -32 * k1 - k2);
  }

  /** The hash of the displayed string: a left fold of Step from 0. */
  function Hash(units: seq<CodeUnit>): (h: int)
    ensures IsInt32(h)
  {
    if units == [] then 0 else Step(Hash(units[..|units| - 1]), units[|units| - 1])
  }

  /** The unbounded polynomial the hash approximates: the code units read
      as digits in base 31. */
  function Poly(units: seq<CodeUnit>): int {
    if units == [] then 0 else 31 * Poly(units[..|units| - 1]) + units[|units| - 1]
  }

  /** The wrapping fold loses nothing but the multiples of 2^32: the hash
      is the base-31 polynomial reduced once at the end. */
  lemma {:induction false} HashIsPolynomial(units: seq<CodeUnit>)
    ensures Hash(units) == ToInt32(Poly(units))
  {
    if units != [] {
      var init, c := units[..|units| - 1], units[|units| - 1];
      HashIsPolynomial(init);
      var h, p := Hash(init), Poly(init);
      var k := ToInt32Offset(p);
      StepIsTimes31(h, c);
      assert 31 * p + c == (31 * h + c) + 0x1_0000_0000 * (31 * k);
      ToInt32Shift(31 * h + c, 31 * k);
    }
  }

  function Abs(v: int): nat {
    if v < 0 then -v else v
  }

  /** The colour rule for the cell in column `x` and row `y`. */
  predicate IsBlack(hash: int, x: int, y: int) {
    Abs(hash + x * 7 + y * 11) % 3 == 0
  }

  /** The 625 cells drawn for a hash: cell i, in column i % 25 and row
      floor(i / 25), is black or white by IsBlack. */
  function Cells(hash: int): (cells: seq<bool>)
    ensures |cells| == 625
  {
    seq(625, i requires 0 <= i < 625 => IsBlack(hash, i % 25, i / 25))
  }

  /** The picture for `value`. The source recomputes the hash for every
      cell; it is the same value each time. */
  function Grid(value: string): (cells: seq<bool>)
    ensures |cells| == 625
  {
    Cells(Hash(Utf16(value)))
  }

  /** Adding to a number adds to its residue modulo 3. */
  lemma Mod3Shift(h: int, d: int)
    ensures (h + d) % 3 == (h % 3 + d) % 3
  {
    var q := h / 3;
    assert h + d == 3 * q + (h % 3 + d);
    var r := (h % 3 + d) % 3;
    assert h % 3 + d == 3 * ((h % 3 + d) / 3) + r;
    assert h + d == 3 * (q + (h % 3 + d) / 3) + r;
  }

  /** A number and its negation are multiples of 3 together. */
  lemma NegMod3(v: int)
    ensures (-v) % 3 == 0 <==> v % 3 == 0
  {
    var q := v / 3;
    assert v == 3 * q + v % 3;
    assert -v == 3 * (-q) - v % 3;
    if v % 3 != 0 {
      assert -v == 3 * (-q - 1) + (3 - v % 3);
    }
  }

  /** Adding a multiple of 3 keeps the residue modulo 3. */
  lemma Mod3AddMultiple(w: int, d: int)
    ensures (w + 3 * d) % 3 == w % 3
  {
    var q := w / 3;
    assert w == 3 * q + w % 3;
    assert w + 3 * d == 3 * (q + d) + w % 3;
  }

  /** The colour rule only looks at its inputs modulo 3. */
  lemma BlackIffMod3(hash: int, x: int, y: int)
    ensures IsBlack(hash, x, y) <==> (hash + x + 2 * y) % 3 == 0
  {
    var w := hash + x + 2 * y;
    var d := 2 * x + 3 * y;
    var v := hash + x * 7 + y * 11;
    assert v == w + 3 * d;
    Mod3AddMultiple(w, d);
    NegMod3(v);
    assert IsBlack(hash, x, y) == (Abs(v) % 3 == 0);
  }

  /** Cell (x, y) sits at index 25 * y + x, and it is black exactly when
      hash + x + 2y is a multiple of 3. */
  lemma CellAt(hash: int, x: int, y: int)
    requires 0 <= x < 25 && 0 <= y < 25
    ensures 0 <= 25 * y + x < 625
    ensures Cells(hash)[25 * y + x] <==> (hash + x + 2 * y) % 3 == 0
  {
    var i := 25 * y + x;
    assert i % 25 == x && i / 25 == y;
    assert Cells(hash)[i] == IsBlack(hash, x, y);
    BlackIffMod3(hash, x, y);
  }

  /** Hashes that agree modulo 3 draw the same picture. */
  lemma SameResidueSameCells(h1: int, h2: int)
    requires h1 % 3 == h2 % 3
    ensures Cells(h1) == Cells(h2)
  {
    forall i | 0 <= i < 625 ensures Cells(h1)[i] == Cells(h2)[i] {
      var x, y := i % 25, i / 25;
      assert i == 25 * y + x;
      CellAt(h1, x, y);
      CellAt(h2, x, y);
      Mod3Shift(h1, x + 2 * y);
      Mod3Shift(h2, x + 2 * y);
    }
  }

  /** Hashes that differ modulo 3 draw different pictures: some cell of the
      top row tells them apart. */
  lemma OtherResidueOtherCells(h1: int, h2: int)
    requires h1 % 3 != h2 % 3
    ensures Cells(h1) != Cells(h2)
  {
    var r1, r2 := h1 % 3, h2 % 3;
    var x := if r1 == 0 then 0 else 3 - r1;
    CellAt(h1, x, 0);
    CellAt(h2, x, 0);
    Mod3Shift(h1, x);
    Mod3Shift(h2, x);
    assert (r1 + x) % 3 == 0;
    assert (r2 + x) % 3 != 0;
    assert Cells(h1)[x] != Cells(h2)[x];
  }

  /** Only three pictures exist: two strings get the same picture exactly
      when their hashes agree modulo 3. */
  lemma SameGridIffSameHashMod3(a: string, b: string)
    ensures Grid(a) == Grid(b) <==> Hash(Utf16(a)) % 3 == Hash(Utf16(b)) % 3
  {
    var ha, hb := Hash(Utf16(a)), Hash(Utf16(b));
    if ha % 3 == hb % 3 {
      SameResidueSameCells(ha, hb);
    } else {
      OtherResidueOtherCells(ha, hb);
    }
  }
}
