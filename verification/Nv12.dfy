/** Framebuffer pixels to the two planes of NV12, in the eight-bit fixed-point
    form of section 2.5 of ITU-R BT.601. */
module Nv12 {
  import opened Bytes

  datatype Rgb = Rgb(r: byte, g: byte, b: byte)

  // ------------------------------------------------------------ one pixel

  function ClampY(v: int): (r: byte) { if v < 16 then 16 else if v > 235 then 235 else v }

  function ClampUv(v: int): (r: byte) { if v < 16 then 16 else if v > 240 then 240 else v }

  // `>> 8` on a signed value rounds down, as `/ 256` does here.
  function RawY(p: Rgb): int { (66 * p.r as int + 129 * p.g as int + 25 * p.b as int + 128) / 256 + 16 }

  function RawCb(p: Rgb): int { (-38 * p.r as int - 74 * p.g as int + 112 * p.b as int + 128) / 256 + 128 }

  function RawCr(p: Rgb): int { (112 * p.r as int - 94 * p.g as int - 18 * p.b as int + 128) / 256 + 128 }

  function ToY(p: Rgb): byte { ClampY(RawY(p)) }

  function ToCb(p: Rgb): byte { ClampUv(RawCb(p)) }

  function ToCr(p: Rgb): byte { ClampUv(RawCr(p)) }

  // The limited-range formula, on components of 0..255.
  function Bt601Y(p: Rgb): real {
    16.0 + (65.481 * p.r as real + 128.553 * p.g as real + 24.966 * p.b as real) / 255.0
  }

  function Bt601Cb(p: Rgb): real {
    128.0 + (-37.797 * p.r as real - 74.203 * p.g as real + 112.0 * p.b as real) / 255.0
  }

  function Bt601Cr(p: Rgb): real {
    128.0 + (112.0 * p.r as real - 93.786 * p.g as real - 18.214 * p.b as real) / 255.0
  }

  predicate Near(code: int, exact: real) {
    -1.0 < code as real - exact < 1.0
  }

  /** `q` is `x` / 256 rounded to the nearest integer, halves up. */
  predicate Rounds(x: int, q: int) { 256 * q - 128 <= x < 256 * q + 128 }

  /** The division by 256 as a band of reals round the exact quotient. */
  lemma Rounded(x: int)
    ensures x as real / 256.0 - 0.5 < ((x + 128) / 256) as real <= x as real / 256.0 + 0.5
  {
    var q := (x + 128) / 256;
    assert 256 * q <= x + 128 < 256 * q + 256;
    assert 256.0 * q as real <= x as real + 128.0 < 256.0 * q as real + 256.0;
  }

  /** Every colour: each code is the nearest to the eight-bit coefficients'
      value, neither clamp ever bites, and it is less than one step away from
      the standard's formula. */
  lemma ColourAccurate(p: Rgb)
    ensures Rounds(66 * p.r as int + 129 * p.g as int + 25 * p.b as int, ToY(p) as int - 16)
    ensures Rounds(-38 * p.r as int - 74 * p.g as int + 112 * p.b as int, ToCb(p) as int - 128)
    ensures Rounds(112 * p.r as int - 94 * p.g as int - 18 * p.b as int, ToCr(p) as int - 128)
    ensures ToY(p) == RawY(p) && 16 <= RawY(p) <= 235
    ensures ToCb(p) == RawCb(p) && 16 <= RawCb(p) <= 240
    ensures ToCr(p) == RawCr(p) && 16 <= RawCr(p) <= 240
    ensures Near(ToY(p), Bt601Y(p)) && Near(ToCb(p), Bt601Cb(p)) && Near(ToCr(p), Bt601Cr(p))
  {
    var r: int, g: int, b: int := p.r, p.g, p.b;
    Rounded(66 * r + 129 * g + 25 * b);
    Rounded(-38 * r - 74 * g + 112 * b);
    Rounded(112 * r - 94 * g - 18 * b);
  }

  /** A grey has no colour: both chroma codes sit exactly in the middle. */
  lemma GreyIsNeutral(v: byte)
    ensures ToCb(Rgb(v, v, v)) == 128 && ToCr(Rgb(v, v, v)) == 128
  {
    var n: int := v;
    assert -38 * n - 74 * n + 112 * n == 0 && 112 * n - 94 * n - 18 * n == 0;
  }

  // ---------------------------------------------------------- whole frames

  type uint16 = x: int | 0 <= x < 0x10000

  /** Five, six and five bits stretched to eight. */
  function Expand565(px: uint16): Rgb {
    Rgb(px as int / 2048 * 255 / 31, px as int / 32 % 64 * 255 / 63, px as int % 32 * 255 / 31)
  }

  /** The byte `c` is the value `v` of 0..max stretched to 0..255, rounded down. */
  predicate Stretched(v: int, max: int, c: byte) {
    max * c as int <= 255 * v < max * c as int + max
  }

  lemma OneStretch(v: int, max: int, c: byte, d: byte)
    requires (max == 31 || max == 63) && Stretched(v, max, c) && Stretched(v, max, d)
    ensures c == d
  {
  }

  /** Red is in the high five bits, green in the six in the middle, blue in the
      low five. */
  lemma Expand565Exact(px: uint16)
    ensures Stretched(px as int / 2048, 31, Expand565(px).r)
    ensures Stretched(px as int / 32 % 64, 63, Expand565(px).g)
    ensures Stretched(px as int % 32, 31, Expand565(px).b)
  {
  }

  /** The first `n` pixels. */
  function Pixels565(fb: seq<uint16>, n: nat): (p: seq<Rgb>)
    requires n <= |fb|
    ensures |p| == n
  {
    if n == 0 then [] else Pixels565(fb, n - 1) + [Expand565(fb[n - 1])]
  }

  lemma {:induction false} Pixel565At(fb: seq<uint16>, n: nat, i: nat)
    requires i < n <= |fb|
    ensures Pixels565(fb, n)[i] == Expand565(fb[i])
  {
    if i < n - 1 {
      Pixel565At(fb, n - 1, i);
    }
  }

  function BgraPixel(fb: seq<byte>, i: nat): Rgb
    requires 4 * i + 4 <= |fb|
  {
    var at := i * 4;
    Rgb(fb[at + 2], fb[at + 1], fb[at])
  }

  function PixelsBgra(fb: seq<byte>, n: nat): seq<Rgb>
    requires 4 * n <= |fb|
  {
    seq(n, i requires 0 <= i < n => BgraPixel(fb, i))
  }

  function Luma(p: seq<Rgb>): seq<byte> {
    seq(|p|, i requires 0 <= i < |p| => ToY(p[i]))
  }

  /** The two chroma bytes of one pixel. */
  function Pair(p: Rgb): seq<byte> { [ToCb(p), ToCr(p)] }

  lemma RowFits(w: nat, h: nat, row: nat)
    requires row < h
    ensures 0 <= row * w && row * w + w == (row + 1) * w <= w * h
  {
    assert (row + 1) * w == row * w + w <= h * w;
  }

  /** Chroma bytes written in one row before column `col`; the row's pixels
      start at `base`, and only even rows write. */
  function ChromaRow(p: seq<Rgb>, base: nat, even: bool, col: nat): (s: seq<byte>)
    requires base + col <= |p|
    ensures |s| == if even then col + col % 2 else 0
  {
    if !even || col == 0 then []
    else ChromaRow(p, base, even, col - 1) + if col % 2 == 1 then Pair(p[base + col - 1]) else []
  }

  /** Chroma bytes written before `row`. */
  function ChromaRows(p: seq<Rgb>, w: nat, row: nat): seq<byte>
    requires row * w <= |p|
  {
    if row == 0 then []
    else
      assert (row - 1) * w + w == row * w;
      ChromaRows(p, w, row - 1) + ChromaRow(p, (row - 1) * w, row % 2 == 1, w)
  }

  /** Bytes one pair of rows adds to the chroma plane. */
  function Stride(w: nat): nat { w + w % 2 }

  /** Bytes of the chroma plane of a frame. */
  function ChromaSize(w: nat, h: nat): nat { (h + 1) / 2 * Stride(w) }

  /** The chroma cursor when a row begins. */
  function RowStart(w: nat, row: nat): nat {
    if row == 0 then 0 else RowStart(w, row - 1) + if row % 2 == 1 then Stride(w) else 0
  }

  lemma {:induction false} RowStartIs(w: nat, row: nat)
    ensures RowStart(w, row) == (row + 1) / 2 * Stride(w)
  {
    if row > 0 {
      RowStartIs(w, row - 1);
      if row % 2 == 1 {
        assert (row + 1) / 2 == row / 2 + 1;
        assert (row / 2 + 1) * Stride(w) == row / 2 * Stride(w) + Stride(w);
      }
    }
  }

  lemma {:induction false} RowsCursor(p: seq<Rgb>, w: nat, row: nat)
    requires row * w <= |p|
    ensures |ChromaRows(p, w, row)| == RowStart(w, row)
  {
    if row > 0 {
      assert (row - 1) * w + w == row * w;
      RowsCursor(p, w, row - 1);
    }
  }

  lemma RowsSize(p: seq<Rgb>, w: nat, row: nat)
    requires row * w <= |p|
    ensures |ChromaRows(p, w, row)| == ChromaSize(w, row)
  {
    RowsCursor(p, w, row);
    RowStartIs(w, row);
  }

  lemma {:induction false} RowPrefix(p: seq<Rgb>, base: nat, even: bool, col: nat, more: nat)
    requires col <= more && base + more <= |p|
    ensures ChromaRow(p, base, even, col) <= ChromaRow(p, base, even, more)
    decreases more
  {
    if col < more {
      RowPrefix(p, base, even, col, more - 1);
    }
  }

  lemma {:induction false} RowsPrefix(p: seq<Rgb>, w: nat, row: nat, more: nat)
    requires row <= more && more * w <= |p|
    ensures row * w <= more * w && ChromaRows(p, w, row) <= ChromaRows(p, w, more)
    decreases more
  {
    if row < more {
      assert (more - 1) * w + w == more * w;
      RowsPrefix(p, w, row, more - 1);
    }
  }

  /** The two chroma bytes wanted of the pixel at column `col` of a row. */
  ghost predicate PairAt(p: seq<Rgb>, chroma: seq<byte>, base: nat, start: nat, col: nat) {
    && base + col < |p| && start + col + 1 < |chroma|
    && chroma[start + col] == ToCb(p[base + col]) && chroma[start + col + 1] == ToCr(p[base + col])
  }

  lemma InPrefix(head: seq<byte>, line: seq<byte>, all: seq<byte>, col: nat)
    requires head + line <= all && col + 2 <= |line|
    ensures |head| + col + 2 <= |all| && all[|head| + col] == line[col] && all[|head| + col + 1] == line[col + 1]
  {
    assert (head + line)[|head| + col] == line[col] && (head + line)[|head| + col + 1] == line[col + 1];
  }

  lemma SliceOf(head: seq<byte>, pair: seq<byte>, all: seq<byte>)
    requires head + pair <= all
    ensures forall i :: 0 <= i < |pair| ==> all[|head| + i] == pair[i]
  {
    assert forall i :: 0 <= i < |pair| ==> (head + pair)[|head| + i] == pair[i];
  }

  lemma InRow(p: seq<Rgb>, base: nat, w: nat, col: nat)
    requires col < w && base + w <= |p| && col % 2 == 0
    ensures var line := ChromaRow(p, base, true, w);
            col + 2 <= |line| && line[col] == ToCb(p[base + col]) && line[col + 1] == ToCr(p[base + col])
  {
    RowPrefix(p, base, true, col + 1, w);
    var head, pair := ChromaRow(p, base, true, col), Pair(p[base + col]);
    assert |head| == col && ChromaRow(p, base, true, col + 1) == head + pair;
    SliceOf(head, pair, ChromaRow(p, base, true, w));
  }

  lemma InWholeRows(p: seq<Rgb>, w: nat, base: nat, col: nat, head: seq<byte>, all: seq<byte>)
    requires base + w <= |p| && col < w && col % 2 == 0
    requires head + ChromaRow(p, base, true, w) <= all
    ensures PairAt(p, all, base, |head|, col)
  {
    InRow(p, base, w, col);
    InPrefix(head, ChromaRow(p, base, true, w), all, col);
  }

  lemma RowAtEnd(p: seq<Rgb>, w: nat, row: nat)
    requires 0 <= row * w && row * w + w <= |p| && row % 2 == 0
    ensures (row + 1) * w <= |p|
    ensures ChromaRows(p, w, row + 1) == ChromaRows(p, w, row) + ChromaRow(p, row * w, true, w)
  {
    var next := row + 1;
    assert next * w == row * w + w;
    assert next - 1 == row && next % 2 == 1 && (next - 1) * w == row * w;
  }

  /** An even row's chroma stands in the plane where its cursor began. */
  lemma RowInside(p: seq<Rgb>, w: nat, h: nat, row: nat)
    requires |p| == w * h && row < h && row % 2 == 0
    ensures 0 <= row * w && row * w + w <= |p|
    ensures ChromaRows(p, w, row) + ChromaRow(p, row * w, true, w) <= ChromaRows(p, w, h)
    ensures |ChromaRows(p, w, row)| == RowStart(w, row)
  {
    RowFits(w, h, row);
    RowAtEnd(p, w, row);
    RowsPrefix(p, w, row + 1, h);
    RowsCursor(p, w, row);
  }

  /** A pixel of an even row and column finds its chroma where the cursor was. */
  lemma PairHere(p: seq<Rgb>, w: nat, h: nat, row: nat, col: nat)
    requires |p| == w * h && row < h && col < w && row % 2 == 0 && col % 2 == 0
    ensures 0 <= row * w && PairAt(p, ChromaRows(p, w, h), row * w, RowStart(w, row), col)
  {
    RowInside(p, w, h, row);
    InWholeRows(p, w, row * w, col, ChromaRows(p, w, row), ChromaRows(p, w, h));
  }

  /** Where the running cursor puts a pixel: in the plane of the whole frame,
      an even row and column finds its chroma at (row/2) times the stride plus
      the column, and for an even width the stride is the width. */
  lemma ChromaAt(p: seq<Rgb>, w: nat, h: nat, row: nat, col: nat)
    requires |p| == w * h && row < h && col < w && row % 2 == 0 && col % 2 == 0
    ensures 0 <= row * w + col < |p|
    ensures var at := row / 2 * Stride(w) + col;
            && at + 2 <= |ChromaRows(p, w, h)|
            && ChromaRows(p, w, h)[at] == ToCb(p[row * w + col])
            && ChromaRows(p, w, h)[at + 1] == ToCr(p[row * w + col])
    ensures w % 2 == 0 ==> Stride(w) == w
  {
    PairHere(p, w, h, row, col);
    RowStartIs(w, row);
    assert (row + 1) / 2 == row / 2;
  }

  /** An odd height or width leaves the half plane short. */
  lemma Shrink(w: nat, h: nat, k: nat)
    requires 2 * k - 1 <= h <= 2 * k
    ensures w * h <= 2 * (k * w) <= w * h + w
  {
    assert w * h <= w * (2 * k) == 2 * (k * w);
    assert w * (2 * k) - w == w * (2 * k - 1) <= w * h;
  }

  /** The plane requested from the vendor pool, half a luma plane, holds the
      chroma bytes exactly when both sides are even; then it is full. */
  lemma ChromaFits(w: nat, h: nat)
    requires 0 < w && 0 < h
    ensures ChromaSize(w, h) <= w * h / 2 <==> w % 2 == 0 && h % 2 == 0
    ensures w % 2 == 0 && h % 2 == 0 ==> ChromaSize(w, h) == w * h / 2
  {
    var k := (h + 1) / 2;
    if w % 2 == 0 && h % 2 == 0 {
      assert w * h == w * (2 * k) == 2 * (w * k);
    } else if w % 2 == 0 {
      Shrink(w, h, k);
    } else {
      Shrink(w + 1, h, k);
      assert (w + 1) * h == w * h + h;
    }
  }

  // -------------------------------------------------------- the two loops

  lemma {:induction false} RowStartGrows(w: nat, row: nat, more: nat)
    requires row <= more
    ensures RowStart(w, row) <= RowStart(w, more)
    decreases more
  {
    if row < more {
      RowStartGrows(w, row, more - 1);
    }
  }

  lemma NextEven(col: nat)
    ensures col + 1 + (col + 1) % 2 == col + col % 2 + if col % 2 == 0 then 2 else 0
  {
  }

  /** Between `lo` and `hi` the plane holds the wanted bytes, elsewhere the
      bytes it held before. */
  ghost predicate Filled(now: seq<byte>, was: seq<byte>, want: seq<byte>, lo: nat, hi: nat) {
    && lo <= hi <= |want| <= |was| == |now|
    && (forall i :: lo <= i < hi ==> now[i] == want[i])
    && (forall i :: 0 <= i < lo ==> now[i] == was[i])
    && (forall i :: hi <= i < |was| ==> now[i] == was[i])
  }

  lemma FilledOne(now: seq<byte>, was: seq<byte>, want: seq<byte>, lo: nat, hi: nat)
    requires Filled(now, was, want, lo, hi) && hi < |want|
    ensures Filled(now[hi := want[hi]], was, want, lo, hi + 1)
  {
  }

  /** Where the chroma cursor stands after `col` columns of a row. */
  function RowEnd(col: nat, even: bool, start: nat): nat { if even then start + col + col % 2 else start }

  /** The chroma wanted of one row. */
  ghost predicate RowChroma(p: seq<Rgb>, chroma: seq<byte>, w: nat, base: nat, even: bool, start: nat) {
    && base + w <= |p|
    && RowEnd(w, even, start) <= |chroma|
    && (even ==> forall col: nat | col < w && col % 2 == 0 :: PairAt(p, chroma, base, start, col))
  }

  lemma PixelStep(p: seq<Rgb>, chroma: seq<byte>, w: nat, base: nat, even: bool, start: nat, col: nat)
    requires RowChroma(p, chroma, w, base, even, start) && col < w
    ensures var at := RowEnd(col, even, start);
            if even && col % 2 == 0
            then RowEnd(col + 1, even, start) == at + 2 <= |chroma|
              && chroma[at] == ToCb(p[base + col]) && chroma[at + 1] == ToCr(p[base + col])
            else RowEnd(col + 1, even, start) == at <= |chroma|
  {
    NextEven(col);
    if even && col % 2 == 0 {
      assert PairAt(p, chroma, base, start, col);
    } else {
      assert RowEnd(col + 1, even, start) <= RowEnd(w, even, start);
    }
  }

  lemma NextRow(p: seq<Rgb>, w: nat, h: nat, row: nat)
    requires |p| == w * h && row < h
    ensures 0 <= row * w && row * w + w == (row + 1) * w <= |p|
    ensures RowStart(w, row + 1) == RowEnd(w, row % 2 == 0, RowStart(w, row))
    ensures RowChroma(p, ChromaRows(p, w, h), w, row * w, row % 2 == 0, RowStart(w, row))
  {
    RowFits(w, h, row);
    RowStartGrows(w, row + 1, h);
    RowsCursor(p, w, h);
    if row % 2 == 0 {
      forall col: nat | col < w && col % 2 == 0
        ensures PairAt(p, ChromaRows(p, w, h), row * w, RowStart(w, row), col)
      {
        PairHere(p, w, h, row, col);
      }
    }
  }

  /** The stores of one pixel: its luma and, when `both`, the two chroma bytes
      at the cursor, which moves on. */
  method PutPixel(px: Rgb, yOut: array<byte>, yAt: nat, uvOut: array<byte>, at: nat, both: bool) returns (uvI: nat)
    requires yAt < yOut.Length && yOut != uvOut && (both ==> at + 2 <= uvOut.Length)
    modifies yOut, uvOut
    ensures uvI == if both then at + 2 else at
    ensures yOut[..] == old(yOut[..])[yAt := ToY(px)]
    ensures uvOut[..] == if both then old(uvOut[..])[at := ToCb(px)][at + 1 := ToCr(px)] else old(uvOut[..])
  {
    yOut[yAt] := ToY(px);
    uvI := at;
    if both {
      uvOut[uvI] := ToCb(px);
      uvI := uvI + 1;
      uvOut[uvI] := ToCr(px);
      uvI := uvI + 1;
    }
  }

  /** The pixel at index `i`. */
  method Pixel565(fb: seq<uint16>, i: nat, ghost p: seq<Rgb>) returns (px: Rgb)
    requires i < |p| <= |fb| && p == Pixels565(fb, |p|)
    ensures px == p[i]
  {
    px := Expand565(fb[i]);
    Pixel565At(fb, |p|, i);
  }

  /** The inner loop, over the row whose pixels start at `base` and whose
      chroma starts at `start`. */
  method Rgb565Row(fb: seq<uint16>, yOut: array<byte>, uvOut: array<byte>, w: nat, base: nat, even: bool, start: nat,
                   ghost p: seq<Rgb>, ghost chroma: seq<byte>) returns (uvI: nat)
    requires |p| <= |fb| && p == Pixels565(fb, |p|)
    requires base + w <= |p| <= yOut.Length && |chroma| <= uvOut.Length && yOut != uvOut
    requires RowChroma(p, chroma, w, base, even, start)
    modifies yOut, uvOut
    ensures uvI == RowEnd(w, even, start)
    ensures Filled(yOut[..], old(yOut[..]), Luma(p), base, base + w)
    ensures Filled(uvOut[..], old(uvOut[..]), chroma, start, uvI)
  {
    ghost var luma := Luma(p);
    ghost var y0, uv0 := yOut[..], uvOut[..];
    uvI := start;
    var col := 0;
    while col < w
      invariant col <= w
      invariant uvI == RowEnd(col, even, start) <= |chroma|
      invariant Filled(yOut[..], y0, luma, base, base + col)
      invariant Filled(uvOut[..], uv0, chroma, start, uvI)
    {
      PixelStep(p, chroma, w, base, even, start, col);
      var px := Pixel565(fb, base + col, p);
      FilledOne(yOut[..], y0, luma, base, base + col);
      if even && col % 2 == 0 {
        FilledOne(uvOut[..], uv0, chroma, start, uvI);
        FilledOne(uvOut[..][uvI := chroma[uvI]], uv0, chroma, start, uvI + 1);
      }
      uvI := PutPixel(px, yOut, base + col, uvOut, uvI, even && col % 2 == 0);
      col := col + 1;
    }
  }

  method Rgb565ToNv12(fb: seq<uint16>, yOut: array<byte>, uvOut: array<byte>, w: nat, h: nat)
    requires w * h <= |fb| && w * h <= yOut.Length && ChromaSize(w, h) <= uvOut.Length && yOut != uvOut
    modifies yOut, uvOut
    ensures yOut[..] == Luma(Pixels565(fb, w * h)) + old(yOut[w * h..])
    ensures uvOut[..] == ChromaRows(Pixels565(fb, w * h), w, h) + old(uvOut[ChromaSize(w, h)..])
  {
    ghost var p := Pixels565(fb, w * h);
    ghost var luma, chroma := Luma(p), ChromaRows(p, w, h);
    ghost var y0, uv0 := yOut[..], uvOut[..];
    RowsSize(p, w, h);
    RowStartIs(w, h);
    var uvI, row := 0, 0;
    while row < h
      invariant row <= h && 0 <= row * w <= |luma|
      invariant uvI == RowStart(w, row) <= |chroma|
      invariant Filled(yOut[..], y0, luma, 0, row * w)
      invariant Filled(uvOut[..], uv0, chroma, 0, uvI)
    {
      NextRow(p, w, h, row);
      uvI := Rgb565Row(fb, yOut, uvOut, w, row * w, row % 2 == 0, uvI, p, chroma);
      row := row + 1;
    }
  }

  method PixelBgra(fb: seq<byte>, i: nat, ghost p: seq<Rgb>) returns (px: Rgb)
    requires i < |p| && 4 * |p| <= |fb| && p == PixelsBgra(fb, |p|)
    ensures px == p[i]
  {
    px := BgraPixel(fb, i);
  }

  /** The inner loop, over the row whose pixels start at `base` and whose
      chroma starts at `start`. */
  method BgraRow(fb: seq<byte>, yOut: array<byte>, uvOut: array<byte>, w: nat, base: nat, even: bool, start: nat,
                   ghost p: seq<Rgb>, ghost chroma: seq<byte>) returns (uvI: nat)
    requires 4 * |p| <= |fb| && p == PixelsBgra(fb, |p|)
    requires base + w <= |p| <= yOut.Length && |chroma| <= uvOut.Length && yOut != uvOut
    requires RowChroma(p, chroma, w, base, even, start)
    modifies yOut, uvOut
    ensures uvI == RowEnd(w, even, start)
    ensures Filled(yOut[..], old(yOut[..]), Luma(p), base, base + w)
    ensures Filled(uvOut[..], old(uvOut[..]), chroma, start, uvI)
  {
    ghost var luma := Luma(p);
    ghost var y0, uv0 := yOut[..], uvOut[..];
    uvI := start;
    var col := 0;
    while col < w
      invariant col <= w
      invariant uvI == RowEnd(col, even, start) <= |chroma|
      invariant Filled(yOut[..], y0, luma, base, base + col)
      invariant Filled(uvOut[..], uv0, chroma, start, uvI)
    {
      PixelStep(p, chroma, w, base, even, start, col);
      var px := PixelBgra(fb, base + col, p);
      FilledOne(yOut[..], y0, luma, base, base + col);
      if even && col % 2 == 0 {
        FilledOne(uvOut[..], uv0, chroma, start, uvI);
        FilledOne(uvOut[..][uvI := chroma[uvI]], uv0, chroma, start, uvI + 1);
      }
      uvI := PutPixel(px, yOut, base + col, uvOut, uvI, even && col % 2 == 0);
      col := col + 1;
    }
  }

  method BgraToNv12(fb: seq<byte>, yOut: array<byte>, uvOut: array<byte>, w: nat, h: nat)
    requires 4 * (w * h) <= |fb| && w * h <= yOut.Length && ChromaSize(w, h) <= uvOut.Length && yOut != uvOut
    modifies yOut, uvOut
    ensures yOut[..] == Luma(PixelsBgra(fb, w * h)) + old(yOut[w * h..])
    ensures uvOut[..] == ChromaRows(PixelsBgra(fb, w * h), w, h) + old(uvOut[ChromaSize(w, h)..])
  {
    ghost var p := PixelsBgra(fb, w * h);
    ghost var luma, chroma := Luma(p), ChromaRows(p, w, h);
    ghost var y0, uv0 := yOut[..], uvOut[..];
    RowsSize(p, w, h);
    RowStartIs(w, h);
    var uvI, row := 0, 0;
    while row < h
      invariant row <= h && 0 <= row * w <= |luma|
      invariant uvI == RowStart(w, row) <= |chroma|
      invariant Filled(yOut[..], y0, luma, 0, row * w)
      invariant Filled(uvOut[..], uv0, chroma, 0, uvI)
    {
      NextRow(p, w, h, row);
      uvI := BgraRow(fb, yOut, uvOut, w, row * w, row % 2 == 0, uvI, p, chroma);
      row := row + 1;
    }
  }

  // ---------------------------------------------------- the two formats agree

  /** A frame of four bytes a pixel shows the colours of a 16-bit frame: red in
      the high five bits, green in the six in the middle, blue in the low five. */
  ghost predicate SameColours(fb: seq<uint16>, bgra: seq<byte>) {
    && |bgra| == 4 * |fb|
    && forall i :: 0 <= i < |fb| ==>
         && Stretched(fb[i] as int / 2048, 31, bgra[4 * i + 2])
         && Stretched(fb[i] as int / 32 % 64, 63, bgra[4 * i + 1])
         && Stretched(fb[i] as int % 32, 31, bgra[4 * i])
  }

  /** Both converters see the same pixels... */
  lemma SamePixels(fb: seq<uint16>, bgra: seq<byte>)
    requires SameColours(fb, bgra)
    ensures PixelsBgra(bgra, |fb|) == Pixels565(fb, |fb|)
  {
    forall i | 0 <= i < |fb|
      ensures PixelsBgra(bgra, |fb|)[i] == Pixels565(fb, |fb|)[i]
    {
      Pixel565At(fb, |fb|, i);
      Expand565Exact(fb[i]);
      var px, q := Expand565(fb[i]), BgraPixel(bgra, i);
      OneStretch(fb[i] as int / 2048, 31, px.r, q.r);
      OneStretch(fb[i] as int / 32 % 64, 63, px.g, q.g);
      OneStretch(fb[i] as int % 32, 31, px.b, q.b);
    }
  }

  /** ...so by their contracts they fill the same planes, at every size. */
  lemma FormatsAgree(fb: seq<uint16>, bgra: seq<byte>, w: nat, h: nat)
    requires SameColours(fb, bgra) && |fb| == w * h
    ensures Luma(PixelsBgra(bgra, w * h)) == Luma(Pixels565(fb, w * h))
    ensures ChromaRows(PixelsBgra(bgra, w * h), w, h) == ChromaRows(Pixels565(fb, w * h), w, h)
  {
    SamePixels(fb, bgra);
  }
}
