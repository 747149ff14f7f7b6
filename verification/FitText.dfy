/** Text shortened to a pixel width, and the cache in front of it. */
module FitText {
  import opened Bytes

  /** A font as the source sees it: the width of a text, or a failure. */
  type Measure = string -> Option<int>

  const ELLIPSIS: string := "..."

  /** The candidate that keeps `k` characters. */
  function Cut(text: string, k: nat): string
    requires k <= |text|
  {
    text[..k] + ELLIPSIS
  }

  predicate Fits(measure: Measure, s: string, maxWidth: int) {
    measure(s).Some? && measure(s).value <= maxWidth
  }

  /** Nothing is measured in these cases: the text comes back unchanged. */
  predicate Bypassed(font: Option<Measure>, text: string, maxWidth: int) {
    font.None? || text == "" || maxWidth <= 0
  }

  /** `k` is a place where fitting stops: it fits, one more does not. */
  predicate Edge(measure: Measure, text: string, maxWidth: int, k: nat) {
    && k <= |text|
    && Fits(measure, Cut(text, k), maxWidth)
    && (k < |text| ==> !Fits(measure, Cut(text, k + 1), maxWidth))
  }

  /** The binary search between `lo` and `hi`, as a function. */
  function Search(measure: Measure, text: string, maxWidth: int, lo: nat, hi: int, best: string): string
    requires hi <= |text|
    decreases hi - lo + 1
  {
    if lo > hi then best
    else
      var mid := (lo + hi) / 2;
      if Fits(measure, Cut(text, mid), maxWidth)
      then Search(measure, text, maxWidth, mid + 1, hi, Cut(text, mid))
      else Search(measure, text, maxWidth, lo, mid - 1, best)
  }

  function Fit(font: Option<Measure>, text: string, maxWidth: int): string {
    if Bypassed(font, text, maxWidth) then text
    else if Fits(font.value, text, maxWidth) then text
    else if !Fits(font.value, ELLIPSIS, maxWidth) then ""
    else Search(font.value, text, maxWidth, 0, |text|, ELLIPSIS)
  }

  /** `fitText`, the loop. */
  method FitLoop(font: Option<Measure>, text: string, maxWidth: int) returns (r: string)
    ensures r == Fit(font, text, maxWidth)
  {
    if font.None? || text == "" || maxWidth <= 0 { return text; }
    var w := font.value(text);
    if w.Some? && w.value <= maxWidth { return text; }
    var ew := font.value(ELLIPSIS);
    if ew.None? || ew.value > maxWidth { return ""; }
    var lo: nat, hi: int := 0, |text|;
    var best := ELLIPSIS;
    while lo <= hi
      invariant hi <= |text|
      invariant Search(font.value, text, maxWidth, 0, |text|, ELLIPSIS)
             == Search(font.value, text, maxWidth, lo, hi, best)
      decreases hi - lo + 1
    {
      var mid := (lo + hi) / 2;
      var candidate := text[..mid] + ELLIPSIS;
      var cw := font.value(candidate);
      if cw.None? {
        hi := mid - 1;
      } else if cw.value <= maxWidth {
        best := candidate;
        lo := mid + 1;
      } else {
        hi := mid - 1;
      }
    }
    return best;
  }

  /** The search keeps to edges whatever the measure: everything tried below
      `lo` ended in `lo - 1` fitting, everything above `hi` in `hi + 1` not. */
  lemma {:induction false} SearchEdge(measure: Measure, text: string, maxWidth: int, lo: nat, hi: int, best: string)
    returns (k: nat)
    requires hi <= |text| && lo <= hi + 1
    requires best == Cut(text, if lo == 0 then 0 else lo - 1) && Fits(measure, best, maxWidth)
    requires hi < |text| ==> !Fits(measure, Cut(text, hi + 1), maxWidth)
    ensures Edge(measure, text, maxWidth, k)
    ensures Search(measure, text, maxWidth, lo, hi, best) == Cut(text, k)
    decreases hi - lo + 1
  {
    if lo > hi {
      assert lo > 0;
      k := lo - 1;
    } else {
      var mid := (lo + hi) / 2;
      if Fits(measure, Cut(text, mid), maxWidth) {
        k := SearchEdge(measure, text, maxWidth, mid + 1, hi, Cut(text, mid));
      } else {
        k := SearchEdge(measure, text, maxWidth, lo, mid - 1, best);
      }
    }
  }

  /** Measured within the limit, and one character more is not, or cannot be
      measured. */
  predicate Stops(measure: Measure, text: string, maxWidth: int, k: nat) {
    && k <= |text|
    && measure(text[..k] + "...").Some? && measure(text[..k] + "...").value <= maxWidth
    && (k < |text| ==>
          measure(text[..k + 1] + "...").None? || measure(text[..k + 1] + "...").value > maxWidth)
  }

  /** Any measure, failing or not: nothing is shown only when the ellipsis
      itself does not fit, and a shortened text always measured within the
      limit, stops at an edge, and never loses characters for no reason. */
  lemma FitAny(measure: Measure, text: string, maxWidth: int)
    requires text != "" && maxWidth > 0 && !Fits(measure, text, maxWidth)
    ensures var r := Fit(Some(measure), text, maxWidth);
            if measure("...").None? || measure("...").value > maxWidth then r == ""
            else
              exists k: nat :: Stops(measure, text, maxWidth, k) && r == text[..k] + "..."
  {
    if Fits(measure, ELLIPSIS, maxWidth) {
      assert Cut(text, 0) == ELLIPSIS;
      var k := SearchEdge(measure, text, maxWidth, 0, |text|, ELLIPSIS);
      assert Stops(measure, text, maxWidth, k);
    }
  }

  /** What fits is shown as it is, and so is everything when there is no font,
      no text or no limit. */
  lemma FitWhole(font: Option<Measure>, text: string, maxWidth: int)
    requires font.None? || text == "" || maxWidth <= 0
             || (font.value(text).Some? && font.value(text).value <= maxWidth)
    ensures Fit(font, text, maxWidth) == text
  {
  }

  /** Measuring never fails, and keeping more characters is never narrower. */
  ghost predicate Monotone(measure: Measure, text: string) {
    && (forall k: nat :: k <= |text| ==> measure(Cut(text, k)).Some?)
    && (forall j: nat, k: nat :: j <= k <= |text| ==> measure(Cut(text, j)).value <= measure(Cut(text, k)).value)
  }

  /** Then the result is the longest cut that fits. */
  lemma FitLongest(measure: Measure, text: string, maxWidth: int)
    requires text != "" && maxWidth > 0 && !Fits(measure, text, maxWidth) && Fits(measure, ELLIPSIS, maxWidth)
    requires Monotone(measure, text)
    ensures exists k: nat :: k <= |text| && Fit(Some(measure), text, maxWidth) == Cut(text, k)
              && forall j: nat :: j <= |text| ==> (Fits(measure, Cut(text, j), maxWidth) <==> j <= k)
  {
    assert Cut(text, 0) == ELLIPSIS;
    var k := SearchEdge(measure, text, maxWidth, 0, |text|, ELLIPSIS);
    forall j: nat | j <= |text|
      ensures Fits(measure, Cut(text, j), maxWidth) <==> j <= k
    {
      assert j > k ==> measure(Cut(text, k + 1)).value <= measure(Cut(text, j)).value;
      assert j <= k ==> measure(Cut(text, j)).value <= measure(Cut(text, k)).value;
    }
  }

  /** The longest cut of at most `n` characters that fits, by trying them all. */
  function Longest(measure: Measure, text: string, maxWidth: int, n: nat): (m: nat)
    requires n <= |text|
    ensures m <= n
    ensures Fits(measure, ELLIPSIS, maxWidth) ==> Fits(measure, Cut(text, m), maxWidth)
    ensures forall j :: m < j <= n ==> !Fits(measure, Cut(text, j), maxWidth)
  {
    assert Cut(text, 0) == ELLIPSIS;
    if n == 0 || Fits(measure, Cut(text, n), maxWidth) then n else Longest(measure, text, maxWidth, n - 1)
  }

  /** The midpoints that bisection for `m` between `lo` and `hi` meets at or
      below `m` all fit. */
  predicate PathFits(measure: Measure, text: string, maxWidth: int, lo: nat, hi: int, m: nat)
    requires hi <= |text|
    decreases hi - lo + 1
  {
    if lo > hi then true
    else
      var mid := (lo + hi) / 2;
      if mid <= m
      then Fits(measure, Cut(text, mid), maxWidth) && PathFits(measure, text, maxWidth, mid + 1, hi, m)
      else PathFits(measure, text, maxWidth, lo, mid - 1, m)
  }

  /** Nothing beyond `hi` is ever shown again. */
  lemma {:induction false} SearchShort(measure: Measure, text: string, maxWidth: int,
                                       lo: nat, hi: int, best: string, n: nat)
    requires hi <= |text| && hi < n && |best| < n + |ELLIPSIS|
    ensures |Search(measure, text, maxWidth, lo, hi, best)| < n + |ELLIPSIS|
    decreases hi - lo + 1
  {
    if lo <= hi {
      var mid := (lo + hi) / 2;
      SearchShort(measure, text, maxWidth, mid + 1, hi, Cut(text, mid), n);
      SearchShort(measure, text, maxWidth, lo, mid - 1, best, n);
    }
  }

  lemma {:induction false} SearchExact(measure: Measure, text: string, maxWidth: int,
                                       lo: nat, hi: int, best: string, m: nat)
    requires lo <= m + 1 && m <= hi <= |text|
    requires |best| < lo + |ELLIPSIS| || (lo == 0 && best == ELLIPSIS)
    requires lo == m + 1 ==> best == Cut(text, m)
    requires Fits(measure, ELLIPSIS, maxWidth)
    requires forall j :: m < j <= |text| ==> !Fits(measure, Cut(text, j), maxWidth)
    ensures Search(measure, text, maxWidth, lo, hi, best) == Cut(text, m)
       <==> PathFits(measure, text, maxWidth, lo, hi, m)
    decreases hi - lo + 1
  {
    if lo <= hi {
      var mid := (lo + hi) / 2;
      if mid > m {
        SearchExact(measure, text, maxWidth, lo, mid - 1, best, m);
      } else if Fits(measure, Cut(text, mid), maxWidth) {
        SearchExact(measure, text, maxWidth, mid + 1, hi, Cut(text, mid), m);
      } else {
        assert Cut(text, 0) == ELLIPSIS;
        SearchShort(measure, text, maxWidth, lo, mid - 1, best, m);
      }
    }
  }

  /** Exactly when the longest fitting cut is found, for any measure, failing
      or not: when every midpoint met on the way to it fits. */
  lemma FitExact(measure: Measure, text: string, maxWidth: int)
    requires text != "" && maxWidth > 0 && !Fits(measure, text, maxWidth) && Fits(measure, ELLIPSIS, maxWidth)
    ensures var m := Longest(measure, text, maxWidth, |text|);
            Fit(Some(measure), text, maxWidth) == Cut(text, m) <==> PathFits(measure, text, maxWidth, 0, |text|, m)
  {
    SearchExact(measure, text, maxWidth, 0, |text|, ELLIPSIS, Longest(measure, text, maxWidth, |text|));
  }

  /** The failing family is inhabited: a font in which "a..." is wider than
      "ab..." hides the longer cut from the search. */
  lemma KerningHides()
    ensures var measure := (s: string) => Some(if s == "ab..." || s == "..." then 1 else 100);
            && Fits(measure, Cut("ab", 2), 10)
            && Fit(Some(measure), "ab", 10) == Cut("ab", 0)
  {
    var measure := (s: string) => Some(if s == "ab..." || s == "..." then 1 else 100);
    assert Cut("ab", 2) == "ab..." && Cut("ab", 0) == "..." && |Cut("ab", 1)| == 4;
    var r := Search(measure, "ab", 10, 0, 0, ELLIPSIS);
    assert r == Search(measure, "ab", 10, 1, 0, Cut("ab", 0));
  }
}

/** The cache of fitted texts. */
module FitCache {
  import opened Bytes
  import opened FitText
  import Text

  // ------------------------------------------------------------------- keys

  function Digit(n: nat): (c: char)
    requires n < 16
    ensures c != '|'
  {
    if n < 10 then '0' + n as char else 'a' + (n - 10) as char
  }

  /** A number in hexadecimal or decimal, no leading zeros. */
  function Number(n: nat, hex: bool): string
    decreases n
  {
    if hex then if n < 16 then [Digit(n)] else Number(n / 16, hex) + [Digit(n % 16)]
    else if n < 10 then [Digit(n)] else Number(n / 10, hex) + [Digit(n % 10)]
  }

  lemma LastApart(a: string, c: char, b: string, d: char)
    requires a + [c] == b + [d]
    ensures a == b && c == d
  {
    assert (a + [c])[..|a|] == a && (b + [d])[..|b|] == b;
    assert (a + [c])[|a|] == c && (b + [d])[|b|] == d;
  }

  lemma {:induction false} NumberLength(n: nat, hex: bool)
    ensures |Number(n, hex)| >= 1 && (n >= (if hex then 16 else 10) <==> |Number(n, hex)| > 1)
    ensures '|' !in Number(n, hex)
    decreases n
  {
    if hex && n >= 16 {
      NumberLength(n / 16, hex);
    } else if !hex && n >= 10 {
      NumberLength(n / 10, hex);
    }
  }

  lemma {:induction false} NumberInjective(m: nat, n: nat, hex: bool)
    requires Number(m, hex) == Number(n, hex)
    ensures m == n
    decreases m
  {
    NumberLength(m, hex);
    NumberLength(n, hex);
    if hex && m >= 16 {
      LastApart(Number(m / 16, hex), Digit(m % 16), Number(n / 16, hex), Digit(n % 16));
      NumberInjective(m / 16, n / 16, hex);
    } else if !hex && m >= 10 {
      LastApart(Number(m / 10, hex), Digit(m % 10), Number(n / 10, hex), Digit(n % 10));
      NumberInjective(m / 10, n / 10, hex);
    }
  }

  /** "%p|%d|%q": font address, width and quoted text. */
  function Key(quote: string -> string, font: nat, maxWidth: nat, text: string): string {
    "0x" + Number(font, true) + "|" + (Number(maxWidth, false) + "|" + quote(text))
  }

  ghost predicate Injective(f: string -> string) {
    forall s, t :: f(s) == f(t) ==> s == t
  }

  lemma CutInjective(a: string, b: string, c: string, d: string)
    requires '|' !in a && '|' !in c && a + "|" + b == c + "|" + d
    ensures a == c && b == d
  {
    Text.SplitFirst(a, '|', b);
    Text.SplitFirst(c, '|', d);
    var s := a + "|" + b;
    assert Text.SplitOn(s, '|')[0] == a && Text.SplitOn(s, '|')[0] == c;
    assert (a + "|" + b)[|a| + 1..] == b && (c + "|" + d)[|c| + 1..] == d;
  }

  /** No two lookups share a key, as quoting is injective. */
  lemma KeyInjective(quote: string -> string, f: nat, w: nat, s: string, g: nat, v: nat, t: string)
    requires Injective(quote) && Key(quote, f, w, s) == Key(quote, g, v, t)
    ensures f == g && w == v && s == t
  {
    NumberLength(f, true);
    NumberLength(g, true);
    NumberLength(w, false);
    NumberLength(v, false);
    CutInjective("0x" + Number(f, true), Number(w, false) + "|" + quote(s),
                 "0x" + Number(g, true), Number(v, false) + "|" + quote(t));
    CutInjective(Number(w, false), quote(s), Number(v, false), quote(t));
    assert ("0x" + Number(f, true))[2..] == Number(f, true) && ("0x" + Number(g, true))[2..] == Number(g, true);
    NumberInjective(f, g, true);
    NumberInjective(w, v, false);
  }

  datatype Query = Query(font: Option<nat>, text: string, maxWidth: int)

  /** `splitRenderCache`, its `fit` table. Fonts are known by address, and
      each address measures deterministically. */
  class RenderCache {
    const fonts: nat -> Measure
    const quote: string -> string
    var fit: map<string, string>

    /** Every entry is the direct computation for its key. */
    ghost predicate Valid()
      reads this
    {
      && Injective(quote)
      && forall f: nat, w: nat, s: string {:trigger Key(quote, f, w, s)} ::
           Key(quote, f, w, s) in fit ==> fit[Key(quote, f, w, s)] == Fit(Some(fonts(f)), s, w)
    }

    constructor (fonts: nat -> Measure, quote: string -> string)
      requires Injective(quote)
      ensures Valid() && fit == map[] && this.fonts == fonts && this.quote == quote
    {
      this.fonts := fonts;
      this.quote := quote;
      fit := map[];
    }

    /** What `fitText` itself answers. */
    function Direct(q: Query): string
      reads this
    {
      Fit(if q.font.None? then None else Some(fonts(q.font.value)), q.text, q.maxWidth)
    }

    method FitText(q: Query) returns (r: string)
      requires Valid()
      modifies this
      ensures Valid() && r == Direct(q)
      ensures forall k :: k in old(fit) ==> k in fit && fit[k] == old(fit)[k]
    {
      if q.font.None? || q.text == "" || q.maxWidth <= 0 { return q.text; }
      var key := Key(quote, q.font.value, q.maxWidth, q.text);
      if key in fit { return fit[key]; }
      r := FitLoop(Some(fonts(q.font.value)), q.text, q.maxWidth);
      forall f: nat, w: nat, s: string | Key(quote, f, w, s) == key
        ensures f == q.font.value && w == q.maxWidth && s == q.text
      {
        KeyInjective(quote, f, w, s, q.font.value, q.maxWidth, q.text);
      }
      fit := fit[key := r];
    }

    /** Any sequence of lookups, from any cache state they have produced. */
    method FitAll(qs: seq<Query>) returns (rs: seq<string>)
      requires Valid()
      modifies this
      ensures Valid() && |rs| == |qs|
      ensures forall i :: 0 <= i < |qs| ==> rs[i] == Direct(qs[i])
    {
      rs := [];
      for i := 0 to |qs|
        invariant Valid() && |rs| == i
        invariant forall j :: 0 <= j < i ==> rs[j] == Direct(qs[j])
      {
        var r := FitText(qs[i]);
        rs := rs + [r];
      }
    }

    /** `Close` empties the table. */
    method Close()
      requires Valid()
      modifies this
      ensures Valid() && fit == map[]
    {
      fit := map[];
    }
  }
}
