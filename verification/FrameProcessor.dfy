/** Background removal for profile frames: seven flood fills over one RGBA buffer.

    The specification knows nothing of queues. One fill visits the pixels that a path of
    accepted pixels connects to its seed; `Process` folds that over the seven seeds. The
    methods at the end are the breadth-first loops of the program, proved to compute it. */
module FrameProcessor {

  import opened Prelude

  type Byte = b: int | 0 <= b < 256

  const TRANSPARENT_BELOW := 15
  const TOLERANCE_SQUARED := 2304 // 48 squared
  const CLEAR_SQUARED := 1024     // (48 - 16) squared

  // ---------- Geometry ----------

  // Areas and pixel numbers are counted row by row, which keeps the proofs linear;
  // the two lemmas below give the products the program computes.

  function Size(w: nat, h: nat): nat {
    if h == 0 then 0 else Size(w, h - 1) + w
  }

  function Index(w: nat, x: nat, y: nat): nat {
    if y == 0 then x else Index(w, x, y - 1) + w
  }

  lemma {:induction false} SizeIsProduct(w: nat, h: nat)
    ensures Size(w, h) == w * h
  {
    if h == 0 {
    } else {
      SizeIsProduct(w, h - 1);
    }
  }

  lemma {:induction false} IndexIsProduct(w: nat, x: nat, y: nat)
    ensures Index(w, x, y) == y * w + x
  {
    if y == 0 {
    } else {
      IndexIsProduct(w, x, y - 1);
    }
  }

  lemma {:induction false} IndexShift(w: nat, x: nat, y: nat)
    ensures Index(w, x, y) == Index(w, 0, y) + x
  {
    if y == 0 {
    } else {
      IndexShift(w, x, y - 1);
    }
  }

  /** Column and row of pixel `k` in rows of width `w`. */
  function X(w: nat, k: nat): nat {
    if w == 0 || k < w then k else X(w, k - w)
  }

  function Y(w: nat, k: nat): nat {
    if w == 0 || k < w then 0 else 1 + Y(w, k - w)
  }

  function Gap(a: int, b: int): nat {
    if a < b then b - a else a - b
  }

  predicate Adjacent(w: nat, k: nat, l: nat) {
    Gap(X(w, k), X(w, l)) + Gap(Y(w, k), Y(w, l)) == 1
  }

  /** Pixel numbers and coordinates determine each other. */
  lemma {:induction false} Coordinates(w: nat, h: nat, x: nat, y: nat)
    requires x < w && y < h
    ensures Index(w, x, y) < Size(w, h)
    ensures X(w, Index(w, x, y)) == x && Y(w, Index(w, x, y)) == y
  {
    if y > 0 {
      Coordinates(w, h - 1, x, y - 1);
    } else {
      SizeIsProduct(w, h);
      assert w <= w * h;
    }
  }

  lemma {:induction false} FromCoordinates(w: nat, h: nat, k: nat)
    requires k < Size(w, h)
    ensures w > 0 && X(w, k) < w && Y(w, k) < h && k == Index(w, X(w, k), Y(w, k))
  {
    SizeIsProduct(w, h);
    if k < w {
    } else {
      FromCoordinates(w, h - 1, k - w);
    }
  }

  // ---------- Colours ----------

  datatype Pixel = Pixel(r: Byte, g: Byte, b: Byte, a: Byte)

  /** The RGBA pixels of a byte buffer. */
  function Pixels(bytes: seq<Byte>): seq<Pixel> {
    seq(|bytes| / 4, k requires 0 <= k < |bytes| / 4 =>
      Pixel(bytes[4 * k], bytes[4 * k + 1], bytes[4 * k + 2], bytes[4 * k + 3]))
  }

  /** Equal pixels mean equal buffers. */
  lemma PixelsDetermineBytes(a: seq<Byte>, b: seq<Byte>)
    requires |a| == |b| && |a| % 4 == 0 && Pixels(a) == Pixels(b)
    ensures a == b
  {
    forall i | 0 <= i < |a| ensures a[i] == b[i] {
      assert Pixels(a)[i / 4] == Pixels(b)[i / 4];
      assert i == 4 * (i / 4) + i % 4;
    }
  }

  predicate IsImage(w: nat, h: nat, img: seq<Pixel>) {
    |img| == Size(w, h)
  }

  function Square(d: int): nat {
    assert d * d >= 0; d * d
  }

  /** Squared Euclidean distance between two colours. */
  function ColourGap(p: Pixel, q: Pixel): nat {
    Square(Gap(p.r, q.r)) + Square(Gap(p.g, q.g)) + Square(Gap(p.b, q.b))
  }

  function Dist2(img: seq<Pixel>, s: nat, k: nat): nat
    requires s < |img| && k < |img|
  {
    ColourGap(img[k], img[s])
  }

  predicate Transparent(img: seq<Pixel>, s: nat)
    requires s < |img|
  {
    img[s].a < TRANSPARENT_BELOW
  }

  /** A fill from `s` continues through pixel `k`. */
  predicate Accepts(img: seq<Pixel>, s: nat, k: nat)
    requires s < |img| && k < |img|
  {
    Transparent(img, s) || Dist2(img, s, k) <= TOLERANCE_SQUARED
  }

  /** A fill from `s` rewrites the alpha of pixel `k` when it gets there. */
  predicate Paints(img: seq<Pixel>, s: nat, k: nat)
    requires s < |img| && k < |img|
  {
    !Transparent(img, s) && Dist2(img, s, k) <= TOLERANCE_SQUARED
  }

  /** The feathered alpha at squared distance `d2`: 255 * (sqrt(d2) - 32) / 16, rounded to the
      nearest integer with halves going up. Clearing the fraction and squaring leaves integers. */
  function Feather(d2: nat): (f: Byte)
    requires CLEAR_SQUARED < d2 <= TOLERANCE_SQUARED
    ensures Square(8152 + 16 * f) <= 65025 * d2 < Square(8152 + 16 * (f + 1))
  {
    FeatherBelow(d2, 255)
  }

  function FeatherBelow(d2: nat, top: Byte): (f: Byte)
    requires CLEAR_SQUARED < d2 <= TOLERANCE_SQUARED
    requires 65025 * d2 < Square(8152 + 16 * (top + 1))
    ensures f <= top && Square(8152 + 16 * f) <= 65025 * d2 < Square(8152 + 16 * (f + 1))
  {
    if top == 0 || Square(8152 + 16 * top) <= 65025 * d2 then top else FeatherBelow(d2, top - 1)
  }

  lemma RealSquare(n: nat)
    ensures (n as real) * (n as real) == Square(n) as real
  {
  }

  lemma SquareOrder(a: real, b: real)
    requires a >= 0.0 && b >= 0.0
    ensures a < b <==> a * a < b * b
  {
    if a < b {
      LesserSquare(a, b);
    }
    if b < a {
      LesserSquare(b, a);
    }
  }

  lemma LesserSquare(a: real, b: real)
    requires 0.0 <= a < b
    ensures a * a < b * b
  {
    var d := b - a;
    assert b * b == a * a + 2.0 * (a * d) + d * d;
    assert d * d > 0.0;
    assert a * d >= 0.0;
  }

  lemma SquaresBracketRoot(lo: nat, hi: nat, d2: nat, root: real)
    requires root >= 0.0 && root * root == d2 as real
    requires Square(lo) <= 65025 * d2 < Square(hi)
    ensures lo as real <= 255.0 * root < hi as real
  {
    var m := 255.0 * root;
    assert m * m == 65025.0 * (root * root);
    RealSquare(lo);
    RealSquare(hi);
    SquareOrder(m, lo as real);
    SquareOrder(m, hi as real);
  }

  /** `Feather` is the program's rounding formula at the true square root. */
  lemma FeatherRoundsSquareRoot(d2: nat, root: real)
    requires CLEAR_SQUARED < d2 <= TOLERANCE_SQUARED
    requires root >= 0.0 && root * root == d2 as real
    ensures Feather(d2) == (255.0 * ((root - 32.0) / 16.0) + 0.5).Floor
  {
    var f: int := Feather(d2);
    SquaresBracketRoot(8152 + 16 * f, 8152 + 16 * (f + 1), d2, root);
    assert 255.0 * ((root - 32.0) / 16.0) + 0.5 == (255.0 * root - 8152.0) / 16.0;
    assert f as real <= (255.0 * root - 8152.0) / 16.0 < (f + 1) as real;
  }

  function NewAlpha(a: Byte, d2: nat): Byte
    requires d2 <= TOLERANCE_SQUARED
  {
    if d2 <= CLEAR_SQUARED then 0 else if a < Feather(d2) then a else Feather(d2)
  }

  /** Pixel `k` as a fill from `s` leaves it. */
  function PaintedPixel(img: seq<Pixel>, s: nat, k: nat): Pixel
    requires s < |img| && k < |img|
  {
    if Paints(img, s, k) then img[k].(a := NewAlpha(img[k].a, Dist2(img, s, k))) else img[k]
  }

  // ---------- One fill ----------

  /** An in-bounds 4-connected path that avoids `blocked` and whose pixels, except possibly
      the last, are accepted by a fill from its first pixel. */
  ghost predicate FillPath(w: nat, h: nat, img: seq<Pixel>, blocked: set<nat>, path: seq<nat>)
    requires IsImage(w, h, img)
  {
    && |path| > 0
    && (forall i :: 0 <= i < |path| ==> path[i] < Size(w, h) && path[i] !in blocked)
    && (forall i :: 0 <= i < |path| - 1 ==> Accepts(img, path[0], path[i]) && Adjacent(w, path[i], path[i + 1]))
  }

  ghost predicate Reachable(w: nat, h: nat, img: seq<Pixel>, blocked: set<nat>, s: nat, k: nat)
    requires IsImage(w, h, img)
  {
    exists path :: FillPath(w, h, img, blocked, path) && path[0] == s && path[|path| - 1] == k
  }

  ghost function Region(w: nat, h: nat, img: seq<Pixel>, blocked: set<nat>, s: nat): set<nat>
    requires IsImage(w, h, img)
  {
    set k: nat | k < Size(w, h) && Reachable(w, h, img, blocked, s, k)
  }

  /** `img` after a fill from `s` has processed the pixels in `region`. */
  function Paint(w: nat, h: nat, img: seq<Pixel>, s: nat, region: set<nat>): (out: seq<Pixel>)
    requires IsImage(w, h, img) && s < Size(w, h)
    ensures IsImage(w, h, out)
  {
    seq(|img|, k requires 0 <= k < |img| => if k in region then PaintedPixel(img, s, k) else img[k])
  }

  lemma ReachSeed(w: nat, h: nat, img: seq<Pixel>, blocked: set<nat>, s: nat)
    requires IsImage(w, h, img) && s < Size(w, h) && s !in blocked
    ensures Reachable(w, h, img, blocked, s, s)
  {
    assert FillPath(w, h, img, blocked, [s]);
  }

  lemma ReachStep(w: nat, h: nat, img: seq<Pixel>, blocked: set<nat>, s: nat, k: nat, l: nat)
    requires IsImage(w, h, img) && s < Size(w, h) && k < Size(w, h) && l < Size(w, h) && l !in blocked
    requires Reachable(w, h, img, blocked, s, k) && Accepts(img, s, k) && Adjacent(w, k, l)
    ensures Reachable(w, h, img, blocked, s, l)
  {
    var path :| FillPath(w, h, img, blocked, path) && path[0] == s && path[|path| - 1] == k;
    var longer := path + [l];
    assert forall i :: 0 <= i < |longer| - 1 ==>
      Accepts(img, longer[0], longer[i]) && Adjacent(w, longer[i], longer[i + 1]);
    assert FillPath(w, h, img, blocked, longer);
  }

  /** `found` holds the seed and every unblocked neighbour of an accepted member. */
  ghost predicate Closed(w: nat, h: nat, img: seq<Pixel>, blocked: set<nat>, s: nat, found: set<nat>)
    requires IsImage(w, h, img) && s < Size(w, h)
  {
    && s in found
    && (forall k, l ::
          0 <= k < Size(w, h) && 0 <= l < Size(w, h) && k in found && Accepts(img, s, k) && Adjacent(w, k, l) ==>
            l in found || l in blocked)
  }

  /** A closed set contains everything reachable. */
  lemma {:induction false} ClosedContainsPath(
    w: nat, h: nat, img: seq<Pixel>, blocked: set<nat>, s: nat, found: set<nat>, path: seq<nat>, n: nat)
    requires IsImage(w, h, img) && s < Size(w, h) && Closed(w, h, img, blocked, s, found)
    requires FillPath(w, h, img, blocked, path) && path[0] == s && n < |path|
    ensures path[n] in found
  {
    if n == 0 {
    } else {
      ClosedContainsPath(w, h, img, blocked, s, found, path, n - 1);
      assert Adjacent(w, path[n - 1], path[n - 1 + 1]);
    }
  }

  lemma ClosedIsRegion(w: nat, h: nat, img: seq<Pixel>, blocked: set<nat>, s: nat, found: set<nat>)
    requires IsImage(w, h, img) && s < Size(w, h) && Closed(w, h, img, blocked, s, found)
    requires forall k :: k in found ==> k < Size(w, h) && Reachable(w, h, img, blocked, s, k)
    ensures found == Region(w, h, img, blocked, s)
  {
    forall k | k in Region(w, h, img, blocked, s) ensures k in found {
      var path :| FillPath(w, h, img, blocked, path) && path[0] == s && path[|path| - 1] == k;
      ClosedContainsPath(w, h, img, blocked, s, found, path, |path| - 1);
    }
  }

  // ---------- All seeds ----------

  datatype FillState = FillState(img: seq<Pixel>, visited: set<nat>)

  predicate InGrid(w: nat, h: nat, x: int, y: int) {
    0 <= x < w && 0 <= y < h
  }

  function Seeds(w: nat, h: nat): (seeds: seq<(int, int)>)
    ensures |seeds| == 7
  {
    [(0, 0), (w - 1, 0), (0, h - 1), (w - 1, h - 1), (w / 2, h / 2), (w / 4, h / 2), (3 * w / 4, h / 2)]
  }

  ghost function Pass(w: nat, h: nat, st: FillState, seed: (int, int)): (out: FillState)
    requires IsImage(w, h, st.img)
    ensures IsImage(w, h, out.img) && st.visited <= out.visited
  {
    if !InGrid(w, h, seed.0, seed.1) then st
    else
      Coordinates(w, h, seed.0, seed.1);
      var s := Index(w, seed.0, seed.1);
      if s in st.visited then st
      else
        var region := Region(w, h, st.img, st.visited, s);
        FillState(Paint(w, h, st.img, s, region), st.visited + region)
  }

  lemma PassFills(w: nat, h: nat, st: FillState, x: int, y: int)
    requires IsImage(w, h, st.img) && InGrid(w, h, x, y) && Index(w, x, y) !in st.visited
    ensures var s := Index(w, x, y);
      && s < Size(w, h)
      && Pass(w, h, st, (x, y)) ==
           FillState(Paint(w, h, st.img, s, Region(w, h, st.img, st.visited, s)),
                     st.visited + Region(w, h, st.img, st.visited, s))
  {
    Coordinates(w, h, x, y);
  }

  /** The state after the first `n` seeds. */
  ghost function Run(w: nat, h: nat, img: seq<Pixel>, n: nat): (out: FillState)
    requires IsImage(w, h, img) && n <= |Seeds(w, h)|
    ensures IsImage(w, h, out.img)
  {
    if n == 0 then FillState(img, {}) else Pass(w, h, Run(w, h, img, n - 1), Seeds(w, h)[n - 1])
  }

  ghost function Process(w: nat, h: nat, img: seq<Pixel>): (out: seq<Pixel>)
    requires IsImage(w, h, img)
    ensures IsImage(w, h, out)
  {
    Run(w, h, img, |Seeds(w, h)|).img
  }

  /** Seed `i` starts a fill: it lies in the grid and no earlier fill has visited it. */
  ghost predicate Fills(w: nat, h: nat, img: seq<Pixel>, i: nat)
    requires IsImage(w, h, img) && i < |Seeds(w, h)|
  {
    var (x, y) := Seeds(w, h)[i];
    InGrid(w, h, x, y) && Index(w, x, y) !in Run(w, h, img, i).visited
  }

  ghost function SeedPixel(w: nat, h: nat, img: seq<Pixel>, i: nat): (s: nat)
    requires IsImage(w, h, img) && i < |Seeds(w, h)| && Fills(w, h, img, i)
    ensures s < Size(w, h)
  {
    var (x, y) := Seeds(w, h)[i];
    Coordinates(w, h, x, y);
    Index(w, x, y)
  }

  /** Pixel `k` is in the fill of seed `i`, judged on the input image alone. */
  ghost predicate FilledBy(w: nat, h: nat, img: seq<Pixel>, i: nat, k: nat)
    requires IsImage(w, h, img) && i < |Seeds(w, h)|
  {
    Fills(w, h, img, i) && k in Region(w, h, img, Run(w, h, img, i).visited, SeedPixel(w, h, img, i))
  }

  predicate SameColours(img: seq<Pixel>, img': seq<Pixel>) {
    |img| == |img'| && forall k :: 0 <= k < |img| ==> img'[k] == img[k].(a := img'[k].a)
  }

  /** Two images with the same colours and the same seed alpha are filled alike. */
  lemma RegionAgrees(w: nat, h: nat, img: seq<Pixel>, img': seq<Pixel>, blocked: set<nat>, s: nat)
    requires IsImage(w, h, img) && SameColours(img, img') && s < Size(w, h) && img[s] == img'[s]
    ensures Region(w, h, img, blocked, s) == Region(w, h, img', blocked, s)
  {
    forall path: seq<nat> | |path| > 0 && path[0] == s
      ensures FillPath(w, h, img, blocked, path) == FillPath(w, h, img', blocked, path)
    {
    }
  }

  /** Until a pixel is visited it is untouched; colours never change. */
  lemma {:induction false} RunKeeps(w: nat, h: nat, img: seq<Pixel>, n: nat)
    requires IsImage(w, h, img) && n <= |Seeds(w, h)|
    ensures var st := Run(w, h, img, n);
      && st.visited <= Below(Size(w, h)) && SameColours(img, st.img)
      && forall k :: 0 <= k < Size(w, h) && k !in st.visited ==> st.img[k] == img[k]
  {
    if n == 0 {
    } else {
      RunKeeps(w, h, img, n - 1);
    }
  }

  lemma {:induction false} VisitedGrows(w: nat, h: nat, img: seq<Pixel>, m: nat, n: nat)
    requires IsImage(w, h, img) && m <= n <= |Seeds(w, h)|
    ensures Run(w, h, img, m).visited <= Run(w, h, img, n).visited
    decreases n
  {
    if m == n {
    } else {
      VisitedGrows(w, h, img, m, n - 1);
    }
  }

  /** What one pass does, in terms of the input image. */
  lemma PassOnInput(w: nat, h: nat, img: seq<Pixel>, i: nat, k: nat)
    requires IsImage(w, h, img) && i < |Seeds(w, h)| && k < Size(w, h)
    ensures k in Run(w, h, img, i + 1).visited <==> k in Run(w, h, img, i).visited || FilledBy(w, h, img, i, k)
    ensures FilledBy(w, h, img, i, k) ==> k !in Run(w, h, img, i).visited
    ensures Run(w, h, img, i + 1).img[k] ==
      if FilledBy(w, h, img, i, k) then PaintedPixel(img, SeedPixel(w, h, img, i), k) else Run(w, h, img, i).img[k]
  {
    var st := Run(w, h, img, i);
    if Fills(w, h, img, i) {
      var s := SeedPixel(w, h, img, i);
      RunKeeps(w, h, img, i);
      RegionAgrees(w, h, img, st.img, st.visited, s);
      var region := Region(w, h, img, st.visited, s);
      assert Run(w, h, img, i + 1) == FillState(Paint(w, h, st.img, s, region), st.visited + region);
    }
  }

  /** Each pixel is filled, and so each alpha written, at most once over all seven seeds. */
  lemma FilledOnce(w: nat, h: nat, img: seq<Pixel>, i: nat, j: nat, k: nat)
    requires IsImage(w, h, img) && i < |Seeds(w, h)| && j < |Seeds(w, h)| && k < Size(w, h)
    requires FilledBy(w, h, img, i, k) && FilledBy(w, h, img, j, k)
    ensures i == j
  {
    if i != j {
      var first, last := if i < j then i else j, if i < j then j else i;
      PassOnInput(w, h, img, first, k);
      PassOnInput(w, h, img, last, k);
      VisitedGrows(w, h, img, first + 1, last);
    }
  }

  lemma {:induction false} UnfilledPixel(w: nat, h: nat, img: seq<Pixel>, n: nat, k: nat)
    requires IsImage(w, h, img) && n <= |Seeds(w, h)| && k < Size(w, h)
    requires forall i :: 0 <= i < n ==> !FilledBy(w, h, img, i, k)
    ensures Run(w, h, img, n).img[k] == img[k]
  {
    if n == 0 {
    } else {
      UnfilledPixel(w, h, img, n - 1, k);
      PassOnInput(w, h, img, n - 1, k);
    }
  }

  lemma FilledByOneOnly(w: nat, h: nat, img: seq<Pixel>, i: nat, j: nat, k: nat)
    requires IsImage(w, h, img) && i < |Seeds(w, h)| && j < |Seeds(w, h)| && k < Size(w, h)
    requires FilledBy(w, h, img, i, k) && i != j
    ensures !FilledBy(w, h, img, j, k)
  {
    if FilledBy(w, h, img, j, k) {
      FilledOnce(w, h, img, i, j, k);
    }
  }

  lemma {:induction false} FilledPixel(w: nat, h: nat, img: seq<Pixel>, i: nat, n: nat, k: nat)
    requires IsImage(w, h, img) && i < n <= |Seeds(w, h)| && k < Size(w, h) && FilledBy(w, h, img, i, k)
    ensures Run(w, h, img, n).img[k] == PaintedPixel(img, SeedPixel(w, h, img, i), k)
    decreases n
  {
    PassOnInput(w, h, img, n - 1, k);
    if i == n - 1 {
    } else {
      FilledPixel(w, h, img, i, n - 1, k);
      FilledByOneOnly(w, h, img, i, n - 1, k);
    }
  }

  /** The result, pixel by pixel. Only the fill that contains a pixel decides it, and it
      reads the input image alone; a pixel in no fill is unchanged. */
  lemma ProcessedPixel(w: nat, h: nat, img: seq<Pixel>, k: nat)
    requires IsImage(w, h, img) && k < Size(w, h)
    ensures (forall i :: 0 <= i < |Seeds(w, h)| ==> !FilledBy(w, h, img, i, k)) ==> Process(w, h, img)[k] == img[k]
    ensures forall i :: 0 <= i < |Seeds(w, h)| && FilledBy(w, h, img, i, k) ==>
      Process(w, h, img)[k] == PaintedPixel(img, SeedPixel(w, h, img, i), k)
  {
    if i :| 0 <= i < |Seeds(w, h)| && FilledBy(w, h, img, i, k) {
      FilledPixel(w, h, img, i, |Seeds(w, h)|, k);
      forall j | 0 <= j < |Seeds(w, h)| && FilledBy(w, h, img, j, k) ensures j == i {
        FilledOnce(w, h, img, i, j, k);
      }
    } else {
      UnfilledPixel(w, h, img, |Seeds(w, h)|, k);
    }
  }

  /** Colours never change, alpha never increases, and where alpha changes the pixel lies in
      the accepted region of an opaque seed: it is 0 up to distance 32 from the seed's colour,
      and from there to distance 48 the feather value has replaced a larger alpha. */
  lemma ChangedPixel(w: nat, h: nat, img: seq<Pixel>, k: nat)
    requires IsImage(w, h, img) && k < Size(w, h)
    ensures SameColours(img, Process(w, h, img)) && Process(w, h, img)[k].a <= img[k].a
    ensures Process(w, h, img)[k] != img[k] ==>
      exists i :: 0 <= i < |Seeds(w, h)| && FilledBy(w, h, img, i, k) && !Transparent(img, SeedPixel(w, h, img, i))
        && var d2 := Dist2(img, SeedPixel(w, h, img, i), k);
           d2 <= TOLERANCE_SQUARED && Process(w, h, img)[k].a == if d2 <= CLEAR_SQUARED then 0 else Feather(d2)
  {
    RunKeeps(w, h, img, |Seeds(w, h)|);
    ProcessedPixel(w, h, img, k);
  }

  lemma ColourGapSquares(p: Pixel, q: Pixel)
    ensures ColourGap(p, q) == (p.r - q.r) * (p.r - q.r) + (p.g - q.g) * (p.g - q.g) + (p.b - q.b) * (p.b - q.b)
  {
    GapSquares(p.r, q.r);
    GapSquares(p.g, q.g);
    GapSquares(p.b, q.b);
  }

  lemma GapSquares(a: int, b: int)
    ensures Square(Gap(a, b)) == (a - b) * (a - b)
  {
  }

  /** Every pixel of a fill gets exactly the alpha it should: unchanged for a seed with alpha below
      15, else 0 up to distance 32, at most the feather value up to 48, and unchanged beyond. */
  lemma ProcessedAlpha(w: nat, h: nat, img: seq<Pixel>, i: nat, k: nat, d2: int)
    requires IsImage(w, h, img) && i < |Seeds(w, h)| && k < Size(w, h) && FilledBy(w, h, img, i, k)
    requires var p, q := img[k], img[SeedPixel(w, h, img, i)];
      d2 == (p.r - q.r) * (p.r - q.r) + (p.g - q.g) * (p.g - q.g) + (p.b - q.b) * (p.b - q.b)
    ensures var p, q, out := img[k], img[SeedPixel(w, h, img, i)], Process(w, h, img)[k];
      && out.r == p.r && out.g == p.g && out.b == p.b
      && (q.a < 15 || d2 > 2304 ==> out.a == p.a)
      && (q.a >= 15 && d2 <= 1024 ==> out.a == 0)
      && (q.a >= 15 && 1024 < d2 <= 2304 ==> out.a == if p.a < Feather(d2) then p.a else Feather(d2))
  {
    var s := SeedPixel(w, h, img, i);
    ColourGapSquares(img[k], img[s]);
    ProcessedPixel(w, h, img, k);
    hide *;
    PaintedAlpha(img, s, k, d2);
  }

  lemma PaintedAlpha(img: seq<Pixel>, s: nat, k: nat, d2: int)
    requires s < |img| && k < |img| && d2 == ColourGap(img[k], img[s])
    ensures var p, q, out := img[k], img[s], PaintedPixel(img, s, k);
      && out.r == p.r && out.g == p.g && out.b == p.b
      && (q.a < 15 || d2 > 2304 ==> out.a == p.a)
      && (q.a >= 15 && d2 <= 1024 ==> out.a == 0)
      && (q.a >= 15 && 1024 < d2 <= 2304 ==> out.a == if p.a < Feather(d2) then p.a else Feather(d2))
  {
    hide ColourGap, Feather;
  }

  /** A fill spreads from each of its pixels that is within distance 48 of the seed's colour, or
      from all of them when the seed's alpha is below 15, to every unvisited neighbour. */
  lemma FillSpreads(w: nat, h: nat, img: seq<Pixel>, i: nat, k: nat, l: nat)
    requires IsImage(w, h, img) && i < |Seeds(w, h)| && k < Size(w, h) && l < Size(w, h)
    requires FilledBy(w, h, img, i, k) && Adjacent(w, k, l) && l !in Run(w, h, img, i).visited
    requires var p, q := img[k], img[SeedPixel(w, h, img, i)];
      q.a < 15 || (p.r - q.r) * (p.r - q.r) + (p.g - q.g) * (p.g - q.g) + (p.b - q.b) * (p.b - q.b) <= 2304
    ensures FilledBy(w, h, img, i, l)
  {
    var s := SeedPixel(w, h, img, i);
    ColourGapSquares(img[k], img[s]);
    ReachStep(w, h, img, Run(w, h, img, i).visited, s, k, l);
  }

  /** And it gets nowhere else: every pixel of a fill but the seed has such a neighbour in it. */
  lemma FillComesFrom(w: nat, h: nat, img: seq<Pixel>, i: nat, l: nat) returns (k: nat)
    requires IsImage(w, h, img) && i < |Seeds(w, h)| && l < Size(w, h)
    requires FilledBy(w, h, img, i, l) && l != SeedPixel(w, h, img, i)
    ensures k < Size(w, h) && FilledBy(w, h, img, i, k) && Adjacent(w, k, l)
    ensures var p, q := img[k], img[SeedPixel(w, h, img, i)];
      q.a < 15 || (p.r - q.r) * (p.r - q.r) + (p.g - q.g) * (p.g - q.g) + (p.b - q.b) * (p.b - q.b) <= 2304
  {
    var s, blocked := SeedPixel(w, h, img, i), Run(w, h, img, i).visited;
    var path :| FillPath(w, h, img, blocked, path) && path[0] == s && path[|path| - 1] == l;
    var shorter := path[..|path| - 1];
    k := shorter[|shorter| - 1];
    assert k == path[|path| - 2] && path[|path| - 2 + 1] == l;
    assert FillPath(w, h, img, blocked, shorter);
    ColourGapSquares(img[k], img[s]);
  }

  /** The seeds of a non-empty image, by pixel number: four corners, the centre, and two points
      a quarter and three quarters along the middle row. */
  lemma SeedPoints(w: nat, h: nat)
    requires w > 0 && h > 0
    ensures forall i :: 0 <= i < 7 ==> InGrid(w, h, Seeds(w, h)[i].0, Seeds(w, h)[i].1)
    ensures seq(7, i requires 0 <= i < 7 => Index(w, Seeds(w, h)[i].0, Seeds(w, h)[i].1)) ==
      [0, w - 1, (h - 1) * w, h * w - 1, (h / 2) * w + w / 2, (h / 2) * w + w / 4, (h / 2) * w + 3 * w / 4]
  {
    var seeds := Seeds(w, h);
    IndexIsProduct(w, 0, 0);
    IndexIsProduct(w, w - 1, 0);
    IndexIsProduct(w, 0, h - 1);
    IndexIsProduct(w, w - 1, h - 1);
    assert (h - 1) * w + (w - 1) == h * w - 1;
    IndexIsProduct(w, w / 2, h / 2);
    IndexIsProduct(w, w / 4, h / 2);
    IndexIsProduct(w, 3 * w / 4, h / 2);
  }

  /** Every seed ends up in a fill: its own, or that of an earlier seed. */
  lemma SeedFilled(w: nat, h: nat, img: seq<Pixel>, i: nat) returns (j: nat)
    requires IsImage(w, h, img) && i < |Seeds(w, h)| && InGrid(w, h, Seeds(w, h)[i].0, Seeds(w, h)[i].1)
    ensures j <= i && FilledBy(w, h, img, j, Index(w, Seeds(w, h)[i].0, Seeds(w, h)[i].1))
  {
    var (x, y) := Seeds(w, h)[i];
    Coordinates(w, h, x, y);
    var s := Index(w, x, y);
    if s in Run(w, h, img, i).visited {
      j := VisitedBy(w, h, img, i, s);
    } else {
      j := i;
      RunKeeps(w, h, img, i);
      ReachSeed(w, h, img, Run(w, h, img, i).visited, s);
    }
  }

  /** A visited pixel was visited by some fill. */
  lemma {:induction false} VisitedBy(w: nat, h: nat, img: seq<Pixel>, n: nat, k: nat) returns (j: nat)
    requires IsImage(w, h, img) && n <= |Seeds(w, h)| && k < Size(w, h) && k in Run(w, h, img, n).visited
    ensures j < n && FilledBy(w, h, img, j, k)
    decreases n
  {
    if n == 0 {
      assert false;
    } else {
      PassOnInput(w, h, img, n - 1, k);
      if FilledBy(w, h, img, n - 1, k) {
        j := n - 1;
      } else {
        j := VisitedBy(w, h, img, n - 1, k);
      }
    }
  }

  /** With a transparent seed in the corner the whole grid is one region. */
  lemma {:induction false} GridConnected(w: nat, h: nat, img: seq<Pixel>, k: nat)
    requires IsImage(w, h, img) && k < Size(w, h) && Transparent(img, 0)
    ensures Reachable(w, h, img, {}, 0, k)
  {
    FromCoordinates(w, h, k);
    var x, y := X(w, k), Y(w, k);
    if k == 0 {
      ReachSeed(w, h, img, {}, 0);
    } else if x > 0 {
      IndexShift(w, x, y);
      IndexShift(w, x - 1, y);
      Coordinates(w, h, x - 1, y);
      GridConnected(w, h, img, k - 1);
      ReachStep(w, h, img, {}, 0, k - 1, k);
    } else {
      Coordinates(w, h, x, y - 1);
      GridConnected(w, h, img, k - w);
      ReachStep(w, h, img, {}, 0, k - w, k);
    }
  }

  /** A transparent top-left pixel makes the whole operation the identity: its fill visits
      everything and writes nothing, so every later seed is skipped. */
  lemma TransparentCornerDisables(w: nat, h: nat, img: seq<Pixel>, n: nat)
    requires IsImage(w, h, img) && Size(w, h) > 0 && Transparent(img, 0) && 1 <= n <= |Seeds(w, h)|
    ensures Run(w, h, img, n) == FillState(img, Below(Size(w, h)))
    ensures Process(w, h, img) == img
    decreases |Seeds(w, h)| - n
  {
    CornerFillsAll(w, h, img);
    LaterSeedsSkipped(w, h, img, n);
    LaterSeedsSkipped(w, h, img, |Seeds(w, h)|);
  }

  lemma CornerFillsAll(w: nat, h: nat, img: seq<Pixel>)
    requires IsImage(w, h, img) && Size(w, h) > 0 && Transparent(img, 0)
    ensures Run(w, h, img, 1) == FillState(img, Below(Size(w, h)))
  {
    CornerRegion(w, h, img);
    FromCoordinates(w, h, 0);
    FirstPass(w, h, img);
    PassFills(w, h, FillState(img, {}), 0, 0);
    TransparentPaint(w, h, img, Below(Size(w, h)));
  }

  lemma CornerRegion(w: nat, h: nat, img: seq<Pixel>)
    requires IsImage(w, h, img) && Size(w, h) > 0 && Transparent(img, 0)
    ensures Region(w, h, img, {}, 0) == Below(Size(w, h))
  {
    forall k: nat | k < Size(w, h) ensures Reachable(w, h, img, {}, 0, k) {
      GridConnected(w, h, img, k);
    }
  }

  lemma FirstPass(w: nat, h: nat, img: seq<Pixel>)
    requires IsImage(w, h, img)
    ensures Run(w, h, img, 1) == Pass(w, h, FillState(img, {}), (0, 0))
  {
    assert Run(w, h, img, 0) == FillState(img, {}) && Seeds(w, h)[0] == (0, 0);
  }

  lemma TransparentPaint(w: nat, h: nat, img: seq<Pixel>, region: set<nat>)
    requires IsImage(w, h, img) && Size(w, h) > 0 && Transparent(img, 0)
    ensures Paint(w, h, img, 0, region) == img
  {
  }

  lemma {:induction false} LaterSeedsSkipped(w: nat, h: nat, img: seq<Pixel>, n: nat)
    requires IsImage(w, h, img) && 1 <= n <= |Seeds(w, h)|
    requires Run(w, h, img, 1) == FillState(img, Below(Size(w, h)))
    ensures Run(w, h, img, n) == FillState(img, Below(Size(w, h)))
  {
    if n == 1 {
    } else {
      LaterSeedsSkipped(w, h, img, n - 1);
      var (x, y) := Seeds(w, h)[n - 1];
      if InGrid(w, h, x, y) {
        Coordinates(w, h, x, y);
      }
    }
  }

  /** A fill leaves its own seed transparent. */
  lemma SeedCleared(img: seq<Pixel>, s: nat)
    requires s < |img|
    ensures PaintedPixel(img, s, s).a < TRANSPARENT_BELOW
  {
    assert Dist2(img, s, s) == 0;
  }

  lemma CornerFilled(w: nat, h: nat, img: seq<Pixel>)
    requires IsImage(w, h, img) && Size(w, h) > 0
    ensures Fills(w, h, img, 0) && SeedPixel(w, h, img, 0) == 0 && FilledBy(w, h, img, 0, 0)
  {
    FromCoordinates(w, h, 0);
    assert Seeds(w, h)[0] == (0, 0);
    ReachSeed(w, h, img, {}, 0);
  }

  /** The result always has a transparent top-left pixel. */
  lemma CornerCleared(w: nat, h: nat, img: seq<Pixel>)
    requires IsImage(w, h, img) && Size(w, h) > 0
    ensures Transparent(Process(w, h, img), 0)
  {
    CornerFilled(w, h, img);
    ProcessedPixel(w, h, img, 0);
    SeedCleared(img, 0);
  }

  /** A frame comes back unchanged if and only if its top-left pixel is transparent. */
  lemma UnchangedExact(w: nat, h: nat, img: seq<Pixel>)
    requires IsImage(w, h, img) && Size(w, h) > 0
    ensures Process(w, h, img) == img <==> Transparent(img, 0)
  {
    CornerCleared(w, h, img);
    if Transparent(img, 0) {
      TransparentCornerDisables(w, h, img, |Seeds(w, h)|);
    }
  }

  /** Processing a processed frame changes nothing. */
  lemma ProcessIdempotent(w: nat, h: nat, img: seq<Pixel>)
    requires IsImage(w, h, img)
    ensures Process(w, h, Process(w, h, img)) == Process(w, h, img)
  {
    if Size(w, h) > 0 {
      CornerCleared(w, h, img);
      TransparentCornerDisables(w, h, Process(w, h, img), |Seeds(w, h)|);
    }
  }

  // ---------- The loops ----------

  ghost function Marked(visited: seq<bool>): set<nat> {
    set k: nat | k < |visited| && visited[k]
  }

  ghost function Elements(order: seq<nat>): set<nat> {
    set k | k in order
  }

  ghost function Below(n: nat): (s: set<nat>)
    ensures |s| == n && forall k :: k in s <==> 0 <= k < n
  {
    if n == 0 then {} else Below(n - 1) + {n - 1}
  }

  lemma {:induction false} DistinctElements(order: seq<nat>)
    requires Distinct(order)
    ensures |Elements(order)| == |order|
  {
    if order == [] {
    } else {
      var last, rest := order[|order| - 1], order[..|order| - 1];
      assert order == rest + [last];
      DistinctElements(rest);
      assert Elements(order) == Elements(rest) + {last};
    }
  }

  lemma DistinctBelow(order: seq<nat>, n: nat)
    requires Distinct(order) && forall i :: 0 <= i < |order| ==> order[i] < n
    ensures |order| <= n
  {
    DistinctElements(order);
    SubsetCardinality(Elements(order), Below(n));
  }

  lemma {:induction false} SubsetCardinality(a: set<nat>, b: set<nat>)
    requires a <= b
    ensures |a| <= |b|
  {
    if a == {} {
    } else {
      var x :| x in a;
      SubsetCardinality(a - {x}, b - {x});
    }
  }

  /** The flat queue of coordinates holds exactly the pixels of `order`. */
  ghost predicate Queued(w: nat, h: nat, queue: seq<int>, order: seq<nat>) {
    && |queue| == 2 * |order|
    && (forall i :: 0 <= i < |order| ==>
          && InGrid(w, h, queue[2 * i], queue[2 * i + 1])
          && order[i] == Index(w, queue[2 * i], queue[2 * i + 1]))
  }

  lemma QueuedPush(w: nat, h: nat, queue: seq<int>, order: seq<nat>, x: int, y: int)
    requires Queued(w, h, queue, order) && InGrid(w, h, x, y)
    ensures Queued(w, h, queue + [x, y], order + [Index(w, x, y)])
  {
    Coordinates(w, h, x, y);
    var q, o := queue + [x, y], order + [Index(w, x, y)];
    forall i | 0 <= i < |o| ensures InGrid(w, h, q[2 * i], q[2 * i + 1]) && o[i] == Index(w, q[2 * i], q[2 * i + 1]) {
      if i < |order| {
        assert q[2 * i] == queue[2 * i] && q[2 * i + 1] == queue[2 * i + 1];
      }
    }
  }

  function Neighbours(x: int, y: int): seq<(int, int)> {
    [(x + 1, y), (x - 1, y), (x, y + 1), (x, y - 1)]
  }

  lemma NeighbourIsAdjacent(w: nat, h: nat, x: nat, y: nat, i: nat)
    requires InGrid(w, h, x, y) && i < 4
    requires InGrid(w, h, Neighbours(x, y)[i].0, Neighbours(x, y)[i].1)
    ensures var (nx, ny) := Neighbours(x, y)[i];
      Index(w, nx, ny) < Size(w, h) && Adjacent(w, Index(w, x, y), Index(w, nx, ny))
  {
    Coordinates(w, h, x, y);
    Coordinates(w, h, Neighbours(x, y)[i].0, Neighbours(x, y)[i].1);
  }

  lemma AdjacentIsNeighbour(w: nat, h: nat, x: nat, y: nat, l: nat) returns (i: nat)
    requires InGrid(w, h, x, y) && l < Size(w, h) && Adjacent(w, Index(w, x, y), l)
    ensures i < 4 && InGrid(w, h, Neighbours(x, y)[i].0, Neighbours(x, y)[i].1)
    ensures l == Index(w, Neighbours(x, y)[i].0, Neighbours(x, y)[i].1)
  {
    Coordinates(w, h, x, y);
    FromCoordinates(w, h, l);
    i := if X(w, l) == x + 1 then 0 else if X(w, l) + 1 == x then 1 else if Y(w, l) == y + 1 then 2 else 3;
  }

  /** Exactly the unvisited neighbours of pixel `k` are marked, and `pushed` lists them. */
  ghost predicate Expanded(w: nat, h: nat, k: nat, before: seq<bool>, after: seq<bool>, pushed: seq<nat>) {
    && |before| == |after| == Size(w, h) && Distinct(pushed)
    && (forall l :: l in pushed ==> l < Size(w, h) && !before[l] && Adjacent(w, k, l))
    && (forall l :: 0 <= l < Size(w, h) ==> after[l] == (before[l] || l in pushed))
    && (forall l :: 0 <= l < Size(w, h) && Adjacent(w, k, l) ==> after[l])
  }

  /** Marks and enqueues the unvisited neighbours of one pixel. */
  method EnqueueNeighbours(w: nat, h: nat, visited: array<bool>, cx: int, cy: int, queue: seq<int>,
                           ghost order: seq<nat>)
    returns (longer: seq<int>, ghost pushed: seq<nat>)
    requires visited.Length == Size(w, h) && InGrid(w, h, cx, cy)
    requires Queued(w, h, queue, order)
    modifies visited
    ensures Queued(w, h, longer, order + pushed) && queue <= longer
    ensures Expanded(w, h, Index(w, cx, cy), old(visited[..]), visited[..], pushed)
  {
    longer, pushed := queue, [];
    var neighbours := Neighbours(cx, cy);
    Coordinates(w, h, cx, cy);
    for i := 0 to |neighbours|
      invariant Queued(w, h, longer, order + pushed) && queue <= longer
      invariant Distinct(pushed)
      invariant forall l :: l in pushed ==> l < Size(w, h) && !old(visited[l]) && Adjacent(w, Index(w, cx, cy), l)
      invariant forall l :: 0 <= l < Size(w, h) ==> visited[l] == (old(visited[l]) || l in pushed)
      invariant forall j :: 0 <= j < i && InGrid(w, h, neighbours[j].0, neighbours[j].1) ==>
        Index(w, neighbours[j].0, neighbours[j].1) < Size(w, h) && visited[Index(w, neighbours[j].0, neighbours[j].1)]
    {
      var (nx, ny) := neighbours[i];
      if InGrid(w, h, nx, ny) {
        NeighbourIsAdjacent(w, h, cx, cy, i);
        IndexIsProduct(w, nx, ny);
        var nidx := ny * w + nx;
        if !visited[nidx] {
          visited[nidx] := true;
          QueuedPush(w, h, longer, order + pushed, nx, ny);
          assert order + pushed + [nidx] == order + (pushed + [nidx]);
          longer, pushed := longer + [nx, ny], pushed + [nidx];
        }
      }
    }
    forall l | 0 <= l < Size(w, h) && Adjacent(w, Index(w, cx, cy), l) ensures visited[l] {
      var i := AdjacentIsNeighbour(w, h, cx, cy, l);
      assert InGrid(w, h, neighbours[i].0, neighbours[i].1);
    }
  }

  /** Tests pixel `k` against the seed colour and rewrites its alpha in place. */
  method ProcessPixel(pixelData: array<Byte>, k: nat, isTransparentSeed: bool, sr: Byte, sg: Byte, sb: Byte,
                      ghost img: seq<Pixel>, ghost s: nat)
    returns (accepted: bool)
    requires 4 * |img| == pixelData.Length && k < |img| && s < |img|
    requires Pixels(pixelData[..])[k] == img[k]
    requires isTransparentSeed == Transparent(img, s) && sr == img[s].r && sg == img[s].g && sb == img[s].b
    modifies pixelData
    ensures accepted == Accepts(img, s, k)
    ensures Pixels(pixelData[..]) == Pixels(old(pixelData[..]))[k := PaintedPixel(img, s, k)]
  {
    var coff := 4 * k;
    var ca := pixelData[coff + 3];
    var dist2 := Square(Gap(pixelData[coff], sr)) + Square(Gap(pixelData[coff + 1], sg)) +
      Square(Gap(pixelData[coff + 2], sb));
    assert dist2 == Dist2(img, s, k);
    accepted := isTransparentSeed || dist2 <= TOLERANCE_SQUARED;
    if accepted && !isTransparentSeed {
      if dist2 <= CLEAR_SQUARED {
        pixelData[coff + 3] := 0;
      } else {
        pixelData[coff + 3] := if ca < Feather(dist2) then ca else Feather(dist2);
      }
    }
  }

  /** Dequeuing `order[done]` paints that pixel, which no earlier step of this fill has touched. */
  lemma PaintOneMore(w: nat, h: nat, img: seq<Pixel>, s: nat, order: seq<nat>, done: nat)
    requires IsImage(w, h, img) && s < Size(w, h) && Distinct(order) && done < |order| && order[done] < Size(w, h)
    ensures var k, painted := order[done], Paint(w, h, img, s, Elements(order[..done]));
      painted[k] == img[k] && Paint(w, h, img, s, Elements(order[..done + 1])) == painted[k := PaintedPixel(img, s, k)]
  {
    assert order[..done + 1] == order[..done] + [order[done]];
  }

  /** What the breadth-first loop keeps: `order[..done]` has been dequeued. */
  ghost predicate FillInvariant(w: nat, h: nat, img: seq<Pixel>, blocked: set<nat>, s: nat, visited: seq<bool>,
                                order: seq<nat>, done: nat)
    requires IsImage(w, h, img) && s < Size(w, h)
  {
    && |visited| == Size(w, h) && done <= |order|
    && Distinct(order) && s in order
    && (forall i :: 0 <= i < |order| ==> order[i] < Size(w, h))
    && (forall k :: k in order ==> k !in blocked && Reachable(w, h, img, blocked, s, k))
    && (forall k: nat :: k < Size(w, h) ==> visited[k] == (k in blocked || k in order))
    && (forall i, l ::
          0 <= i < done && 0 <= l < Size(w, h) && Accepts(img, s, order[i]) && Adjacent(w, order[i], l) ==>
            visited[l])
  }

  lemma FillInvariantAtStart(w: nat, h: nat, img: seq<Pixel>, before: seq<bool>, s: nat)
    requires IsImage(w, h, img) && s < Size(w, h) == |before| && !before[s]
    ensures FillInvariant(w, h, img, Marked(before), s, before[s := true], [s], 0)
    ensures Paint(w, h, img, s, Elements([s][..0])) == img
  {
    ReachSeed(w, h, img, Marked(before), s);
  }

  lemma FillInvariantStep(w: nat, h: nat, img: seq<Pixel>, blocked: set<nat>, s: nat, visited: seq<bool>,
                          order: seq<nat>, done: nat, visited': seq<bool>, pushed: seq<nat>)
    requires IsImage(w, h, img) && s < Size(w, h) && done < |order|
    requires FillInvariant(w, h, img, blocked, s, visited, order, done) && order[done] < Size(w, h)
    requires if Accepts(img, s, order[done]) then Expanded(w, h, order[done], visited, visited', pushed)
             else pushed == [] && visited' == visited
    ensures FillInvariant(w, h, img, blocked, s, visited', order + pushed, done + 1)
  {
    forall l | l in pushed ensures Reachable(w, h, img, blocked, s, l) {
      assert order[done] in order;
      ReachStep(w, h, img, blocked, s, order[done], l);
    }
    forall i | |order| <= i < |order + pushed| ensures (order + pushed)[i] < Size(w, h) {
      assert pushed[i - |order|] in pushed;
    }
    forall i, j | 0 <= i < j < |order + pushed| ensures (order + pushed)[i] != (order + pushed)[j] {
      if i < |order| <= j {
        assert order[i] in order && pushed[j - |order|] in pushed;
      }
    }
  }

  lemma FillInvariantAtEnd(w: nat, h: nat, img: seq<Pixel>, blocked: set<nat>, s: nat, visited: seq<bool>,
                           order: seq<nat>)
    requires IsImage(w, h, img) && s < Size(w, h) && blocked <= Below(Size(w, h))
    requires FillInvariant(w, h, img, blocked, s, visited, order, |order|)
    ensures Elements(order) == Region(w, h, img, blocked, s)
    ensures Marked(visited) == blocked + Elements(order) && Elements(order) !! blocked
  {
    forall k, l | 0 <= k < Size(w, h) && 0 <= l < Size(w, h) && k in Elements(order) && Accepts(img, s, k)
      && Adjacent(w, k, l)
      ensures l in Elements(order) || l in blocked
    {
      var i :| 0 <= i < |order| && order[i] == k;
      assert visited[l];
    }
    ClosedIsRegion(w, h, img, blocked, s, Elements(order));
    forall k ensures k in Marked(visited) <==> k in blocked + Elements(order) {
      if k in blocked {
        assert k in Below(Size(w, h));
      }
    }
  }

  /** The queue never holds more pixels than the grid. */
  lemma RoomInQueue(w: nat, h: nat, img: seq<Pixel>, blocked: set<nat>, s: nat, visited: seq<bool>, order: seq<nat>,
                    done: nat)
    requires IsImage(w, h, img) && s < Size(w, h) && FillInvariant(w, h, img, blocked, s, visited, order, done)
    ensures |order| <= Size(w, h)
  {
    DistinctBelow(order, Size(w, h));
  }

  lemma PassComputed(w: nat, h: nat, img: seq<Pixel>, blocked: set<nat>, sx: nat, sy: nat, visited: seq<bool>,
                     order: seq<nat>)
    requires IsImage(w, h, img) && InGrid(w, h, sx, sy) && Index(w, sx, sy) < Size(w, h) && Index(w, sx, sy) !in blocked
    requires blocked <= Below(Size(w, h))
    requires FillInvariant(w, h, img, blocked, Index(w, sx, sy), visited, order, |order|)
    ensures FillState(Paint(w, h, img, Index(w, sx, sy), Elements(order)), Marked(visited)) ==
      Pass(w, h, FillState(img, blocked), (sx, sy))
    ensures Distinct(order) && Elements(order) !! blocked && Marked(visited) == blocked + Elements(order)
  {
    FillInvariantAtEnd(w, h, img, blocked, Index(w, sx, sy), visited, order);
    PassFills(w, h, FillState(img, blocked), sx, sy);
  }

  /** The body of the breadth-first loop: dequeues one pixel. */
  method FloodStep(w: nat, h: nat, visited: array<bool>, pixelData: array<Byte>, queue: seq<int>, qHead: nat,
                   isTransparentSeed: bool, sr: Byte, sg: Byte, sb: Byte,
                   ghost img: seq<Pixel>, ghost blocked: set<nat>, ghost s: nat, ghost order: seq<nat>, ghost done: nat)
    returns (longer: seq<int>, ghost order': seq<nat>)
    requires IsImage(w, h, img) && s < Size(w, h)
    requires isTransparentSeed == Transparent(img, s) && sr == img[s].r && sg == img[s].g && sb == img[s].b
    requires qHead == 2 * done && done < |order| && Queued(w, h, queue, order)
    requires FillInvariant(w, h, img, blocked, s, visited[..], order, done)
    requires pixelData.Length == 4 * Size(w, h) && Pixels(pixelData[..]) == Paint(w, h, img, s, Elements(order[..done]))
    modifies visited, pixelData
    ensures order <= order' && Queued(w, h, longer, order')
    ensures FillInvariant(w, h, img, blocked, s, visited[..], order', done + 1)
    ensures Pixels(pixelData[..]) == Paint(w, h, img, s, Elements(order'[..done + 1]))
  {
    ghost var k := order[done];
    assert InGrid(w, h, queue[2 * done], queue[2 * done + 1]) && k == Index(w, queue[2 * done], queue[2 * done + 1]);
    var cx, cy := queue[qHead], queue[qHead + 1];
    IndexIsProduct(w, cx, cy);
    PaintOneMore(w, h, img, s, order, done);
    var accepted := ProcessPixel(pixelData, cy * w + cx, isTransparentSeed, sr, sg, sb, img, s);
    ghost var before, pushed := visited[..], [];
    longer, order' := queue, order;
    if accepted {
      longer, pushed := EnqueueNeighbours(w, h, visited, cx, cy, queue, order);
      order' := order + pushed;
    }
    assert order' == order + pushed;
    FillInvariantStep(w, h, img, blocked, s, before, order, done, visited[..], pushed);
    assert order'[..done + 1] == order[..done + 1];
  }

  /** One breadth-first fill. `order` lists the pixels in the order they enter the queue. */
  method FloodSeed(w: nat, h: nat, visited: array<bool>, pixelData: array<Byte>, sx: int, sy: int)
    returns (ghost order: seq<nat>)
    requires visited.Length == Size(w, h) && pixelData.Length == 4 * Size(w, h)
    requires InGrid(w, h, sx, sy) && Index(w, sx, sy) < Size(w, h) && !visited[Index(w, sx, sy)]
    modifies visited, pixelData
    ensures IsImage(w, h, Pixels(old(pixelData[..])))
    ensures FillState(Pixels(pixelData[..]), Marked(visited[..])) ==
      Pass(w, h, FillState(Pixels(old(pixelData[..])), Marked(old(visited[..]))), (sx, sy))
    ensures Distinct(order) && Elements(order) !! Marked(old(visited[..]))
    ensures Marked(visited[..]) == Marked(old(visited[..])) + Elements(order)
  {
    ghost var img, blocked := Pixels(pixelData[..]), Marked(visited[..]);
    IndexIsProduct(w, sx, sy);
    var s := sy * w + sx;
    var sr, sg, sb, sa := pixelData[4 * s], pixelData[4 * s + 1], pixelData[4 * s + 2], pixelData[4 * s + 3];
    var isTransparentSeed := sa < TRANSPARENT_BELOW;
    var queue := [sx, sy];
    visited[s] := true;
    order := [s];
    var qHead := 0;
    ghost var done := 0;
    FillInvariantAtStart(w, h, img, old(visited[..]), s);
    while qHead < |queue|
      invariant qHead == 2 * done && done <= |order| && Queued(w, h, queue, order)
      invariant FillInvariant(w, h, img, blocked, s, visited[..], order, done)
      invariant Pixels(pixelData[..]) == Paint(w, h, img, s, Elements(order[..done]))
      decreases Size(w, h) - done
    {
      RoomInQueue(w, h, img, blocked, s, visited[..], order, done);
      queue, order := FloodStep(w, h, visited, pixelData, queue, qHead, isTransparentSeed, sr, sg, sb, img, blocked,
        s, order, done);
      qHead, done := qHead + 2, done + 1;
    }
    assert order[..done] == order;
    PassComputed(w, h, img, blocked, sx, sy, visited[..], order);
  }

  /** One seed of the outer loop: skipped when outside the grid or visited, filled otherwise. */
  method TrySeed(w: nat, h: nat, visited: array<bool>, pixelData: array<Byte>, sx: int, sy: int)
    returns (ghost order: seq<nat>)
    requires visited.Length == Size(w, h) && pixelData.Length == 4 * Size(w, h)
    modifies visited, pixelData
    ensures IsImage(w, h, Pixels(old(pixelData[..])))
    ensures FillState(Pixels(pixelData[..]), Marked(visited[..])) ==
      Pass(w, h, FillState(Pixels(old(pixelData[..])), Marked(old(visited[..]))), (sx, sy))
    ensures Distinct(order) && Elements(order) !! Marked(old(visited[..]))
    ensures Marked(visited[..]) == Marked(old(visited[..])) + Elements(order)
  {
    order := [];
    if InGrid(w, h, sx, sy) {
      Coordinates(w, h, sx, sy);
      IndexIsProduct(w, sx, sy);
      if !visited[sy * w + sx] {
        order := FloodSeed(w, h, visited, pixelData, sx, sy);
      }
    }
  }

  /** At the level of bytes: unchanged if and only if the first alpha byte is below 15. */
  lemma UnchangedBytes(w: nat, h: nat, before: seq<Byte>, after: seq<Byte>)
    requires |before| == |after| == 4 * Size(w, h) && Size(w, h) > 0
    requires Pixels(after) == Process(w, h, Pixels(before))
    ensures after == before <==> before[3] < 15
  {
    UnchangedExact(w, h, Pixels(before));
    if Pixels(after) == Pixels(before) {
      PixelsDetermineBytes(before, after);
    }
  }

  /** No byte but an alpha changes, and no alpha grows. */
  lemma OnlyAlphaShrinks(w: nat, h: nat, before: seq<Byte>, after: seq<Byte>)
    requires |before| == |after| == 4 * Size(w, h) && Pixels(after) == Process(w, h, Pixels(before))
    ensures forall j :: 0 <= j < |after| ==> if j % 4 == 3 then after[j] <= before[j] else after[j] == before[j]
  {
    forall j | 0 <= j < |after| ensures if j % 4 == 3 then after[j] <= before[j] else after[j] == before[j] {
      ChangedPixel(w, h, Pixels(before), j / 4);
      assert Pixels(after)[j / 4] == Process(w, h, Pixels(before))[j / 4];
      assert j == 4 * (j / 4) + j % 4;
    }
  }

  lemma RunOneMore(w: nat, h: nat, img: seq<Pixel>, i: nat)
    requires IsImage(w, h, img) && i < |Seeds(w, h)|
    ensures Run(w, h, img, i + 1) == Pass(w, h, Run(w, h, img, i), Seeds(w, h)[i])
  {
  }

  /** The raster pass over an RGBA buffer. `dequeued` counts the pixels that leave a queue,
      over all seeds. */
  method ProcessRaster(w: nat, h: nat, channels: nat, pixelData: array<Byte>)
    returns (isProcessed: bool, ghost dequeued: nat)
    requires pixelData.Length == channels * (w * h)
    modifies pixelData
    ensures isProcessed == (channels == 4)
    ensures channels != 4 ==> pixelData[..] == old(pixelData[..])
    ensures channels == 4 ==>
      && IsImage(w, h, Pixels(old(pixelData[..])))
      && Pixels(pixelData[..]) == Process(w, h, Pixels(old(pixelData[..])))
    ensures channels == 4 && w * h > 0 ==>
      (pixelData[..] == old(pixelData[..]) <==> old(pixelData[3]) < 15)
    ensures forall j :: 0 <= j < pixelData.Length ==>
      if channels == 4 && j % 4 == 3 then pixelData[j] <= old(pixelData[j]) else pixelData[j] == old(pixelData[j])
    ensures dequeued <= w * h
  {
    SizeIsProduct(w, h);
    dequeued := 0;
    if channels != 4 {
      return false, 0;
    }
    var visited := new bool[w * h](_ => false);
    assert Marked(visited[..]) == {};
    dequeued := ProcessSeeds(w, h, visited, pixelData);
    OnlyAlphaShrinks(w, h, old(pixelData[..]), pixelData[..]);
    assert forall j :: 0 <= j < pixelData.Length ==> old(pixelData[..])[j] == old(pixelData[j]);
    assert forall j :: 0 <= j < pixelData.Length ==> pixelData[..][j] == pixelData[j];
    if w * h > 0 {
      UnchangedBytes(w, h, old(pixelData[..]), pixelData[..]);
    }
    return true, dequeued;
  }

  /** The loop over the seeds. */
  method ProcessSeeds(w: nat, h: nat, visited: array<bool>, pixelData: array<Byte>) returns (ghost dequeued: nat)
    requires visited.Length == Size(w, h) == w * h && pixelData.Length == 4 * Size(w, h) && Marked(visited[..]) == {}
    modifies visited, pixelData
    ensures IsImage(w, h, Pixels(old(pixelData[..])))
    ensures Pixels(pixelData[..]) == Process(w, h, Pixels(old(pixelData[..])))
    ensures dequeued <= w * h
  {
    ghost var img := Pixels(pixelData[..]);
    assert Run(w, h, img, 0) == FillState(img, {});
    hide Run, Pass;
    var seeds := Seeds(w, h);
    dequeued := 0;
    for i := 0 to |seeds|
      invariant FillState(Pixels(pixelData[..]), Marked(visited[..])) == Run(w, h, img, i)
      invariant dequeued == |Marked(visited[..])|
    {
      var (sx, sy) := seeds[i];
      ghost var order := TrySeed(w, h, visited, pixelData, sx, sy);
      RunOneMore(w, h, img, i);
      DistinctElements(order);
      dequeued := dequeued + |order|;
    }
    SubsetCardinality(Marked(visited[..]), Below(w * h));
  }
}
