/**
 YCbCr to RGB conversion of components/gui/GUI/JPEG/jdcolor.c, with its tables and the range-limit table
 of jdmaster.c.
 */
module ColorConvert {

  type Sample = x: int | 0 <= x <= 255

  const SCALE := 65536
  const ONE_HALF := 32768
  const FIX_1_402 := 91881
  const FIX_1_772 := 116130
  const FIX_0_714 := 46802
  const FIX_0_344 := 22554

  function Clamp(x: int): Sample { if x < 0 then 0 else if x > 255 then 255 else x }

  /** What each chroma sample adds to a pixel. */
  function RedOf(cr: int): int { (FIX_1_402 * (cr - 128) + ONE_HALF) / SCALE }
  function BlueOf(cb: int): int { (FIX_1_772 * (cb - 128) + ONE_HALF) / SCALE }
  function GreenOf(cb: int, cr: int): int { (-FIX_0_344 * (cb - 128) + ONE_HALF - FIX_0_714 * (cr - 128)) / SCALE }

  /** Red and blue offsets are the nearest integers to 1.402 Cr and 1.772 Cb, with 128 for zero.  The green offset is
      one of the nearest to -0.34414 Cb - 0.71414 Cr: the 16-bit factors are off by less than 1 in 200 there. */
  lemma Nearest(cb: Sample, cr: Sample)
    ensures -50000 <= 140200 * (cr - 128) - 100000 * RedOf(cr) <= 50000
    ensures -50000 <= 177200 * (cb - 128) - 100000 * BlueOf(cb) <= 50000
    ensures -50200 <= -34414 * (cb - 128) - 71414 * (cr - 128) - 100000 * GreenOf(cb, cr) <= 50200
  {
    RedNearest(cr - 128, RedOf(cr));
    BlueNearest(cb - 128, BlueOf(cb));
    GreenNearest(cb - 128, cr - 128, GreenOf(cb, cr));
  }

  lemma RedNearest(x: int, k: int)
    requires -128 <= x <= 127 && 65536 * k <= 91881 * x + 32768 < 65536 * k + 65536
    ensures -50000 <= 140200 * x - 100000 * k <= 50000
  {
    var m := 701 * x - 500 * k;
    assert 65536 * m == 701 * 65536 * x - 500 * (65536 * k);
    assert -251 * 65536 < 65536 * m < 251 * 65536;
  }

  lemma BlueNearest(x: int, k: int)
    requires -128 <= x <= 127 && 65536 * k <= 116130 * x + 32768 < 65536 * k + 65536
    ensures -50000 <= 177200 * x - 100000 * k <= 50000
  {
    var m := 443 * x - 250 * k;
    assert 65536 * m == 443 * 65536 * x - 250 * (65536 * k);
    assert -126 * 65536 < 65536 * m < 126 * 65536;
  }

  lemma GreenNearest(x: int, y: int, k: int)
    requires -128 <= x <= 127 && -128 <= y <= 127
    requires 65536 * k <= -22554 * x - 46802 * y + 32768 < 65536 * k + 65536
    ensures -50200 <= -34414 * x - 71414 * y - 100000 * k <= 50200
  {
  }

  /** The conversion tables. */
  datatype Tables = Tables(crR: seq<int>, cbB: seq<int>, crG: seq<int>, cbG: seq<int>)

  ghost predicate TablesOk(t: Tables) {
    && |t.crR| == 256 && |t.cbB| == 256 && |t.crG| == 256 && |t.cbG| == 256
    && forall i :: 0 <= i < 256 ==>
         && t.crR[i] == RedOf(i) && t.cbB[i] == BlueOf(i)
         && t.crG[i] == -FIX_0_714 * (i - 128) && t.cbG[i] == -FIX_0_344 * (i - 128) + ONE_HALF
  }

  /** build_ycc_rgb_table */
  method BuildTables() returns (t: Tables)
    ensures TablesOk(t)
  {
    var crR, cbB, crG, cbG := [], [], [], [];
    var i, x := 0, -128;
    while i <= 255
      invariant 0 <= i <= 256 && x == i - 128 && |crR| == |cbB| == |crG| == |cbG| == i
      invariant forall k :: 0 <= k < i ==>
                  && crR[k] == RedOf(k) && cbB[k] == BlueOf(k)
                  && crG[k] == -FIX_0_714 * (k - 128) && cbG[k] == -FIX_0_344 * (k - 128) + ONE_HALF
    {
      crR := crR + [(FIX_1_402 * x + ONE_HALF) / SCALE];
      cbB := cbB + [(FIX_1_772 * x + ONE_HALF) / SCALE];
      crG := crG + [(-FIX_0_714) * x];
      cbG := cbG + [(-FIX_0_344) * x + ONE_HALF];
      i, x := i + 1, x + 1;
    }
    t := Tables(crR, cbB, crG, cbG);
  }

  /** sample_range_limit: entry x is element x + 256. */
  ghost predicate LimitOk(limit: seq<Sample>) {
    |limit| == 1408 && forall k :: 0 <= k < 896 ==> limit[k] == Clamp(k - 256)
  }

  /** prepare_range_limit_table */
  method PrepareLimit() returns (limit: seq<Sample>)
    ensures LimitOk(limit)
  {
    limit := seq(1408, _ => 0);
    var i: int := 0;
    while i <= 255
      invariant 0 <= i <= 256 && |limit| == 1408
      invariant forall k :: 0 <= k < 256 + i ==> limit[k] == Clamp(k - 256)
    {
      limit := limit[256 + i := i];
      i := i + 1;
    }
    i := 128;
    while i < 512
      invariant 128 <= i <= 512 && |limit| == 1408
      invariant forall k :: 0 <= k < 384 + i ==> limit[k] == Clamp(k - 256)
    {
      limit := limit[384 + i := 255];
      i := i + 1;
    }
    // The second half of the table serves the inverse DCT: zeros, then the first 128 entries again.
    limit := limit[..1280] + limit[256..384];
  }

  /** The offsets stay inside the part of the limit table that clamps. */
  lemma InTable(y: Sample, cb: Sample, cr: Sample)
    ensures -256 <= y + RedOf(cr) < 640 && -256 <= y + BlueOf(cb) < 640 && -256 <= y + GreenOf(cb, cr) < 640
  {
  }

  /** One pixel, red first. */
  function Pixel(y: int, cb: int, cr: int): seq<Sample> {
    [Clamp(y + RedOf(cr)), Clamp(y + GreenOf(cb, cr)), Clamp(y + BlueOf(cb))]
  }

  /** The first `n` pixels of a row. */
  function Row(y: seq<Sample>, cb: seq<Sample>, cr: seq<Sample>, n: nat): (r: seq<Sample>)
    requires n <= |y| && n <= |cb| && n <= |cr|
    ensures |r| == 3 * n
  {
    if n == 0 then [] else Row(y, cb, cr, n - 1) + Pixel(y[n - 1], cb[n - 1], cr[n - 1])
  }

  /** `v` is `y` and the integer next to `f` / 100000, limited to a sample; `slack` is the rounding error allowed. */
  ghost predicate Shown(v: int, y: int, f: int, slack: int) {
    exists k :: -slack <= f - 100000 * k <= slack && v == if y + k < 0 then 0 else if y + k > 255 then 255 else y + k
  }

  /** Samples 3 i, 3 i + 1 and 3 i + 2 of a row are red, green and blue of a pixel. */
  ghost predicate PixelAt(row: seq<Sample>, i: nat, y: Sample, cb: Sample, cr: Sample) {
    && 3 * i + 3 <= |row|
    && Shown(row[3 * i], y, 140200 * (cr - 128), 50000)
    && Shown(row[3 * i + 1], y, -34414 * (cb - 128) - 71414 * (cr - 128), 50200)
    && Shown(row[3 * i + 2], y, 177200 * (cb - 128), 50000)
  }

  /** Every pixel of a row shows its three samples. */
  lemma {:induction false} RowShows(y: seq<Sample>, cb: seq<Sample>, cr: seq<Sample>, n: nat)
    requires n <= |y| && n <= |cb| && n <= |cr|
    ensures forall i :: 0 <= i < n ==> PixelAt(Row(y, cb, cr, n), i, y[i], cb[i], cr[i])
  {
    if n > 0 {
      RowShows(y, cb, cr, n - 1);
      PixelShows(y[n - 1], cb[n - 1], cr[n - 1]);
      var row, p := Row(y, cb, cr, n - 1), Pixel(y[n - 1], cb[n - 1], cr[n - 1]);
      hide Pixel, PixelAt, Row;
      forall i | 0 <= i < n ensures PixelAt(row + p, i, y[i], cb[i], cr[i]) {
        if i < n - 1 { BeforePixel(row, p, i, y[i], cb[i], cr[i]); } else { BehindRow(row, p, i, y[i], cb[i], cr[i]); }
      }
    }
  }

  lemma BeforePixel(row: seq<Sample>, p: seq<Sample>, i: nat, y: Sample, cb: Sample, cr: Sample)
    requires PixelAt(row, i, y, cb, cr)
    ensures PixelAt(row + p, i, y, cb, cr)
  {
    hide Shown;
  }

  lemma BehindRow(row: seq<Sample>, p: seq<Sample>, i: nat, y: Sample, cb: Sample, cr: Sample)
    requires |row| == 3 * i && |p| == 3 && PixelAt(p, 0, y, cb, cr)
    ensures PixelAt(row + p, i, y, cb, cr)
  {
    hide Shown;
  }

  lemma PixelShows(y: Sample, cb: Sample, cr: Sample)
    ensures |Pixel(y, cb, cr)| == 3 && PixelAt(Pixel(y, cb, cr), 0, y, cb, cr)
  {
    Nearest(cb, cr);
    hide RedOf, GreenOf, BlueOf;
    var p := Pixel(y, cb, cr);
    ShownBy(p[0], y, RedOf(cr), 140200 * (cr - 128), 50000);
    ShownBy(p[1], y, GreenOf(cb, cr), -34414 * (cb - 128) - 71414 * (cr - 128), 50200);
    ShownBy(p[2], y, BlueOf(cb), 177200 * (cb - 128), 50000);
  }

  lemma ShownBy(v: Sample, y: Sample, k: int, f: int, slack: int)
    requires -slack <= f - 100000 * k <= slack && v == Clamp(y + k)
    ensures Shown(v, y, f, slack)
  {
  }

  /** The chroma part of a pixel. */
  method Chroma(t: Tables, cb: Sample, cr: Sample) returns (cred: int, cgreen: int, cblue: int)
    requires TablesOk(t)
    ensures cred == RedOf(cr) && cgreen == GreenOf(cb, cr) && cblue == BlueOf(cb)
  {
    cred, cgreen, cblue := t.crR[cr], (t.cbG[cb] + t.crG[cr]) / SCALE, t.cbB[cb];
  }

  /** Store a pixel at `at` and get the position behind it. */
  method Put(out: array<Sample>, at: int, limit: seq<Sample>, y: Sample, cred: int, cgreen: int, cblue: int,
      ghost cb: Sample, ghost cr: Sample)
    returns (next: int)
    requires LimitOk(limit) && 0 <= at && at + 3 <= out.Length
    requires cred == RedOf(cr) && cgreen == GreenOf(cb, cr) && cblue == BlueOf(cb)
    modifies out
    ensures next == at + 3 && out[..next] == old(out[..at]) + Pixel(y, cb, cr) && out[next..] == old(out[next..])
  {
    InTable(y, cb, cr);
    hide RedOf, GreenOf, BlueOf;
    ghost var was := out[..at];
    out[at] := limit[y + cred + 256];
    out[at + 1] := limit[y + cgreen + 256];
    out[at + 2] := limit[y + cblue + 256];
    next := at + 3;
    assert out[..at] == was;
    assert out[..next] == was + [out[at], out[at + 1], out[at + 2]];
  }

  /** ycc_rgb_convert for one row of `width` pixels. */
  method ConvertRow(t: Tables, limit: seq<Sample>, y: seq<Sample>, cb: seq<Sample>, cr: seq<Sample>, width: nat,
      out: array<Sample>)
    requires TablesOk(t) && LimitOk(limit) && width <= |y| && width <= |cb| && width <= |cr| && out.Length >= 3 * width
    modifies out
    ensures out[..3 * width] == Row(y, cb, cr, width)
    ensures forall i :: 0 <= i < width ==> PixelAt(out[..3 * width], i, y[i], cb[i], cr[i])
  {
    hide LimitOk, TablesOk, Pixel, RedOf, GreenOf, BlueOf, PixelAt;
    RowShows(y, cb, cr, width);
    var col, at := 0, 0;
    while col < width
      invariant 0 <= col <= width && at == 3 * col && out[..at] == Row(y, cb, cr, col)
    {
      var cred, cgreen, cblue := Chroma(t, cb[col], cr[col]);
      at := Put(out, at, limit, y[col], cred, cgreen, cblue, cb[col], cr[col]);
      col := col + 1;
    }
  }
}
