/**
 Merged upsampling of components/gui/GUI/JPEG/jdmerge.c against the plain path of jdsample.c and
 jdcolor.c: the same pixels, and the same rows in the same order however the output is asked for.
 */
module MergedUpsample {
  import opened ColorConvert

  // ----- box upsampling -----

  /** Each sample twice. */
  function Box(row: seq<Sample>, n: nat): (r: seq<Sample>)
    requires (n + 1) / 2 <= |row|
    ensures |r| == n
  {
    seq(n, i requires 0 <= i < n => row[i / 2])
  }

  /** One row of h2v1_upsample: samples are stored in pairs, so an odd width is overrun by one. */
  method BoxRow(row: seq<Sample>, width: nat, out: array<Sample>)
    requires (width + 1) / 2 <= |row| && out.Length >= 2 * ((width + 1) / 2)
    modifies out
    ensures out[..width] == Box(row, width)
  {
    var i, o := 0, 0;
    while o < width
      invariant 0 <= i <= (width + 1) / 2 && o == 2 * i && forall k :: 0 <= k < o ==> out[k] == row[k / 2]
    {
      var invalue := row[i];
      i := i + 1;
      out[o] := invalue;
      o := o + 1;
      out[o] := invalue;
      o := o + 1;
    }
  }

  /** One row group of h2v2_upsample: the row, and a copy of it. */
  method BoxGroup(row: seq<Sample>, width: nat) returns (rows: seq<seq<Sample>>)
    requires (width + 1) / 2 <= |row|
    ensures rows == [Box(row, width), Box(row, width)]
  {
    var out := new Sample[2 * ((width + 1) / 2)](_ => 0);
    BoxRow(row, width, out);
    rows := [out[..width], out[..width]];
  }

  // ----- merged rows -----

  /** `n` pairs of pixels that share their chroma samples. */
  function Pairs(y: seq<Sample>, cb: seq<Sample>, cr: seq<Sample>, n: nat): (r: seq<Sample>)
    requires 2 * n <= |y| && n <= |cb| && n <= |cr|
    ensures |r| == 6 * n
  {
    if n == 0 then []
    else Pairs(y, cb, cr, n - 1) + Pixel(y[2 * n - 2], cb[n - 1], cr[n - 1]) + Pixel(y[2 * n - 1], cb[n - 1], cr[n - 1])
  }

  /** A merged row: pairs, and one more pixel when the width is odd. */
  function MergedRow(y: seq<Sample>, cb: seq<Sample>, cr: seq<Sample>, width: nat): (r: seq<Sample>)
    requires width <= |y| && (width + 1) / 2 <= |cb| && (width + 1) / 2 <= |cr|
    ensures |r| == 3 * width
  {
    var n := width / 2;
    Pairs(y, cb, cr, n) + if width % 2 == 1 then Pixel(y[width - 1], cb[n], cr[n]) else []
  }

  lemma {:induction false} PairsAreBox(y: seq<Sample>, cb: seq<Sample>, cr: seq<Sample>, n: nat, width: nat)
    requires 2 * n <= width <= |y| && (width + 1) / 2 <= |cb| && (width + 1) / 2 <= |cr|
    ensures Pairs(y, cb, cr, n) == Row(y, Box(cb, width), Box(cr, width), 2 * n)
  {
    hide Pixel;
    if n > 0 {
      PairsAreBox(y, cb, cr, n - 1, width);
      var b, r := Box(cb, width), Box(cr, width);
      assert b[2 * n - 2] == cb[n - 1] && b[2 * n - 1] == cb[n - 1] && r[2 * n - 2] == cr[n - 1]
          && r[2 * n - 1] == cr[n - 1];
      assert Row(y, b, r, 2 * n) == Row(y, b, r, 2 * n - 1) + Pixel(y[2 * n - 1], b[2 * n - 1], r[2 * n - 1]);
      assert Row(y, b, r, 2 * n - 1) == Row(y, b, r, 2 * n - 2) + Pixel(y[2 * n - 2], b[2 * n - 2], r[2 * n - 2]);
    }
  }

  /** Merged upsampling is box upsampling followed by colour conversion, for every width. */
  lemma MergedIsTwoStep(y: seq<Sample>, cb: seq<Sample>, cr: seq<Sample>, width: nat)
    requires width <= |y| && (width + 1) / 2 <= |cb| && (width + 1) / 2 <= |cr|
    ensures MergedRow(y, cb, cr, width) == Row(y, Box(cb, width), Box(cr, width), width)
  {
    hide Pixel, Pairs;
    var n := width / 2;
    PairsAreBox(y, cb, cr, n, width);
    var b, r := Box(cb, width), Box(cr, width);
    if width == 2 * n + 1 {
      assert b[2 * n] == cb[n] && r[2 * n] == cr[n];
      assert Row(y, b, r, width) == Row(y, b, r, 2 * n) + Pixel(y[2 * n], b[2 * n], r[2 * n]);
    } else {
      assert width == 2 * n;
    }
  }

  /** Two pixels with the same chroma. */
  method PutPair(out: array<Sample>, at: int, limit: seq<Sample>, ya: Sample, yb: Sample, cred: int, cgreen: int,
                 cblue: int, ghost cb: Sample, ghost cr: Sample) returns (next: int)
    requires LimitOk(limit) && 0 <= at && at + 6 <= out.Length
    requires cred == RedOf(cr) && cgreen == GreenOf(cb, cr) && cblue == BlueOf(cb)
    modifies out
    ensures next == at + 6 && out[..next] == old(out[..at]) + Pixel(ya, cb, cr) + Pixel(yb, cb, cr)
  {
    hide LimitOk, Pixel, RedOf, GreenOf, BlueOf;
    next := Put(out, at, limit, ya, cred, cgreen, cblue, cb, cr);
    next := Put(out, next, limit, yb, cred, cgreen, cblue, cb, cr);
  }

  /** h2v1_merged_upsample */
  method MergeRow(t: Tables, limit: seq<Sample>, y: seq<Sample>, cb: seq<Sample>, cr: seq<Sample>, width: nat,
      out: array<Sample>)
    requires TablesOk(t) && LimitOk(limit) && out.Length == 3 * width
    requires width <= |y| && (width + 1) / 2 <= |cb| && (width + 1) / 2 <= |cr|
    modifies out
    ensures out[..] == MergedRow(y, cb, cr, width)
  {
    hide TablesOk, LimitOk, Pixel, RedOf, GreenOf, BlueOf;
    var i, at := 0, 0;
    var col := width / 2;
    while col > 0
      invariant 0 <= col <= width / 2 && i == width / 2 - col && at == 6 * i && out[..at] == Pairs(y, cb, cr, i)
    {
      var cred, cgreen, cblue := Chroma(t, cb[i], cr[i]);
      at := PutPair(out, at, limit, y[2 * i], y[2 * i + 1], cred, cgreen, cblue, cb[i], cr[i]);
      i := i + 1;
      col := col - 1;
    }
    if width % 2 == 1 {
      var cred, cgreen, cblue := Chroma(t, cb[i], cr[i]);
      at := Put(out, at, limit, y[2 * i], cred, cgreen, cblue, cb[i], cr[i]);
    }
    assert at == 3 * width && out[..at] == out[..];
  }

  /** h2v2_merged_upsample: two rows of luma share one row of chroma. */
  method MergeGroup(t: Tables, limit: seq<Sample>, y0: seq<Sample>, y1: seq<Sample>, cb: seq<Sample>, cr: seq<Sample>,
                    width: nat, out0: array<Sample>, out1: array<Sample>)
    requires TablesOk(t) && LimitOk(limit) && out0.Length == out1.Length == 3 * width && out0 != out1
    requires width <= |y0| && width <= |y1| && (width + 1) / 2 <= |cb| && (width + 1) / 2 <= |cr|
    modifies out0, out1
    ensures out0[..] == MergedRow(y0, cb, cr, width) && out1[..] == MergedRow(y1, cb, cr, width)
  {
    hide TablesOk, LimitOk, Pixel, RedOf, GreenOf, BlueOf;
    var i, at0, at1 := 0, 0, 0;
    var col := width / 2;
    while col > 0
      invariant 0 <= col <= width / 2 && i == width / 2 - col && at0 == 6 * i == at1
      invariant out0[..at0] == Pairs(y0, cb, cr, i) && out1[..at1] == Pairs(y1, cb, cr, i)
    {
      var cred, cgreen, cblue := Chroma(t, cb[i], cr[i]);
      at0 := PutPair(out0, at0, limit, y0[2 * i], y0[2 * i + 1], cred, cgreen, cblue, cb[i], cr[i]);
      at1 := PutPair(out1, at1, limit, y1[2 * i], y1[2 * i + 1], cred, cgreen, cblue, cb[i], cr[i]);
      i := i + 1;
      col := col - 1;
    }
    if width % 2 == 1 {
      var cred, cgreen, cblue := Chroma(t, cb[i], cr[i]);
      at0 := Put(out0, at0, limit, y0[2 * i], cred, cgreen, cblue, cb[i], cr[i]);
      at1 := Put(out1, at1, limit, y1[2 * i], cred, cgreen, cblue, cb[i], cr[i]);
    }
    assert at0 == 3 * width && out0[..at0] == out0[..];
    assert at1 == 3 * width && out1[..at1] == out1[..];
  }

  // ----- an image of row groups -----

  /** Two rows of luma and the chroma rows they share. */
  datatype Group = Group(y0: seq<Sample>, y1: seq<Sample>, cb: seq<Sample>, cr: seq<Sample>)

  datatype Image = Image(width: nat, height: nat, groups: seq<Group>) {
    ghost predicate Ok() {
      |groups| == (height + 1) / 2 && forall i :: 0 <= i < |groups| ==> GroupOk(groups[i])
    }

    ghost predicate GroupOk(g: Group) {
      width <= |g.y0| && width <= |g.y1| && (width + 1) / 2 <= |g.cb| && (width + 1) / 2 <= |g.cr|
    }
  }

  function Luma(g: Group, i: int): seq<Sample> { if i == 0 then g.y0 else g.y1 }

  /** Row `i` of a group by box upsampling and colour conversion. */
  function TwoStep(width: nat, g: Group, i: int): seq<Sample>
    requires Image(width, 0, []).GroupOk(g)
  {
    Row(Luma(g, i), Box(g.cb, width), Box(g.cr, width), width)
  }

  /** Row `r` of the output image. */
  ghost function Line(im: Image, r: int): seq<Sample>
    requires im.Ok() && 0 <= r && r / 2 < |im.groups|
  {
    assert im.GroupOk(im.groups[r / 2]);
    TwoStep(im.width, im.groups[r / 2], r % 2)
  }

  /** The rows returned so far are the first rows of the image, each once and in order. */
  ghost predicate Returned(im: Image, rows: seq<seq<Sample>>)
    requires im.Ok()
  {
    |rows| <= im.height && forall r :: 0 <= r < |rows| ==> rows[r] == Line(im, r)
  }

  lemma ReturnOne(im: Image, rows: seq<seq<Sample>>, row: seq<Sample>)
    requires im.Ok() && Returned(im, rows) && |rows| < im.height && row == Line(im, |rows|)
    ensures Returned(im, rows + [row])
  {
    hide Line;
  }

  /** All rows of the image. */
  ghost function AllLines(im: Image): seq<seq<Sample>>
    requires im.Ok()
  {
    seq(im.height, r requires 0 <= r < im.height => Line(im, r))
  }

  lemma AllReturned(im: Image, rows: seq<seq<Sample>>)
    requires im.Ok() && Returned(im, rows) && |rows| == im.height
    ensures rows == AllLines(im)
  {
    hide Line;
  }

  /** Pixel `i` of row 2 g shows sample `i` of the first luma row of group `g`, pixel `i` of row 2 g + 1 that of the
      second, each with the chroma samples i / 2 of the group. */
  ghost predicate RowsShown(im: Image, rows: seq<seq<Sample>>)
    requires im.Ok()
  {
    && |rows| <= 2 * |im.groups|
    && (forall g :: 0 <= g && 2 * g < |rows| ==> RowShown(im.width, rows[2 * g], im.groups[g], im.groups[g].y0))
    && forall g :: 0 <= g && 2 * g + 1 < |rows| ==> RowShown(im.width, rows[2 * g + 1], im.groups[g], im.groups[g].y1)
  }

  ghost predicate RowShown(width: nat, row: seq<Sample>, g: Group, y: seq<Sample>) {
    && |row| == 3 * width <= 3 * |y| && (width + 1) / 2 <= |g.cb| && (width + 1) / 2 <= |g.cr|
    && forall i :: 0 <= i < width ==> PixelAt(row, i, y[i], g.cb[i / 2], g.cr[i / 2])
  }

  lemma TwoStepShows(width: nat, g: Group, i: int)
    requires Image(width, 0, []).GroupOk(g)
    ensures RowShown(width, TwoStep(width, g, i), g, if i == 0 then g.y0 else g.y1)
  {
    var y, b, r := if i == 0 then g.y0 else g.y1, Box(g.cb, width), Box(g.cr, width);
    RowShows(y, b, r, width);
    hide Row, PixelAt;
    forall k | 0 <= k < width ensures PixelAt(TwoStep(width, g, i), k, y[k], g.cb[k / 2], g.cr[k / 2]) {
      assert b[k] == g.cb[k / 2] && r[k] == g.cr[k / 2];
    }
  }

  lemma ReturnedShows(im: Image, rows: seq<seq<Sample>>)
    requires im.Ok() && Returned(im, rows)
    ensures RowsShown(im, rows)
  {
    hide RowShown, Line, TwoStep;
    forall g | 0 <= g && 2 * g < |rows|
      ensures RowShown(im.width, rows[2 * g], im.groups[g], im.groups[g].y0)
      ensures 2 * g + 1 < |rows| ==> RowShown(im.width, rows[2 * g + 1], im.groups[g], im.groups[g].y1)
    {
      LineOf(im, g, 0);
      LineOf(im, g, 1);
      TwoStepShows(im.width, im.groups[g], 0);
      TwoStepShows(im.width, im.groups[g], 1);
    }
  }

  // ----- the two control routines -----

  /** merged_2v_upsample with its spare row. */
  class Merged {
    const t: Tables
    const limit: seq<Sample>
    const width: nat
    var spareRow: seq<Sample>
    var spareFull: bool
    var rowsToGo: int
    var groupCtr: int
    ghost const im: Image
    ghost var returned: seq<seq<Sample>>

    ghost predicate Valid()
      reads this
    {
      && im.Ok() && im.width == width && TablesOk(t) && LimitOk(limit) && Returned(im, returned)
      && rowsToGo == im.height - |returned| && groupCtr >= 0
      && if spareFull then |returned| == 2 * groupCtr + 1 && spareRow == Line(im, 2 * groupCtr + 1)
         else |returned| == 2 * groupCtr
    }

    /** start_pass_merged_upsample */
    constructor (im: Image, t: Tables, limit: seq<Sample>)
      requires im.Ok() && TablesOk(t) && LimitOk(limit)
      ensures Valid() && this.im == im && returned == []
    {
      this.im, this.t, this.limit, width := im, t, limit, im.width;
      spareRow, spareFull, rowsToGo, groupCtr, returned := [], false, im.height, 0, [];
    }

    /** One call, with room for `room` more rows; `group` is the row group the caller is at. */
    method Upsample(group: Group, room: nat) returns (rows: seq<seq<Sample>>)
      requires Valid() && rowsToGo > 0 && room >= 1
      requires groupCtr < |im.groups| ==> group == im.groups[groupCtr]
      modifies this
      ensures Valid() && 1 <= |rows| <= room && returned == old(returned) + rows && RowsShown(im, returned)
    {
      hide TablesOk, LimitOk, Line, MergedRow, RowsShown;
      assert groupCtr < |im.groups|;
      assert im.GroupOk(group);
      if spareFull {
        rows := [spareRow];
        spareFull := false;
        ReturnOne(im, returned, spareRow);
      } else {
        var numRows := 2;
        if numRows > rowsToGo {
          numRows := rowsToGo;
        }
        if numRows > room {
          numRows := room;
        }
        var first, second := MakeRows(group);
        LineOf(im, groupCtr, 0);
        LineOf(im, groupCtr, 1);
        ReturnOne(im, returned, first);
        if numRows > 1 {
          rows := [first, second];
          ReturnOne(im, returned + [first], second);
          assert returned + [first] + [second] == returned + rows;
        } else {
          rows := [first];
          spareRow := second;
          spareFull := true;
        }
      }
      returned := returned + rows;
      rowsToGo := rowsToGo - |rows|;
      if !spareFull {
        groupCtr := groupCtr + 1;
      }
      ReturnedShows(im, returned);
    }

    /** A whole pass: the caller offers the row groups one after the other and has some room for rows at each call. */
    method RunPass(groups: seq<Group>, rooms: seq<nat>) returns (rows: seq<seq<Sample>>)
      requires Valid() && groups == im.groups && returned == [] && forall i :: 0 <= i < |rooms| ==> rooms[i] >= 1
      modifies this
      ensures Valid() && rows == returned && Returned(im, rows) && RowsShown(im, rows)
      ensures |rooms| >= im.height ==> rows == AllLines(im)
    {
      hide TablesOk, LimitOk, Line, RowsShown;
      rows := [];
      var i := 0;
      while i < |rooms| && rowsToGo > 0
        invariant 0 <= i <= |rooms| && Valid() && rows == returned && (|rows| >= i || rowsToGo == 0)
      {
        var more := Upsample(groups[groupCtr], rooms[i]);
        rows := rows + more;
        i := i + 1;
      }
      ReturnedShows(im, rows);
      if rowsToGo == 0 { AllReturned(im, rows); }
    }

    method MakeRows(group: Group) returns (first: seq<Sample>, second: seq<Sample>)
      requires Valid() && im.GroupOk(group)
      ensures first == TwoStep(im.width, group, 0) && second == TwoStep(im.width, group, 1)
    {
      hide TablesOk, LimitOk, Line, MergedRow, Row, Box;
      var out0, out1 := new Sample[3 * width](_ => 0), new Sample[3 * width](_ => 0);
      MergeGroup(t, limit, group.y0, group.y1, group.cb, group.cr, width, out0, out1);
      MergedIsTwoStep(group.y0, group.cb, group.cr, width);
      MergedIsTwoStep(group.y1, group.cb, group.cr, width);
      return out0[..], out1[..];
    }
  }

  lemma LineOf(im: Image, g: int, i: int)
    requires im.Ok() && 0 <= g < |im.groups| && 0 <= i <= 1
    ensures im.GroupOk(im.groups[g]) && Line(im, 2 * g + i) == TwoStep(im.width, im.groups[g], i)
  {
    assert (2 * g + i) / 2 == g && (2 * g + i) % 2 == i;
    assert im.GroupOk(im.groups[g]);
  }

  /** A group in the conversion buffer: luma as it is, chroma upsampled. */
  function Buffered(width: nat, g: Group): Group
    requires (width + 1) / 2 <= |g.cb| && (width + 1) / 2 <= |g.cr|
  {
    Group(g.y0, g.y1, Box(g.cb, width), Box(g.cr, width))
  }

  /** sep_upsample for 2:1 by 2:1 sampling, with its conversion buffer. */
  class Separate {
    const t: Tables
    const limit: seq<Sample>
    const width: nat
    var colorBuf: Group
    var nextRowOut: int
    var rowsToGo: int
    var groupCtr: int
    ghost const im: Image
    ghost var returned: seq<seq<Sample>>

    ghost predicate Valid()
      reads this
    {
      && im.Ok() && im.width == width && TablesOk(t) && LimitOk(limit) && Returned(im, returned)
      && rowsToGo == im.height - |returned| && groupCtr >= 0 && 0 <= nextRowOut <= 2
      && if nextRowOut == 2 then |returned| == 2 * groupCtr
         else
           && |returned| == 2 * groupCtr + nextRowOut && groupCtr < |im.groups| && im.GroupOk(im.groups[groupCtr])
           && colorBuf == Buffered(width, im.groups[groupCtr])
    }

    /** start_pass_upsample */
    constructor (im: Image, t: Tables, limit: seq<Sample>)
      requires im.Ok() && TablesOk(t) && LimitOk(limit)
      ensures Valid() && this.im == im && returned == []
    {
      this.im, this.t, this.limit, width := im, t, limit, im.width;
      colorBuf, nextRowOut, rowsToGo, groupCtr, returned := Group([], [], [], []), 2, im.height, 0, [];
    }

    method Upsample(group: Group, room: nat) returns (rows: seq<seq<Sample>>)
      requires Valid() && rowsToGo > 0 && room >= 1
      requires groupCtr < |im.groups| ==> group == im.groups[groupCtr]
      modifies this
      ensures Valid() && 1 <= |rows| <= room && returned == old(returned) + rows && RowsShown(im, returned)
    {
      hide TablesOk, LimitOk, Line, Row, Box, RowsShown;
      assert groupCtr < |im.groups|;
      assert im.GroupOk(group);
      if nextRowOut >= 2 {
        var cb := BoxGroup(group.cb, width);
        var cr := BoxGroup(group.cr, width);
        colorBuf := Group(group.y0, group.y1, cb[0], cr[0]);
        nextRowOut := 0;
      }
      var numRows := 2 - nextRowOut;
      if numRows > rowsToGo {
        numRows := rowsToGo;
      }
      if numRows > room {
        numRows := room;
      }
      rows := ConvertRows(group, numRows);
      returned := returned + rows;
      rowsToGo := rowsToGo - numRows;
      nextRowOut := nextRowOut + numRows;
      if nextRowOut >= 2 {
        groupCtr := groupCtr + 1;
      }
      ReturnedShows(im, returned);
    }

    /** A whole pass: the caller offers the row groups one after the other and has some room for rows at each call. */
    method RunPass(groups: seq<Group>, rooms: seq<nat>) returns (rows: seq<seq<Sample>>)
      requires Valid() && groups == im.groups && returned == [] && forall i :: 0 <= i < |rooms| ==> rooms[i] >= 1
      modifies this
      ensures Valid() && rows == returned && Returned(im, rows) && RowsShown(im, rows)
      ensures |rooms| >= im.height ==> rows == AllLines(im)
    {
      hide TablesOk, LimitOk, Line, RowsShown;
      rows := [];
      var i := 0;
      while i < |rooms| && rowsToGo > 0
        invariant 0 <= i <= |rooms| && Valid() && rows == returned && (|rows| >= i || rowsToGo == 0)
      {
        var more := Upsample(groups[groupCtr], rooms[i]);
        rows := rows + more;
        i := i + 1;
      }
      ReturnedShows(im, rows);
      if rowsToGo == 0 { AllReturned(im, rows); }
    }

    /** ycc_rgb_convert on rows of the conversion buffer. */
    method ConvertRows(ghost group: Group, numRows: int) returns (rows: seq<seq<Sample>>)
      requires Valid() && nextRowOut < 2 && group == im.groups[groupCtr]
      requires 1 <= numRows <= 2 - nextRowOut && numRows <= rowsToGo
      ensures |rows| == numRows && Returned(im, returned + rows)
    {
      hide TablesOk, LimitOk, Line, Row, Box;
      var b := colorBuf;
      rows := [];
      assert returned + rows == returned;
      while |rows| < numRows
        invariant |rows| <= numRows && Returned(im, returned + rows)
      {
        var i := nextRowOut + |rows|;
        var out := new Sample[3 * width](_ => 0);
        ConvertRow(t, limit, Luma(b, i), b.cb, b.cr, width, out);
        LineOf(im, groupCtr, i);
        assert out[..3 * width] == out[..];
        ReturnOne(im, returned + rows, out[..]);
        assert returned + rows + [out[..]] == returned + (rows + [out[..]]);
        rows := rows + [out[..]];
      }
    }
  }

  /** Both paths give all rows of the image, once each and in order, however much room the caller has at each call. */
  method BothPaths(im: Image, t: Tables, limit: seq<Sample>, rooms: seq<nat>, others: seq<nat>)
    returns (merged: seq<seq<Sample>>, plain: seq<seq<Sample>>)
    requires im.Ok() && TablesOk(t) && LimitOk(limit) && |rooms| >= im.height && |others| >= im.height
    requires forall i :: 0 <= i < |rooms| ==> rooms[i] >= 1
    requires forall i :: 0 <= i < |others| ==> others[i] >= 1
    ensures merged == plain == AllLines(im) && |merged| == im.height && RowsShown(im, merged)
  {
    hide TablesOk, LimitOk, RowsShown;
    var m := new Merged(im, t, limit);
    merged := m.RunPass(im.groups, rooms);
    var s := new Separate(im, t, limit);
    plain := s.RunPass(im.groups, others);
  }
}
