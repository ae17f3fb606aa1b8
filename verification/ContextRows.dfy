/**
 The context-row state machine of components/gui/GUI/JPEG/jdmainct.c: every row group of the image is
 passed to the postprocessor once and in order, between its true neighbour rows.
 */
module ContextRows {
  import opened Arith
  import opened ContextPointers

  /** Row groups per iMCU row, iMCU rows, row groups of the image, and the components. */
  datatype Config = Config(m: int, t: int, n: int, shapes: seq<Shape>) {
    ghost predicate Valid() {
      && m >= 2 && t >= 1 && (t - 1) * m < n <= t * m && |shapes| >= 1
      && forall i :: 0 <= i < |shapes| ==> Fits(shapes[i])
    }

    /** A component has the same number of row groups, the last one perhaps partial. */
    ghost predicate Fits(s: Shape) {
      s.Ok() && s.l == m * s.g && (n - 1) * s.g < s.d <= n * s.g
    }
  }

  // ----- what a row group should be shown with -----

  /** The group that is postponed until the last iMCU row has been read. */
  function LastPostponed(c: Config): int { (c.t - 1) * c.m - 1 }

  /** The row to be seen in place `r` around group `n`: the image row, with the edge rows repeated. */
  function TrueRow(c: Config, s: Shape, n: int, r: int): int {
    if r < 0 then 0 else if r < s.d then r else if n == LastPostponed(c) then r else s.d - 1
  }

  /** A row group with one row group of context above and below. */
  function Around(c: Config, s: Shape, n: int): (v: seq<int>)
    requires s.g >= 0
    ensures |v| == 3 * s.g
  {
    seq(3 * s.g, i requires 0 <= i => TrueRow(c, s, n, n * s.g - s.g + i))
  }

  /** In all components. */
  ghost function Expected(c: Config, n: int): (v: seq<seq<int>>)
    requires c.Valid()
    ensures |v| == |c.shapes|
  {
    assert forall i :: 0 <= i < |c.shapes| ==> c.Fits(c.shapes[i]);
    seq(|c.shapes|, i requires 0 <= i < |c.shapes| => Around(c, c.shapes[i], n))
  }

  /** The group's own rows and the rows just above and below are never padding. */
  lemma NearRowsTrue(c: Config, s: Shape, n: int, r: int)
    requires c.Valid() && c.Fits(s) && 0 <= n < c.n && n * s.g - 1 <= r <= n * s.g + s.g
    ensures TrueRow(c, s, n, r) == ClampRow(s, r)
  {
    if n == LastPostponed(c) {
      GroupRow(c, s, c.t - 1, 0);
      assert n * s.g + s.g == (c.t - 1) * s.l by { Mono(n + 1, n + 1, s.g); }
      LastRows(c, s);
    }
  }

  /** Image row `r`, with the first and the last row repeated. */
  function ClampRow(s: Shape, r: int): int { if r < 0 then 0 else if r < s.d then r else s.d - 1 }

  /** The rows around group `n` with the first and the last row of the image repeated. */
  function Clamped(s: Shape, n: int): (v: seq<int>)
    requires s.g >= 0
    ensures |v| == 3 * s.g
  {
    seq(3 * s.g, i requires 0 <= i => ClampRow(s, n * s.g - s.g + i))
  }

  lemma AroundClamped(c: Config, s: Shape, n: int, start: int)
    requires s.g >= 1 && start == n * s.g && (n != LastPostponed(c) || start + 2 * s.g <= s.d)
    ensures Around(c, s, n) == Clamped(s, n)
  {
    hide LastPostponed;
    forall i | 0 <= i < 3 * s.g ensures Around(c, s, n)[i] == Clamped(s, n)[i] {
      assert TrueRow(c, s, n, start - s.g + i) == ClampRow(s, start - s.g + i);
    }
  }

  lemma AroundShort(c: Config, s: Shape, n: int, start: int)
    requires s.g >= 1 && start == n * s.g && n == LastPostponed(c) && start + 2 * s.g > s.d >= 0 && start + s.g >= 0
    ensures Around(c, s, n) != Clamped(s, n)
  {
    hide LastPostponed;
    var i := 3 * s.g - 1;
    assert Around(c, s, n)[i] == TrueRow(c, s, n, start - s.g + i);
    assert Clamped(s, n)[i] == ClampRow(s, start - s.g + i);
  }

  /**
   A group is shown between a whole row group of image rows on either side, with the edge rows repeated.
   The one exception is the last group before the last iMCU row, when that has less than a row group: the
   rows shown below the image are then the padding rows of the iMCU row.
   */
  lemma ContextIff(c: Config, s: Shape, n: int)
    requires c.Valid() && c.Fits(s) && 0 <= n < c.n
    ensures Around(c, s, n) == Clamped(s, n) <==> n != (c.t - 1) * c.m - 1 || RowsLeft(s) >= s.g
    ensures n == (c.t - 1) * c.m - 1 ==> forall i :: 0 <= i < 3 * s.g ==> Around(c, s, n)[i] == n * s.g - s.g + i
  {
    LastRows(c, s);
    LastPostponedRow(c, s);
    hide RowsLeft, Clamped, Around;
    if n != LastPostponed(c) || RowsLeft(s) >= s.g {
      AroundClamped(c, s, n, n * s.g);
    } else {
      Mono(0, c.t - 1, s.l);
      AroundShort(c, s, n, n * s.g);
    }
    if n == LastPostponed(c) {
      hide LastPostponed;
      PostponedAround(c, s, n, n * s.g);
    }
  }

  lemma PostponedAround(c: Config, s: Shape, n: int, start: int)
    requires s.g >= 1 && n == LastPostponed(c) && start == n * s.g && n >= 1
    ensures forall i :: 0 <= i < 3 * s.g ==> Around(c, s, n)[i] == start - s.g + i
  {
    hide LastPostponed;
    Mono(1, n, s.g);
    forall i | 0 <= i < 3 * s.g ensures Around(c, s, n)[i] == start - s.g + i {
      assert Around(c, s, n)[i] == TrueRow(c, s, n, start - s.g + i);
    }
  }

  /** So every group has its whole context exactly when there is one iMCU row or the last one begins with a full row
      group. */
  lemma FullContextIff(c: Config, s: Shape)
    requires c.Valid() && c.Fits(s)
    ensures (forall n :: 0 <= n < c.n ==> Around(c, s, n) == Clamped(s, n)) <==> c.t == 1 || RowsLeft(s) >= s.g
  {
    hide RowsLeft, Around, Clamped;
    LastPostponedRow(c, s);
    forall n | 0 <= n < c.n
      ensures Around(c, s, n) == Clamped(s, n) <==> n != LastPostponed(c) || RowsLeft(s) >= s.g
    {
      ContextIff(c, s, n);
    }
    var n := LastPostponed(c);
    if c.t >= 2 && Around(c, s, n) == Clamped(s, n) { assert RowsLeft(s) >= s.g; }
  }

  lemma LastPostponedRow(c: Config, s: Shape)
    requires c.Valid() && c.Fits(s)
    ensures var n := LastPostponed(c);
            n * s.g + s.g == (c.t - 1) * s.l && n < c.n && if c.t >= 2 then n >= 1 else n < 0
  {
    var n := LastPostponed(c);
    GroupRow(c, s, c.t - 1, 0);
    Mono(n + 1, n + 1, s.g);
    if c.t >= 2 { Mono(1, c.t - 1, c.m); }
  }

  /** Five sample rows in groups of two, two groups to an iMCU row: the second row below group 1 is padding. */
  lemma ShortContext()
    ensures var s := Shape(2, 4, 5); var c := Config(2, 2, 3, [s]);
            c.Valid() && c.Fits(s) && Around(c, s, 1) == [0, 1, 2, 3, 4, 5] && Clamped(s, 1) == [0, 1, 2, 3, 4, 4]
  {
    var s := Shape(2, 4, 5);
    var c := Config(2, 2, 3, [s]);
    assert c.Fits(s) && c.shapes[0] == s;
    assert Around(c, s, 1) == [TrueRow(c, s, 1, 0), TrueRow(c, s, 1, 1), TrueRow(c, s, 1, 2), TrueRow(c, s, 1, 3),
        TrueRow(c, s, 1, 4), TrueRow(c, s, 1, 5)];
    assert Clamped(s, 1) == [ClampRow(s, 0), ClampRow(s, 1), ClampRow(s, 2), ClampRow(s, 3), ClampRow(s, 4),
        ClampRow(s, 5)];
  }

  lemma GroupRow(c: Config, s: Shape, a: int, j: int)
    requires s.l == c.m * s.g
    ensures (a * c.m + j) * s.g == a * s.l + j * s.g
  {
    assert (a * c.m) * s.g == a * (c.m * s.g);
  }

  /** The image ends in the last iMCU row, after `RowsLeft` rows of it. */
  lemma LastRows(c: Config, s: Shape)
    requires c.Valid() && c.Fits(s)
    ensures s.d == (c.t - 1) * s.l + RowsLeft(s)
  {
    GroupRow(c, s, c.t - 1, 0);
    GroupRow(c, s, c.t, 0);
    Mono((c.t - 1) * c.m, c.n - 1, s.g);
    Mono(c.n, c.t * c.m, s.g);
    var x := s.d - (c.t - 1) * s.l;
    assert c.t * s.l == (c.t - 1) * s.l + s.l by { Mono(c.t, c.t, s.l); }
    assert 0 < x <= s.l;
    ModShift(x, c.t - 1, s.l);
    if x < s.l { DivMod(x, 0, x, s.l); } else { DivMod(x, 1, 0, s.l); }
  }

  /** Nondummy row groups in the last iMCU row. */
  function LastGroups(s: Shape): int
    requires s.Ok()
  {
    (RowsLeft(s) - 1) / s.g + 1
  }

  /** Every component gives the same count. */
  lemma SameCount(c: Config, s: Shape)
    requires c.Valid() && c.Fits(s)
    ensures LastGroups(s) == c.n - (c.t - 1) * c.m && 1 <= LastGroups(s) <= c.m
  {
    LastRows(c, s);
    var k := c.n - (c.t - 1) * c.m;
    GroupRow(c, s, c.t - 1, k);
    GroupRow(c, s, c.t - 1, k - 1);
    var x := RowsLeft(s) - 1;
    assert (k - 1) * s.g <= x < k * s.g;
    assert k * s.g == (k - 1) * s.g + s.g by { Mono(k, k, s.g); }
    DivMod(x, k - 1, x - (k - 1) * s.g, s.g);
    assert k <= c.m by { Mono(c.t, c.t, c.m); }
  }

  // ----- what is in the workspace -----

  /** The list through which the last of `read` iMCU rows was read. */
  function Turn(read: int): int { (read - 1) % 2 }

  /** After `read` iMCU rows the last one is in place, behind it the last two groups of the one before. */
  ghost predicate Held(s: Shape, rows: seq<int>, read: int)
    requires s.Ok() && |rows| == s.l + 2 * s.g
  {
    read >= 1 ==>
      forall q :: 0 <= q < s.l + 2 * s.g && (q < s.l || read >= 2) ==>
        0 <= Base(s, Turn(read), q) < |rows|
        && rows[Base(s, Turn(read), q)] == (read - 1) * s.l + if q < s.l then q else q - s.l - 2 * s.g
  }

  /** `rows'` is `rows` after an iMCU row starting at image row `from` was read through list `w`. */
  ghost predicate Filled(s: Shape, rows: seq<int>, rows': seq<int>, w: int, from: int)
    requires s.Ok() && |rows| == s.l + 2 * s.g && |rows'| == |rows|
  {
    forall q :: 0 <= q < s.l + 2 * s.g ==>
      0 <= Base(s, w, q) < |rows| && rows'[Base(s, w, q)] == if q < s.l then from + q else rows[Base(s, w, q)]
  }

  lemma FilledHeld(s: Shape, rows: seq<int>, rows': seq<int>, read: int)
    requires s.Ok() && |rows| == s.l + 2 * s.g && |rows'| == |rows| && read >= 0
    requires Held(s, rows, read) && Filled(s, rows, rows', Turn(read + 1), read * s.l)
    ensures Held(s, rows', read + 1)
  {
    var w := Turn(read + 1);
    if read >= 1 {
      assert Turn(read) == 1 - w;
      assert read * s.l == (read - 1) * s.l + s.l by { Mono(read, read, s.l); }
      forall q | s.l <= q < s.l + 2 * s.g
        ensures rows'[Base(s, w, q)] == read * s.l + (q - s.l - 2 * s.g)
      {
        assert Base(s, w, q) == Base(s, 1 - w, q - 2 * s.g);
      }
    }
  }

  // ----- what a list shows -----

  /** The rows a list shows around its row group number `pos`. */
  function Shows(s: Shape, x: seq<int>, rows: seq<int>, pos: int): (v: seq<int>)
    requires s.Ok() && |x| == s.l + 4 * s.g && |rows| == s.l + 2 * s.g && 0 <= pos && pos * s.g + 3 * s.g <= |x|
    ensures |v| == 3 * s.g
  {
    seq(3 * s.g, i requires 0 <= i < 3 * s.g => Seen(x, rows, pos * s.g + i))
  }

  /** The row that element `k` of a list points to. */
  function Seen(x: seq<int>, rows: seq<int>, k: int): int
    requires 0 <= k < |x|
  {
    if 0 <= x[k] < |rows| then rows[x[k]] else -1
  }

  lemma ShowsAround(c: Config, s: Shape, x: seq<int>, rows: seq<int>, pos: int, n: int)
    requires s.Ok() && |x| == s.l + 4 * s.g && |rows| == s.l + 2 * s.g && 0 <= pos * s.g && 0 <= pos
    requires pos * s.g + 3 * s.g <= |x|
    requires forall i :: 0 <= i < 3 * s.g ==> Right(c, s, x, rows, pos * s.g, n, n * s.g, i)
    ensures Shows(s, x, rows, pos) == Around(c, s, n)
  {
    forall i | 0 <= i < 3 * s.g ensures Shows(s, x, rows, pos)[i] == Around(c, s, n)[i] {
      assert Right(c, s, x, rows, pos * s.g, n, n * s.g, i);
    }
  }

  /** Element `i` of what is shown around group `n`, which starts at row `start`, is right. */
  ghost predicate Right(c: Config, s: Shape, x: seq<int>, rows: seq<int>, at: int, n: int, start: int, i: int) {
    0 <= at + i < |x| ==> Seen(x, rows, at + i) == TrueRow(c, s, n, start - s.g + i)
  }

  /** Element `k` of a wrapped list shows the image row that belongs there. */
  lemma WrappedShows(s: Shape, x: seq<int>, rows: seq<int>, read: int, k: int)
    requires s.Ok() && |x| == s.l + 4 * s.g && |rows| == s.l + 2 * s.g && read >= 2
    requires Wrapped(s, x, Turn(read)) && Held(s, rows, read) && 0 <= k < |x|
    ensures 0 <= x[k] < |rows|
    ensures var q := k - s.g; rows[x[k]] == (read - 1) * s.l + if q < s.l then q else q - s.l - 2 * s.g
  {
    hide Base;
    var q, w := k - s.g, Turn(read);
    var q' := if q < 0 then q + s.l + 2 * s.g else if q < s.l + 2 * s.g then q else q - (s.l + 2 * s.g);
    assert x[k] == Base(s, w, q');
  }

  /** At the top of the image. */
  lemma ToppedShows(s: Shape, x: seq<int>, rows: seq<int>, k: int)
    requires s.Ok() && |x| == s.l + 4 * s.g && |rows| == s.l + 2 * s.g
    requires Plain(s, x, 0) && Topped(s, x) && Held(s, rows, 1) && 0 <= k < s.l + s.g
    ensures 0 <= x[k] < |rows| && rows[x[k]] == if k < s.g then 0 else k - s.g
  {
    assert Turn(1) == 0;
    assert rows[Base(s, Turn(1), 0)] == 0;
    if k >= s.g {
      assert x[k] == Base(s, 0, k - s.g);
      assert rows[Base(s, Turn(1), k - s.g)] == k - s.g;
    }
  }

  /** The lists before the bottom of the image: topped for the first iMCU row, then wrapped. */
  ghost predicate ListsOk(s: Shape, c: Comp, wrapped: bool)
    requires s.Ok() && Sized(s, c)
  {
    if wrapped then Wrapped(s, c.x0, 0) && Wrapped(s, c.x1, 1)
    else Plain(s, c.x0, 0) && Topped(s, c.x0) && Plain(s, c.x1, 1)
  }

  /** Element `k` of the list in use shows the image row that belongs there, or the first row above the image. */
  lemma ListShows(s: Shape, c: Comp, read: int, k: int)
    requires s.Ok() && Sized(s, c) && read >= 1 && Held(s, c.rows, read) && ListsOk(s, c, read >= 2)
    requires 0 <= k < s.l + s.g
    ensures var x := List(c, Turn(read)); var r := (read - 1) * s.l + k - s.g;
            0 <= x[k] < |c.rows| && c.rows[x[k]] == if r < 0 then 0 else r
  {
    hide Base;
    if read >= 2 {
      WrappedShows(s, List(c, Turn(read)), c.rows, read, k);
      assert (read - 1) * s.l >= s.l by { Mono(1, read - 1, s.l); }
    } else {
      ToppedShows(s, c.x0, c.rows, k);
    }
  }

  /** Rows of iMCU rows before the last are real. */
  lemma EarlyRows(c: Config, s: Shape, read: int, r: int)
    requires c.Valid() && c.Fits(s) && 1 <= read < c.t && r < read * s.l
    ensures r < s.d
  {
    LastRows(c, s);
    Mono(read, c.t - 1, s.l);
  }

  lemma ProcessRight(c: Config, s: Shape, p: Comp, read: int, n: int, at: int, i: int)
    requires c.Valid() && c.Fits(s) && Sized(s, p) && 1 <= read < c.t && Held(s, p.rows, read)
    requires ListsOk(s, p, read >= 2)
    requires 0 <= at <= s.l - 2 * s.g && 0 <= i < 3 * s.g
    ensures Right(c, s, List(p, Turn(read)), p.rows, at, n, (read - 1) * s.l + at, i)
  {
    hide Held, ListsOk, RowsLeft;
    ListShows(s, p, read, at + i);
    assert read * s.l == (read - 1) * s.l + s.l by { Mono(read, read, s.l); }
    EarlyRows(c, s, read, (read - 1) * s.l + at - s.g + i);
  }

  /** One of the first M - 1 groups of an iMCU row that is not the last. */
  lemma ProcessShows(c: Config, s: Shape, p: Comp, read: int, j: int)
    requires c.Valid() && c.Fits(s) && Sized(s, p) && 1 <= read < c.t && 0 <= j <= c.m - 2
    requires Held(s, p.rows, read) && ListsOk(s, p, read >= 2)
    ensures 0 <= j * s.g && j * s.g + 3 * s.g <= s.l + s.g
    ensures Shows(s, List(p, Turn(read)), p.rows, j) == Around(c, s, (read - 1) * c.m + j)
  {
    hide Held, ListsOk, Right;
    var x, n := List(p, Turn(read)), (read - 1) * c.m + j;
    GroupBefore(c, s, j);
    GroupRow(c, s, read - 1, j);
    forall i | 0 <= i < 3 * s.g ensures Right(c, s, x, p.rows, j * s.g, n, n * s.g, i) {
      ProcessRight(c, s, p, read, n, j * s.g, i);
    }
    ShowsAround(c, s, x, p.rows, j, n);
  }

  lemma GroupBefore(c: Config, s: Shape, j: int)
    requires s.Ok() && s.l == c.m * s.g && 0 <= j <= c.m - 2
    ensures 0 <= j * s.g <= s.l - 2 * s.g
  {
    Mono(0, j, s.g);
    Mono(j, c.m - 2, s.g);
    assert (c.m - 2) * s.g == s.l - 2 * s.g;
  }

  lemma PostponedRight(c: Config, s: Shape, p: Comp, read: int, n: int, i: int)
    requires c.Valid() && c.Fits(s) && Sized(s, p) && 2 <= read <= c.t && Held(s, p.rows, read) && ListsOk(s, p, true)
    requires n == (read - 1) * c.m - 1 && 0 <= i < 3 * s.g
    ensures Right(c, s, List(p, Turn(read)), p.rows, s.l + s.g, n, (read - 1) * s.l - s.g, i)
  {
    WrappedShows(s, List(p, Turn(read)), p.rows, read, s.l + s.g + i);
    hide Held, ListsOk, RowsLeft, Wrapped;
    assert (read - 1) * s.l >= s.l by { Mono(1, read - 1, s.l); }
    if read < c.t {
      assert read * s.l == (read - 1) * s.l + s.l by { Mono(read, read, s.l); }
      EarlyRows(c, s, read, (read - 1) * s.l - 2 * s.g + i);
    }
  }

  /** The postponed last group of the iMCU row before, seen through the list of the new one. */
  lemma PostponedShows(c: Config, s: Shape, p: Comp, read: int)
    requires c.Valid() && c.Fits(s) && Sized(s, p) && 2 <= read <= c.t && Held(s, p.rows, read) && ListsOk(s, p, true)
    ensures (c.m + 1) * s.g == s.l + s.g
    ensures Shows(s, List(p, Turn(read)), p.rows, c.m + 1) == Around(c, s, (read - 1) * c.m - 1)
  {
    hide Held, ListsOk, Right;
    var x, n := List(p, Turn(read)), (read - 1) * c.m - 1;
    GroupRow(c, s, read - 1, -1);
    assert (c.m + 1) * s.g == s.l + s.g;
    var at, start := (c.m + 1) * s.g, n * s.g;
    forall i | 0 <= i < 3 * s.g ensures Right(c, s, x, p.rows, at, n, start, i) {
      PostponedRight(c, s, p, read, n, i);
    }
    ShowsAround(c, s, x, p.rows, c.m + 1, n);
  }

  lemma BottomRight(c: Config, s: Shape, p: Comp, x: seq<int>, n: int, at: int, i: int)
    requires c.Valid() && c.Fits(s) && Sized(s, p) && Held(s, p.rows, c.t) && ListsOk(s, p, c.t >= 2)
    requires |x| == s.l + 4 * s.g && Bottomed(s, List(p, Turn(c.t)), x)
    requires 0 <= at < RowsLeft(s) && 0 <= i < 3 * s.g && n >= (c.t - 1) * c.m
    ensures Right(c, s, x, p.rows, at, n, (c.t - 1) * s.l + at, i)
  {
    hide Held, ListsOk, RowsLeft;
    var left, k := RowsLeft(s), at + i;
    LastRows(c, s);
    ListShows(s, p, c.t, if k < left + s.g then k else left - 1 + s.g);
    assert (c.t - 1) * s.l >= 0 by { if c.t >= 2 { Mono(1, c.t - 1, s.l); } }
  }

  /** A group of the last iMCU row, after the bottom rows were repeated. */
  lemma BottomShows(c: Config, s: Shape, p: Comp, x: seq<int>, j: int)
    requires c.Valid() && c.Fits(s) && Sized(s, p) && Held(s, p.rows, c.t) && ListsOk(s, p, c.t >= 2)
    requires |x| == s.l + 4 * s.g && Bottomed(s, List(p, Turn(c.t)), x) && 0 <= j < LastGroups(s)
    ensures 0 <= j * s.g && j * s.g + 3 * s.g <= s.l + 4 * s.g
    ensures Shows(s, x, p.rows, j) == Around(c, s, (c.t - 1) * c.m + j)
  {
    hide Held, ListsOk, RowsLeft, Right, Bottomed;
    var n := (c.t - 1) * c.m + j;
    GroupStart(s, j);
    GroupRow(c, s, c.t - 1, j);
    forall i | 0 <= i < 3 * s.g ensures Right(c, s, x, p.rows, j * s.g, n, n * s.g, i) {
      BottomRight(c, s, p, x, n, j * s.g, i);
    }
    ShowsAround(c, s, x, p.rows, j, n);
  }

  /** A group of the last iMCU row starts at a real row. */
  lemma GroupStart(s: Shape, j: int)
    requires s.Ok() && 0 <= j < LastGroups(s)
    ensures 0 <= j * s.g < RowsLeft(s)
  {
    hide RowsLeft;
    var x := RowsLeft(s) - 1;
    Mono(0, j, s.g);
    Mono(j, x / s.g, s.g);
    assert x / s.g * s.g <= x;
  }

  // ----- the sizes in an image -----

  /** jdiv_round_up */
  function CeilDiv(x: int, q: int): int
    requires q > 0
  {
    (x + q - 1) / q
  }

  lemma CeilBounds(x: int, q: int)
    requires q > 0
    ensures (CeilDiv(x, q) - 1) * q < x <= CeilDiv(x, q) * q
  {
    var k := CeilDiv(x, q);
    assert x + q - 1 == k * q + (x + q - 1) % q;
    Mono(k, k, q);
  }

  /** Scaling before or after rounding up agrees to within one unit. */
  lemma CeilScale(x: int, k: int, q: int)
    requires q > 0 && k > 0
    ensures (CeilDiv(x, q) - 1) * k < CeilDiv(x * k, q) <= CeilDiv(x, q) * k
  {
    var a, b := CeilDiv(x, q), CeilDiv(x * k, q);
    CeilBounds(x, q);
    CeilBounds(x * k, q);
    Mono(x, a * q, k);
    Mono((a - 1) * q + 1, x, k);
    assert (a * q) * k == (a * k) * q;
    assert ((a - 1) * q) * k == ((a - 1) * k) * q;
    assert b <= a * k by { if b > a * k { Mono(a * k, b - 1, q); } }
    assert (a - 1) * k < b by { if (a - 1) * k >= b { Mono(b, (a - 1) * k, q); } }
  }

  /** The sizes the decompressor computes from an image of height `h` fit together: all components have the same row
      groups. */
  lemma ImageFits(h: int, maxV: int, m: int, gs: seq<int>)
    requires h >= 1 && maxV >= 1 && m >= 2 && |gs| >= 1 && forall i :: 0 <= i < |gs| ==> gs[i] >= 1
    ensures var q := 8 * maxV;
            Config(m, CeilDiv(h, q), CeilDiv(h * m, q),
                   seq(|gs|, i requires 0 <= i < |gs| => Shape(gs[i], m * gs[i], CeilDiv(h * m * gs[i], q)))).Valid()
  {
    var q := 8 * maxV;
    CeilScale(h, m, q);
    CeilBounds(h, q);
    CeilBounds(h * m, q);
    var t, n := CeilDiv(h, q), CeilDiv(h * m, q);
    assert t >= 1 by { if t <= 0 { Mono(t, 0, q); } }
    var c := Config(m, t, n, seq(|gs|, i requires 0 <= i < |gs| => Shape(gs[i], m * gs[i], CeilDiv(h * m * gs[i], q))));
    forall i | 0 <= i < |gs| ensures c.Fits(c.shapes[i]) {
      CeilScale(h * m, gs[i], q);
      ShapeFits(h * m, m, gs[i], q);
    }
  }

  lemma ShapeFits(x: int, m: int, g: int, q: int)
    requires q > 0 && m >= 2 && g >= 1 && x >= 1
    ensures Shape(g, m * g, CeilDiv(x * g, q)).Ok()
  {
    Mono(2, m, g);
    Mono(1, x, g);
    CeilBounds(x * g, q);
    var b := CeilDiv(x * g, q);
    if b <= 0 { Mono(b, 0, q); }
  }
}
