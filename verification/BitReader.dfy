/**
 The bit buffer of components/gui/GUI/JPEG/jdhuff.c and jdhuff.h.  The data source is the sequence of
 bytes delivered so far; running out of it suspends the reader.
 */
module BitReader {
  import opened Arith
  import opened Bits

  type Byte = c: int | 0 <= c <= 255

  const MIN_GET_BITS := 25
  const WORD: int := 0x1_0000_0000

  // ----- the data bytes of a segment -----

  datatype Item = Short | Data(c: Byte, next: int) | Marker(c: Byte, next: int)

  /** Behind an FF: padding FFs are skipped, a zero makes it a data byte, anything else is a marker. */
  function AfterFF(input: seq<Byte>, pos: int): (i: Item)
    requires 0 <= pos <= |input|
    ensures i.Data? || i.Marker? ==> pos < i.next <= |input|
    ensures i.Marker? ==> i.c != 0
    decreases |input| - pos
  {
    if pos == |input| then Short
    else if input[pos] == 0xFF then AfterFF(input, pos + 1)
    else if input[pos] == 0 then Data(0xFF, pos + 1)
    else Marker(input[pos], pos + 1)
  }

  function ItemAt(input: seq<Byte>, pos: int): (i: Item)
    requires 0 <= pos <= |input|
    ensures i.Data? || i.Marker? ==> pos < i.next <= |input|
    ensures i.Marker? ==> i.c != 0
  {
    if pos == |input| then Short
    else if input[pos] == 0xFF then AfterFF(input, pos + 1)
    else Data(input[pos], pos + 1)
  }

  /** The data bits from `pos` to the first marker, or to the end of what has arrived. */
  function DataBits(input: seq<Byte>, pos: int): seq<bool>
    requires 0 <= pos <= |input|
    decreases |input| - pos
  {
    match ItemAt(input, pos)
    case Data(c, next) => BitsOf(c, 8) + DataBits(input, next)
    case _ => []
  }

  /** A marker has arrived. */
  predicate Ended(input: seq<Byte>, pos: int)
    requires 0 <= pos <= |input|
    decreases |input| - pos
  {
    match ItemAt(input, pos)
    case Short => false
    case Data(_, next) => Ended(input, next)
    case Marker(_, _) => true
  }

  /** The first marker from `pos` on and the position behind it. */
  function MarkerFrom(input: seq<Byte>, pos: int): (m: Item)
    requires 0 <= pos <= |input|
    decreases |input| - pos
  {
    match ItemAt(input, pos)
    case Short => Short
    case Data(_, next) => MarkerFrom(input, next)
    case Marker(c, next) => Marker(c, next)
  }

  // ----- byte stuffing -----

  /** A data byte as it is stuffed. */
  function Stuffed(x: Byte): (s: seq<Byte>) {
    if x == 0xFF then [0xFF, 0] else [x]
  }

  /** What an encoder writes for some data bytes. */
  function Stuff(d: seq<Byte>): seq<Byte> {
    if d == [] then [] else Stuffed(d[0]) + Stuff(d[1..])
  }

  function ByteBits(d: seq<Byte>): seq<bool> {
    if d == [] then [] else BitsOf(d[0], 8) + ByteBits(d[1..])
  }

  lemma ReadStuffed(input: seq<Byte>, pos: int, x: Byte)
    requires 0 <= pos && pos + |Stuffed(x)| <= |input| && input[pos..pos + |Stuffed(x)|] == Stuffed(x)
    ensures ItemAt(input, pos) == Data(x, pos + |Stuffed(x)|)
  {
    assert input[pos] == input[pos..pos + |Stuffed(x)|][0];
    if x == 0xFF { assert input[pos + 1] == input[pos..pos + 2][1]; }
  }

  lemma ReadMarker(input: seq<Byte>, pos: int, m: Byte)
    requires 0 <= pos && pos + 2 <= |input| && input[pos] == 0xFF && input[pos + 1] == m && m != 0 && m != 0xFF
    ensures ItemAt(input, pos) == Marker(m, pos + 2)
  {
    assert AfterFF(input, pos + 1) == Marker(m, pos + 2);
  }

  /** Reading stuffed data up to a marker gives the data back. */
  lemma {:induction false} Unstuff(before: seq<Byte>, d: seq<Byte>, m: Byte, after: seq<Byte>)
    requires m != 0 && m != 0xFF
    ensures DataBits(before + Stuff(d) + [0xFF, m] + after, |before|) == ByteBits(d)
    ensures Ended(before + Stuff(d) + [0xFF, m] + after, |before|)
    ensures MarkerFrom(before + Stuff(d) + [0xFF, m] + after, |before|) == Marker(m, |before + Stuff(d)| + 2)
    decreases |d|
  {
    hide BitsOf, ItemAt, Stuffed;
    var input := before + Stuff(d) + [0xFF, m] + after;
    var pos := |before|;
    if d == [] {
      ReadMarker(input, pos, m);
    } else {
      var head := Stuffed(d[0]);
      Unstuff(before + head, d[1..], m, after);
      assert (before + head) + Stuff(d[1..]) == before + Stuff(d);
      assert (before + head) + Stuff(d[1..]) + [0xFF, m] + after == input;
      assert input[pos..pos + |head|] == head;
      ReadStuffed(input, pos, d[0]);
    }
  }

  // ----- more input -----

  /** Data that arrives in pieces. */
  ghost function Concat(chunks: seq<seq<Byte>>): seq<Byte> {
    if chunks == [] then [] else chunks[0] + Concat(chunks[1..])
  }

  lemma {:induction false} AfterFFMore(input: seq<Byte>, more: seq<Byte>, pos: int)
    requires 0 <= pos <= |input|
    ensures AfterFF(input, pos).Short? || AfterFF(input + more, pos) == AfterFF(input, pos)
    decreases |input| - pos
  {
    if pos < |input| && input[pos] == 0xFF { AfterFFMore(input, more, pos + 1); }
  }

  /** What has been read stays the same when more bytes arrive. */
  lemma ItemMore(input: seq<Byte>, more: seq<Byte>, pos: int)
    requires 0 <= pos <= |input|
    ensures ItemAt(input, pos).Short? || ItemAt(input + more, pos) == ItemAt(input, pos)
  {
    if pos < |input| && input[pos] == 0xFF { AfterFFMore(input, more, pos + 1); }
  }

  // ----- the reader -----

  /** get_buffer, bits_left, the source position, unread_marker and insufficient_data. */
  datatype Reader = Reader(buffer: int, left: int, pos: int, marker: Byte, starved: bool) {
    predicate Ok(input: seq<Byte>) {
      0 <= buffer < WORD && 0 <= left <= 32 && 0 <= pos <= |input| && (starved ==> marker != 0)
    }
  }

  datatype Filled = Suspended | Ready(r: Reader)

  /** Past a marker, missing bits are made up as zeros. */
  function Pad(r: Reader, nbits: int): Reader {
    if nbits > r.left && 0 <= r.left <= MIN_GET_BITS
    then r.(starved := true, buffer := r.buffer * Pow2(MIN_GET_BITS - r.left) % WORD, left := MIN_GET_BITS)
    else r
  }

  function LoadByte(r: Reader, c: Byte, next: int): Reader {
    r.(buffer := (r.buffer * 256 + c) % WORD, left := r.left + 8, pos := next)
  }

  function Load(input: seq<Byte>, r: Reader, nbits: int): (f: Filled)
    requires r.Ok(input) && r.marker == 0
    ensures f.Ready? ==> f.r.Ok(input) && r.pos <= f.r.pos
    decreases |input| - r.pos
  {
    if r.left >= MIN_GET_BITS then Ready(r)
    else
      match ItemAt(input, r.pos)
      case Short => Suspended
      case Data(c, next) => Load(input, LoadByte(r, c, next), nbits)
      case Marker(c, next) => Ready(Pad(r.(pos := next, marker := c), nbits))
  }

  /** jpeg_fill_bit_buffer */
  function Fill(input: seq<Byte>, r: Reader, nbits: int): (f: Filled)
    requires r.Ok(input)
    ensures f.Ready? ==> f.r.Ok(input) && r.pos <= f.r.pos
  {
    if r.marker == 0 then Load(input, r, nbits) else Ready(Pad(r, nbits))
  }

  /** CHECK_BIT_BUFFER */
  function Check(input: seq<Byte>, r: Reader, nbits: int): (f: Filled)
    requires r.Ok(input)
    ensures f.Ready? ==> f.r.Ok(input) && r.pos <= f.r.pos
  {
    if r.left < nbits then Fill(input, r, nbits) else Ready(r)
  }

  /** PEEK_BITS */
  function Peek(r: Reader, n: int): (v: int)
    requires 0 <= n <= r.left
    ensures 0 <= r.buffer ==> 0 <= v < Pow2(n)
  {
    r.buffer / Pow2(r.left - n) % Pow2(n)
  }

  /** DROP_BITS */
  function Drop(r: Reader, n: int): Reader {
    r.(left := r.left - n)
  }

  // ----- what the reader has in store -----

  /** The bits still to come: those in the buffer, then those of the data. */
  function Ahead(input: seq<Byte>, r: Reader): seq<bool>
    requires r.Ok(input)
  {
    BitsOf(r.buffer, r.left) + if r.marker == 0 then DataBits(input, r.pos) else []
  }

  predicate AtEnd(input: seq<Byte>, r: Reader)
    requires r.Ok(input)
  {
    r.marker != 0 || Ended(input, r.pos)
  }

  /** Bit `i` of an endless stream that goes on with zeros. */
  predicate At(s: seq<bool>, i: int)
    requires 0 <= i
  {
    i < |s| && s[i]
  }

  /** `t` is `s` without its first `n` bits. */
  ghost predicate Past(s: seq<bool>, n: int, t: seq<bool>)
    requires 0 <= n
  {
    forall i :: 0 <= i ==> At(t, i) == At(s, n + i)
  }

  function Zeros(n: nat): seq<bool> { seq(n, i => false) }

  lemma LowBits(v: int, c: int)
    requires 0 <= v && 0 <= c < 256
    ensures BitsOf(v * 256 + c, 8) == BitsOf(c, 8)
            && forall n: nat :: BitsOf(v * 256 + c, n + 8) == BitsOf(v, n) + BitsOf(c, 8)
  {
    forall n: nat ensures BitsOf(v * 256 + c, n + 8) == BitsOf(v, n) + BitsOf(c, 8) {
      SplitBits(v, c, n, 8);
    }
    SplitBits(v, c, 0, 8);
  }

  lemma {:induction false} SplitBits(v: nat, c: nat, n: nat, k: nat)
    requires c < Pow2(k)
    ensures BitsOf(v * Pow2(k) + c, n + k) == BitsOf(v, n) + BitsOf(c, k)
  {
    if k > 0 {
      var x := v * Pow2(k) + c;
      Pow2Step(k - 1);
      Double(v, Pow2(k - 1));
      var y := v * Pow2(k - 1);
      assert x == 2 * y + c;
      assert x / 2 == y + c / 2 && x % 2 == c % 2;
      SplitBits(v, c / 2, n, k - 1);
      assert BitsOf(x, n + k) == BitsOf(x / 2, n + k - 1) + [x % 2 == 1];
      assert BitsOf(c, k) == BitsOf(c / 2, k - 1) + [c % 2 == 1];
    } else {
      assert v * Pow2(0) == v;
    }
  }

  /** Bits above the ones asked for do not matter. */
  lemma {:induction false} BitsOfMod(v: nat, n: nat, m: nat)
    requires n <= m
    ensures BitsOf(v % Pow2(m), n) == BitsOf(v, n)
  {
    if n > 0 {
      HalfMod(v, Pow2(m - 1));
      Pow2Step(m - 1);
      var u := v % Pow2(m);
      assert u / 2 == v / 2 % Pow2(m - 1) && u % 2 == v % 2;
      BitsOfMod(v / 2, n - 1, m - 1);
    }
  }

  lemma WordIs()
    ensures WORD == Pow2(32)
  {
    Pow2Add(16, 16);
    assert Pow2(16) == 65536 by { Pow2Add(8, 8); assert Pow2(8) == 256; }
  }

  lemma LoadAhead(input: seq<Byte>, r: Reader, c: Byte, next: int)
    requires r.Ok(input) && r.marker == 0 && r.left < MIN_GET_BITS && ItemAt(input, r.pos) == Data(c, next)
    ensures LoadByte(r, c, next).Ok(input) && Ahead(input, LoadByte(r, c, next)) == Ahead(input, r)
  {
    hide BitsOf;
    var r' := LoadByte(r, c, next);
    WordIs();
    BitsOfMod(r.buffer * 256 + c, r'.left, 32);
    LowBits(r.buffer, c);
    assert BitsOf(r'.buffer, r'.left) == BitsOf(r.buffer, r.left) + BitsOf(c, 8);
    assert (BitsOf(r.buffer, r.left) + BitsOf(c, 8)) + DataBits(input, next)
        == BitsOf(r.buffer, r.left) + (BitsOf(c, 8) + DataBits(input, next));
  }

  lemma ZeroBits(n: nat)
    ensures BitsOf(0, n) == Zeros(n)
  {
    if n > 0 {
      ZeroBits(n - 1);
      assert Zeros(n) == Zeros(n - 1) + [false];
    }
  }

  lemma PadBits(r: Reader, nbits: int)
    requires 0 <= r.buffer < WORD && 0 <= r.left < nbits <= MIN_GET_BITS
    ensures BitsOf(Pad(r, nbits).buffer, MIN_GET_BITS) == BitsOf(r.buffer, r.left) + Zeros(MIN_GET_BITS - r.left)
    ensures 0 <= Pad(r, nbits).buffer < WORD
  {
    var k := MIN_GET_BITS - r.left;
    WordIs();
    BitsOfMod(r.buffer * Pow2(k), MIN_GET_BITS, 32);
    SplitBits(r.buffer, 0, r.left, k);
    ZeroBits(k);
  }

  /** Padding does not change the endless stream. */
  lemma PadAhead(input: seq<Byte>, r: Reader, nbits: int)
    requires r.Ok(input) && r.marker != 0 && nbits <= MIN_GET_BITS
    ensures Pad(r, nbits).Ok(input) && nbits <= Pad(r, nbits).left
    ensures Past(Ahead(input, r), 0, Ahead(input, Pad(r, nbits)))
    ensures Pad(r, nbits).marker == r.marker
  {
    hide BitsOf;
    if nbits > r.left { PadBits(r, nbits); }
  }

  lemma {:induction false} LoadKeeps(input: seq<Byte>, r: Reader, nbits: int)
    requires r.Ok(input) && r.marker == 0 && nbits <= MIN_GET_BITS
    ensures match Load(input, r, nbits)
            case Suspended => !Ended(input, r.pos)
            case Ready(r') => nbits <= r'.left && Past(Ahead(input, r), 0, Ahead(input, r'))
                              && (AtEnd(input, r) <==> AtEnd(input, r'))
    decreases |input| - r.pos
  {
    hide BitsOf;
    if r.left < MIN_GET_BITS {
      match ItemAt(input, r.pos)
      case Short =>
      case Data(c, next) =>
        LoadAhead(input, r, c, next);
        LoadKeeps(input, LoadByte(r, c, next), nbits);
      case Marker(c, next) =>
        var r1 := r.(pos := next, marker := c);
        assert Ahead(input, r1) == Ahead(input, r);
        PadAhead(input, r1, nbits);
    }
  }

  /** A successful fill leaves the bits to come as they were and has enough of them; past a marker it never suspends. */
  lemma FillKeeps(input: seq<Byte>, r: Reader, nbits: int)
    requires r.Ok(input) && nbits <= MIN_GET_BITS
    ensures match Fill(input, r, nbits)
            case Suspended => !AtEnd(input, r)
            case Ready(r') => nbits <= r'.left && Past(Ahead(input, r), 0, Ahead(input, r'))
                              && (AtEnd(input, r) <==> AtEnd(input, r'))
  {
    if r.marker == 0 { LoadKeeps(input, r, nbits); } else { PadAhead(input, r, nbits); }
  }

  // ----- taking bits -----

  /** The next `n` bits of the endless stream. */
  function Window(s: seq<bool>, n: nat): (w: seq<bool>)
    ensures |w| == n
  {
    seq(n, i requires 0 <= i => At(s, i))
  }

  /** `n` bits of the buffer, highest first. */
  lemma BufferTop(q: nat, c: nat, n: nat, k: nat)
    requires c < Pow2(k)
    ensures 0 <= q * Pow2(k) + c && BitsOf(q * Pow2(k) + c, n + k) == BitsOf(q, n) + BitsOf(q * Pow2(k) + c, k)
  {
    SplitBits(q, c, n, k);
    SplitBits(q, c, 0, k);
  }

  /** PEEK_BITS and DROP_BITS hand out the front of the stream. */
  lemma PeekDrop(input: seq<Byte>, r: Reader, n: int)
    requires r.Ok(input) && 0 <= n <= r.left
    ensures Peek(r, n) == Val(Window(Ahead(input, r), n))
    ensures Drop(r, n).Ok(input) && Past(Ahead(input, r), n, Ahead(input, Drop(r, n)))
    ensures AtEnd(input, r) <==> AtEnd(input, Drop(r, n))
  {
    hide BitsOf, Val;
    var k := r.left - n;
    DivNat(r.buffer, Pow2(k));
    var q := r.buffer / Pow2(k);
    BufferTop(q, r.buffer % Pow2(k), n, k);
    var top := BitsOf(q, n);
    ValBitsOf(q, n);
    assert Window(Ahead(input, r), n) == top;
  }

  datatype Got = Stuck | Got(value: int, r: Reader)

  /** CHECK_BIT_BUFFER, then GET_BITS. */
  function Get(input: seq<Byte>, r: Reader, n: int): (g: Got)
    requires r.Ok(input) && 0 <= n <= MIN_GET_BITS
    ensures g.Got? ==> g.r.Ok(input) && r.pos <= g.r.pos && 0 <= g.value < Pow2(n)
  {
    match Check(input, r, n)
    case Suspended => Stuck
    case Ready(r') => FillKeeps(input, r, n); Got(Peek(r', n), Drop(r', n))
  }

  lemma PastTrans(a: seq<bool>, n: int, b: seq<bool>, m: int, c: seq<bool>)
    requires 0 <= n && 0 <= m && Past(a, n, b) && Past(b, m, c)
    ensures Past(a, n + m, c)
  {
    forall i | 0 <= i ensures At(c, i) == At(a, n + m + i) {
      assert At(c, i) == At(b, m + i) == At(a, n + (m + i));
    }
  }

  lemma WindowPast(a: seq<bool>, b: seq<bool>, n: nat)
    requires Past(a, 0, b)
    ensures Window(a, n) == Window(b, n)
  {
    forall i | 0 <= i < n ensures Window(a, n)[i] == Window(b, n)[i] {
      assert At(b, i) == At(a, 0 + i);
    }
  }

  /** A request gets the next bits of the stream, however full the buffer is. */
  lemma GetKeeps(input: seq<Byte>, r: Reader, n: int)
    requires r.Ok(input) && 0 <= n <= MIN_GET_BITS
    ensures match Get(input, r, n)
            case Stuck => !AtEnd(input, r)
            case Got(v, r') => v == Val(Window(Ahead(input, r), n)) && Past(Ahead(input, r), n, Ahead(input, r'))
                               && (AtEnd(input, r) <==> AtEnd(input, r'))
  {
    hide Ahead, Val, Window, Fill;
    FillKeeps(input, r, n);
    match Check(input, r, n)
    case Suspended =>
    case Ready(r1) =>
      PeekDrop(input, r1, n);
      if r.left < n {
        WindowPast(Ahead(input, r), Ahead(input, r1), n);
        PastTrans(Ahead(input, r), 0, Ahead(input, r1), n, Ahead(input, Drop(r1, n)));
      }
  }

  // ----- running out of data -----

  /** `n` bits taken from `r` leave `r'`: insufficient_data is set exactly when there were fewer. */
  ghost predicate Spent(input: seq<Byte>, r: Reader, n: int, r': Reader)
    requires r.Ok(input) && r'.Ok(input)
  {
    && (r'.starved <==> r.starved || |Ahead(input, r)| < n)
    && (!r'.starved ==> |Ahead(input, r')| == |Ahead(input, r)| - n)
  }

  lemma SpentTrans(input: seq<Byte>, r: Reader, n: int, r1: Reader, m: int, r2: Reader)
    requires r.Ok(input) && r1.Ok(input) && r2.Ok(input) && 0 <= n && 0 <= m
    requires Spent(input, r, n, r1) && Spent(input, r1, m, r2)
    ensures Spent(input, r, n + m, r2)
  {
    hide Ahead;
  }

  /** What a fill does to the flag, the marker and the position. */
  ghost predicate FillEffect(input: seq<Byte>, r: Reader, nbits: int, r': Reader)
    requires r.Ok(input) && r'.Ok(input)
  {
    && (r'.starved <==> r.starved || |Ahead(input, r)| < nbits)
    && (!r'.starved ==> |Ahead(input, r')| == |Ahead(input, r)|)
    && (|Ahead(input, r)| < nbits ==> AtEnd(input, r))
    && (r'.marker == 0 ==> 25 <= r'.left)
    && (r.marker != 0 ==> r'.marker == r.marker && r'.pos == r.pos)
    && (r.marker == 0 && r'.marker != 0 ==> MarkerFrom(input, r.pos) == Marker(r'.marker, r'.pos))
  }

  lemma PadEffect(input: seq<Byte>, r: Reader, nbits: int)
    requires r.Ok(input) && r.marker != 0 && nbits <= MIN_GET_BITS
    ensures Pad(r, nbits).Ok(input) && FillEffect(input, r, nbits, Pad(r, nbits))
  {
    hide BitsOf;
    if nbits > r.left { PadBits(r, nbits); }
  }

  lemma {:induction false} LoadEffect(input: seq<Byte>, r: Reader, nbits: int)
    requires r.Ok(input) && r.marker == 0 && nbits <= MIN_GET_BITS
    ensures match Load(input, r, nbits)
            case Suspended => !AtEnd(input, r) && |Ahead(input, r)| < 25
            case Ready(r') => FillEffect(input, r, nbits, r') && (AtEnd(input, r) || |Ahead(input, r)| >= 25)
    decreases |input| - r.pos
  {
    hide BitsOf;
    if r.left < MIN_GET_BITS {
      match ItemAt(input, r.pos)
      case Short =>
      case Data(c, next) =>
        LoadAhead(input, r, c, next);
        LoadEffect(input, LoadByte(r, c, next), nbits);
      case Marker(c, next) =>
        var r1 := r.(pos := next, marker := c);
        assert Ahead(input, r1) == Ahead(input, r);
        PadEffect(input, r1, nbits);
    }
  }

  /**
   A fill suspends exactly when no marker is ahead and there are fewer than 25 bits; it sets insufficient_data
   exactly when a marker is ahead and there are fewer bits than asked for; a marker it meets is kept.
   */
  lemma FillExact(input: seq<Byte>, r: Reader, nbits: int)
    requires r.Ok(input) && nbits <= MIN_GET_BITS
    ensures Fill(input, r, nbits).Suspended? <==> !AtEnd(input, r) && |Ahead(input, r)| < 25
    ensures Fill(input, r, nbits).Ready? ==> FillEffect(input, r, nbits, Fill(input, r, nbits).r)
  {
    if r.marker == 0 { LoadEffect(input, r, nbits); } else { PadEffect(input, r, nbits); }
  }

  lemma DropSpent(input: seq<Byte>, r: Reader, n: int)
    requires r.Ok(input) && 0 <= n <= r.left
    ensures Drop(r, n).Ok(input) && Spent(input, r, n, Drop(r, n))
  {
  }

  lemma GetSpent(input: seq<Byte>, r: Reader, n: int)
    requires r.Ok(input) && 0 <= n <= MIN_GET_BITS
    ensures match Get(input, r, n)
            case Stuck => !AtEnd(input, r) && |Ahead(input, r)| < 25 && !r.starved
            case Got(_, r') => Spent(input, r, n, r')
  {
    hide Fill, AtEnd, FillEffect;
    FillExact(input, r, n);
    FillKeeps(input, r, n);
    match Check(input, r, n)
    case Suspended => NotStarved(input, r);
    case Ready(r1) =>
      DropSpent(input, r1, n);
      if r.left < n { FillThenDrop(input, r, n, r1); }
  }

  lemma NotStarved(input: seq<Byte>, r: Reader)
    requires r.Ok(input) && !AtEnd(input, r)
    ensures !r.starved
  {
  }

  lemma FillThenDrop(input: seq<Byte>, r: Reader, n: int, r1: Reader)
    requires r.Ok(input) && r1.Ok(input) && 0 <= n <= r1.left && FillEffect(input, r, n, r1)
    ensures Drop(r1, n).Ok(input) && Spent(input, r, n, Drop(r1, n))
  {
    hide AtEnd, MarkerFrom;
    DropSpent(input, r1, n);
  }

  // ----- data that is all there -----

  /** The bits `w` are next, and they are real. */
  ghost predicate Feeds(input: seq<Byte>, r: Reader, w: seq<bool>) {
    r.Ok(input) && !r.starved && w <= Ahead(input, r)
  }

  lemma PastIs(a: seq<bool>, n: int, b: seq<bool>)
    requires 0 <= n <= |a| && |b| == |a| - n && Past(a, n, b)
    ensures b == a[n..]
  {
    forall i | 0 <= i < |b| ensures b[i] == a[n + i] {
      assert At(b, i) == At(a, n + i);
    }
  }

  /** The bits `w` have been taken from `r` and `rest` is next. */
  ghost predicate Moved(input: seq<Byte>, r: Reader, w: seq<bool>, rest: seq<bool>, r': Reader) {
    && Feeds(input, r, w + rest) && Feeds(input, r', rest) && Ahead(input, r') == Ahead(input, r)[|w|..]
    && (AtEnd(input, r) <==> AtEnd(input, r'))
  }

  /** Reading on stops for more data within the next `n` bits. */
  ghost predicate Stalls(input: seq<Byte>, r: Reader, n: int) {
    r.Ok(input) && !AtEnd(input, r) && |Ahead(input, r)| < n + 25
  }

  lemma MovedTrans(input: seq<Byte>, r: Reader, a: seq<bool>, b: seq<bool>, rest: seq<bool>, r1: Reader, r2: Reader)
    requires Moved(input, r, a, b + rest, r1) && Moved(input, r1, b, rest, r2)
    ensures Moved(input, r, a + b, rest, r2)
  {
    hide Ahead, AtEnd;
    assert (a + b) + rest == a + (b + rest);
  }

  lemma MovedNone(input: seq<Byte>, r: Reader, rest: seq<bool>)
    requires Feeds(input, r, rest)
    ensures Moved(input, r, [], rest, r)
  {
    hide Ahead, AtEnd;
    assert [] + rest == rest;
  }

  lemma StallsLater(input: seq<Byte>, r: Reader, a: seq<bool>, rest: seq<bool>, r1: Reader, n: int)
    requires Moved(input, r, a, rest, r1) && Stalls(input, r1, n)
    ensures Stalls(input, r, |a| + n)
  {
    hide Ahead, AtEnd;
  }

  lemma StallsMore(input: seq<Byte>, r: Reader, n: int, m: int)
    requires Stalls(input, r, n) && n <= m
    ensures Stalls(input, r, m)
  {
  }

  lemma StallsEnd(input: seq<Byte>, r: Reader, n: int)
    requires Stalls(input, r, n)
    ensures !AtEnd(input, r)
  {
  }

  lemma MovedOk(input: seq<Byte>, r: Reader, w: seq<bool>, more: seq<bool>, r': Reader)
    requires Moved(input, r, w, more, r')
    ensures r'.Ok(input) && Feeds(input, r', more)
  {
  }

  lemma MovedEnd(input: seq<Byte>, r: Reader, w: seq<bool>, more: seq<bool>, r': Reader)
    requires Moved(input, r, w, more, r')
    ensures AtEnd(input, r) <==> AtEnd(input, r')
  {
  }

  lemma FeedsOn(input: seq<Byte>, r: Reader, w: seq<bool>, rest: seq<bool>, r': Reader)
    requires Feeds(input, r, w + rest) && r'.Ok(input) && Spent(input, r, |w|, r')
    requires Past(Ahead(input, r), |w|, Ahead(input, r')) && (AtEnd(input, r) <==> AtEnd(input, r'))
    ensures Moved(input, r, w, rest, r')
  {
    hide Ahead, AtEnd;
    PastIs(Ahead(input, r), |w|, Ahead(input, r'));
    var a := Ahead(input, r);
    assert a[..|w + rest|] == w + rest;
    assert a[|w|..][..|rest|] == rest;
  }

  /** Bits that are next are handed out, unless the reader stops for more data. */
  lemma GetFeeds(input: seq<Byte>, r: Reader, w: seq<bool>, rest: seq<bool>)
    requires Feeds(input, r, w + rest) && |w| <= MIN_GET_BITS
    ensures Get(input, r, |w|).Stuck? ==> Stalls(input, r, 0)
    ensures Get(input, r, |w|).Got? ==>
              Get(input, r, |w|).value == Val(w) && Moved(input, r, w, rest, Get(input, r, |w|).r)
  {
    hide Get, Ahead, AtEnd, Val;
    GetKeeps(input, r, |w|);
    GetSpent(input, r, |w|);
    match Get(input, r, |w|)
    case Stuck =>
    case Got(v, r') =>
      assert Window(Ahead(input, r), |w|) == w by { WindowIs(Ahead(input, r), w, rest); }
      FeedsOn(input, r, w, rest, r');
  }

  lemma WindowIs(a: seq<bool>, w: seq<bool>, rest: seq<bool>)
    requires w + rest <= a
    ensures Window(a, |w|) == w
  {
    forall i | 0 <= i < |w| ensures Window(a, |w|)[i] == w[i] {
      assert a[i] == (w + rest)[i];
    }
  }

  // ----- a run of requests -----

  datatype Served = Waiting | Served(bits: seq<bool>, r: Reader)

  function Serve(input: seq<Byte>, r: Reader, requests: seq<int>): (s: Served)
    requires r.Ok(input) && forall i :: 0 <= i < |requests| ==> 0 <= requests[i] <= MIN_GET_BITS
    ensures s.Served? ==> s.r.Ok(input)
    decreases |requests|
  {
    if requests == [] then Served([], r)
    else
      match Get(input, r, requests[0])
      case Stuck => Waiting
      case Got(v, r') =>
        match Serve(input, r', requests[1..])
        case Waiting => Waiting
        case Served(bits, last) => Served(BitsOf(v, requests[0]) + bits, last)
  }

  /** Whatever the sizes of the requests, together they get the stream bit by bit. */
  lemma {:induction false} ServeStream(input: seq<Byte>, r: Reader, requests: seq<int>)
    requires r.Ok(input) && forall i :: 0 <= i < |requests| ==> 0 <= requests[i] <= MIN_GET_BITS
    ensures match Serve(input, r, requests)
            case Waiting => !AtEnd(input, r)
            case Served(bits, last) =>
              && bits == Window(Ahead(input, r), |bits|)
              && Past(Ahead(input, r), |bits|, Ahead(input, last))
    decreases |requests|
  {
    hide Ahead, Val, Get, BitsOf;
    if requests != [] {
      var n := requests[0];
      GetKeeps(input, r, n);
      match Get(input, r, n)
      case Stuck =>
      case Got(v, r') =>
        ServeStream(input, r', requests[1..]);
        var w := Window(Ahead(input, r), n);
        BitsOfVal(w);
        match Serve(input, r', requests[1..])
        case Waiting =>
        case Served(bits, last) =>
          PastTrans(Ahead(input, r), n, Ahead(input, r'), |bits|, Ahead(input, last));
          WindowJoin(Ahead(input, r), n, Ahead(input, r'), |bits|);
    }
  }

  lemma WindowJoin(a: seq<bool>, n: nat, b: seq<bool>, m: nat)
    requires Past(a, n, b)
    ensures Window(a, n) + Window(b, m) == Window(a, n + m)
  {
    forall i | 0 <= i < m ensures Window(b, m)[i] == Window(a, n + m)[n + i] {
      assert At(b, i) == At(a, n + i);
    }
  }

  /** From the start of a segment the requests get its data bits, then zeros. */
  lemma SegmentBits(input: seq<Byte>, pos: int, buffer: int, requests: seq<int>)
    requires 0 <= pos <= |input| && 0 <= buffer < WORD && forall i :: 0 <= i < |requests| ==>
            0 <= requests[i] <= MIN_GET_BITS
    ensures var s := Serve(input, Reader(buffer, 0, pos, 0, false), requests);
            s.Served? ==> 0 <= s.r.left <= 32 && forall i :: 0 <= i < |s.bits| ==>
                            s.bits[i] == (i < |DataBits(input, pos)| && DataBits(input, pos)[i])
  {
    var r := Reader(buffer, 0, pos, 0, false);
    ServeStream(input, r, requests);
    assert BitsOf(buffer, 0) + DataBits(input, pos) == DataBits(input, pos);
  }

  // ----- more input changes nothing that was read -----

  lemma {:induction false} LoadMore(input: seq<Byte>, more: seq<Byte>, r: Reader, nbits: int)
    requires r.Ok(input) && r.marker == 0
    ensures Load(input, r, nbits).Ready? ==> Load(input + more, r, nbits) == Load(input, r, nbits)
    decreases |input| - r.pos
  {
    if r.left < MIN_GET_BITS {
      ItemMore(input, more, r.pos);
      match ItemAt(input, r.pos)
      case Short =>
      case Data(c, next) => LoadMore(input, more, LoadByte(r, c, next), nbits);
      case Marker(c, next) =>
    }
  }

  lemma FillMore(input: seq<Byte>, more: seq<Byte>, r: Reader, nbits: int)
    requires r.Ok(input)
    ensures Fill(input, r, nbits).Ready? ==> Fill(input + more, r, nbits) == Fill(input, r, nbits)
  {
    if r.marker == 0 { LoadMore(input, more, r, nbits); }
  }

  lemma GetMore(input: seq<Byte>, more: seq<Byte>, r: Reader, n: int)
    requires r.Ok(input) && 0 <= n <= MIN_GET_BITS
    ensures Get(input, r, n).Got? ==> Get(input + more, r, n) == Get(input, r, n)
  {
    FillMore(input, more, r, n);
  }

  // ----- the loops -----

  /** The part of jpeg_fill_bit_buffer that reads one data byte or marker. */
  method ReadItem(input: seq<Byte>, pos: int) returns (i: Item)
    requires 0 <= pos <= |input|
    ensures i == ItemAt(input, pos)
  {
    var next := pos;
    if next == |input| {
      return Short;
    }
    var c := input[next];
    next := next + 1;
    if c != 0xFF {
      return Data(c, next);
    }
    while c == 0xFF
      invariant pos < next <= |input| && (c == 0xFF ==> AfterFF(input, pos + 1) == AfterFF(input, next))
      invariant c != 0xFF ==> AfterFF(input, pos + 1) == if c == 0 then Data(0xFF, next) else Marker(c, next)
      decreases |input| - next, if c == 0xFF then 1 else 0
    {
      if next == |input| {
        return Short;
      }
      c := input[next];
      next := next + 1;
    }
    return if c == 0 then Data(0xFF, next) else Marker(c, next);
  }

  method FillBitBuffer(input: seq<Byte>, r: Reader, nbits: int) returns (f: Filled)
    requires r.Ok(input)
    ensures f == Fill(input, r, nbits)
  {
    var buffer, left, pos, marker := r.buffer, r.left, r.pos, r.marker;
    if marker == 0 {
      while left < MIN_GET_BITS
        invariant 0 <= pos <= |input| && Reader(buffer, left, pos, 0, r.starved).Ok(input)
        invariant Load(input, r, nbits) == Load(input, Reader(buffer, left, pos, 0, r.starved), nbits)
        decreases |input| - pos
      {
        var i := ReadItem(input, pos);
        match i {
          case Short => return Suspended;
          case Data(c, next) =>
            buffer := (buffer * 256 + c) % WORD;
            left := left + 8;
            pos := next;
          case Marker(c, next) =>
            pos := next;
            marker := c;
            break;
        }
      }
      if marker == 0 {
        return Ready(Reader(buffer, left, pos, marker, r.starved));
      }
    }
    if nbits > left && 0 <= left <= MIN_GET_BITS {
      return Ready(Reader(buffer * Pow2(MIN_GET_BITS - left) % WORD, MIN_GET_BITS, pos, marker, true));
    }
    return Ready(Reader(buffer, left, pos, marker, r.starved));
  }
}
