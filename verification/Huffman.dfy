/**
 Huffman tables of components/gui/GUI/JPEG/jdhuff.c: the codes a table defines, the bit-serial decoder
 of Figure F.16 of ITU-T T.81, and the lookahead table that shortcuts it.
 */
module Huffman {
  import opened Arith
  import opened Bits

  /** A table as a DHT marker gives it: bits[l] codes of length l, and the symbols in code order. */
  datatype Table = Table(bits: seq<int>, huffval: seq<int>) {
    predicate Typed() {
      && Counts(bits)
      && |huffval| == 256 && forall p :: 0 <= p < 256 ==> 0 <= huffval[p] <= 255
    }
  }

  predicate Counts(b: seq<int>) {
    |b| == 17 && forall l :: 1 <= l <= 16 ==> 0 <= b[l] <= 255
  }

  // ----- the code -----

  /** The number of symbols with codes shorter than `l`. */
  function Index(b: seq<int>, l: int): (n: int)
    requires Counts(b) && 1 <= l <= 17
    ensures n >= 0
    decreases l
  {
    if l == 1 then 0 else Index(b, l - 1) + b[l - 1]
  }

  /** The first code of length `l`. */
  function First(b: seq<int>, l: int): (n: int)
    requires Counts(b) && 1 <= l <= 17
    ensures n >= 0
    decreases l
  {
    if l == 1 then 0 else 2 * (First(b, l - 1) + b[l - 1])
  }

  /** At most 256 symbols, and at every length the codes leave the string of all ones unused. */
  predicate Legal(b: seq<int>)
    requires Counts(b)
  {
    Index(b, 17) <= 256 && forall l :: 1 <= l <= 16 ==> Room(b, l)
  }

  predicate Room(b: seq<int>, l: int)
    requires Counts(b) && 1 <= l <= 16
  {
    First(b, l) + b[l] < Pow2(l)
  }

  /** `l` is the code length of symbol number `p`. */
  predicate HasLength(b: seq<int>, p: int, l: int)
    requires Counts(b)
  {
    1 <= l <= 16 && Index(b, l) <= p < Index(b, l + 1)
  }

  function Length(b: seq<int>, p: int): (l: int)
    requires Counts(b) && 0 <= p < Index(b, 17)
    ensures HasLength(b, p, l)
  {
    LengthFrom(b, p, 1)
  }

  function LengthFrom(b: seq<int>, p: int, l: int): (r: int)
    requires Counts(b) && 1 <= l <= 16 && Index(b, l) <= p < Index(b, 17)
    ensures HasLength(b, p, r)
    decreases 17 - l
  {
    if p < Index(b, l + 1) then l else LengthFrom(b, p, l + 1)
  }

  lemma {:induction false} IndexGrows(b: seq<int>, l: int, m: int)
    requires Counts(b) && 1 <= l <= m <= 17
    ensures Index(b, l) <= Index(b, m)
  {
    if l < m { IndexGrows(b, l, m - 1); }
  }

  lemma LengthUnique(b: seq<int>, p: int, l: int, m: int)
    requires Counts(b) && HasLength(b, p, l) && HasLength(b, p, m)
    ensures l == m && p < Index(b, 17)
  {
    if l < m { IndexGrows(b, l + 1, m); } else if m < l { IndexGrows(b, m + 1, l); }
    IndexGrows(b, l + 1, 17);
  }

  /** The code of symbol number `p`. */
  function Code(b: seq<int>, p: int): int
    requires Counts(b) && 0 <= p < Index(b, 17)
  {
    var l := Length(b, p);
    First(b, l) + p - Index(b, l)
  }

  lemma CodeRange(b: seq<int>, p: int)
    requires Counts(b) && Legal(b) && 0 <= p < Index(b, 17)
    ensures var l := Length(b, p); First(b, l) <= Code(b, p) < First(b, l) + b[l] < Pow2(l)
  {
    assert Room(b, Length(b, p));
  }

  // ----- the code of Annex C -----

  /** The symbols of one length follow each other, as many as the table says. */
  lemma LengthIff(b: seq<int>, p: int, l: int)
    requires Counts(b) && 0 <= p < Index(b, 17) && 1 <= l <= 16
    ensures Length(b, p) == l <==> Index(b, l) <= p < Index(b, l) + b[l]
    ensures Index(b, 1) == 0
  {
    FirstStep(b, l);
    if HasLength(b, p, l) { LengthUnique(b, p, l, Length(b, p)); }
  }

  /** The next code is one more, with zeros behind it when it is longer. */
  lemma NextCode(b: seq<int>, p: int)
    requires Counts(b) && 0 <= p && p + 1 < Index(b, 17)
    ensures var l, m := Length(b, p), Length(b, p + 1); l <= m && Code(b, p + 1) == (Code(b, p) + 1) * Pow2(m - l)
  {
    hide First, Index, Length, Pow2;
    var l, m := Length(b, p), Length(b, p + 1);
    FirstStep(b, l);
    if m < l { IndexGrows(b, m + 1, l); }
    Pow2Step(0);
    if l < m {
      IndexGrows(b, l + 1, m);
      FirstAcross(b, l, m);
    }
  }

  lemma {:induction false} FirstAcross(b: seq<int>, l: int, m: int)
    requires Counts(b) && 1 <= l < m <= 17 && Index(b, l + 1) == Index(b, m)
    ensures First(b, m) == (First(b, l) + b[l]) * Pow2(m - l)
  {
    hide First, Index, Pow2;
    FirstStep(b, m - 1);
    Pow2Step(m - 1 - l);
    if l + 1 < m {
      IndexGrows(b, l + 1, m - 1);
      FirstAcross(b, l, m - 1);
      Twice(First(b, l) + b[l], Pow2(m - 1 - l));
    }
  }

  /** How much of the 16-bit words the codes of at most `l` bits take up. */
  function Taken(b: seq<int>, l: int): int
    requires Counts(b) && 0 <= l <= 16
  {
    if l == 0 then 0 else Taken(b, l - 1) + b[l] * Pow2(16 - l)
  }

  lemma {:induction false} TakenIs(b: seq<int>, l: int)
    requires Counts(b) && 1 <= l <= 16
    ensures Taken(b, l) == (First(b, l) + b[l]) * Pow2(16 - l)
  {
    hide First, Pow2;
    if l == 1 {
      assert Taken(b, 0) == 0 && First(b, 1) == 0 by { FirstOne(b); }
    } else {
      TakenIs(b, l - 1);
      FirstStep(b, l - 1);
      Pow2Step(16 - l);
      Halves(First(b, l - 1) + b[l - 1], Pow2(16 - l), b[l]);
    }
  }

  lemma FirstOne(b: seq<int>)
    requires Counts(b)
    ensures First(b, 1) == 0
  {
  }

  lemma Halves(x: int, k: int, n: int)
    ensures x * (2 * k) + n * k == (2 * x + n) * k
  {
  }

  lemma {:induction false} TakenGrows(b: seq<int>, l: int, m: int)
    requires Counts(b) && 0 <= l <= m <= 16
    ensures Taken(b, l) <= Taken(b, m)
  {
    if l < m {
      TakenGrows(b, l, m - 1);
      assert b[m] * Pow2(16 - m) >= 0;
    }
  }

  /** A table is a code that leaves a word free exactly when its counts do not use up the 16-bit words. */
  lemma LegalIff(b: seq<int>)
    requires Counts(b)
    ensures Legal(b) <==> Index(b, 17) <= 256 && Taken(b, 16) < 65536
  {
    hide First, Index, Pow2, Taken;
    assert Pow2(16) == 65536 && Pow2(0) == 1 by { Pow2Sixteen(); }
    forall l | 1 <= l <= 16 ensures Room(b, l) <==> Taken(b, l) < 65536 {
      RoomIff(b, l);
    }
    forall l | 1 <= l <= 16 ensures Taken(b, l) <= Taken(b, 16) {
      TakenGrows(b, l, 16);
    }
    assert Legal(b) ==> Room(b, 16);
  }

  lemma RoomIff(b: seq<int>, l: int)
    requires Counts(b) && 1 <= l <= 16
    ensures Room(b, l) <==> Taken(b, l) < Pow2(16)
  {
    hide First, Pow2, Taken;
    TakenIs(b, l);
    Pow2Add(l, 16 - l);
    var x, k := First(b, l) + b[l], Pow2(16 - l);
    if x < Pow2(l) { Mono(x + 1, Pow2(l), k); } else { Mono(Pow2(l), x, k); }
  }

  lemma Pow2Sixteen()
    ensures Pow2(16) == 65536 && Pow2(0) == 1
  {
    Pow2Add(8, 8);
    assert Pow2(8) == 256;
  }

  // ----- the codes as bits -----

  function CodeBits(b: seq<int>, p: int): (s: seq<bool>)
    requires Counts(b) && Legal(b) && 0 <= p < Index(b, 17)
    ensures |s| == Length(b, p)
  {
    BitsOf(Code(b, p), Length(b, p))
  }

  lemma CodeVal(b: seq<int>, p: int)
    requires Counts(b) && Legal(b) && 0 <= p < Index(b, 17)
    ensures Val(CodeBits(b, p)) == Code(b, p)
  {
    CodeRange(b, p);
    ValBitsOf(Code(b, p), Length(b, p));
    DivMod(Code(b, p), 0, Code(b, p), Pow2(Length(b, p)));
  }

  lemma FirstStep(b: seq<int>, l: int)
    requires Counts(b) && 1 <= l <= 16
    ensures First(b, l + 1) == 2 * (First(b, l) + b[l]) && Index(b, l + 1) == Index(b, l) + b[l]
  {
  }

  /** Longer codes start past every shorter one. */
  lemma {:induction false} FirstGrows(b: seq<int>, l: int, m: int)
    requires Counts(b) && 1 <= l < m <= 17
    ensures First(b, m) >= Pow2(m - l) * (First(b, l) + b[l])
  {
    hide First, Pow2;
    FirstStep(b, m - 1);
    if l + 1 < m {
      FirstGrows(b, l, m - 1);
      assert Pow2(m - l) == 2 * Pow2(m - 1 - l) by { Pow2Step(m - 1 - l); }
      Twice(Pow2(m - 1 - l), First(b, l) + b[l]);
    } else {
      assert Pow2(1) == 2 by { Pow2Step(0); }
    }
  }

  lemma AllOnes(n: nat)
    ensures Val(seq(n, i => true)) == Pow2(n) - 1
  {
    if n > 0 {
      AllOnes(n - 1);
      assert seq(n, i => true) == seq(n - 1, i => true) + [true];
      ValPush(seq(n - 1, i => true), true);
    }
  }

  /** No code is the string of all ones. */
  lemma NotAllOnes(b: seq<int>, p: int)
    requires Counts(b) && Legal(b) && 0 <= p < Index(b, 17)
    ensures CodeBits(b, p) != seq(Length(b, p), i => true)
  {
    CodeVal(b, p);
    CodeRange(b, p);
    AllOnes(Length(b, p));
  }

  /** Any number at or past the end of the codes of length `l` still is so after more bits are appended. */
  lemma Beyond(code: int, x: int, k: nat)
    requires code >= Pow2(k) * x
    ensures code / Pow2(k) >= x
  {
    var q, r := code / Pow2(k), code % Pow2(k);
    assert code == q * Pow2(k) + r;
    if q < x { Mono(q + 1, x, Pow2(k)); }
  }

  /** No code is a prefix of another one. */
  lemma PrefixFree(b: seq<int>, p: int, q: int)
    requires Counts(b) && Legal(b) && 0 <= p < Index(b, 17) && 0 <= q < Index(b, 17) && p != q
    ensures !(CodeBits(b, p) <= CodeBits(b, q))
  {
    hide Index, First, Length, BitsOf, Val, Legal;
    var l, m := Length(b, p), Length(b, q);
    CodeVal(b, p);
    CodeVal(b, q);
    if l == m {
      PrefixSame(CodeBits(b, p), CodeBits(b, q));
    } else if l < m {
      CodeRange(b, p);
      CodeRange(b, q);
      FirstGrows(b, l, m);
      Beyond(Code(b, q), First(b, l) + b[l], m - l);
      PrefixIff(CodeBits(b, p), CodeBits(b, q));
    }
  }

  // ----- the bit-serial decoder -----

  /** maxcode[l] */
  function MaxCode(b: seq<int>, l: int): int
    requires Counts(b) && 1 <= l <= 16
  {
    if b[l] > 0 then First(b, l) + b[l] - 1 else -1
  }

  /** A symbol and the number of bits its code takes. */
  datatype Symbol = Symbol(value: int, length: int)

  /** Figure F.16 on the next 17 bits of the data, `l` of them taken. */
  function Serial(t: Table, w: seq<bool>, l: int): (s: Symbol)
    requires t.Typed() && Legal(t.bits) && |w| == 17 && 1 <= l <= 17 && Val(w[..l]) >= First(t.bits, l)
    ensures l <= s.length <= 17 && 0 <= s.value <= 255
    decreases 17 - l
  {
    if l > 16 then Symbol(0, 17)
    else
      var code := Val(w[..l]);
      if code <= MaxCode(t.bits, l) then
        IndexGrows(t.bits, l + 1, 17);
        Symbol(t.huffval[code + Index(t.bits, l) - First(t.bits, l)], l)
      else
        TakeOneMore(w, l);
        Serial(t, w, l + 1)
  }

  lemma TakeOneMore(w: seq<bool>, l: int)
    requires 0 <= l < |w|
    ensures Val(w[..l + 1]) == 2 * Val(w[..l]) + Bit(w[l])
  {
    assert w[..l + 1] == w[..l] + [w[l]];
    ValPush(w[..l], w[l]);
  }

  /** The next symbol: nothing taken yet. */
  function Next(t: Table, w: seq<bool>): (s: Symbol)
    requires t.Typed() && Legal(t.bits) && |w| == 17
    ensures 1 <= s.length <= 17 && 0 <= s.value <= 255
  {
    Serial(t, w, 1)
  }

  /** At a length shorter than its code, a code is past the codes of that length. */
  lemma CodePast(b: seq<int>, p: int, w: seq<bool>, l: int)
    requires Counts(b) && Legal(b) && 0 <= p < Index(b, 17) && CodeBits(b, p) <= w && 1 <= l < Length(b, p)
    ensures Val(w[..l]) >= First(b, l) + b[l]
  {
    hide Index, First, Length, BitsOf, Val, Legal, CodeBits;
    var s, m := CodeBits(b, p), Length(b, p);
    CodeVal(b, p);
    CodeRange(b, p);
    FirstGrows(b, l, m);
    Beyond(Code(b, p), First(b, l) + b[l], m - l);
    ValPrefix(s, l);
    assert s[..l] == w[..l];
  }

  lemma {:induction false} SerialFinds(t: Table, w: seq<bool>, p: int, l: int)
    requires t.Typed() && Legal(t.bits) && |w| == 17 && 0 <= p < Index(t.bits, 17) && CodeBits(t.bits, p) <= w
    requires 1 <= l <= Length(t.bits, p) && Val(w[..l]) >= First(t.bits, l)
    ensures Serial(t, w, l) == Symbol(t.huffval[p], Length(t.bits, p))
    decreases 17 - l
  {
    hide Index, First, Length, BitsOf, Val, Legal, CodeBits;
    var b := t.bits;
    if l < Length(b, p) {
      CodePast(b, p, w, l);
      TakeOneMore(w, l);
      assert First(b, l + 1) == 2 * (First(b, l) + b[l]) by { FirstStep(b, l); }
      SerialFinds(t, w, p, l + 1);
    } else {
      CodeVal(b, p);
      CodeRange(b, p);
      assert w[..l] == CodeBits(b, p);
    }
  }

  /** Decoding inverts coding: a code at the front of the data yields its symbol and is all that is taken. */
  lemma NextInverts(t: Table, w: seq<bool>, p: int)
    requires t.Typed() && Legal(t.bits) && |w| == 17 && 0 <= p < Index(t.bits, 17) && CodeBits(t.bits, p) <= w
    ensures Next(t, w) == Symbol(t.huffval[p], Length(t.bits, p))
  {
    SerialFinds(t, w, p, 1);
  }

  /** A symbol found has its code at the front of the data. */
  lemma {:induction false} SerialSound(t: Table, w: seq<bool>, l: int) returns (p: int)
    requires t.Typed() && Legal(t.bits) && |w| == 17 && 1 <= l <= 17 && Val(w[..l]) >= First(t.bits, l)
    ensures Serial(t, w, l).length <= 16 ==>
              0 <= p < Index(t.bits, 17) && CodeBits(t.bits, p) <= w && Length(t.bits, p) == Serial(t, w, l).length
    ensures Serial(t, w, l).length == 17 ==> Serial(t, w, l).value == 0
    decreases 17 - l
  {
    hide BitsOf, Val, Legal, CodeBits;
    var b := t.bits;
    p := 0;
    if l <= 16 {
      var code := Val(w[..l]);
      if code <= MaxCode(b, l) {
        p := code + Index(b, l) - First(b, l);
        IndexGrows(b, l + 1, 17);
        LengthUnique(b, p, l, Length(b, p));
        CodeVal(b, p);
        ValInjective(CodeBits(b, p), w[..l]);
      } else {
        TakeOneMore(w, l);
        p := SerialSound(t, w, l + 1);
      }
    }
  }

  /** Data that starts with no code stops at length 17 with symbol 0. */
  lemma NextFails(t: Table, w: seq<bool>)
    requires t.Typed() && Legal(t.bits) && |w| == 17
    requires forall p :: 0 <= p < Index(t.bits, 17) ==> !(CodeBits(t.bits, p) <= w)
    ensures Next(t, w) == Symbol(0, 17)
  {
    var p := SerialSound(t, w, 1);
  }

  // ----- the lookahead table -----

  /** Symbol `p` has a code of at most 8 bits that starts the byte `v`. */
  predicate Leads(b: seq<int>, p: int, v: int)
    requires Counts(b) && 0 <= p < Index(b, 17)
  {
    Length(b, p) <= 8 && v / Pow2(8 - Length(b, p)) == Code(b, p)
  }

  /** look_nbits and look_sym: an entry is filled exactly when a short code leads to it. */
  ghost predicate LookOk(t: Table, nbits: seq<int>, sym: seq<int>)
    requires Counts(t.bits)
  {
    && |nbits| == 256 && |sym| == 256 && |t.huffval| == 256 && Index(t.bits, 17) <= 256
    && (forall p, v :: 0 <= p < Index(t.bits, 17) && 0 <= v < 256 && Leads(t.bits, p, v) ==>
          nbits[v] == Length(t.bits, p) && sym[v] == t.huffval[p])
    && (forall v :: 0 <= v < 256 && nbits[v] != 0 ==> exists p :: 0 <= p < Index(t.bits, 17) && Leads(t.bits, p, v))
  }

  lemma LeadsIff(b: seq<int>, p: int, w: seq<bool>)
    requires Counts(b) && Legal(b) && 0 <= p < Index(b, 17) && |w| >= 8
    ensures Leads(b, p, Val(w[..8])) <==> Length(b, p) <= 8 && CodeBits(b, p) <= w
  {
    hide Index, First, Length, BitsOf, Val, Legal, CodeBits;
    if Length(b, p) <= 8 {
      CodeVal(b, p);
      PrefixIff(CodeBits(b, p), w[..8]);
      if CodeBits(b, p) <= w { assert CodeBits(b, p) <= w[..8]; }
    }
  }

  /** When no code of fewer than `l` bits is at the front, the decoder gets to length `l`. */
  lemma {:induction false} SerialSkips(t: Table, w: seq<bool>, l: int)
    requires t.Typed() && Legal(t.bits) && |w| == 17 && 1 <= l <= 17
    requires forall p :: 0 <= p < Index(t.bits, 17) && Length(t.bits, p) < l ==> !(CodeBits(t.bits, p) <= w)
    ensures Val(w[..l]) >= First(t.bits, l) && Next(t, w) == Serial(t, w, l)
  {
    if l > 1 {
      SerialSkips(t, w, l - 1);
      var p := SerialSound(t, w, l - 1);
      assert Serial(t, w, l - 1).length > l - 1;
      TakeOneMore(w, l - 1);
    }
  }

  /** The table either has the bit-serial answer or says that at least 9 bits are needed. */
  lemma LookAgrees(t: Table, nbits: seq<int>, sym: seq<int>, w: seq<bool>)
    requires t.Typed() && Legal(t.bits) && LookOk(t, nbits, sym) && |w| == 17
    ensures 0 <= Val(w[..8]) < 256
    ensures var v := Val(w[..8]);
            if nbits[v] != 0 then Next(t, w) == Symbol(sym[v], nbits[v])
            else Val(w[..9]) >= First(t.bits, 9) && Next(t, w) == Serial(t, w, 9)
  {
    hide Index, First, Length, BitsOf, Val, Legal, CodeBits, Serial, Next;
    assert Pow2(8) == 256;
    var v := Val(w[..8]);
    if nbits[v] != 0 {
      var p :| 0 <= p < Index(t.bits, 17) && Leads(t.bits, p, v);
      LeadsIff(t.bits, p, w);
      NextInverts(t, w, p);
    } else {
      forall p | 0 <= p < Index(t.bits, 17) && Length(t.bits, p) < 9 ensures !(CodeBits(t.bits, p) <= w) {
        LeadsIff(t.bits, p, w);
      }
      SerialSkips(t, w, 9);
    }
  }
}
