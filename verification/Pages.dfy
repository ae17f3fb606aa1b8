/**
 The page allocator of kernel/slab.cpp: an address-sorted list of runs of free pages.  A page is
 named by its number (address / CONFIG_MM_PAGE_SIZE); page number 0 is the null pointer.
 */
module Pages {

  /** One element of page_list: `count` free pages starting at `page`. */
  datatype Run = Run(page: int, count: int)

  /** The pages from `page` up to, not including, `page + count`. */
  ghost function Span(page: int, count: int): (s: set<int>)
    ensures forall p :: p in s <==> page <= p < page + count
    decreases if count < 0 then 0 else count
  {
    if count <= 0 then {} else {page} + Span(page + 1, count - 1)
  }

  /** The free pages of a list. */
  ghost function Free(l: seq<Run>): set<int> {
    if l == [] then {} else Span(l[0].page, l[0].count) + Free(l[1..])
  }

  /** Sorted, disjoint and fully coalesced: between two runs there is at least one used page. */
  predicate Canonical(l: seq<Run>) {
    && (forall i :: 0 <= i < |l| ==> l[i].count > 0)
    && (forall i, j :: 0 <= i < j < |l| ==> l[i].page + l[i].count < l[j].page)
  }

  lemma CanonicalTail(l: seq<Run>)
    requires Canonical(l) && l != []
    ensures Canonical(l[1..])
  {
  }

  lemma CanonicalHead(l: seq<Run>)
    requires Canonical(l) && l != []
    ensures l[0].count > 0 && Canonical(l[1..]) && (|l| > 1 ==> l[1].count > 0 && l[0].page + l[0].count < l[1].page)
  {
  }

  lemma FreeCons(r: Run, l: seq<Run>)
    ensures Free([r] + l) == Span(r.page, r.count) + Free(l)
  {
    assert ([r] + l)[1..] == l;
  }

  lemma CanonicalCons(r: Run, l: seq<Run>)
    requires Canonical(l) && r.count > 0 && (l != [] ==> r.page + r.count < l[0].page)
    ensures Canonical([r] + l)
  {
    var s := [r] + l;
    forall i, j | 0 <= i < j < |s| ensures s[i].page + s[i].count < s[j].page {
      assert s[j] == l[j - 1];
      if i > 0 { assert s[i] == l[i - 1]; }
    }
  }

  /** Every free page of a canonical list lies in one of its runs. */
  lemma {:induction false} FreeBounds(l: seq<Run>)
    requires Canonical(l)
    ensures l != [] ==> l[0].page in Free(l)
    ensures forall p :: p in Free(l) ==> l != [] && l[0].page <= p
  {
    hide Span;
    if l != [] {
      CanonicalTail(l);
      FreeBounds(l[1..]);
    }
  }

  lemma FreeTail(l: seq<Run>)
    requires Canonical(l) && l != []
    ensures Free(l) == Span(l[0].page, l[0].count) + Free(l[1..])
    ensures forall p :: p in Free(l[1..]) ==> l[0].page + l[0].count < p
    ensures Span(l[0].page, l[0].count) !! Free(l[1..])
  {
    hide Span;
    CanonicalTail(l);
    FreeBounds(l[1..]);
  }

  /** A set of free pages has exactly one canonical list. */
  lemma {:induction false} CanonicalUnique(a: seq<Run>, b: seq<Run>)
    requires Canonical(a) && Canonical(b) && Free(a) == Free(b)
    ensures a == b
  {
    hide Span;
    FreeBounds(a);
    FreeBounds(b);
    if a == [] || b == [] {
    } else {
      FreeTail(a);
      FreeTail(b);
      assert a[0].page == b[0].page;
      var ea, eb := a[0].page + a[0].count, b[0].page + b[0].count;
      assert ea !in Free(a) && eb !in Free(b);
      assert ea < eb ==> ea in Free(b);
      assert eb < ea ==> eb in Free(a);
      assert Free(a[1..]) == Free(b[1..]) by {
        assert Free(a[1..]) == Free(a) - Span(a[0].page, a[0].count);
        assert Free(b[1..]) == Free(b) - Span(b[0].page, b[0].count);
      }
      CanonicalTail(a);
      CanonicalTail(b);
      CanonicalUnique(a[1..], b[1..]);
      assert a == [a[0]] + a[1..] && b == [b[0]] + b[1..];
    }
  }

  // ----- page_alloc -----

  datatype Taken = NoPages | Taken(page: int, rest: seq<Run>)

  /** First fit: the first run that is long enough gives up its first `n` pages. */
  function Take(l: seq<Run>, n: int): (r: Taken)
    requires n > 0
  {
    if l == [] then NoPages
    else if l[0].count > n then Taken(l[0].page, [Run(l[0].page + n, l[0].count - n)] + l[1..])
    else if l[0].count == n then Taken(l[0].page, l[1..])
    else
      match Take(l[1..], n)
      case NoPages => NoPages
      case Taken(p, rest) => Taken(p, [l[0]] + rest)
  }

  /** A run of `n` free pages starting at `p`. */
  ghost predicate Fits(l: seq<Run>, p: int, n: int) {
    Span(p, n) <= Free(l)
  }

  lemma {:induction false} TakeCorrect(l: seq<Run>, n: int)
    requires Canonical(l) && n > 0
    ensures var r := Take(l, n);
            && (r.NoPages? <==> forall p :: !Fits(l, p, n))
            && (r.Taken? ==>
                  && Fits(l, r.page, n) && Canonical(r.rest)
                  && Free(r.rest) == Free(l) - Span(r.page, n)
                  && (forall p :: Fits(l, p, n) ==> r.page <= p)
                  && (r.rest != [] ==> l[0].page <= r.rest[0].page))
  {
    hide Span;
    if l == [] {
      assert forall p :: p in Span(p, n);
    } else {
      FreeTail(l);
      CanonicalTail(l);
      FreeBounds(l);
      assert forall p :: p in Span(p, n);
      if l[0].count > n {
        var r := Run(l[0].page + n, l[0].count - n);
        CanonicalCons(r, l[1..]);
        assert ([r] + l[1..])[1..] == l[1..];
        assert Fits(l, l[0].page, n);
      } else if l[0].count == n {
        assert Fits(l, l[0].page, n);
      } else {
        TakeCorrect(l[1..], n);
        forall p ensures Fits(l, p, n) <==> Fits(l[1..], p, n) {
          FitsTail(l, p, n);
        }
        var r := Take(l[1..], n);
        if r.Taken? {
          CanonicalCons(l[0], r.rest);
          assert ([l[0]] + r.rest)[1..] == r.rest;
        }
      }
    }
  }

  /** Contiguous pages lie in one run, because two runs are never adjacent. */
  lemma FitsTail(l: seq<Run>, p: int, n: int)
    requires Canonical(l) && l != [] && l[0].count < n
    ensures Fits(l, p, n) <==> Fits(l[1..], p, n)
  {
    hide Span;
    FreeTail(l);
    FreeBounds(l);
    if Fits(l, p, n) {
      var e := l[0].page + l[0].count;
      assert e !in Free(l);
      assert p in Span(p, n);
      assert p < e ==> e in Span(p, n);
    }
  }

  // ----- page_free -----

  /** Give the pages from `p` on back: extend the run before, the run after, or both, or start a new run. */
  function Give(l: seq<Run>, p: int, n: int): (r: seq<Run>) {
    if l == [] then [Run(p, n)]
    else
      var b := l[0];
      if b.page + b.count == p then
        if |l| > 1 && b.page + b.count + n == l[1].page
        then [Run(b.page, b.count + n + l[1].count)] + l[2..]
        else [Run(b.page, b.count + n)] + l[1..]
      else if b.page == p + n then [Run(p, b.count + n)] + l[1..]
      else if b.page > p + n then [Run(p, n)] + l
      else [b] + Give(l[1..], p, n)
  }

  lemma {:induction false} GiveCorrect(l: seq<Run>, p: int, n: int)
    requires Canonical(l) && n > 0 && Span(p, n) !! Free(l)
    ensures Canonical(Give(l, p, n)) && Free(Give(l, p, n)) == Free(l) + Span(p, n)
    ensures Give(l, p, n) != []
    ensures Give(l, p, n)[0].page == p || (l != [] && Give(l, p, n)[0].page == l[0].page)
    decreases |l|, 1
  {
    hide Span, Canonical, Free;
    if l == [] {
      FreeCons(Run(p, n), []);
      FreeNone();
      CanonicalNone();
      CanonicalCons(Run(p, n), []);
      assert [Run(p, n)] + [] == [Run(p, n)];
    } else {
      FreeTail(l);
      FreeBounds(l);
      CanonicalHead(l);
      var b := l[0];
      assert p in Span(p, n) && b.page in Span(b.page, b.count);
      if b.page + b.count == p {
        GiveAtEnd(l, p, n);
      } else if b.page == p + n {
        assert |l| > 1 ==> l[1..][0] == l[1];
        CanonicalCons(Run(p, b.count + n), l[1..]);
        FreeCons(Run(p, b.count + n), l[1..]);
        assert Span(p, b.count + n) == Span(p, n) + Span(b.page, b.count);
      } else if b.page > p + n {
        CanonicalCons(Run(p, n), l);
        FreeCons(Run(p, n), l);
      } else {
        GiveLater(l, p, n);
      }
    }
  }

  lemma FreeNone()
    ensures Free([]) == {}
  {
  }

  lemma CanonicalNone()
    ensures Canonical([])
  {
  }

  lemma GiveLater(l: seq<Run>, p: int, n: int)
    requires Canonical(l) && n > 0 && Span(p, n) !! Free(l) && l != []
    requires l[0].page + l[0].count != p && l[0].page < p + n
    ensures Canonical(Give(l, p, n)) && Free(Give(l, p, n)) == Free(l) + Span(p, n) && Give(l, p, n)[0] == l[0]
    decreases |l|, 0
  {
    hide Span, Canonical, Free;
    var b := l[0];
    FreeTail(l);
    CanonicalHead(l);
    var e := b.page + b.count - 1;
    assert e in Free(l) && b.page in Free(l);
    assert b.page + b.count < p by {
      assert p <= b.page ==> b.page in Span(p, n);
      assert b.page <= p <= e ==> p in Span(b.page, b.count) && p in Span(p, n);
    }
    GiveCorrect(l[1..], p, n);
    var r := Give(l[1..], p, n);
    assert |l| > 1 ==> l[1..][0] == l[1];
    CanonicalCons(b, r);
    FreeCons(b, r);
  }

  lemma GiveAtEnd(l: seq<Run>, p: int, n: int)
    requires Canonical(l) && n > 0 && Span(p, n) !! Free(l) && l != [] && l[0].page + l[0].count == p
    ensures Canonical(Give(l, p, n)) && Free(Give(l, p, n)) == Free(l) + Span(p, n)
  {
    hide Span, Canonical, Free;
    var b := l[0];
    FreeTail(l);
    CanonicalHead(l);
    assert Span(b.page, b.count + n) == Span(b.page, b.count) + Span(p, n);
    if |l| > 1 {
      var c := l[1];
      FreeTail(l[1..]);
      CanonicalHead(l[1..]);
      assert l[1..][1..] == l[2..] && l[1..][0] == c && (|l| > 2 ==> l[1..][1] == l[2] == l[2..][0]);
      assert c.page in Span(c.page, c.count) && c.page in Free(l);
      if p + n == c.page {
        assert Span(b.page, b.count + n + c.count) == Span(b.page, b.count + n) + Span(c.page, c.count);
        CanonicalCons(Run(b.page, b.count + n + c.count), l[2..]);
        FreeCons(Run(b.page, b.count + n + c.count), l[2..]);
      } else {
        assert c.page < p + n ==> c.page in Span(p, n);
        CanonicalCons(Run(b.page, b.count + n), l[1..]);
        FreeCons(Run(b.page, b.count + n), l[1..]);
      }
    } else {
      CanonicalCons(Run(b.page, b.count + n), l[1..]);
      FreeCons(Run(b.page, b.count + n), l[1..]);
    }
  }

  /** Freeing what was just allocated restores the list exactly. */
  lemma TakeGive(l: seq<Run>, n: int)
    requires Canonical(l) && n > 0 && Take(l, n).Taken?
    ensures Give(Take(l, n).rest, Take(l, n).page, n) == l
  {
    hide Span;
    TakeCorrect(l, n);
    var r := Take(l, n);
    GiveCorrect(r.rest, r.page, n);
    CanonicalUnique(Give(r.rest, r.page, n), l);
  }

  /** The order of two frees does not matter. */
  lemma GiveCommutes(l: seq<Run>, p: int, n: int, q: int, m: int)
    requires Canonical(l) && n > 0 && m > 0
    requires Span(p, n) !! Free(l) && Span(q, m) !! Free(l) && Span(p, n) !! Span(q, m)
    ensures Give(Give(l, p, n), q, m) == Give(Give(l, q, m), p, n)
  {
    hide Span;
    GiveCorrect(l, p, n);
    GiveCorrect(l, q, m);
    GiveCorrect(Give(l, p, n), q, m);
    GiveCorrect(Give(l, q, m), p, n);
    CanonicalUnique(Give(Give(l, p, n), q, m), Give(Give(l, q, m), p, n));
  }

  /** The loop of page_alloc, one run at a time. */
  lemma TakeSkip(l: seq<Run>, i: nat, n: int)
    requires i < |l| && n > 0
    ensures l[i].count < n ==> Prepend(l[..i], Take(l[i..], n)) == Prepend(l[..i + 1], Take(l[i + 1..], n))
    ensures l[i].count > n ==>
              Prepend(l[..i], Take(l[i..], n)) == Taken(l[i].page,
                  l[..i] + [Run(l[i].page + n, l[i].count - n)] + l[i + 1..])
    ensures l[i].count == n ==> Prepend(l[..i], Take(l[i..], n)) == Taken(l[i].page, l[..i] + l[i + 1..])
  {
    assert l[i..][0] == l[i] && l[i..][1..] == l[i + 1..];
    var rest := Take(l[i + 1..], n);
    if l[i].count < n && rest.Taken? {
      assert l[..i] + ([l[i]] + rest.rest) == l[..i + 1] + rest.rest;
    } else if l[i].count > n {
      var r := [Run(l[i].page + n, l[i].count - n)];
      assert l[..i] + (r + l[i + 1..]) == l[..i] + r + l[i + 1..];
    }
  }

  lemma GiveNone(p: int, n: int)
    ensures Give([], p, n) == [Run(p, n)]
  {
  }

  lemma TakeNone(n: int)
    requires n > 0
    ensures Take([], n) == NoPages
  {
  }

  /** The loop of page_free, one run at a time. */
  lemma GiveSkip(l: seq<Run>, i: nat, p: int, n: int)
    requires i < |l|
    ensures var b := l[i]; var g := l[..i] + Give(l[i..], p, n);
            if b.page + b.count == p then
              if i + 1 < |l| && b.page + b.count + n == l[i + 1].page
              then g == l[..i] + [Run(b.page, b.count + n + l[i + 1].count)] + l[i + 2..]
              else g == l[..i] + [Run(b.page, b.count + n)] + l[i + 1..]
            else if b.page == p + n then g == l[..i] + [Run(p, b.count + n)] + l[i + 1..]
            else if b.page > p + n then g == l[..i] + [Run(p, n)] + l[i..]
            else g == l[..i + 1] + Give(l[i + 1..], p, n)
  {
    var b := l[i];
    assert l[i..][0] == b && l[i..][1..] == l[i + 1..];
    if i + 1 < |l| {
      assert l[i..][1] == l[i + 1] && l[i..][2..] == l[i + 2..];
    }
    if b.page + b.count != p && b.page < p + n {
      assert l[..i] + ([b] + Give(l[i + 1..], p, n)) == l[..i + 1] + Give(l[i + 1..], p, n);
    }
  }

  /** page_list as the kernel keeps it, with the loops of page_alloc and page_free. */
  class PageList {
    var list: seq<Run>

    /** page_init: an empty list, then one run. */
    constructor (page: int, count: int)
      requires page > 0 && count > 0
      ensures list == [Run(page, count)] && Canonical(list)
    {
      list := [];
      new;
      PageFree(page, count);
    }

    /** page_alloc: page 0 stands for NULL. */
    method PageAlloc(n: int) returns (page: int)
      requires Canonical(list) && n >= 0 && (forall i :: 0 <= i < |list| ==> list[i].page > 0)
      modifies this
      ensures n == 0 ==> page == 0 && list == old(list)
      ensures n > 0 ==> match Take(old(list), n)
                        case NoPages => page == 0 && list == old(list)
                        case Taken(p, rest) => page == p && page > 0 && list == rest
    {
      hide Span, Canonical, Free, Take;
      if n == 0 {
        return 0;
      }
      ghost var l := list;
      assert l[..0] == [] && l[0..] == l;
      assert Take(l, n).Taken? ==> [] + Take(l, n).rest == Take(l, n).rest;
      var i := 0;
      while i < |list|
        invariant 0 <= i <= |l| && list == l
        invariant Take(l, n) == Prepend(l[..i], Take(l[i..], n))
        invariant forall j :: 0 <= j < |list| ==> list[j].page > 0
      {
        var b := list[i];
        TakeSkip(l, i, n);
        if b.count > n {
          list := list[..i] + [Run(b.page + n, b.count - n)] + list[i + 1..];
          return b.page;
        }
        if b.count == n {
          list := list[..i] + list[i + 1..];
          return b.page;
        }
        i := i + 1;
      }
      TakeNone(n);
      assert l[..i] == l && l[i..] == [];
      return 0;
    }

    method PageFree(p: int, n: int)
      requires Canonical(list) && p > 0 && n > 0 && Span(p, n) !! Free(list)
      modifies this
      ensures list == Give(old(list), p, n)
      ensures Canonical(list) && Free(list) == old(Free(list)) + Span(p, n)
    {
      hide Span, Canonical, Free, Give;
      ghost var l := list;
      GiveCorrect(l, p, n);
      assert l[..0] == [] && l[0..] == l;
      var i := 0;
      while i < |list|
        invariant 0 <= i <= |l| && list == l
        invariant Give(l, p, n) == l[..i] + Give(l[i..], p, n)
      {
        var b := list[i];
        GiveSkip(l, i, p, n);
        if b.page + b.count == p {
          var count := b.count + n;
          if i + 1 < |list| && b.page + count == list[i + 1].page {
            list := list[..i] + [Run(b.page, count + list[i + 1].count)] + list[i + 2..];
          } else {
            list := list[..i] + [Run(b.page, count)] + list[i + 1..];
          }
          return;
        }
        if b.page == p + n {
          list := list[..i] + [Run(p, b.count + n)] + list[i + 1..];
          return;
        }
        if b.page > p + n {
          break;
        }
        i := i + 1;
      }
      GiveNone(p, n);
      assert i == |l| ==> l[i..] == [];
      list := list[..i] + [Run(p, n)] + list[i..];
    }
  }

  function Prepend(a: seq<Run>, t: Taken): Taken {
    match t
    case NoPages => NoPages
    case Taken(p, rest) => Taken(p, a + rest)
  }
}
