/**
 The zigzag order of the coefficients of a block (components/gui/GUI/JPEG/jutils.c).
 */
module ZigzagOrder {

  /** jpeg_natural_order: the place of zigzag position `k`; the 16 extra entries all name the last place. */
  function Natural(k: int): (p: int)
    requires 0 <= k < 80
    ensures 0 <= p < 64
  {
    match k
    case 0 => 0 case 1 => 1 case 2 => 8 case 3 => 16 case 4 => 9 case 5 => 2 case 6 => 3 case 7 => 10
    case 8 => 17 case 9 => 24 case 10 => 32 case 11 => 25 case 12 => 18 case 13 => 11 case 14 => 4 case 15 => 5
    case 16 => 12 case 17 => 19 case 18 => 26 case 19 => 33 case 20 => 40 case 21 => 48 case 22 => 41 case 23 => 34
    case 24 => 27 case 25 => 20 case 26 => 13 case 27 => 6 case 28 => 7 case 29 => 14 case 30 => 21 case 31 => 28
    case 32 => 35 case 33 => 42 case 34 => 49 case 35 => 56 case 36 => 57 case 37 => 50 case 38 => 43 case 39 => 36
    case 40 => 29 case 41 => 22 case 42 => 15 case 43 => 23 case 44 => 30 case 45 => 37 case 46 => 44 case 47 => 51
    case 48 => 58 case 49 => 59 case 50 => 52 case 51 => 45 case 52 => 38 case 53 => 31 case 54 => 39 case 55 => 46
    case 56 => 53 case 57 => 60 case 58 => 61 case 59 => 54 case 60 => 47 case 61 => 55 case 62 => 62
    case _ => 63
  }

  /** The zigzag position of a place. */
  function Zigzag(p: int): (k: int)
    requires 0 <= p < 64
    ensures 0 <= k < 64
  {
    match p
    case 0 => 0 case 1 => 1 case 2 => 5 case 3 => 6 case 4 => 14 case 5 => 15 case 6 => 27 case 7 => 28
    case 8 => 2 case 9 => 4 case 10 => 7 case 11 => 13 case 12 => 16 case 13 => 26 case 14 => 29 case 15 => 42
    case 16 => 3 case 17 => 8 case 18 => 12 case 19 => 17 case 20 => 25 case 21 => 30 case 22 => 41 case 23 => 43
    case 24 => 9 case 25 => 11 case 26 => 18 case 27 => 24 case 28 => 31 case 29 => 40 case 30 => 44 case 31 => 53
    case 32 => 10 case 33 => 19 case 34 => 23 case 35 => 32 case 36 => 39 case 37 => 45 case 38 => 52 case 39 => 54
    case 40 => 20 case 41 => 22 case 42 => 33 case 43 => 38 case 44 => 46 case 45 => 51 case 46 => 55 case 47 => 60
    case 48 => 21 case 49 => 34 case 50 => 37 case 51 => 47 case 52 => 50 case 53 => 56 case 54 => 59 case 55 => 61
    case 56 => 35 case 57 => 36 case 58 => 48 case 59 => 49 case 60 => 57 case 61 => 58 case 62 => 62
    case _ => 63
  }

  lemma Quarter1(k: int)
    requires 0 <= k < 16
    ensures Zigzag(Natural(k)) == k
  {
  }

  lemma Quarter2(k: int)
    requires 16 <= k < 32
    ensures Zigzag(Natural(k)) == k
  {
  }

  lemma Quarter3(k: int)
    requires 32 <= k < 48
    ensures Zigzag(Natural(k)) == k
  {
  }

  lemma Quarter4(k: int)
    requires 48 <= k < 64
    ensures Zigzag(Natural(k)) == k
  {
  }

  lemma ZigzagNatural(k: int)
    requires 0 <= k < 64
    ensures Zigzag(Natural(k)) == k
  {
    hide Zigzag, Natural;
    if k < 16 { Quarter1(k); } else if k < 32 { Quarter2(k); } else if k < 48 { Quarter3(k); } else { Quarter4(k); }
  }

  /** The zigzag positions of a block name 64 different places. */
  lemma NaturalOnce(i: int, j: int)
    requires 0 <= i < 64 && 0 <= j < 64
    ensures Natural(i) == Natural(j) ==> i == j
  {
    hide Zigzag, Natural;
    ZigzagNatural(i);
    ZigzagNatural(j);
  }

  lemma Rows1(p: int)
    requires 0 <= p < 16
    ensures Natural(Zigzag(p)) == p
  {
  }

  lemma Rows2(p: int)
    requires 16 <= p < 32
    ensures Natural(Zigzag(p)) == p
  {
  }

  lemma Rows3(p: int)
    requires 32 <= p < 48
    ensures Natural(Zigzag(p)) == p
  {
  }

  lemma Rows4(p: int)
    requires 48 <= p < 64
    ensures Natural(Zigzag(p)) == p
  {
  }

  /** Every place has a zigzag position. */
  lemma NaturalZigzag(p: int)
    requires 0 <= p < 64
    ensures Natural(Zigzag(p)) == p
  {
    hide Zigzag, Natural;
    if p < 16 { Rows1(p); } else if p < 32 { Rows2(p); } else if p < 48 { Rows3(p); } else { Rows4(p); }
  }

  /** Figure 5 of ITU-T T.81: up along the diagonals of even number and down along those of odd number. */
  function Walk(p: int): int
    requires 0 <= p < 63
  {
    var row, col := p / 8, p % 8;
    if (row + col) % 2 == 0 then
      if col == 7 then p + 8 else if row == 0 then p + 1 else p - 7
    else if row == 7 then p + 1 else if col == 0 then p + 8 else p + 7
  }

  lemma Walk1(k: int)
    requires 0 <= k < 16
    ensures Natural(k) != 63 && Natural(k + 1) == Walk(Natural(k))
  {
  }

  lemma Walk2(k: int)
    requires 16 <= k < 32
    ensures Natural(k) != 63 && Natural(k + 1) == Walk(Natural(k))
  {
  }

  lemma Walk3(k: int)
    requires 32 <= k < 48
    ensures Natural(k) != 63 && Natural(k + 1) == Walk(Natural(k))
  {
  }

  lemma Walk4(k: int)
    requires 48 <= k < 63
    ensures Natural(k) != 63 && Natural(k + 1) == Walk(Natural(k))
  {
  }

  /** The table is the zigzag walk from the first place to the last, and stays there. */
  lemma NaturalWalks(k: int)
    requires 0 <= k < 79
    ensures Natural(0) == 0
    ensures k < 63 ==> Natural(k) != 63 && Natural(k + 1) == Walk(Natural(k))
    ensures k >= 63 ==> Natural(k) == Natural(k + 1) == 63
  {
    assert Natural(0) == 0 && (63 <= k ==> Natural(k) == Natural(k + 1) == 63);
    hide Natural, Walk;
    if k < 16 { Walk1(k); } else if k < 32 { Walk2(k); } else if k < 48 { Walk3(k); } else if k < 63 { Walk4(k); }
  }
}
