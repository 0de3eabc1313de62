/**
 * The search behind the four errors that the Bech32 checksum detects within 89 symbols: a table
 * of 88 numbers modulo 33 and three congruences that no three places solve together.
 */
module BchSearch {
  type Place = bv8

  /** Four times the logarithm modulo 33 of alpha^x + 1, plus 15 x. */
  function Rank(x: Place): Place {
    if x & 64 != 0 then
      if x & 32 != 0 then
        32
      else
        if x & 16 != 0 then
          if x & 8 != 0 then
            32
          else
            if x & 4 != 0 then (if x & 2 != 0 then (if x & 1 != 0 then 6 else 1) else (if x & 1 != 0 then 9 else 31))
            else (if x & 2 != 0 then (if x & 1 != 0 then 5 else 20) else (if x & 1 != 0 then 17 else 15))
        else
          if x & 8 != 0 then
            if x & 4 != 0 then (if x & 2 != 0 then (if x & 1 != 0 then 31 else 2) else (if x & 1 != 0 then 14 else 27))
            else (if x & 2 != 0 then (if x & 1 != 0 then 17 else 0) else (if x & 1 != 0 then 0 else 22))
          else
            if x & 4 != 0 then (if x & 2 != 0 then (if x & 1 != 0 then 1 else 26) else (if x & 1 != 0 then 32 else 4))
            else (if x & 2 != 0 then (if x & 1 != 0 then 13 else 0) else (if x & 1 != 0 then 31 else 25))
    else
      if x & 32 != 0 then
        if x & 16 != 0 then
          if x & 8 != 0 then
            if x & 4 != 0 then (if x & 2 != 0 then (if x & 1 != 0 then 6 else 31) else (if x & 1 != 0 then 2 else 15))
            else (if x & 2 != 0 then (if x & 1 != 0 then 30 else 9) else (if x & 1 != 0 then 13 else 10))
          else
            if x & 4 != 0 then (if x & 2 != 0 then (if x & 1 != 0 then 1 else 2) else (if x & 1 != 0 then 15 else 8))
            else (if x & 2 != 0 then (if x & 1 != 0 then 19 else 6) else (if x & 1 != 0 then 10 else 18))
        else
          if x & 8 != 0 then
            if x & 4 != 0 then (if x & 2 != 0 then (if x & 1 != 0 then 13 else 10) else (if x & 1 != 0 then 7 else 16))
            else (if x & 2 != 0 then (if x & 1 != 0 then 17 else 32) else (if x & 1 != 0 then 10 else 24))
          else
            if x & 4 != 0 then (if x & 2 != 0 then (if x & 1 != 0 then 1 else 30) else (if x & 1 != 0 then 0 else 11))
            else (if x & 2 != 0 then (if x & 1 != 0 then 13 else 2) else (if x & 1 != 0 then 0 else 29))
      else
        if x & 16 != 0 then
          if x & 8 != 0 then
            if x & 4 != 0 then (if x & 2 != 0 then (if x & 1 != 0 then 32 else 24) else (if x & 1 != 0 then 21 else 5))
            else (if x & 2 != 0 then (if x & 1 != 0 then 1 else 4) else (if x & 1 != 0 then 3 else 9))
          else
            if x & 4 != 0 then (if x & 2 != 0 then (if x & 1 != 0 then 5 else 8) else (if x & 1 != 0 then 16 else 12))
            else (if x & 2 != 0 then (if x & 1 != 0 then 15 else 22) else (if x & 1 != 0 then 1 else 31))
        else
          if x & 8 != 0 then
            if x & 4 != 0 then (if x & 2 != 0 then (if x & 1 != 0 then 12 else 19) else (if x & 1 != 0 then 2 else 21))
            else (if x & 2 != 0 then (if x & 1 != 0 then 4 else 6) else (if x & 1 != 0 then 11 else 32))
          else
            if x & 4 != 0 then (if x & 2 != 0 then (if x & 1 != 0 then 26 else 27) else (if x & 1 != 0 then 3 else 16))
            else (if x & 2 != 0 then (if x & 1 != 0 then 30 else 8) else (if x & 1 != 0 then 4 else 4))
  }

  function Later(x: Place, n: Place): Place { x + n }

  function Between(x: Place, y: Place): Place { y - x }

  /** Equal modulo 33, for `x` below 33 and `y` below 132. */
  predicate Same(x: Place, y: Place) {
    y == x || y == x + 33 || y == x + 66 || y == x + 99
  }

  /** What four errors at the places 0, a, b and c that cancel out would satisfy. */
  predicate Clash(a: Place, b: Place, c: Place) {
    && Same(Rank(c), Later(Rank(Between(a, b)), a))
    && Same(Rank(b), Later(Rank(Between(a, c)), a))
    && Same(Rank(a), Later(Rank(Between(b, c)), b))
  }

  lemma NoneAt2(a: Place, b: Place, c: Place)
    requires 0 < a < b < c < 89 && 2 <= b <= 12
    ensures !Clash(a, b, c)
  {
  }

  lemma NoneAt13(a: Place, b: Place, c: Place)
    requires 0 < a < b < c < 89 && 13 <= b <= 17
    ensures !Clash(a, b, c)
  {
  }

  lemma NoneAt18(a: Place, b: Place, c: Place)
    requires 0 < a < b < c < 89 && 18 <= b <= 22
    ensures !Clash(a, b, c)
  {
  }

  lemma NoneAt23(a: Place, b: Place, c: Place)
    requires 0 < a < b < c < 89 && 23 <= b <= 27
    ensures !Clash(a, b, c)
  {
  }

  lemma NoneAt28(a: Place, b: Place, c: Place)
    requires 0 < a < b < c < 89 && 28 <= b <= 32
    ensures !Clash(a, b, c)
  {
  }

  lemma NoneAt33(a: Place, b: Place, c: Place)
    requires 0 < a < b < c < 89 && 33 <= b <= 37
    ensures !Clash(a, b, c)
  {
  }

  lemma NoneAt38(a: Place, b: Place, c: Place)
    requires 0 < a < b < c < 89 && 38 <= b <= 41
    ensures !Clash(a, b, c)
  {
  }

  lemma NoneAt42(a: Place, b: Place, c: Place)
    requires 0 < a < b < c < 89 && 42 <= b <= 45
    ensures !Clash(a, b, c)
  {
  }

  lemma NoneAt46(a: Place, b: Place, c: Place)
    requires 0 < a < b < c < 89 && 46 <= b <= 49
    ensures !Clash(a, b, c)
  {
  }

  lemma NoneAt50(a: Place, b: Place, c: Place)
    requires 0 < a < b < c < 89 && 50 <= b <= 53
    ensures !Clash(a, b, c)
  {
  }

  lemma NoneAt54(a: Place, b: Place, c: Place)
    requires 0 < a < b < c < 89 && 54 <= b <= 58
    ensures !Clash(a, b, c)
  {
  }

  lemma NoneAt59(a: Place, b: Place, c: Place)
    requires 0 < a < b < c < 89 && 59 <= b <= 63
    ensures !Clash(a, b, c)
  {
  }

  lemma NoneAt64(a: Place, b: Place, c: Place)
    requires 0 < a < b < c < 89 && 64 <= b <= 69
    ensures !Clash(a, b, c)
  {
  }

  lemma NoneAt70(a: Place, b: Place, c: Place)
    requires 0 < a < b < c < 89 && 70 <= b <= 77
    ensures !Clash(a, b, c)
  {
  }

  lemma NoneAt78(a: Place, b: Place, c: Place)
    requires 0 < a < b < c < 89 && 78 <= b <= 87
    ensures !Clash(a, b, c)
  {
  }

  lemma NoClash(a: Place, b: Place, c: Place)
    requires 0 < a < b < c < 89
    ensures !Clash(a, b, c)
  {
    hide Clash;
    if b <= 12 {
      NoneAt2(a, b, c);
    } else if b <= 17 {
      NoneAt13(a, b, c);
    } else if b <= 22 {
      NoneAt18(a, b, c);
    } else if b <= 27 {
      NoneAt23(a, b, c);
    } else if b <= 32 {
      NoneAt28(a, b, c);
    } else if b <= 37 {
      NoneAt33(a, b, c);
    } else if b <= 41 {
      NoneAt38(a, b, c);
    } else if b <= 45 {
      NoneAt42(a, b, c);
    } else if b <= 49 {
      NoneAt46(a, b, c);
    } else if b <= 53 {
      NoneAt50(a, b, c);
    } else if b <= 58 {
      NoneAt54(a, b, c);
    } else if b <= 63 {
      NoneAt59(a, b, c);
    } else if b <= 69 {
      NoneAt64(a, b, c);
    } else if b <= 77 {
      NoneAt70(a, b, c);
    } else {
      NoneAt78(a, b, c);
    }
  }
}
