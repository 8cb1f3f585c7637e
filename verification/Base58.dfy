/**
 Base58: a byte string read as a number, with its leading zero bytes kept as
 leading '1' characters.  Both directions multiply and add in a buffer of digits
 whose size is estimated beforehand.
 */
module Base58 {
  import opened Numbers
  import opened Options

  // ------------------------------------------------------------ powers and numbers

  function Pow(b: nat, n: nat): nat {
    if n == 0 then 1 else b * Pow(b, n - 1)
  }

  lemma {:induction false} PowAdd(b: nat, m: nat, n: nat)
    ensures Pow(b, m + n) == Pow(b, m) * Pow(b, n)
  {
    if m > 0 {
      PowAdd(b, m - 1, n);
      assert b * (Pow(b, m - 1) * Pow(b, n)) == (b * Pow(b, m - 1)) * Pow(b, n);
    }
  }

  lemma {:induction false} PowMultiple(b: nat, m: nat, n: nat)
    ensures Pow(b, m * n) == Pow(Pow(b, m), n)
  {
    if n > 0 {
      PowMultiple(b, m, n - 1);
      PowAdd(b, m, m * (n - 1));
      assert m * n == m + m * (n - 1);
    } else {
      assert m * n == 0;
    }
  }

  lemma {:induction false} PowPositive(b: nat, n: nat)
    requires b > 0
    ensures Pow(b, n) > 0
  {
    if n > 0 {
      PowPositive(b, n - 1);
    }
  }

  lemma {:induction false} PowBase(a: nat, b: nat, n: nat)
    requires a <= b
    ensures Pow(a, n) <= Pow(b, n)
  {
    if n > 0 {
      PowBase(a, b, n - 1);
      ProductMonotone(a, Pow(a, n - 1), Pow(b, n - 1));
      ProductMonotone(Pow(b, n - 1), a, b);
    }
  }

  lemma {:induction false} PowStrict(a: nat, b: nat, n: nat)
    requires a < b && n > 0
    ensures Pow(a, n) < Pow(b, n)
  {
    PowBase(a, b, n - 1);
    PowPositive(b, n - 1);
    StrictStep(a, b, Pow(a, n - 1), Pow(b, n - 1));
  }

  lemma StrictStep(a: nat, b: nat, p: nat, q: nat)
    requires a < b && p <= q && q > 0
    ensures a * p < b * q
  {
    ProductMonotone(a, p, q);
    ProductMonotone(q, a + 1, b);
  }

  lemma {:induction false} PowExponent(b: nat, m: nat, n: nat)
    requires b > 0 && m <= n
    ensures Pow(b, m) <= Pow(b, n)
  {
    PowAdd(b, m, n - m);
    PowPositive(b, n - m);
    ProductMonotone(Pow(b, m), 1, Pow(b, n - m));
  }

  // If x digits of base a fit into y of base b, then so do any n, in their share.
  lemma PowShare(a: nat, x: nat, b: nat, y: nat, n: nat, k: nat)
    requires Pow(a, x) <= Pow(b, y) && x * k >= y * n && x > 0 && b > 0
    ensures Pow(a, n) <= Pow(b, k)
  {
    hide Pow;
    PowBase(Pow(a, x), Pow(b, y), n);
    PowSwap(a, x, n);
    ExponentShare(b, y, n, x, k, y * n, x * k);
    PowCancel(Pow(a, n), Pow(b, k), x);
  }

  lemma ExponentShare(b: nat, y: nat, n: nat, x: nat, k: nat, p: nat, q: nat)
    requires b > 0 && p == y * n && q == x * k && p <= q
    ensures Pow(Pow(b, y), n) <= Pow(Pow(b, k), x)
  {
    hide Pow;
    PowMultiple(b, y, n);
    PowMultiple(b, x, k);
    PowSwap(b, k, x);
    PowExponent(b, p, q);
  }

  lemma PowCancel(u: nat, v: nat, x: nat)
    requires x > 0 && Pow(u, x) <= Pow(v, x)
    ensures u <= v
  {
    hide Pow;
    if u > v {
      PowStrict(v, u, x);
    }
  }

  lemma PowSwap(b: nat, m: nat, n: nat)
    ensures Pow(Pow(b, m), n) == Pow(Pow(b, n), m)
  {
    PowMultiple(b, m, n);
    PowMultiple(b, n, m);
    assert m * n == n * m;
  }

  lemma Powers58()
    ensures Pow(58, 8) == 128063081718016 && Pow(58, 7) == 2207984167552 && Pow(58, 11) == 24986644000165537792
  {
    assert Pow(58, 3) == 195112;
    assert Pow(58, 4) == 11316496;
    PowAdd(58, 4, 4);
    PowAdd(58, 4, 3);
    PowAdd(58, 8, 3);
  }

  lemma Fits58()
    ensures Pow(256, 8) <= Pow(58, 11) && Pow(58, 71) <= Pow(256, 52)
  {
    hide Pow;
    Powers58();
    PowAdd(58, 8, 8);
    PowAdd(58, 16, 16);
    PowAdd(58, 32, 32);
    PowAdd(58, 64, 7);
    Powers256();
  }

  lemma Powers256()
    ensures Pow(256, 8) == 18446744073709551616
    ensures Pow(256, 52) == 169230328010303641331690318856389386196071598838855992136870091590247882556495704531248437872567112920983350278405979725889536
  {
    hide Pow;
    Word256();
    PowAdd(256, 4, 4);
    PowAdd(256, 8, 8);
    PowAdd(256, 16, 16);
    PowAdd(256, 32, 16);
    PowAdd(256, 48, 4);
  }

  lemma Word256()
    ensures Pow(256, 4) == 4294967296
  {
  }

  // The digits reserved for n bytes, and the bytes reserved for n characters.
  function Reserved58(n: nat): nat {
    n * 138 / 100 + 1
  }

  function Reserved256(n: nat): nat {
    n * 733 / 1000 + 1
  }

  // Both estimates always suffice.
  lemma ReservedSuffices(n: nat)
    ensures Pow(256, n) <= Pow(58, Reserved58(n)) && Pow(58, n) <= Pow(256, Reserved256(n))
  {
    hide Pow;
    Fits58();
    PowShare(256, 8, 58, 11, n, Reserved58(n));
    PowShare(58, 71, 256, 52, n, Reserved256(n));
  }

  // ------------------------------------------------------------------- numerals

  // The number a numeral stands for, most significant digit first.
  ghost function Num(s: seq<nat>, b: nat): nat {
    if s == [] then 0 else Num(s[..|s| - 1], b) * b + s[|s| - 1]
  }

  ghost predicate InBase(s: seq<nat>, b: nat) {
    forall i | 0 <= i < |s| :: s[i] < b
  }

  // The shortest numeral of a number; none for zero.
  ghost function Digits(n: nat, b: nat): seq<nat>
    requires b >= 2
  {
    if n == 0 then [] else Digits(n / b, b) + [n % b]
  }

  ghost function LeadingZeroes(s: seq<nat>): nat {
    if s == [] || s[0] != 0 then 0 else 1 + LeadingZeroes(s[1..])
  }

  ghost function Zeroes(n: nat): seq<nat> {
    seq(n, _ => 0)
  }

  // The same number in another base, with as many leading zeroes.
  ghost function Converted(s: seq<nat>, b: nat, c: nat): seq<nat>
    requires c >= 2
  {
    Zeroes(LeadingZeroes(s)) + Digits(Num(s, b), c)
  }

  lemma {:induction false} NumDigits(n: nat, b: nat)
    requires b >= 2
    ensures Num(Digits(n, b), b) == n && InBase(Digits(n, b), b)
    ensures n > 0 ==> Digits(n, b)[0] != 0
  {
    if n > 0 {
      NumDigits(n / b, b);
      DigitsStep(n, b);
    }
  }

  lemma DigitsStep(n: nat, b: nat)
    requires b >= 2 && n > 0 && InBase(Digits(n / b, b), b) && Num(Digits(n / b, b), b) == n / b
    requires n / b > 0 ==> Digits(n / b, b)[0] != 0
    ensures Num(Digits(n, b), b) == n && InBase(Digits(n, b), b) && Digits(n, b)[0] != 0
  {
    var d, q, r := Digits(n / b, b), n / b, n % b;
    assert Digits(n, b) == d + [r] && (q == 0 ==> d == []);
    hide Digits;
    QuotientRemainder(n, b);
    NumAppend(d, r, b);
    assert b * q == q * b;
  }

  lemma NumAppend(d: seq<nat>, r: nat, b: nat)
    ensures Num(d + [r], b) == Num(d, b) * b + r
  {
    assert (d + [r])[..|d|] == d;
  }

  // A numeral without a leading zero is the shortest one.
  lemma {:induction false} DigitsNum(s: seq<nat>, b: nat)
    requires b >= 2 && InBase(s, b) && (s != [] ==> s[0] != 0)
    ensures Digits(Num(s, b), b) == s && (s != [] ==> Num(s, b) > 0)
  {
    if s != [] {
      var t, d := s[..|s| - 1], s[|s| - 1];
      DigitsNum(t, b);
      DivisionUnique(Num(s, b), b, Num(t, b), d);
      if t != [] {
        ProductMonotone(b, 1, Num(t, b));
      }
    }
  }

  lemma {:induction false} SplitZeroes(s: seq<nat>)
    ensures LeadingZeroes(s) <= |s|
    ensures s == Zeroes(LeadingZeroes(s)) + s[LeadingZeroes(s)..]
    ensures LeadingZeroes(s) < |s| ==> s[LeadingZeroes(s)] != 0
  {
    if s != [] && s[0] == 0 {
      SplitZeroes(s[1..]);
    }
  }

  lemma {:induction false} ZeroesThen(k: nat, t: seq<nat>)
    requires t != [] ==> t[0] != 0
    ensures LeadingZeroes(Zeroes(k) + t) == k
  {
    if k > 0 {
      assert (Zeroes(k) + t)[1..] == Zeroes(k - 1) + t;
      ZeroesThen(k - 1, t);
    } else {
      assert Zeroes(0) + t == t;
    }
  }

  lemma {:induction false} NumZeroes(k: nat, t: seq<nat>, b: nat)
    ensures Num(Zeroes(k) + t, b) == Num(t, b)
  {
    var s := Zeroes(k) + t;
    if t != [] {
      assert s[..|s| - 1] == Zeroes(k) + t[..|t| - 1];
      NumZeroes(k, t[..|t| - 1], b);
    } else if k > 0 {
      assert s[..|s| - 1] == Zeroes(k - 1) + t;
      NumZeroes(k - 1, t, b);
    } else {
      assert s == t;
    }
  }

  // Converting there and back changes nothing.
  lemma ConvertedBack(s: seq<nat>, b: nat, c: nat)
    requires b >= 2 && c >= 2 && InBase(s, b)
    ensures Converted(Converted(s, b, c), c, b) == s && InBase(Converted(s, b, c), c)
    ensures Num(Converted(s, b, c), c) == Num(s, b) && LeadingZeroes(Converted(s, b, c)) == LeadingZeroes(s)
  {
    hide Num, Digits, LeadingZeroes;
    var k := LeadingZeroes(s);
    SplitZeroes(s);
    var t, d := s[k..], Digits(Num(s, b), c);
    NumZeroes(k, t, b);
    DigitsNum(t, b);
    NumDigits(Num(s, b), c);
    NoDigits(c);
    ZeroesThen(k, d);
    NumZeroes(k, d, c);
  }

  lemma NoDigits(b: nat)
    requires b >= 2
    ensures Digits(0, b) == []
  {
  }

  lemma {:induction false} NumConcat(x: seq<nat>, y: seq<nat>, b: nat)
    ensures Num(x + y, b) == Num(x, b) * Pow(b, |y|) + Num(y, b)
  {
    if y == [] {
      assert x + y == x;
    } else {
      var n := |y| - 1;
      assert (x + y)[..|x + y| - 1] == x + y[..n];
      NumConcat(x, y[..n], b);
      ConcatStep(Num(x, b), Pow(b, n), Num(y[..n], b), b, y[n]);
    }
  }

  lemma ConcatStep(x: nat, p: nat, y: nat, b: nat, d: nat)
    ensures (x * p + y) * b + d == x * (b * p) + (y * b + d)
  {
    assert (x * p + y) * b == x * p * b + y * b;
    assert x * p * b == x * (b * p);
  }

  lemma {:induction false} NumBound(s: seq<nat>, b: nat)
    requires InBase(s, b)
    ensures Num(s, b) < Pow(b, |s|)
  {
    if s != [] {
      var t := s[..|s| - 1];
      NumBound(t, b);
      NumStep(s, b);
      PowNext(b, |t|);
      hide Num, Pow;
      OneDigitMore(Num(t, b), Pow(b, |t|), b, s[|s| - 1]);
    }
  }

  lemma OneDigitMore(x: nat, p: nat, b: nat, d: nat)
    requires x < p && d < b
    ensures x * b + d < b * p
  {
    ProductMonotone(b, x + 1, p);
  }

  lemma NumPrepend(d: nat, t: seq<nat>, b: nat)
    ensures Num([d] + t, b) == d * Pow(b, |t|) + Num(t, b)
  {
    NumConcat([d], t, b);
    assert Num([d], b) == Num([], b) * b + d;
  }

  // ---------------------------------------------------------------- the buffer

  // All digits but the last `length` are zero.
  ghost predicate ZeroAbove(s: seq<nat>, length: nat) {
    length <= |s| && forall i | 0 <= i < |s| - length :: s[i] == 0
  }

  // The last i digits have been multiplied, with a carry left over.
  ghost predicate Multiplied(x: seq<nat>, y: seq<nat>, i: nat, mult: nat, base: nat, ch: nat, carry: nat) {
    && i <= |x| == |y| && y[..|x| - i] == x[..|x| - i]
    && Num(y[|x| - i..], base) + carry * Pow(base, i) == Num(x[|x| - i..], base) * mult + ch
  }

  lemma MultipliedStarts(x: seq<nat>, mult: nat, base: nat, ch: nat)
    ensures Multiplied(x, x, 0, mult, base, ch, ch)
  {
    assert x[|x|..] == [];
    assert 0 * mult == 0;
  }

  lemma MultipliedNext(x: seq<nat>, y: seq<nat>, i: nat, mult: nat, base: nat, ch: nat, carry: nat, n: nat)
    requires Multiplied(x, y, i, mult, base, ch, carry) && i < |x| && base > 0 && n == carry + mult * y[|x| - 1 - i]
    ensures var digit: nat := n % base; Multiplied(x, y[|x| - 1 - i := digit], i + 1, mult, base, ch, n / base)
  {
    hide Num, Pow;
    var k := |x| - 1 - i;
    var digit: nat := n % base;
    var z := y[k := digit];
    assert z[..k] == y[..k + 1][..k] == x[..k + 1][..k] == x[..k];
    assert y[k] == y[..k + 1][k] == x[..k + 1][k] == x[k];
    assert z[k..] == [digit] + y[k + 1..] && x[k..] == [x[k]] + x[k + 1..];
    NumPrepend(digit, y[k + 1..], base);
    NumPrepend(x[k], x[k + 1..], base);
    PowNext(base, i);
    CarryMoves(Num(y[k + 1..], base), carry, Pow(base, i), Num(x[k + 1..], base), mult, ch, x[k], base, n);
  }

  lemma PowNext(b: nat, n: nat)
    ensures Pow(b, n + 1) == b * Pow(b, n)
  {
  }

  lemma CarryMoves(low: nat, carry: nat, p: nat, was: nat, mult: nat, ch: nat, d: nat, base: nat, n: nat)
    requires base > 0 && low + carry * p == was * mult + ch && n == carry + mult * d
    ensures ((n % base) * p + low) + (n / base) * (base * p) == (d * p + was) * mult + ch
  {
    assert n == (n / base) * base + n % base;
    Distribute(n / base, base, n % base, p);
    assert base * p == p * base;
    assert (carry + mult * d) * p == carry * p + mult * d * p;
    assert (d * p + was) * mult == d * p * mult + was * mult;
    assert mult * d * p == d * p * mult;
  }

  lemma MultipliedEnds(x: seq<nat>, y: seq<nat>, i: nat, mult: nat, base: nat, ch: nat, carry: nat, length: nat)
    requires Multiplied(x, y, i, mult, base, ch, carry) && ZeroAbove(x, length) && base > 0
    requires i == |x| || (carry == 0 && i >= length)
    requires Num(x, base) * mult + ch < Pow(base, |x|)
    ensures carry == 0 && Num(y, base) == Num(x, base) * mult + ch && ZeroAbove(y, i)
  {
    if i == |x| {
      EndsAtTop(x, y, mult, base, ch, carry);
    } else {
      EndsBelow(x, y, i, mult, base, ch, length);
    }
  }

  lemma EndsAtTop(x: seq<nat>, y: seq<nat>, mult: nat, base: nat, ch: nat, carry: nat)
    requires Multiplied(x, y, |x|, mult, base, ch, carry) && base > 0 && Num(x, base) * mult + ch < Pow(base, |x|)
    ensures carry == 0 && Num(y, base) == Num(x, base) * mult + ch && ZeroAbove(y, |x|)
  {
    hide Num, Pow;
    assert x[0..] == x && y[0..] == y;
    NoCarry(Num(y, base), carry, Pow(base, |x|), Num(x, base) * mult + ch);
  }

  lemma EndsBelow(x: seq<nat>, y: seq<nat>, i: nat, mult: nat, base: nat, ch: nat, length: nat)
    requires Multiplied(x, y, i, mult, base, ch, 0) && ZeroAbove(x, length) && length <= i
    ensures Num(y, base) == Num(x, base) * mult + ch && ZeroAbove(y, i)
  {
    hide Num, Pow, ZeroAbove;
    assert 0 * Pow(base, i) == 0;
    UpperZeroes(x, length, i, base);
    UpperNum(y, |x| - i, base);
  }

  lemma UpperZeroes(x: seq<nat>, length: nat, i: nat, base: nat)
    requires ZeroAbove(x, length) && length <= i <= |x|
    ensures x[..|x| - i] == Zeroes(|x| - i) && Num(x, base) == Num(x[|x| - i..], base)
  {
    hide Num;
    UpperNum(x, |x| - i, base);
  }

  lemma UpperNum(y: seq<nat>, k: nat, base: nat)
    requires k <= |y| && y[..k] == Zeroes(k)
    ensures Num(y, base) == Num(y[k..], base) && ZeroAbove(y, |y| - k)
  {
    hide Num;
    assert y == Zeroes(k) + y[k..];
    NumZeroes(k, y[k..], base);
    assert forall j | 0 <= j < k :: y[j] == y[..k][j];
  }

  lemma NoCarry(low: nat, carry: nat, p: nat, total: nat)
    requires low + carry * p == total < p
    ensures carry == 0
  {
    if carry >= 1 {
      ProductMonotone(p, 1, carry);
    }
  }

  // buf = buf * mult + ch, with digits in `base`; `length` digits are in use.
  method MulAdd(buf: array<nat>, mult: nat, base: nat, ch: nat, length: nat) returns (newLength: nat)
    requires base >= 2 && InBase(buf[..], base) && ZeroAbove(buf[..], length)
    requires Num(buf[..], base) * mult + ch < Pow(base, buf.Length)
    modifies buf
    ensures Num(buf[..], base) == old(Num(buf[..], base)) * mult + ch
    ensures InBase(buf[..], base) && ZeroAbove(buf[..], newLength)
  {
    hide Num, Pow, Multiplied, ZeroAbove;
    ghost var x := buf[..];
    var carry: nat, i := ch, 0;
    MultipliedStarts(x, mult, base, ch);
    while (carry != 0 || i < length) && i < buf.Length
      invariant 0 <= i <= buf.Length && InBase(buf[..], base)
      invariant Multiplied(x, buf[..], i, mult, base, ch, carry)
    {
      var k := buf.Length - 1 - i;
      ghost var y := buf[..];
      ghost var c := carry;
      carry := carry + mult * buf[k];
      MultipliedNext(x, y, i, mult, base, ch, c, carry);
      var digit: nat := carry % base;
      buf[k] := digit;
      assert buf[..] == y[k := digit];
      carry := carry / base;
      i := i + 1;
    }
    MultipliedEnds(x, buf[..], i, mult, base, ch, carry, length);
    assert carry == 0;
    newLength := i;
  }

  // --------------------------------------------------------------------- text

  // The alphabet: digits and letters without 0, I, O and l, in six runs.
  function CharOf(d: nat): char
    requires d < 58
  {
    if d < 9 then '1' + d as char
    else if d < 17 then 'A' + (d - 9) as char
    else if d < 22 then 'J' + (d - 17) as char
    else if d < 33 then 'P' + (d - 22) as char
    else if d < 44 then 'a' + (d - 33) as char
    else 'm' + (d - 44) as char
  }

  // The place of a character in the alphabet, or -1.
  function DigitOf(c: char): int {
    if '1' <= c <= '9' then (c - '1') as int
    else if 'A' <= c <= 'H' then (c - 'A') as int + 9
    else if 'J' <= c <= 'N' then (c - 'J') as int + 17
    else if 'P' <= c <= 'Z' then (c - 'P') as int + 22
    else if 'a' <= c <= 'k' then (c - 'a') as int + 33
    else if 'm' <= c <= 'z' then (c - 'm') as int + 44
    else -1
  }

  // Its characters, one by one.
  lemma AlphabetIs()
    ensures CharOf(0) == '1' && CharOf(1) == '2' && CharOf(2) == '3' && CharOf(3) == '4'
    ensures CharOf(4) == '5' && CharOf(5) == '6' && CharOf(6) == '7' && CharOf(7) == '8'
    ensures CharOf(8) == '9' && CharOf(9) == 'A' && CharOf(10) == 'B' && CharOf(11) == 'C'
    ensures CharOf(12) == 'D' && CharOf(13) == 'E' && CharOf(14) == 'F' && CharOf(15) == 'G'
    ensures CharOf(16) == 'H' && CharOf(17) == 'J' && CharOf(18) == 'K' && CharOf(19) == 'L'
    ensures CharOf(20) == 'M' && CharOf(21) == 'N' && CharOf(22) == 'P' && CharOf(23) == 'Q'
    ensures CharOf(24) == 'R' && CharOf(25) == 'S' && CharOf(26) == 'T' && CharOf(27) == 'U'
    ensures CharOf(28) == 'V' && CharOf(29) == 'W' && CharOf(30) == 'X' && CharOf(31) == 'Y'
    ensures CharOf(32) == 'Z' && CharOf(33) == 'a' && CharOf(34) == 'b' && CharOf(35) == 'c'
    ensures CharOf(36) == 'd' && CharOf(37) == 'e' && CharOf(38) == 'f' && CharOf(39) == 'g'
    ensures CharOf(40) == 'h' && CharOf(41) == 'i' && CharOf(42) == 'j' && CharOf(43) == 'k'
    ensures CharOf(44) == 'm' && CharOf(45) == 'n' && CharOf(46) == 'o' && CharOf(47) == 'p'
    ensures CharOf(48) == 'q' && CharOf(49) == 'r' && CharOf(50) == 's' && CharOf(51) == 't'
    ensures CharOf(52) == 'u' && CharOf(53) == 'v' && CharOf(54) == 'w' && CharOf(55) == 'x'
    ensures CharOf(56) == 'y' && CharOf(57) == 'z'
  {
  }

  lemma Alphabet(d: nat)
    requires d < 58
    ensures DigitOf(CharOf(d)) == d && !IsSpace(CharOf(d))
  {
  }

  lemma AlphabetBack(c: char)
    requires DigitOf(c) >= 0
    ensures DigitOf(c) < 58 && CharOf(DigitOf(c)) == c && !IsSpace(c)
  {
  }

  predicate IsSpace(c: char) {
    c == ' ' || '\t' <= c <= '\r'
  }

  // Space, tab, line feed, vertical tab, form feed and carriage return.
  lemma SpacesAre(c: char)
    ensures IsSpace(c) <==> c == ' ' || c == '\t' || c == '\n' || c == '\U{000B}' || c == '\U{000C}' || c == '\r'
  {
    assert IsSpace(c) <==> c == ' ' || 9 <= c as int <= 13;
    assert '\t' as int == 9 && '\n' as int == 10 && '\U{000B}' as int == 11 && '\U{000C}' as int == 12 && '\r' as int == 13;
  }

  ghost function Text(s: seq<nat>): string
    requires InBase(s, 58)
  {
    seq(|s|, i requires 0 <= i < |s| => CharOf(s[i]))
  }

  ghost predicate IsText(t: string) {
    forall i | 0 <= i < |t| :: DigitOf(t[i]) >= 0
  }

  ghost function Numeral(t: string): seq<nat>
    requires IsText(t)
  {
    seq(|t|, i requires 0 <= i < |t| => var d: nat := DigitOf(t[i]); d)
  }

  ghost function TrimLeft(t: string): string {
    if t != [] && IsSpace(t[0]) then TrimLeft(t[1..]) else t
  }

  ghost function TrimRight(t: string): string {
    if t != [] && IsSpace(t[|t| - 1]) then TrimRight(t[..|t| - 1]) else t
  }

  ghost function Trim(t: string): string {
    TrimRight(TrimLeft(t))
  }

  ghost function Encoding(vch: seq<nat>): string
    requires InBase(vch, 256)
  {
    ConvertedBack(vch, 256, 58);
    Text(Converted(vch, 256, 58))
  }

  ghost function Decoding(t: string): Option<seq<nat>> {
    if IsText(Trim(t)) then Some(Converted(Numeral(Trim(t)), 58, 256)) else None
  }

  lemma TextBack(s: seq<nat>)
    requires InBase(s, 58)
    ensures IsText(Text(s)) && Numeral(Text(s)) == s
  {
    forall i | 0 <= i < |s|
      ensures DigitOf(Text(s)[i]) == s[i]
    {
      Alphabet(s[i]);
    }
  }

  lemma NumeralBack(t: string)
    requires IsText(t)
    ensures InBase(Numeral(t), 58) && Text(Numeral(t)) == t
  {
    forall i | 0 <= i < |t|
      ensures Numeral(t)[i] < 58 && CharOf(Numeral(t)[i]) == t[i]
    {
      AlphabetBack(t[i]);
    }
  }

  lemma NothingToTrim(t: string)
    requires IsText(t)
    ensures Trim(t) == t
  {
    if t != [] {
      AlphabetBack(t[0]);
      AlphabetBack(t[|t| - 1]);
    }
  }

  // Decoding what was encoded gives the bytes back.
  lemma EncodeDecode(vch: seq<nat>)
    requires InBase(vch, 256)
    ensures Decoding(Encoding(vch)) == Some(vch)
  {
    hide Converted, Trim, Text, Numeral;
    ConvertedBack(vch, 256, 58);
    TextBack(Converted(vch, 256, 58));
    NothingToTrim(Encoding(vch));
  }

  // The text is the same number in base 58, with a '1' for each leading zero byte.
  lemma EncodingIs(vch: seq<nat>)
    requires InBase(vch, 256)
    ensures var digits := Converted(vch, 256, 58);
            && InBase(digits, 58) && |Encoding(vch)| == |digits|
            && (forall i | 0 <= i < |digits| :: Encoding(vch)[i] == CharOf(digits[i]))
            && Num(digits, 58) == Num(vch, 256) && LeadingZeroes(digits) == LeadingZeroes(vch)
  {
    hide Converted, Num, LeadingZeroes, CharOf;
    ConvertedBack(vch, 256, 58);
  }

  lemma EncodingExample()
    ensures InBase([0, 0x61], 256) && Encoding([0, 0x61]) == "12g"
  {
    assert [0, 0x61][..1] == [0] && [0][..0] == [] && [0, 0x61][1..] == [0x61];
    assert Num([0], 256) == 0 && Num([0, 0x61], 256) == 97;
    assert Digits(97, 58) == [1, 39];
    assert LeadingZeroes([0, 0x61]) == 1;
    assert Converted([0, 0x61], 256, 58) == [0, 1, 39];
  }

  // Encoding what was decoded gives the text back, without spaces around it.
  lemma DecodeEncode(t: string)
    requires Decoding(t).Some?
    ensures InBase(Decoding(t).value, 256) && Encoding(Decoding(t).value) == Trim(t)
  {
    hide Converted, Trim, Text, Numeral;
    NumeralBack(Trim(t));
    ConvertedBack(Numeral(Trim(t)), 58, 256);
  }

  // -------------------------------------------------------------- EncodeBase58

  lemma {:induction false} ZeroesCounted(s: seq<nat>, z: nat)
    requires z <= |s| && (forall i | 0 <= i < z :: s[i] == 0) && (z < |s| ==> s[z] != 0)
    ensures LeadingZeroes(s) == z
  {
    assert s == Zeroes(z) + s[z..];
    ZeroesThen(z, s[z..]);
  }

  // The digits of a buffer without its leading zeroes.
  method Significant(buf: array<nat>, length: nat, base: nat) returns (digits: seq<nat>)
    requires base >= 2 && InBase(buf[..], base) && ZeroAbove(buf[..], length)
    ensures digits == Digits(Num(buf[..], base), base) && InBase(digits, base)
  {
    hide Num, Digits;
    var it := buf.Length - length;
    while it != buf.Length && buf[it] == 0
      invariant buf.Length - length <= it <= buf.Length
      invariant forall k | 0 <= k < it :: buf[k] == 0
    {
      it := it + 1;
    }
    digits := buf[it..];
    assert buf[..] == Zeroes(it) + digits;
    NumZeroes(it, digits, base);
    DigitsNum(digits, base);
  }

  // The next digit still fits into the buffer.
  lemma StillFits(s: seq<nat>, k: nat, b: nat, c: nat, size: nat)
    requires InBase(s, b) && k < |s| && b > 0 && Pow(b, |s|) <= Pow(c, size)
    ensures Num(s[..k + 1], b) == Num(s[..k], b) * b + s[k] < Pow(c, size)
  {
    hide Pow;
    assert s[..k + 1][..k] == s[..k];
    NumBound(s[..k + 1], b);
    PowExponent(b, k + 1, |s|);
  }

  lemma NumOfZeroes(s: seq<nat>, b: nat)
    requires forall i | 0 <= i < |s| :: s[i] == 0
    ensures Num(s, b) == 0
  {
    assert s == Zeroes(|s|) + [];
    NumZeroes(|s|, [], b);
  }

  method EncodeBase58(vch: seq<nat>) returns (str: string)
    requires InBase(vch, 256)
    ensures str == Encoding(vch)
  {
    hide Num, Digits, Pow, LeadingZeroes, CharOf;
    var zeroes := 0;
    while zeroes < |vch| && vch[zeroes] == 0
      invariant 0 <= zeroes <= |vch| && forall i | 0 <= i < zeroes :: vch[i] == 0
    {
      zeroes := zeroes + 1;
    }
    ZeroesCounted(vch, zeroes);
    var rest := vch[zeroes..];
    assert vch == Zeroes(zeroes) + rest;
    NumZeroes(zeroes, rest, 256);
    var buf, length := ToBase58(rest);
    var digits := Significant(buf, length, 58);
    ConvertedBack(vch, 256, 58);
    assert Converted(vch, 256, 58) == Zeroes(zeroes) + digits;
    str := seq(zeroes, _ => '1');
    Ones(zeroes);
    for i := 0 to |digits|
      invariant str == Text(Zeroes(zeroes) + digits[..i])
    {
      var next := CharOf(digits[i]);
      assert Zeroes(zeroes) + digits[..i + 1] == Zeroes(zeroes) + digits[..i] + [digits[i]];
      str := str + [next];
    }
    assert digits[..|digits|] == digits;
  }

  lemma Ones(n: nat)
    ensures InBase(Zeroes(n) + [], 58) && Text(Zeroes(n) + []) == seq(n, _ => '1')
  {
    assert CharOf(0) == '1';
  }

  method ToBase58(rest: seq<nat>) returns (b58: array<nat>, length: nat)
    requires InBase(rest, 256)
    ensures InBase(b58[..], 58) && ZeroAbove(b58[..], length) && Num(b58[..], 58) == Num(rest, 256)
  {
    hide Num, Pow;
    var size := Reserved58(|rest|);
    ReservedSuffices(|rest|);
    b58 := new nat[size](_ => 0);
    length := 0;
    NumOfZeroes(b58[..], 58);
    NumOfZeroes(rest[..0], 256);
    for k := 0 to |rest|
      invariant b58.Length == size && InBase(b58[..], 58) && ZeroAbove(b58[..], length)
      invariant Num(b58[..], 58) == Num(rest[..k], 256)
    {
      StillFits(rest, k, 256, 58, size);
      length := MulAdd(b58, 256, 58, rest[k], length);
    }
    assert rest[..|rest|] == rest;
  }

  // -------------------------------------------------------------- DecodeBase58

  method SkipSpaces(psz: string, start: nat) returns (p: nat)
    requires start <= |psz|
    ensures start <= p <= |psz| && (forall i | start <= i < p :: IsSpace(psz[i])) && (p < |psz| ==> !IsSpace(psz[p]))
  {
    p := start;
    while p < |psz| && IsSpace(psz[p])
      invariant start <= p <= |psz| && forall i | start <= i < p :: IsSpace(psz[i])
    {
      p := p + 1;
    }
  }

  lemma {:induction false} TrimsLeft(t: string, p: nat)
    requires p <= |t| && (forall i | 0 <= i < p :: IsSpace(t[i])) && (p < |t| ==> !IsSpace(t[p]))
    ensures TrimLeft(t) == t[p..]
  {
    if p > 0 {
      TrimsLeft(t[1..], p - 1);
    }
  }

  lemma {:induction false} TrimsRight(t: string, q: nat)
    requires q <= |t| && (forall i | q <= i < |t| :: IsSpace(t[i])) && (q > 0 ==> !IsSpace(t[q - 1]))
    ensures TrimRight(t) == t[..q]
  {
    if q < |t| {
      TrimsRight(t[..|t| - 1], q);
    }
  }

  // Space inside is not trimmed away.
  lemma {:induction false} KeepsInside(t: string, i: nat, j: nat)
    requires i < j < |t| && !IsSpace(t[j])
    ensures i < |TrimRight(t)| && TrimRight(t)[i] == t[i]
  {
    if IsSpace(t[|t| - 1]) {
      KeepsInside(t[..|t| - 1], i, j);
    }
  }

  lemma {:induction false} KeepsLast(t: string, j: nat)
    requires j < |t| && !IsSpace(t[j])
    ensures j < |TrimRight(t)| && TrimRight(t)[j] == t[j]
  {
    if IsSpace(t[|t| - 1]) {
      KeepsLast(t[..|t| - 1], j);
    }
  }

  // The number behind the text after its leading '1's: all of t, up to its end.
  ghost predicate Reads(t: string, q: nat, z: nat, value: nat) {
    && z <= q <= |t| && (forall i | 0 <= i < z :: t[i] == '1') && (z < |t| ==> t[z] != '1')
    && IsText(t[..q]) && Num(Numeral(t[..q]), 58) == value
  }

  lemma OneIsZero(c: char)
    ensures DigitOf(c) == 0 <==> c == '1'
  {
  }

  lemma SpaceIsNoDigit(c: char)
    ensures IsSpace(c) ==> DigitOf(c) == -1
    ensures DigitOf(c) == -1 || 0 <= DigitOf(c) < 58
  {
  }

  lemma ReadsOnes(t: string, z: nat)
    requires z <= |t| && (forall i | 0 <= i < z :: t[i] == '1') && (z < |t| ==> t[z] != '1')
    ensures Reads(t, z, z, 0)
  {
    hide Num, DigitOf;
    OneIsZero('1');
    NumOfZeroes(Numeral(t[..z]), 58);
  }

  lemma BadCharacter(t: string, q: nat)
    requires q < |t| && DigitOf(t[q]) == -1 && !IsSpace(t[q])
    ensures !IsText(TrimRight(t))
  {
    hide DigitOf, IsSpace, TrimRight, IsText;
    KeepsLast(t, q);
    NotText(TrimRight(t), q);
  }

  lemma NotText(t: string, i: nat)
    requires i < |t| && DigitOf(t[i]) == -1
    ensures !IsText(t)
  {
    hide DigitOf;
  }

  lemma SpaceInside(t: string, q: nat, end: nat)
    requires q < end < |t| && IsSpace(t[q]) && !IsSpace(t[end])
    ensures !IsText(TrimRight(t))
  {
    hide DigitOf, IsSpace, TrimRight, IsText;
    KeepsInside(t, q, end);
    SpaceIsNoDigit(t[q]);
    NotText(TrimRight(t), q);
  }

  lemma ReadsNext(t: string, q: nat, z: nat, value: nat, size: nat)
    requires Reads(t, q, z, value) && q < |t| && DigitOf(t[q]) >= 0 && Pow(58, |t| - z) <= Pow(256, size)
    ensures DigitOf(t[q]) < 58 && value * 58 + DigitOf(t[q]) < Pow(256, size)
    ensures Reads(t, q + 1, z, value * 58 + DigitOf(t[q]))
  {
    hide Num, Pow, DigitOf;
    SpaceIsNoDigit(t[q]);
    var u, v := t[..q], t[..q + 1];
    forall i | 0 <= i < |v|
      ensures DigitOf(v[i]) >= 0
    {
      assert i < q ==> v[i] == u[i];
    }
    var n := Numeral(v);
    assert n[..q] == Numeral(u);
    NumStep(n, 58);
    NumeralBack(v);
    OneIsZero('1');
    assert n == Zeroes(z) + n[z..];
    NumZeroes(z, n[z..], 58);
    NumBound(n[z..], 58);
    PowExponent(58, q + 1 - z, |t| - z);
  }

  lemma NumStep(s: seq<nat>, b: nat)
    requires s != []
    ensures Num(s, b) == Num(s[..|s| - 1], b) * b + s[|s| - 1]
  {
  }

  lemma ReadsAll(t: string, q: nat, z: nat, value: nat)
    requires Reads(t, q, z, value) && forall i | q <= i < |t| :: IsSpace(t[i])
    ensures TrimRight(t) == t[..q]
  {
    hide Num, DigitOf, IsSpace, TrimRight;
    if q > 0 {
      assert t[..q][q - 1] == t[q - 1];
      SpaceIsNoDigit(t[q - 1]);
    }
    TrimsRight(t, q);
  }

  lemma ReadsConverted(u: string, z: nat, value: nat)
    requires Reads(u, |u|, z, value)
    ensures IsText(u) && Converted(Numeral(u), 58, 256) == Zeroes(z) + Digits(value, 256)
  {
    hide Num, DigitOf, Digits;
    assert u[..|u|] == u;
    OneIsZero('1');
    if z < |u| {
      OneIsZero(u[z]);
    }
    ZeroesCounted(Numeral(u), z);
  }

  lemma ReadsPrefix(t: string, q: nat, z: nat, value: nat)
    requires Reads(t, q, z, value)
    ensures Reads(t[..q], q, z, value)
  {
    hide Num, DigitOf;
    assert t[..q][..q] == t[..q];
  }

  // Reads characters up to a space or the end.
  method ReadDigits(psz: string, start: nat, zeroes: nat) returns (ok: bool, p: nat, b256: array<nat>, length: nat)
    requires start + zeroes <= |psz| && Reads(psz[start..], zeroes, zeroes, 0)
    ensures !ok ==> !IsText(TrimRight(psz[start..]))
    ensures ok ==> start + zeroes <= p <= |psz| && (p < |psz| ==> IsSpace(psz[p]))
    ensures ok ==> InBase(b256[..], 256) && ZeroAbove(b256[..], length)
    ensures ok ==> Reads(psz[start..], p - start, zeroes, Num(b256[..], 256))
  {
    hide Num, Pow, Reads, DigitOf, IsSpace, IsText, TrimRight;
    ghost var t := psz[start..];
    p := start + zeroes;
    var size := Reserved256(|psz| - p);
    ReservedSuffices(|psz| - p);
    b256 := new nat[size](_ => 0);
    length := 0;
    NumOfZeroes(b256[..], 256);
    while p < |psz| && !IsSpace(psz[p])
      invariant start + zeroes <= p <= |psz| && b256.Length == size
      invariant InBase(b256[..], 256) && ZeroAbove(b256[..], length)
      invariant Reads(t, p - start, zeroes, Num(b256[..], 256))
    {
      var digit := DigitOf(psz[p]);
      SpaceIsNoDigit(psz[p]);
      if digit == -1 {
        BadCharacter(t, p - start);
        ok := false;
        return;
      }
      ReadsNext(t, p - start, zeroes, Num(b256[..], 256), size);
      length := MulAdd(b256, 58, 256, digit, length);
      p := p + 1;
    }
    ok := true;
  }

  method DecodeBase58(psz: string) returns (r: Option<seq<nat>>)
    ensures r == Decoding(psz)
  {
    hide Num, Digits, Reads, LeadingZeroes, DigitOf, IsSpace, IsText, TrimLeft, TrimRight, Converted;
    var start := SkipSpaces(psz, 0);
    TrimsLeft(psz, start);
    ghost var t := psz[start..];
    var p := start;
    while p < |psz| && psz[p] == '1'
      invariant start <= p <= |psz| && forall i | start <= i < p :: psz[i] == '1'
    {
      p := p + 1;
    }
    var zeroes := p - start;
    ReadsOnes(t, zeroes);
    var ok, q, b256, length := ReadDigits(psz, start, zeroes);
    if !ok {
      return None;
    }
    var end := SkipSpaces(psz, q);
    if end != |psz| {
      SpaceInside(t, q - start, end - start);
      return None;
    }
    ReadsAll(t, q - start, zeroes, Num(b256[..], 256));
    var digits := Significant(b256, length, 256);
    r := Some(seq(zeroes, _ => 0) + digits);
    ReadsPrefix(t, q - start, zeroes, Num(b256[..], 256));
    ReadsConverted(t[..q - start], zeroes, Num(b256[..], 256));
  }
}
