/** Integer printing, src/sprintf.c (`_x_makenum`), for a 64-bit `long`. */
module Numbers {
  import opened Basics
  import opened Seqs

  const ULONG := 0x1_0000_0000_0000_0000
  const LONG_MIN := -0x8000_0000_0000_0000
  const LONG_MAX := 0x7fff_ffff_ffff_ffff

  predicate IsLong(n: int) {
    LONG_MIN <= n <= LONG_MAX
  }

  function Rev(s: string): (r: string)
    ensures |r| == |s|
  {
    seq(|s|, i requires 0 <= i < |s| => s[|s| - 1 - i])
  }

  lemma RevSnoc(s: string, c: char)
    ensures Rev(s + [c]) == [c] + Rev(s)
  {
  }

  function Repeat(c: char, n: int): (r: string)
    ensures |r| == if n > 0 then n else 0
    ensures forall i :: 0 <= i < |r| ==> r[i] == c
  {
    if n <= 0 then "" else [c] + Repeat(c, n - 1)
  }

  /** The static digit table: 0 to 9, then a to z. */
  function Digit(d: nat): char
    requires d < 36
  {
    if d < 10 then '0' + d as char else 'a' + (d - 10) as char
  }

  /** The digits of n in the base, most significant first; nothing for 0. */
  function Digits(n: nat, base: nat): string
    requires 2 <= base <= 36
  {
    if n == 0 then "" else Digits(n / base, base) + [Digit(n % base)]
  }

  function Numeral(n: nat, base: nat): string
    requires 2 <= base <= 36
  {
    if n == 0 then "0" else Digits(n, base)
  }

  // ---- what the caller asked for ----

  /** The number whose digits appear: the value itself when a sign was asked for, its
      unsigned reading otherwise. */
  function Magnitude(num: int, signchar: char): (m: nat)
    requires IsLong(num)
    ensures m < ULONG
  {
    if signchar != NUL && num < 0 then -num else num % ULONG
  }

  function SignOf(num: int, signchar: char): (s: string)
    ensures |s| <= 1
  {
    if signchar == NUL then "" else if num < 0 then "-" else if signchar == ' ' then "" else [signchar]
  }

  /** The digits with zeros in front up to the minimum number of digits. */
  function Figures(num: int, base: nat, mindigits: nat, signchar: char): string
    requires IsLong(num) && 2 <= base <= 36
  {
    var d := Numeral(Magnitude(num, signchar), base);
    Repeat('0', mindigits - |d|) + d
  }

  /** Sign before zero padding, after any other; without a pad character spaces go in
      front all the same. */
  function Place(f: string, s: string, minsize: nat, padchar: char): string {
    var n := minsize - |f| - |s|;
    if padchar == '0' then s + (Repeat('0', n) + f)
    else Repeat(if padchar == NUL then ' ' else padchar, n) + (s + f)
  }

  function Layout(num: int, base: nat, minsize: nat, mindigits: nat, padchar: char, signchar: char): string
    requires IsLong(num) && 2 <= base <= 36
  {
    Place(Figures(num, base, mindigits, signchar), SignOf(num, signchar), minsize, padchar)
  }

  // ---- the code ----

  /** The digit loop; the buffer holds the number back to front. */
  method DigitLoop(num: nat, base: nat) returns (newstr: string)
    requires 2 <= base <= 36
    ensures Rev(newstr) == Numeral(num, base)
  {
    newstr := "";
    if num == 0 {
      return "0";
    }
    var n := num;
    while n != 0
      invariant 0 <= n
      invariant Digits(n, base) + Rev(newstr) == Digits(num, base)
      decreases n
    {
      DivMod(n, base);
      var c := Digit(n % base);
      ghost var rest, was := Digits(n / base, base), Rev(newstr);
      assert Digits(n, base) == rest + [c];
      RevSnoc(newstr, c);
      Associative(rest, [c], was);
      newstr := newstr + [c];
      n := n / base;
    }
  }

  /** `while (count--)` appending one character each time. */
  method AppendTimes(s: string, c: char, count: nat) returns (r: string)
    ensures Rev(r) == Repeat(c, count) + Rev(s)
    ensures |r| == |s| + count && s <= r
  {
    r := s;
    var k := count;
    while k > 0
      invariant 0 <= k <= count && |r| == |s| + count - k && s <= r
      invariant Rev(r) == Repeat(c, count - k) + Rev(s)
    {
      RevSnoc(r, c);
      Associative([c], Repeat(c, count - k), Rev(s));
      r := r + [c];
      k := k - 1;
    }
  }

  /** The final loop, swapping from both ends. */
  method Reverse(a: array<char>)
    modifies a
    ensures a[..] == Rev(old(a[..]))
  {
    var n := a.Length;
    var i, j := n - 1, 0;
    ghost var was := a[..];
    while i > j
      invariant 0 <= j <= n && i == n - 1 - j && (n > 0 ==> j <= i + 1)
      invariant forall k {:trigger a[k]} :: 0 <= k < j ==> a[k] == was[n - 1 - k]
      invariant forall k {:trigger a[k]} :: i < k < n ==> a[k] == was[n - 1 - k]
      invariant forall k {:trigger a[k]} :: j <= k <= i ==> a[k] == was[k]
    {
      a[i], a[j] := a[j], a[i];
      i := i - 1;
      j := j + 1;
    }
  }

  /** `_x_makenum` */
  method MakeNum(num: int, base: int, minsize: int, mindigits: int, padchar: char, signchar: char)
    returns (r: Option<string>)
    requires IsLong(num)
    ensures r.None? <==> base < 2 || base > 36 || minsize < 0 || mindigits < 0
    ensures r.Some? ==> r.value == Layout(num, base, minsize, mindigits, padchar, signchar)
  {
    if base < 2 || base > 36 || minsize < 0 || mindigits < 0 {
      return None;
    }
    var newstr, sign := SignAndFigures(num, base, mindigits, signchar);
    ghost var f, s := Figures(num, base, mindigits, signchar), SignOf(num, signchar);
    newstr := PadAndSign(newstr, minsize, padchar, sign);
    newstr := TurnRound(newstr, minsize, padchar);
    PaddedIsPlaced(f, s, minsize, padchar);
    return Some(newstr);
  }

  lemma PaddedIsPlaced(f: string, s: string, minsize: nat, padchar: char)
    requires |s| <= 1
    ensures var p := Padded(f, minsize, padchar, s);
            (if padchar == NUL then Repeat(' ', minsize - |p|) + p else p) == Place(f, s, minsize, padchar)
  {
  }

  method SignAndFigures(num: int, base: nat, mindigits: nat, signchar: char) returns (newstr: string, sign: char)
    requires IsLong(num) && 2 <= base <= 36
    ensures Rev(newstr) == Figures(num, base, mindigits, signchar)
    ensures SignOf(num, signchar) == if sign == NUL then "" else [sign]
  {
    sign := signchar;
    var n := num;
    if sign != NUL {
      if n < 0 {
        sign := '-';
        n := if n == LONG_MIN then LONG_MIN else -n;
      }
    }
    if sign == ' ' {
      sign := NUL;
    }
    assert n % ULONG == Magnitude(num, signchar);
    newstr := DigitLoop(n % ULONG, base);
    if |newstr| < mindigits {
      newstr := AppendTimes(newstr, '0', mindigits - |newstr|);
    }
  }

  /** The reversal, and the spaces put in front when there is no pad character. */
  method TurnRound(s: string, minsize: nat, padchar: char) returns (r: string)
    ensures r == if padchar == NUL then Repeat(' ', minsize - |s|) + Rev(s) else Rev(s)
  {
    var a := new char[|s|](i requires 0 <= i < |s| => s[i]);
    assert a[..] == s;
    Reverse(a);
    r := a[..];
    if |r| < minsize && padchar == NUL {
      var spaces := AppendTimes("", ' ', minsize - |r|);
      RevRepeat(spaces, ' ');
      r := spaces + r;
    }
  }

  lemma RevRepeat(s: string, c: char)
    requires Rev(s) == Repeat(c, |s|)
    ensures s == Repeat(c, |s|)
  {
    forall i | 0 <= i < |s| ensures s[i] == c {
      RevAt(s, |s| - 1 - i);
    }
  }

  lemma RevAt(s: string, j: nat)
    requires j < |s|
    ensures Rev(s)[j] == s[|s| - 1 - j]
  {
  }

  /** What the back-to-front buffer becomes before it is turned round. */
  function Padded(f: string, minsize: nat, padchar: char, sign: string): string
    requires |sign| <= 1
  {
    var n := minsize - |f| - |sign|;
    if padchar == '0' then sign + (Repeat('0', n) + f)
    else if padchar == NUL then sign + f
    else Repeat(padchar, n) + (sign + f)
  }

  method PadAndSign(s: string, minsize: nat, padchar: char, signchar: char) returns (r: string)
    ensures Rev(r) == Padded(Rev(s), minsize, padchar, if signchar == NUL then "" else [signchar])
  {
    r := s;
    var sign := signchar;
    if sign != NUL && padchar != '0' {
      r := Append(r, sign);
      sign := NUL;
    }
    if |r| < minsize && padchar != NUL {
      r := PadTo(r, minsize, padchar, sign);
      sign := NUL;
    }
    if sign != NUL {
      r := Append(r, sign);
    }
  }

  method Append(s: string, c: char) returns (r: string)
    ensures |r| == |s| + 1 && Rev(r) == [c] + Rev(s)
  {
    RevSnoc(s, c);
    r := s + [c];
  }

  /** The padding; a sign still to come takes the place of the last zero. */
  method PadTo(s: string, minsize: nat, padchar: char, sign: char) returns (r: string)
    requires |s| < minsize && (sign != NUL ==> padchar == '0')
    ensures var n := minsize - |s|;
            Rev(r) == if sign == NUL then Repeat(padchar, n) + Rev(s) else [sign] + (Repeat('0', n - 1) + Rev(s))
  {
    r := AppendTimes(s, padchar, minsize - |s|);
    if sign != NUL {
      SetFirst(r, sign, Rev(s));
      r := r[|r| - 1 := sign];
    }
  }

  lemma SetFirst(r: string, c: char, rest: string)
    requires |r| > |rest| && Rev(r) == Repeat('0', |r| - |rest|) + rest
    ensures Rev(r[|r| - 1 := c]) == [c] + (Repeat('0', |r| - |rest| - 1) + rest)
  {
    var q := r[|r| - 1 := c];
    assert Repeat('0', |r| - |rest|) == ['0'] + Repeat('0', |r| - |rest| - 1);
    forall i | 0 <= i < |r|
      ensures Rev(q)[i] == ([c] + (Repeat('0', |r| - |rest| - 1) + rest))[i]
    {
      if i > 0 {
        assert Rev(q)[i] == Rev(r)[i];
      }
    }
  }

  // ---- the printed number reads back ----

  predicate IsDigit(c: char) {
    '0' <= c <= '9' || 'a' <= c <= 'z'
  }

  function DigitValue(c: char): int {
    if '0' <= c <= '9' then c as int - '0' as int else c as int - 'a' as int + 10
  }

  predicate AllDigits(s: string, base: nat) {
    forall i :: 0 <= i < |s| ==> IsDigit(s[i]) && DigitValue(s[i]) < base
  }

  lemma DigitReads(d: nat)
    requires d < 36
    ensures IsDigit(Digit(d)) && DigitValue(Digit(d)) == d && (d > 0 ==> Digit(d) != '0')
  {
  }

  /** The value of a digit string in the base. */
  function Eval(s: string, base: nat): int {
    if s == "" then 0 else Eval(s[..|s| - 1], base) * base + DigitValue(s[|s| - 1])
  }

  lemma DivMod(n: nat, base: nat)
    requires base >= 2
    ensures n / base >= 0 && n / base * base + n % base == n
    ensures 0 <= n % base < base
    ensures n > 0 ==> n / base < n
    ensures n / base == 0 ==> n % base == n
  {
    var q := n / base;
    assert q * base + n % base == n;
    Doubles(q, base);
  }

  lemma Doubles(q: int, base: nat)
    requires base >= 2
    ensures q >= 0 ==> q * base >= q + q
    ensures q < 0 ==> q * base + base <= 0
  {
  }

  lemma LastDigit(n: nat, base: nat) returns (q: nat, c: char)
    requires 2 <= base <= 36 && n > 0
    ensures Digits(n, base) == Digits(q, base) + [c] && q < n
    ensures IsDigit(c) && q * base + DigitValue(c) == n && (q == 0 ==> c != '0')
    ensures DigitValue(c) < base
  {
    DivMod(n, base);
    DigitReads(n % base);
    q, c := n / base, Digit(n % base);
  }

  lemma {:induction false} DigitsEval(n: nat, base: nat)
    requires 2 <= base <= 36
    ensures Eval(Digits(n, base), base) == n
    ensures AllDigits(Digits(n, base), base)
    ensures n > 0 ==> Digits(n, base) != "" && Digits(n, base)[0] != '0'
  {
    if n > 0 {
      var q, c := LastDigit(n, base);
      DigitsEval(q, base);
      SnocReads(Digits(q, base), c, base);
      assert q > 0 ==> (Digits(q, base) + [c])[0] == Digits(q, base)[0];
    }
  }

  lemma SnocReads(d: string, c: char, base: nat)
    requires IsDigit(c) && DigitValue(c) < base && AllDigits(d, base)
    ensures Eval(d + [c], base) == Eval(d, base) * base + DigitValue(c)
    ensures AllDigits(d + [c], base)
  {
  }

  lemma EvalSnoc(d: string, c: char, base: nat)
    ensures Eval(d + [c], base) == Eval(d, base) * base + DigitValue(c)
  {
  }

  lemma {:induction false} EvalLeadingZeros(n: int, s: string, base: nat)
    ensures Eval(Repeat('0', n) + s, base) == Eval(s, base)
  {
    var z := Repeat('0', n);
    if s == "" {
      assert z + s == z;
      if n > 0 {
        EvalLeadingZeros(n - 1, "", base);
        assert Repeat('0', n - 1) + "" == Repeat('0', n - 1);
        assert z[..|z| - 1] == Repeat('0', n - 1);
        assert Eval(z, base) == 0 * base + 0;
      }
    } else {
      EvalLeadingZeros(n, s[..|s| - 1], base);
      assert (z + s)[..|z + s| - 1] == z + s[..|s| - 1];
    }
  }

  function MaxInt(a: int, b: int): int {
    if a > b then a else b
  }

  lemma AsUnsigned(num: int)
    requires IsLong(num)
    ensures num % ULONG == if num >= 0 then num else num + ULONG
  {
  }

  /** Round trip: the figures that are printed, read in the base, are the absolute value of a
      number that is to have a sign and the 64-bit unsigned value of any other, and there are
      as many as the number or the caller needs. */
  lemma FiguresReadBack(num: int, base: nat, mindigits: nat, signchar: char)
    requires IsLong(num) && 2 <= base <= 36
    ensures var f := Figures(num, base, mindigits, signchar);
            && Eval(f, base) == (if num >= 0 then num else if signchar != NUL then -num else num + ULONG)
            && |f| == MaxInt(|Numeral(Magnitude(num, signchar), base)|, mindigits)
            && AllDigits(f, base)
  {
    var m := Magnitude(num, signchar);
    AsUnsigned(num);
    NumeralEval(m, base);
    ZeroFilled(Numeral(m, base), mindigits, base);
  }

  /** The sign is `-` for a negative number that is to have one, none for another if a blank was
      asked for, and otherwise what was asked for; figures and sign are all there in their places,
      nothing but the padding is before them, and the length is the larger of the width and
      what they need. */
  lemma LayoutHolds(num: int, base: nat, minsize: nat, mindigits: nat, padchar: char, signchar: char)
    returns (f: string, s: string, r: string)
    requires IsLong(num) && 2 <= base <= 36
    ensures f == Figures(num, base, mindigits, signchar)
    ensures s == if signchar == NUL || (num >= 0 && signchar == ' ') then "" else [if num < 0 then '-' else signchar]
    ensures r == Layout(num, base, minsize, mindigits, padchar, signchar)
    ensures Placed(r, f, s, minsize, padchar, base)
    ensures signchar != '-' && padchar != '-' ==> ('-' in r <==> signchar != NUL && num < 0)
  {
    f, s := Figures(num, base, mindigits, signchar), SignOf(num, signchar);
    r := Place(f, s, minsize, padchar);
    FiguresReadBack(num, base, mindigits, signchar);
    PlaceHolds(f, s, minsize, padchar, base);
  }

  predicate Placed(r: string, f: string, s: string, minsize: nat, padchar: char, base: nat) {
    && |r| == MaxInt(minsize, |f| + |s|)
    && r[|r| - |f|..] == f
    && (padchar == '0' ==> r[..|s|] == s && Eval(r[|s|..], base) == Eval(f, base))
    && (padchar == '0' ==> forall i :: |s| <= i < |r| - |f| ==> r[i] == '0')
    && (padchar != '0' ==> r[|r| - |f| - |s|..|r| - |f|] == s)
    && (padchar != '0' ==> forall i :: 0 <= i < |r| - |f| - |s| ==> r[i] == if padchar == NUL then ' ' else padchar)
    && (padchar != '-' ==> ('-' in r <==> '-' in s))
  }

  lemma PlaceHolds(f: string, s: string, minsize: nat, padchar: char, base: nat)
    requires |s| <= 1 && AllDigits(f, base)
    ensures Placed(Place(f, s, minsize, padchar), f, s, minsize, padchar, base)
  {
    var n := minsize - |f| - |s|;
    DigitsNoMinus(f, base);
    if padchar == '0' {
      EvalLeadingZeros(n, f, base);
      ZerosPlaced(Repeat('0', n), f, s, minsize, base);
    } else {
      PadPlaced(Repeat(if padchar == NUL then ' ' else padchar, n), f, s, minsize, padchar, base);
    }
  }

  lemma ZerosPlaced(zeros: string, f: string, s: string, minsize: nat, base: nat)
    requires |zeros| == MaxInt(minsize - |f| - |s|, 0) && '-' !in f
    requires forall i :: 0 <= i < |zeros| ==> zeros[i] == '0'
    requires Eval(zeros + f, base) == Eval(f, base)
    ensures Placed(s + (zeros + f), f, s, minsize, '0', base)
  {
    SplitsAs(s, zeros, f);
    MinusIn(s, zeros, f);
  }

  lemma PadPlaced(pad: string, f: string, s: string, minsize: nat, padchar: char, base: nat)
    requires |pad| == MaxInt(minsize - |f| - |s|, 0) && padchar != '0' && '-' !in f
    requires forall i :: 0 <= i < |pad| ==> pad[i] == if padchar == NUL then ' ' else padchar
    ensures Placed(pad + (s + f), f, s, minsize, padchar, base)
  {
    SplitsAs(pad, s, f);
    MinusIn(pad, s, f);
  }

  lemma DigitsNoMinus(f: string, base: nat)
    requires AllDigits(f, base)
    ensures '-' !in f
  {
  }

  lemma MinusIn(x: string, y: string, z: string)
    ensures '-' in x + (y + z) <==> '-' in x || '-' in y || '-' in z
  {
  }

  lemma ZeroFilled(d: string, mindigits: nat, base: nat)
    requires base > 0 && AllDigits(d, base)
    ensures var f := Repeat('0', mindigits - |d|) + d;
            && Eval(f, base) == Eval(d, base) && |f| == MaxInt(|d|, mindigits)
            && AllDigits(f, base)
  {
    EvalLeadingZeros(mindigits - |d|, d, base);
  }

  lemma SplitsAs(x: string, y: string, z: string)
    ensures var r := x + (y + z);
            && r[..|x|] == x && r[|x|..] == y + z && r[|r| - |z|..] == z
            && r[|r| - |z| - |y|..|r| - |z|] == y
  {
  }

  lemma NumeralEval(n: nat, base: nat)
    requires 2 <= base <= 36
    ensures Eval(Numeral(n, base), base) == n && Numeral(n, base) != ""
    ensures AllDigits(Numeral(n, base), base)
  {
    DigitsEval(n, base);
    if n == 0 {
      assert "0"[..0] == "";
    }
  }
}
