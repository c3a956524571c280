/** Escaping strings, and undoing it. */
module Escape {
  import opened Arith

  /** `char` is signed. */
  type Char = c: int | -128 <= c < 128

  const BACKSLASH: Char := 92

  // ---- Digits

  function DigitValue(c: Char): int {
    if '0' as int <= c <= '9' as int then c - '0' as int
    else if 'A' as int <= c <= 'Z' as int then c - 'A' as int + 10
    else if 'a' as int <= c <= 'z' as int then c - 'a' as int + 10
    else -1
  }

  function DigitChar(n: int): Char {
    if !(0 <= n <= 35) then '?' as int
    else if n <= 9 then '0' as int + n
    else 'a' as int + (n - 10)
  }

  lemma DigitRoundTrip(n: int)
    ensures 0 <= n <= 35 ==> DigitValue(DigitChar(n)) == n
    ensures !(0 <= n <= 35) ==> DigitValue(DigitChar(n)) == -1
  {}

  /** The number that `s` spells after the digits of `v`, up to a NUL; -1 if it has other characters. */
  function Number(v: nat, s: seq<Char>, base: nat): int
    decreases |s|
  {
    if s == [] || s[0] == 0 then v
    else if 0 <= DigitValue(s[0]) < base then Number(v * base + DigitValue(s[0]), s[1..], base)
    else -1
  }

  lemma NumberStep(v: nat, s: seq<Char>, base: nat)
    ensures s == [] || s[0] == 0 ==> Number(v, s, base) == v
    ensures s != [] && s[0] != 0 && !(0 <= DigitValue(s[0]) < base) ==> Number(v, s, base) == -1
    ensures s != [] && s[0] != 0 && 0 <= DigitValue(s[0]) < base ==>
              v * base >= 0 && Number(v, s, base) == Number(v * base + DigitValue(s[0]), s[1..], base)
  {}

  method StrNum(s: seq<Char>, base: int) returns (v: int)
    ensures v == if 1 <= base <= 36 then Number(0, s, base) else -1
  {
    if !(1 <= base <= 36) {
      return -1;
    }
    hide *;
    v := 0;
    assert s[0..] == s;
    var i := 0;
    while i < |s|
      invariant 0 <= i <= |s| && v >= 0 && Number(0, s, base) == Number(v, s[i..], base)
    {
      NumberStep(v, s[i..], base);
      if s[i] == 0 {
        return;
      }
      var d := DigitValue(s[i]);
      if !(0 <= d <= base - 1) {
        return -1;
      }
      assert s[i..][1..] == s[i + 1..];
      v := v * base + d;
      i := i + 1;
    }
    NumberStep(v, s[i..], base);
  }

  /** The same string with small letters. */
  function Lower(s: seq<Char>): (l: seq<Char>)
    ensures |l| == |s|
  {
    seq(|s|, i requires 0 <= i < |s| => if 'A' as int <= s[i] <= 'Z' as int then s[i] + 32 else s[i])
  }

  /** Numbers are read alike in capital and in small letters. */
  lemma {:induction false} CaseIgnored(v: nat, s: seq<Char>, base: nat)
    ensures Number(v, Lower(s), base) == Number(v, s, base)
    decreases |s|
  {
    if s != [] && s[0] != 0 && 0 <= DigitValue(s[0]) < base {
      assert v * base >= 0;
      assert Lower(s)[1..] == Lower(s[1..]);
      CaseIgnored(v * base + DigitValue(s[0]), s[1..], base);
    }
  }

  /** The digits of `n`. */
  function Spelled(n: nat, base: nat): seq<Char>
    requires base > 1
    decreases n
  {
    if n < base then [DigitChar(n)]
    else
      FewerDigits(n, base);
      Spelled(n / base, base) + [DigitChar(n % base)]
  }

  lemma FewerDigits(n: nat, base: nat)
    requires base > 1
    ensures 0 <= n / base && 0 <= n % base < base && n == n / base * base + n % base
    ensures n >= base ==> n / base < n
  {
    QuotientRemainder(n, base);
    AtLeast(n / base, base - 1);
    Distribute(base, 1, n / base);
  }

  lemma SpelledIs(n: nat, base: nat)
    requires base > 1
    ensures 0 <= n / base && 0 <= n % base < base
    ensures n < base ==> Spelled(n, base) == [DigitChar(n)]
    ensures n >= base ==> n / base < n && Spelled(n, base) == Spelled(n / base, base) + [DigitChar(n % base)]
  {
    hide DigitChar;
    FewerDigits(n, base);
  }

  lemma {:induction false} NumberThen(v: nat, s: seq<Char>, d: Char, base: nat)
    requires Number(v, s, base) >= 0 && (forall i :: 0 <= i < |s| ==> s[i] != 0) && 0 <= DigitValue(d) < base
    ensures Number(v, s + [d], base) == Number(v, s, base) * base + DigitValue(d)
    decreases |s|
  {
    hide DigitValue;
    NumberStep(v, s, base);
    if s == [] {
      DigitZero(d);
      NumberStep(v, [d], base);
      NumberStep(v * base + DigitValue(d), [d][1..], base);
      assert s + [d] == [d];
    } else {
      assert (s + [d])[1..] == s[1..] + [d];
      NumberStep(v, s + [d], base);
      NumberThen(v * base + DigitValue(s[0]), s[1..], d, base);
    }
  }

  lemma DigitZero(d: Char)
    ensures DigitValue(d) >= 0 ==> d != 0
  {}

  /** What the digits of a number spell is the number. */
  lemma {:induction false} SpelledBack(n: nat, base: nat)
    requires 2 <= base <= 36
    ensures Number(0, Spelled(n, base), base) == n
    ensures forall i :: 0 <= i < |Spelled(n, base)| ==> Spelled(n, base)[i] != 0
    decreases n
  {
    hide *;
    SpelledIs(n, base);
    FewerDigits(n, base);
    var d := if n < base then n else n % base;
    DigitRoundTrip(d);
    DigitNotNul(d);
    if n < base {
      NumberStep(0, [DigitChar(n)], base);
      NumberStep(n, [DigitChar(n)][1..], base);
    } else {
      SpelledBack(n / base, base);
      NumberThen(0, Spelled(n / base, base), DigitChar(d), base);
    }
  }

  lemma DigitNotNul(n: int)
    ensures DigitChar(n) != 0
  {}

  // ---- Escaping

  predicate Plain(c: Char) {
    32 <= c <= 126 && c != BACKSLASH
  }

  /** The letter of a short escape sequence. */
  function Letter(c: Char): (l: Char)
    ensures l != 0 ==> Meaning(l) == c
  {
    match c
    case 92 => BACKSLASH
    case 0 => '0' as int
    case 7 => 'a' as int
    case 8 => 'b' as int
    case 12 => 'f' as int
    case 10 => 'n' as int
    case 13 => 'r' as int
    case 9 => 't' as int
    case 11 => 'v' as int
    case _ => 0
  }

  /** What a short escape sequence stands for; -1 for no such sequence. */
  function Meaning(l: Char): Char {
    if l == '\'' as int || l == '\"' as int || l == BACKSLASH || l == '?' as int then l
    else if l == '0' as int then 0
    else if l == 'a' as int then 7
    else if l == 'b' as int then 8
    else if l == 'f' as int then 12
    else if l == 'n' as int then 10
    else if l == 'r' as int then 13
    else if l == 't' as int then 9
    else if l == 'v' as int then 11
    else -1
  }

  function Hex(c: Char): seq<Char> {
    [BACKSLASH, 'x' as int, DigitChar(c / 16), DigitChar(c % 16)]
  }

  function EscapeChar(c: Char): (e: seq<Char>)
    ensures 0 < |e| <= 4
  {
    if Plain(c) then [c] else if Letter(c) != 0 then [BACKSLASH, Letter(c)] else Hex(c)
  }

  function Escaped(s: seq<Char>): seq<Char> {
    if s == [] then [] else EscapeChar(s[0]) + Escaped(s[1..])
  }

  /** The escaped character where `room` bytes are left, if it fits.  Where there is no room for a
      hexadecimal sequence, a backslash and the character itself are written. */
  function EscapeChunk(c: Char, room: nat): (e: seq<Char>)
    requires room > 0
    ensures |e| <= room
  {
    if Plain(c) then [c]
    else if room <= 1 then []
    else if Letter(c) != 0 then [BACKSLASH, Letter(c)]
    else if room <= 3 then [BACKSLASH, c]
    else Hex(c)
  }

  /** The escaped string in a buffer of limited size. */
  function EscapeInto(s: seq<Char>, room: nat): (e: seq<Char>)
    ensures |e| <= room
  {
    if s == [] || room == 0 || EscapeChunk(s[0], room) == [] then []
    else EscapeChunk(s[0], room) + EscapeInto(s[1..], room - |EscapeChunk(s[0], room)|)
  }

  /** Four bytes for each character are room enough. */
  lemma {:induction false} EscapeFits(s: seq<Char>, room: nat)
    requires room >= 4 * |s|
    ensures EscapeInto(s, room) == Escaped(s)
  {
    if s != [] {
      EscapeFits(s[1..], room - |EscapeChar(s[0])|);
    }
  }

  // ---- Unescaping

  /** The character at the front of `t`, and how much of `t` it takes. */
  function UnescapeChar(t: seq<Char>): (r: (Char, nat))
    requires t != []
    ensures 0 < r.1 <= |t|
  {
    if t[0] == BACKSLASH && |t| > 1 then
      if t[1] == 'x' as int then
        if |t| > 3 && Number(0, t[2..4], 16) >= 0 then
          NumberBound(t[2..4]);
          (ToChar(Number(0, t[2..4], 16)), 4)
        else (t[0], 1)
      else if Meaning(t[1]) != -1 then (Meaning(t[1]), 2)
      else (t[0], 1)
    else (t[0], 1)
  }

  function ToChar(v: int): Char
    requires 0 <= v < 256
  {
    if v < 128 then v else v - 256
  }

  lemma NumberOfTwo(s: seq<Char>)
    requires |s| == 2
    ensures var x, y := DigitValue(s[0]), DigitValue(s[1]);
            Number(0, s, 16) == if s[0] == 0 then 0 else if !(0 <= x < 16) then -1
                                else if s[1] == 0 then x else if !(0 <= y < 16) then -1 else x * 16 + y
  {
    hide DigitValue, Number;
    var x, y := DigitValue(s[0]), DigitValue(s[1]);
    NumberStep(0, s, 16);
    if 0 <= x < 16 {
      NumberStep(x, s[1..], 16);
      if 0 <= y < 16 { NumberStep(x * 16 + y, s[1..][1..], 16); }
    }
  }

  lemma NumberBound(s: seq<Char>)
    requires |s| == 2
    ensures Number(0, s, 16) < 256
  {
    NumberOfTwo(s);
  }

  function UnescapeInto(t: seq<Char>, room: nat): (s: seq<Char>)
    ensures |s| <= room
    decreases room
  {
    if t == [] || t[0] == 0 || room == 0 then []
    else [UnescapeChar(t).0] + UnescapeInto(t[UnescapeChar(t).1..], room - 1)
  }

  // ---- Round trip

  predicate SevenBit(c: Char) {
    c >= 0
  }

  lemma EscapedChar(c: Char, rest: seq<Char>)
    ensures var t := EscapeChar(c) + rest;
            t[0] != 0 &&
            if SevenBit(c) then UnescapeChar(t) == (c, |EscapeChar(c)|) else UnescapeChar(t).0 == BACKSLASH
  {
    var t := EscapeChar(c) + rest;
    if !Plain(c) && Letter(c) == 0 {
      HexNumber(c);
      assert t[2..4] == Hex(c)[2..4];
    }
  }

  /** Sequences that are taken back, though they are never written: quotation and question marks. */
  lemma UnwrittenSequences(l: Char, rest: seq<Char>)
    requires l == '\'' as int || l == '\"' as int || l == '?' as int
    ensures UnescapeChar([BACKSLASH, l] + rest) == (l, 2)
  {}

  /** And a backslash before any other character but those of `Letter` and `x` stands for itself. */
  lemma NoSequence(l: Char, rest: seq<Char>)
    requires l != '\'' as int && l != '\"' as int && l != '?' as int && l != 'x' as int
    requires forall c: Char :: Letter(c) == l ==> l == 0
    ensures UnescapeChar([BACKSLASH, l] + rest) == (BACKSLASH, 1)
  {
    assert Letter(92) == BACKSLASH && Letter(0) == '0' as int && Letter(7) == 'a' as int && Letter(8) == 'b' as int;
    assert Letter(12) == 'f' as int && Letter(10) == 'n' as int && Letter(13) == 'r' as int && Letter(9) == 't' as int;
    assert Letter(11) == 'v' as int;
  }

  /** A hexadecimal digit, small or capital. */
  predicate HexDigit(c: Char, n: int) {
    0 <= n < 16 && (c == DigitChar(n) || (n >= 10 && c == 'A' as int + n - 10))
  }

  /** A hexadecimal sequence stands for the byte with that number, in capital and in small letters. */
  lemma HexSequence(c: Char, d: Char, x: int, y: int, rest: seq<Char>)
    requires HexDigit(c, x) && HexDigit(d, y)
    ensures UnescapeChar([BACKSLASH, 'x' as int, c, d] + rest) == (ToChar(16 * x + y), 4)
  {
    var t := [BACKSLASH, 'x' as int, c, d] + rest;
    NumberOfTwo(t[2..4]);
  }

  /** Without two such digits, the backslash stands for itself. */
  lemma NoHexSequence(c: Char, d: Char, rest: seq<Char>)
    requires c != 0 && d != 0 && !exists x, y :: HexDigit(c, x) && HexDigit(d, y)
    ensures UnescapeChar([BACKSLASH, 'x' as int, c, d] + rest) == (BACKSLASH, 1)
  {
    var t := [BACKSLASH, 'x' as int, c, d] + rest;
    NumberOfTwo(t[2..4]);
    var x, y := DigitValue(c), DigitValue(d);
    assert 0 <= x < 16 ==> HexDigit(c, x);
    assert 0 <= y < 16 ==> HexDigit(d, y);
  }

  lemma HexNumber(c: Char)
    ensures Number(0, Hex(c)[2..4], 16) == if SevenBit(c) then c else -1
  {
    hide DigitValue, DigitChar, Number;
    DigitRoundTrip(c / 16);
    DigitRoundTrip(c % 16);
    DigitNotNul(c / 16);
    DigitNotNul(c % 16);
    NumberOfTwo(Hex(c)[2..4]);
  }

  ghost predicate AllSevenBit(s: seq<Char>) {
    forall i :: 0 <= i < |s| ==> SevenBit(s[i])
  }

  /** Unescaping undoes escaping, for exactly the strings of 7-bit characters whose escaped form fits. */
  lemma {:induction false} EscapeRoundTrip(s: seq<Char>, n: nat, room: nat)
    requires room >= |s|
    ensures UnescapeInto(EscapeInto(s, n), room) == s <==> |Escaped(s)| <= n && AllSevenBit(s)
  {
    hide EscapeChar, EscapeChunk, UnescapeChar, UnescapeInto;
    if s == [] || n == 0 || EscapeChunk(s[0], n) == [] {
      UnescapeEnds([], room);
      if s != [] && n > 0 { ChunkIs(s[0], n); }
    } else {
      var c := s[0];
      var rest := EscapeInto(s[1..], n - |EscapeChunk(c, n)|);
      ChunkIs(c, n);
      if EscapeChunk(c, n) != EscapeChar(c) {
        RawFirst(c, rest, room);
      } else {
        UnescapeFirst(c, rest, room);
        if SevenBit(c) {
          EscapeRoundTrip(s[1..], n - |EscapeChar(c)|, room - 1);
          Cons(c, UnescapeInto(rest, room - 1), s);
        }
      }
    }
  }

  /** A chunk is the escaped character, or that does not fit. */
  lemma ChunkIs(c: Char, n: nat)
    requires n > 0
    ensures var e := EscapeChunk(c, n);
            if e == EscapeChar(c) then |e| <= n
            else |EscapeChar(c)| > n && (e != [] ==> e == [BACKSLASH, c] && c != BACKSLASH && !Plain(c) && Letter(c) == 0)
  {}

  /** A raw character behind a backslash is not taken for a sequence. */
  lemma RawFirst(c: Char, rest: seq<Char>, room: nat)
    requires room > 0 && !Plain(c) && Letter(c) == 0
    ensures var u := UnescapeInto([BACKSLASH, c] + rest, room); u != [] && u[0] == BACKSLASH
  {
    hide Number;
  }

  /** Four bytes for each character are always enough. */
  lemma FourBytesEach(s: seq<Char>, n: nat, room: nat)
    requires n >= 4 * |s| && room >= |s| && AllSevenBit(s)
    ensures UnescapeInto(EscapeInto(s, n), room) == s
  {
    EscapeFits(s, n);
    EscapeRoundTrip(s, n, room);
  }

  lemma UnescapeFirst(c: Char, rest: seq<Char>, room: nat)
    requires room > 0
    ensures var u := UnescapeInto(EscapeChar(c) + rest, room);
            if SevenBit(c) then u == [c] + UnescapeInto(rest, room - 1) else u != [] && u[0] == BACKSLASH
  {
    hide EscapeChar, UnescapeChar;
    var t := EscapeChar(c) + rest;
    EscapedChar(c, rest);
    assert t[|EscapeChar(c)|..] == rest;
  }

  lemma Cons(c: Char, u: seq<Char>, s: seq<Char>)
    requires s != [] && s[0] == c
    ensures [c] + u == s <==> u == s[1..]
  {
    assert ([c] + u)[1..] == u;
    assert s == [c] + s[1..];
  }

  lemma UnescapeEnds(t: seq<Char>, room: nat)
    ensures t == [] || t[0] == 0 || room == 0 ==> UnescapeInto(t, room) == []
  {}

  // ---- The loops

  /** `escape_string`, without `xml` */
  method EscapeString(dst: array<Char>, n: nat, str: seq<Char>) returns (d: nat)
    requires n <= dst.Length
    modifies dst
    ensures d <= n && dst[..d] == EscapeInto(str, n)
    ensures (d < n ==> dst[d] == 0) && forall p :: n <= p < dst.Length ==> dst[p] == old(dst[p])
  {
    hide *;
    d := 0;
    var s := 0;
    assert str[0..] == str && dst[..0] + EscapeInto(str, n) == EscapeInto(str, n);
    while s < |str| && d < n
      invariant s <= |str| && d <= n
      invariant dst[..d] + EscapeInto(str[s..], n - d) == EscapeInto(str, n)
      invariant forall p :: n <= p < dst.Length ==> dst[p] == old(dst[p])
    {
      EscapeStep(dst[..d], str, s, n - d);
      var d' := EscapeNext(dst, n, d, str[s]);
      if d' == d {
        break;
      }
      s, d := s + 1, d';
    }
    EscapeEnds(str[s..], n - d);
    assert dst[..d] + [] == dst[..d];
    if d < n { dst[d] := 0; }
  }

  lemma EscapeStep(done: seq<Char>, str: seq<Char>, s: nat, room: nat)
    requires s < |str| && room > 0
    ensures var e := EscapeChunk(str[s], room);
            if e == [] then EscapeInto(str[s..], room) == []
            else done + EscapeInto(str[s..], room) == (done + e) + EscapeInto(str[s + 1..], room - |e|)
  {
    hide EscapeChunk;
    assert str[s..][1..] == str[s + 1..];
  }

  lemma EscapeEnds(s: seq<Char>, room: nat)
    ensures s == [] || room == 0 ==> EscapeInto(s, room) == []
  {}

  /** The body of the loop of `escape_string`. */
  method EscapeNext(dst: array<Char>, n: nat, d0: nat, c0: Char) returns (d: nat)
    requires d0 < n <= dst.Length
    modifies dst
    ensures d0 <= d <= n && dst[..d] == old(dst[..d0]) + EscapeChunk(c0, n - d0)
    ensures forall p :: n <= p < dst.Length ==> dst[p] == old(dst[p])
  {
    hide DigitChar, Letter;
    var c := c0;
    d := d0;
    if Plain(c) {
      dst[d] := c;
      return d + 1;
    }
    if d + 1 >= n {
      return;
    }
    if Letter(c) != 0 {
      c := Letter(c);
    } else if d + 3 < n {
      dst[d], dst[d + 1], dst[d + 2], dst[d + 3] := BACKSLASH, 'x' as int, DigitChar(c / 16), DigitChar(c % 16);
      return d + 4;
    }
    dst[d], dst[d + 1] := BACKSLASH, c;
    return d + 2;
  }

  /** `unescape_string` */
  method UnescapeString(dst: array<Char>, n: nat, str: seq<Char>) returns (d: nat)
    requires n <= dst.Length
    modifies dst
    ensures d <= n && dst[..d] == UnescapeInto(str, n)
    ensures (d < n ==> dst[d] == 0) && forall p :: n <= p < dst.Length ==> dst[p] == old(dst[p])
  {
    hide *;
    d := 0;
    var s := 0;
    assert str[0..] == str && dst[..0] + UnescapeInto(str, n) == UnescapeInto(str, n);
    while s < |str| && str[s] != 0 && d < n
      invariant s <= |str| && d <= n
      invariant dst[..d] + UnescapeInto(str[s..], n - d) == UnescapeInto(str, n)
      invariant forall p :: n <= p < dst.Length ==> dst[p] == old(dst[p])
    {
      ghost var done := dst[..d];
      UnescapeStep(done, str, s, n - d);
      var c, used := UnescapeNext(str, s);
      dst[d] := c;
      s, d := s + used, d + 1;
      assert dst[..d] == done + [c];
    }
    UnescapeEnds(str[s..], n - d);
    assert dst[..d] + [] == dst[..d];
    if d < n { dst[d] := 0; }
  }

  lemma UnescapeStep(done: seq<Char>, str: seq<Char>, s: nat, room: nat)
    requires s < |str| && str[s] != 0 && room > 0
    ensures var (c, used) := UnescapeChar(str[s..]);
            done + UnescapeInto(str[s..], room) == (done + [c]) + UnescapeInto(str[s + used..], room - 1)
  {
    hide UnescapeChar;
    var (c, used) := UnescapeChar(str[s..]);
    assert str[s..][used..] == str[s + used..];
  }

  /** The body of the loop of `unescape_string`. */
  method UnescapeNext(str: seq<Char>, s: nat) returns (c: Char, used: nat)
    requires s < |str|
    ensures (c, used) == UnescapeChar(str[s..])
  {
    ghost var t := str[s..];
    if str[s] == BACKSLASH && s + 1 < |str| {
      assert t[1] == str[s + 1];
      if str[s + 1] == 'x' as int {
        if s + 3 < |str| {
          assert t[2..4] == str[s + 2..s + 4];
          var v := StrNum(str[s + 2..s + 4], 16);
          if v >= 0 {
            NumberBound(t[2..4]);
            return ToChar(v), 4;
          }
        }
      } else if Meaning(str[s + 1]) != -1 {
        return Meaning(str[s + 1]), 2;
      }
    }
    return str[s], 1;
  }
}
