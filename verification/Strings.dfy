/**
 * Printing numbers and moving bytes, TomatKernel/klibc/string.c. A pointer into a buffer is an
 * array and an index into it; a string ends at its first zero byte.
 */
module Strings {
  import opened Words

  const MINUS: u8 := 45

  // ---------------------------------------------------------------- zero-terminated strings

  /** Where the first zero byte lies. */
  function Length(s: seq<u8>): (n: nat)
    requires 0 in s
    ensures n < |s| && s[n] == 0 && forall k :: 0 <= k < n ==> s[k] != 0
  {
    if s[0] == 0 then 0 else 1 + Length(s[1..])
  }

  function Text(s: seq<u8>): seq<u8>
    requires 0 in s
  {
    s[..Length(s)]
  }

  lemma LengthIs(s: seq<u8>, n: nat)
    requires n < |s| && s[n] == 0 && forall k :: 0 <= k < n ==> s[k] != 0
    ensures Length(s) == n
  {
  }

  function Reversed<T>(s: seq<T>): (r: seq<T>)
    ensures |r| == |s| && forall k :: 0 <= k < |s| ==> r[k] == s[|s| - 1 - k]
  {
    seq(|s|, k requires 0 <= k < |s| => s[|s| - 1 - k])
  }

  /** The string turned round in place; what lies from its zero byte on stays. */
  function Turned(s: seq<u8>): seq<u8>
    requires 0 in s
  {
    Reversed(Text(s)) + s[Length(s)..]
  }

  /** `strlen`. */
  method StringLength(str: array<u8>, at: nat) returns (n: nat)
    requires at <= str.Length && 0 in str[at..]
    ensures n == Length(str[at..])
  {
    var p := at;
    while str[p] != 0
      invariant at <= p < str.Length
      invariant forall k :: at <= k < p ==> str[k] != 0
      invariant p - at <= Length(str[at..])
      decreases str.Length - p
    {
      assert str[at..][Length(str[at..])] == 0;
      p := p + 1;
    }
    LengthIs(str[at..], p - at);
    n := p - at;
  }

  /** The loop of `strrev`: swap inwards from both ends of n bytes. */
  method SwapEnds(str: array<u8>, at: nat, n: nat)
    requires at + n <= str.Length
    modifies str
    ensures forall k :: 0 <= k < at || at + n <= k < str.Length ==> str[k] == old(str[k])
    ensures forall k :: at <= k < at + n ==> str[k] == old(str[at + (at + n - 1 - k)])
  {
    var front: int := at;
    var back: int := at + n - 1;
    while front < back
      invariant at <= front <= back + 2 && front + back == at + at + n - 1
      invariant forall k :: 0 <= k < at || at + n <= k < str.Length ==> str[k] == old(str[k])
      invariant forall k :: front <= k <= back ==> str[k] == old(str[k])
      invariant forall k :: at <= k < front || back < k < at + n ==> str[k] == old(str[at + (at + n - 1 - k)])
    {
      var c := str[front];
      str[front] := str[back];
      str[back] := c;
      front, back := front + 1, back - 1;
    }
  }

  /** s with p written from index at on. */
  function Put<T>(s: seq<T>, at: nat, p: seq<T>): (r: seq<T>)
    requires at + |p| <= |s|
    ensures |r| == |s|
  {
    s[..at] + p + s[at + |p|..]
  }

  /** Only this result has p where it was put and the old bytes elsewhere. */
  lemma PutIs<T>(s: seq<T>, at: nat, p: seq<T>, r: seq<T>)
    requires at + |p| <= |s| == |r|
    requires r[at..at + |p|] == p
    requires forall k :: 0 <= k < at || at + |p| <= k < |s| ==> r[k] == s[k]
    ensures r == Put(s, at, p)
  {
    assert r == r[..at] + r[at..at + |p|] + r[at + |p|..];
  }

  /** Writing the parts one after the other. */
  lemma PutJoins(s: seq<u8>, at: nat, p: seq<u8>, q: seq<u8>)
    requires at + |p| + |q| <= |s|
    ensures Put(Put(s, at, p), at + |p|, q) == Put(s, at, p + q)
  {
  }

  /** `strrev`. */
  method Reverse(str: array<u8>, at: nat)
    requires at <= str.Length && 0 in str[at..]
    modifies str
    ensures str[..] == old(str[..at]) + Turned(old(str[at..]))
  {
    ghost var before := str[..];
    var n := StringLength(str, at);
    SwapEnds(str, at, n);
    SwappedIs(before, str[..], at, n);
    TurnedIs(before, str[..], at, n);
  }

  lemma SwappedIs(before: seq<u8>, after: seq<u8>, at: nat, n: nat)
    requires at + n <= |before| == |after|
    requires forall k :: 0 <= k < at || at + n <= k < |before| ==> after[k] == before[k]
    requires forall k :: at <= k < at + n ==> after[k] == before[at + (at + n - 1 - k)]
    ensures after == Put(before, at, Reversed(before[at..at + n]))
  {
  }

  lemma TurnedIs(before: seq<u8>, after: seq<u8>, at: nat, n: nat)
    requires at <= |before| && 0 in before[at..] && n == Length(before[at..])
    requires after == Put(before, at, Reversed(before[at..at + n]))
    ensures after == before[..at] + Turned(before[at..])
  {
    assert before[at..][..n] == before[at..at + n] && before[at..][n..] == before[at + n..];
  }

  // ---------------------------------------------------------------- digits

  /** The character stored for a digit; it is a byte, so digits from 201 on wrap round. */
  function DigitChar(d: nat): u8 {
    if d >= 10 then (65 + (d - 10)) % 256 else 48 + d
  }

  /** What a reader takes a character for: '0' to '9', then 'A' and on; nothing else is a digit. */
  function DigitValue(c: u8): int {
    if 48 <= c < 58 then c - 48 else if c >= 65 then c - 55 else -1
  }

  lemma Shrinks(v: nat, radix: nat)
    requires v > 0 && radix >= 2
    ensures v / radix < v
  {
  }

  /** Digits of v, the lowest first. */
  function Digits(v: nat, radix: nat): (r: seq<u8>)
    requires v == 0 || radix >= 2
    decreases v
  {
    if v == 0 then [] else
      Shrinks(v, radix);
      [DigitChar(v % radix)] + Digits(v / radix, radix)
  }

  /** Bytes `uitoa` leaves behind, the terminating zero included. */
  function Printed(v: u32, radix: u8): (r: seq<u8>)
    requires v == 0 || radix >= 2
    ensures |r| > 0 && r[|r| - 1] == 0
  {
    if v == 0 && radix != 16 && radix != 2 then [48, 0] else Turned(Digits(v, radix) + [0])
  }

  /** One turn of the digit loop: digit c is written and v becomes q. */
  ghost predicate DigitStep(v: nat, q: nat, c: u8, radix: nat) {
    v > 0 && radix > 0 && q == v / radix && c == DigitChar(v % radix)
  }

  /** The values the digit loop goes through, down to 0. */
  lemma {:induction false} DigitSteps(v: nat, radix: nat) returns (values: seq<nat>)
    requires v == 0 || radix >= 2
    ensures var ds := Digits(v, radix);
            && |values| == |ds| + 1 && values[0] == v && values[|ds|] == 0
            && (forall k :: 0 <= k < |ds| ==> 0 < values[k] <= v)
            && forall k :: 0 <= k < |ds| ==> DigitStep(values[k], values[k + 1], ds[k], radix)
    decreases v
  {
    if v == 0 {
      values := [0];
    } else {
      Shrinks(v, radix);
      var rest := DigitSteps(v / radix, radix);
      values := [v] + rest;
    }
  }

  /** `'A' + (d - 10)` or `'0' + d`. */
  method DigitByte(d: nat) returns (c: u8)
    requires d < 256
    ensures c == DigitChar(d)
  {
    if d >= 10 {
      c := (65 + (d - 10)) % 256;
    } else {
      c := 48 + d;
    }
  }

  /** The loop of `uitoa`: digits from the lowest up. */
  method WriteDigits(value: u32, str: array<u8>, at: nat, radix: u8) returns (num: nat)
    requires value == 0 || radix >= 2
    requires at + |Digits(value, radix)| <= str.Length
    modifies str
    ensures num == |Digits(value, radix)|
    ensures str[at..at + num] == Digits(value, radix)
    ensures forall k :: 0 <= k < at || at + num <= k < str.Length ==> str[k] == old(str[k])
  {
    ghost var all := Digits(value, radix);
    ghost var values := DigitSteps(value, radix);
    var v: u32 := value;
    num := 0;
    while v != 0
      invariant num <= |all| && v == values[num] && (v == 0 ==> num == |all|)
      invariant forall k :: 0 <= k < num ==> str[at + k] == all[k]
      invariant forall k :: 0 <= k < at || at + num <= k < str.Length ==> str[k] == old(str[k])
      decreases |all| - num
    {
      assert DigitStep(values[num], values[num + 1], all[num], radix);
      var c := DigitByte(v % radix);
      str[at + num] := c;
      num := num + 1;
      v := v / radix;
    }
  }

  /** The digits and a terminating zero. */
  method WriteDigitString(value: u32, str: array<u8>, at: nat, radix: u8) returns (num: nat)
    requires value == 0 || radix >= 2
    requires at + |Digits(value, radix)| < str.Length
    modifies str
    ensures num == |Digits(value, radix)|
    ensures str[..] == Put(old(str[..]), at, Digits(value, radix) + [0])
  {
    ghost var before := str[..];
    num := WriteDigits(value, str, at, radix);
    str[at + num] := 0;
    PutIs(before, at, Digits(value, radix) + [0], str[..]);
  }

  /** The string "0". */
  method WriteZero(str: array<u8>, at: nat)
    requires at + 2 <= str.Length
    modifies str
    ensures str[..] == Put(old(str[..]), at, [48, 0])
  {
    ghost var before := str[..];
    str[at] := 48;
    str[at + 1] := 0;
    PutIs(before, at, [48, 0], str[..]);
  }

  /** `uitoa`: the digits, a zero, and the string turned round. Radix 0 and 1 would not end. */
  method PrintUnsigned(value: u32, str: array<u8>, at: nat, radix: u8) returns (num: nat)
    requires value == 0 || radix >= 2
    requires at + |Printed(value, radix)| <= str.Length
    modifies str
    ensures num == |Printed(value, radix)| - 1
    ensures str[..] == Put(old(str[..]), at, Printed(value, radix))
  {
    if value == 0 && radix != 16 && radix != 2 {
      WriteZero(str, at);
      return 1;
    }
    num := PrintDigits(value, str, at, radix);
  }

  /** The part of `uitoa` for everything but such a 0. */
  method PrintDigits(value: u32, str: array<u8>, at: nat, radix: u8) returns (num: nat)
    requires value == 0 || radix >= 2
    requires at + |Digits(value, radix)| < str.Length
    modifies str
    ensures num == |Digits(value, radix)|
    ensures str[..] == Put(old(str[..]), at, Turned(Digits(value, radix) + [0]))
  {
    ghost var before := str[..];
    ghost var s := Digits(value, radix) + [0];
    TurnedPut(before, at, s);
    num := WriteDigitString(value, str, at, radix);
    assert str[at..] == Put(before, at, s)[at..] && str[..at] == Put(before, at, s)[..at];
    Reverse(str, at);
  }

  /** Bytes after the terminating zero do not matter to a reversal. */
  lemma TurnedPrefix(s: seq<u8>, rest: seq<u8>)
    requires 0 in s
    ensures Turned(s + rest) == Turned(s) + rest
  {
    LengthIs(s + rest, Length(s));
    assert (s + rest)[Length(s)..] == s[Length(s)..] + rest;
  }

  lemma TurnedPut(before: seq<u8>, at: nat, s: seq<u8>)
    requires at + |s| <= |before| && 0 in s
    ensures |Turned(s)| == |s|
    ensures var r := Put(before, at, s); 0 in r[at..] && r[..at] + Turned(r[at..]) == Put(before, at, Turned(s))
  {
    var rest := before[at + |s|..];
    assert Put(before, at, s)[at..] == s + rest;
    TurnedPrefix(s, rest);
    assert Put(before, at, s)[..at] == before[..at];
  }

  /** `(uint32_t) -v` for a negative v, where the negation wraps: the minimum keeps its bits. */
  function Magnitude(v: int): (r: u32)
    requires -0x8000_0000 <= v < 0x8000_0000
    ensures r == if v < 0 then -v else v
  {
    if v < 0 then Wrap(-v) else v
  }

  /** The sign a number is printed with. */
  function Sign(v: int): seq<u8> {
    if v < 0 then [MINUS] else []
  }

  /** Bytes `itoa` leaves behind. */
  function PrintedSigned(v: int, radix: u8): (r: seq<u8>)
    requires -0x8000_0000 <= v < 0x8000_0000 && (v == 0 || radix >= 2)
    ensures |r| > 0
  {
    Sign(v) + Printed(Magnitude(v), radix)
  }

  method WriteSign(v: int, str: array<u8>, at: nat) returns (count: nat)
    requires at + |Sign(v)| <= str.Length
    modifies str
    ensures count == |Sign(v)| && str[..] == Put(old(str[..]), at, Sign(v))
  {
    ghost var before := str[..];
    count := 0;
    if v < 0 {
      count := count + 1;
      str[at] := MINUS;
    }
    PutIs(before, at, Sign(v), str[..]);
  }

  /** `itoa`: a sign, then the magnitude. */
  method PrintSigned(v: int, str: array<u8>, at: nat, radix: u8) returns (num: nat)
    requires -0x8000_0000 <= v < 0x8000_0000 && (v == 0 || radix >= 2)
    requires at + |PrintedSigned(v, radix)| <= str.Length
    modifies str
    ensures num == |PrintedSigned(v, radix)| - 1
    ensures str[..] == Put(old(str[..]), at, PrintedSigned(v, radix))
  {
    if v == 0 && radix != 16 && radix != 2 {
      WriteZero(str, at);
      return 1;
    }
    ghost var before := str[..];
    var count := WriteSign(v, str, at);
    num := PrintUnsigned(Magnitude(v), str, at + count, radix);
    num := count + num;
    PutJoins(before, at, Sign(v), Printed(Magnitude(v), radix));
  }

  // ---------------------------------------------------------------- reading back

  /** The number a text stands for in a radix. */
  function Read(s: seq<u8>, radix: nat): int {
    if s == [] then 0 else Read(s[..|s| - 1], radix) * radix + DigitValue(s[|s| - 1])
  }

  function ReadSigned(s: seq<u8>, radix: nat): int {
    if s != [] && s[0] == MINUS then -Read(s[1..], radix) else Read(s, radix)
  }

  /** Digits below 201 have characters of their own, none of them zero or a minus sign. */
  lemma CharIs(d: nat)
    requires d < 201
    ensures DigitValue(DigitChar(d)) == d && DigitChar(d) != 0 && DigitChar(d) != MINUS
    ensures DigitChar(d) == 48 <==> d == 0
  {
  }

  lemma {:induction false} DigitsRead(v: nat, radix: nat)
    requires 2 <= radix <= 201
    ensures Read(Reversed(Digits(v, radix)), radix) == v
    decreases v
  {
    if v > 0 {
      Shrinks(v, radix);
      DigitsRead(v / radix, radix);
      FirstDigitRead(Digits(v / radix, radix), v / radix, v % radix, radix);
      DivMod(v, radix);
    }
  }

  lemma DivMod(v: nat, radix: nat)
    requires radix > 0
    ensures v / radix * radix + v % radix == v
  {
  }

  lemma FirstDigitRead(rest: seq<u8>, q: nat, d: nat, radix: nat)
    requires Read(Reversed(rest), radix) == q && d < 201
    ensures Read(Reversed([DigitChar(d)] + rest), radix) == q * radix + d
  {
    CharIs(d);
    ReadMore(Reversed(rest), DigitChar(d), radix);
    assert Reversed([DigitChar(d)] + rest) == Reversed(rest) + [DigitChar(d)];
  }

  lemma ReadMore(s: seq<u8>, c: u8, radix: nat)
    ensures Read(s + [c], radix) == Read(s, radix) * radix + DigitValue(c)
  {
    assert (s + [c])[..|s|] == s;
  }

  /** No digit looks like the end of the string or a sign, and the highest is not 0. */
  lemma {:induction false} DigitsVisible(v: nat, radix: nat)
    requires 2 <= radix <= 201
    ensures forall k :: 0 <= k < |Digits(v, radix)| ==> Digits(v, radix)[k] != 0 && Digits(v, radix)[k] != MINUS
    ensures v > 0 ==> |Digits(v, radix)| > 0 && Digits(v, radix)[|Digits(v, radix)| - 1] != 48
    decreases v
  {
    if v > 0 {
      Shrinks(v, radix);
      DigitsVisible(v / radix, radix);
      CharIs(v % radix);
      if v / radix == 0 {
        OneDigit(v, radix);
      }
    }
  }

  lemma OneDigit(v: nat, radix: nat)
    requires radix > 0 && v / radix == 0
    ensures v % radix == v
  {
  }

  lemma PrintedIs(v: u32, radix: u8)
    requires 2 <= radix <= 201 && (v != 0 || radix == 2 || radix == 16)
    ensures Printed(v, radix) == Reversed(Digits(v, radix)) + [0]
  {
    var ds := Digits(v, radix);
    DigitsVisible(v, radix);
    LengthIs(ds + [0], |ds|);
    assert (ds + [0])[..|ds|] == ds && (ds + [0])[|ds|..] == [0];
  }

  /** p is a string of all but its last byte that stands for v. */
  predicate Spells(p: seq<u8>, v: int, radix: nat) {
    0 in p && Length(p) == |p| - 1 && Read(Text(p), radix) == v
  }

  /**
   * The text printed is all that is written. It begins with 0 only if it is "0", and only 0 in
   * radix 2 or 16 prints nothing.
   */
  lemma PrintedText(v: u32, radix: u8)
    requires 2 <= radix <= 201
    ensures var p := Printed(v, radix);
            && Spells(p, v, radix)
            && (p[0] == 48 <==> p == [48, 0])
            && (p == [48, 0] <==> v == 0 && radix != 2 && radix != 16)
            && p[0] != MINUS
            && (|p| == 1 <==> v == 0 && (radix == 2 || radix == 16))
  {
    if v == 0 && radix != 16 && radix != 2 {
      LengthIs([48, 0], 1);
      assert Text([48, 0]) == [] + [48];
      ReadMore([], 48, radix);
    } else {
      var ds := Digits(v, radix);
      PrintedIs(v, radix);
      DigitsRead(v, radix);
      DigitsVisible(v, radix);
      ReversedSpells(ds);
    }
  }

  /** -255 in radix 16 is "-FF", and 10 in radix 10 is "10". */
  lemma PrintedExamples()
    ensures PrintedSigned(-255, 16) == [45, 70, 70, 0] && PrintedSigned(10, 10) == [49, 48, 0]
  {
    PrintedIs(255, 16);
    PrintedIs(10, 10);
    TwoDigits(255, 15, 15, 16);
    TwoDigits(10, 1, 0, 10);
    assert PrintedSigned(-255, 16) == Sign(-255) + Printed(255, 16);
  }

  lemma TwoDigits(v: nat, a: nat, b: nat, radix: nat)
    requires 0 < a < radix && b < radix && v / radix == a && v % radix == b
    ensures Reversed(Digits(v, radix)) == [DigitChar(a), DigitChar(b)]
  {
    OneDigitOnly(a, radix);
    assert Digits(0, radix) == [] && Digits(a, radix) == [DigitChar(a)];
    assert v > 0;
    assert Digits(v, radix) == [DigitChar(b), DigitChar(a)];
  }

  lemma ReversedSpells(ds: seq<u8>)
    requires forall k :: 0 <= k < |ds| ==> ds[k] != 0 && ds[k] != MINUS
    ensures var p := Reversed(ds) + [0];
            && 0 in p && Length(p) == |p| - 1 && Text(p) == Reversed(ds)
            && p[0] == (if ds == [] then 0 else ds[|ds| - 1])
  {
    var p := Reversed(ds) + [0];
    assert p[|ds|] == 0;
    LengthIs(p, |ds|);
  }

  /**
   * Reading undoes printing, and the length returned is the length of the string, for every
   * number, exactly in the radices whose digits all have characters; 36 is well inside.
   */
  lemma PrintsFaithfullyIff(radix: u8)
    requires radix >= 2
    ensures radix <= 201 <==> forall v: u32 :: Spells(Printed(v, radix), v, radix)
  {
    if radix <= 201 {
      forall v: u32
        ensures Spells(Printed(v, radix), v, radix)
      {
        PrintedText(v, radix);
      }
    } else {
      LostDigit(radix);
      LengthIs([0, 0], 0);
      assert !Spells(Printed(201, radix), 201, radix);
    }
  }

  /** In a larger radix the number 201 is one digit, and that digit is a zero byte. */
  lemma LostDigit(radix: u8)
    requires radix > 201
    ensures Printed(201, radix) == [0, 0]
  {
    OneDigitOnly(201, radix);
    assert Digits(0, radix) == [];
    assert Digits(201, radix) == [0];
    LengthIs([0] + [0], 0);
    assert Text([0] + [0]) == [];
  }

  lemma OneDigitOnly(v: nat, radix: nat)
    requires v < radix
    ensures v / radix == 0 && v % radix == v
  {
  }

  /** The same for signed numbers; the minimum prints and reads back too. */
  lemma SignedReadsBack(v: int, radix: u8)
    requires -0x8000_0000 <= v < 0x8000_0000 && 2 <= radix <= 201
    ensures SpellsSigned(PrintedSigned(v, radix), v, radix)
  {
    var m := Magnitude(v);
    PrintedText(m, radix);
    if v < 0 {
      SignedText(Printed(m, radix), m, radix);
    } else {
      assert PrintedSigned(v, radix) == Printed(m, radix);
      UnsignedText(Printed(m, radix), m, radix);
    }
  }

  lemma UnsignedText(q: seq<u8>, m: int, radix: nat)
    requires Spells(q, m, radix) && q[0] != MINUS && m >= 0
    ensures SpellsSigned(q, m, radix)
  {
  }

  lemma SignedText(q: seq<u8>, m: int, radix: nat)
    requires Spells(q, m, radix) && m > 0
    ensures SpellsSigned([MINUS] + q, -m, radix)
  {
    SignBefore(q);
  }

  /** p is a string of all but its last byte that stands for v, with a sign just when v is negative. */
  predicate SpellsSigned(p: seq<u8>, v: int, radix: nat) {
    0 in p && Length(p) == |p| - 1 && ReadSigned(Text(p), radix) == v && (p[0] == MINUS <==> v < 0)
  }

  lemma SignBefore(q: seq<u8>)
    requires 0 in q && Length(q) == |q| - 1
    ensures var p := [MINUS] + q;
            0 in p && Length(p) == |p| - 1 && Text(p) == [MINUS] + Text(q) && Text(p)[1..] == Text(q)
  {
    var p := [MINUS] + q;
    assert p[|q|] == 0;
    LengthIs(p, |q|);
  }

  // ---------------------------------------------------------------- moving memory

  /**
   * The source index whose byte a copy upwards brings to index k of the target: the one it reads,
   * or, if the copy has itself written there before, the one that byte came from.
   */
  function CopiedFrom(k: nat, same: bool, di: nat, si: nat): (j: nat)
    requires di <= k
    ensures j <= si + k - di && (!(same && si < di <= si + k - di) ==> j == si + k - di)
    decreases k
  {
    var j := si + k - di;
    if same && di <= j < k then CopiedFrom(j, same, di, si) else j
  }

  /** One turn of the copy reads the byte that CopiedFrom names. */
  lemma CopyStep<T>(was: seq<T>, now: seq<T>, same: bool, di: nat, si: nat, i: nat)
    requires |now| == |was| && si + i < |was|
    requires if same
             then di + i < |was| && (forall k :: 0 <= k < di || di + i <= k < |was| ==> now[k] == was[k])
                  && (forall k :: di <= k < di + i ==> now[k] == was[CopiedFrom(k, true, di, si)])
             else now == was
    ensures now[si + i] == was[CopiedFrom(di + i, same, di, si)]
  {
  }

  /** The loop of `memcpy`. */
  method CopyUpwards<T>(dest: array<T>, di: nat, src: array<T>, si: nat, n: nat)
    requires di + n <= dest.Length && si + n <= src.Length
    modifies dest
    ensures forall k :: 0 <= k < di || di + n <= k < dest.Length ==> dest[k] == old(dest[k])
    ensures forall k :: di <= k < di + n ==> dest[k] == old(src[..])[CopiedFrom(k, dest == src, di, si)]
  {
    ghost var was := src[..];
    ghost var same := dest == src;
    var i := 0;
    while i < n
      invariant 0 <= i <= n
      invariant forall k :: 0 <= k < di || di + i <= k < dest.Length ==> dest[k] == old(dest[k])
      invariant !same ==> src[..] == was
      invariant forall k :: di <= k < di + i ==> dest[k] == was[CopiedFrom(k, same, di, si)]
    {
      CopyStep(was, src[..], same, di, si, i);
      dest[di + i] := src[si + i];
      i := i + 1;
    }
  }

  /**
   * `memcpy`, byte by byte upwards: the source bytes arrive unless the target begins inside the
   * source, where what was copied first is copied on.
   */
  method Memcpy<T>(dest: array<T>, di: nat, src: array<T>, si: nat, n: nat)
    requires di + n <= dest.Length && si + n <= src.Length
    modifies dest
    ensures forall k :: 0 <= k < di || di + n <= k < dest.Length ==> dest[k] == old(dest[k])
    ensures forall k :: di <= k < di + n ==> dest[k] == old(src[..])[CopiedFrom(k, dest == src, di, si)]
    ensures !(dest == src && si < di < si + n) ==> dest[..] == Put(old(dest[..]), di, old(src[si..si + n]))
  {
    ghost var before, part := dest[..], src[si..si + n];
    CopyUpwards(dest, di, src, si, n);
    if !(dest == src && si < di < si + n) {
      assert dest[di..di + n] == part;
      PutIs(before, di, part, dest[..]);
    }
  }

  /** `memmove`: by way of a copy, so source and target may overlap. */
  method Memmove<T(0)>(dest: array<T>, di: nat, src: array<T>, si: nat, n: nat)
    requires di + n <= dest.Length && si + n <= src.Length
    modifies dest
    ensures dest[..] == Put(old(dest[..]), di, old(src[si..si + n]))
  {
    var tmp := new T[n];
    Memcpy(tmp, 0, src, si, n);
    assert tmp[0..n] == old(src[si..si + n]);
    Memcpy(dest, di, tmp, 0, n);
  }
}
