// Invite codes: 100 random bits as 20 base-32 characters, packed with an
// accumulator that wraps at 32 bits, and reading such a code back from whatever
// a person typed.

module Invite {
  import opened Wrappers

  const PREFIX := "nbi-"
  const CODE_LEN: nat := 20
  const ABC := "0123456789ABCDEFGHJKMNPQRSTVWXYZ"
  const WRAP: nat := 0x1_0000_0000

  // ---- what a code is -----------------------------------------------------------

  // A right shift.
  function Shr(x: nat, n: nat): nat
    decreases n
  {
    if n == 0 then x else Shr(x / 2, n - 1)
  }

  // Bit j of the random bytes, the most significant of each byte first.
  function Bit(raw: seq<Byte>, j: nat): (b: nat)
    requires j < 8 * |raw|
    ensures b <= 1
  {
    Shr(raw[j / 8] as nat, 7 - j % 8) % 2
  }

  // Five bits from 5k on, as a number.
  function Five(raw: seq<Byte>, k: nat): (v: nat)
    requires 5 * k + 5 <= 8 * |raw|
    ensures v < 32
  {
    16 * Bit(raw, 5 * k) + 8 * Bit(raw, 5 * k + 1) + 4 * Bit(raw, 5 * k + 2) + 2 * Bit(raw, 5 * k + 3) + Bit(raw, 5 * k + 4)
  }

  // Character v of the alphabet, which has no I, L, O and U.
  function Char(v: nat): char
    requires v < 32
  {
    (if v < 10 then '0' as int + v
     else if v < 18 then 'A' as int + v - 10
     else if v < 20 then 'J' as int + v - 18
     else if v < 22 then 'M' as int + v - 20
     else if v < 27 then 'P' as int + v - 22
     else 'V' as int + v - 27) as char
  }

  predicate InAlphabet(c: char) {
    '0' <= c <= '9' || ('A' <= c <= 'Z' && c != 'I' && c != 'L' && c != 'O' && c != 'U')
  }

  lemma AlphabetIs(v: nat)
    requires v < 32
    ensures ABC[v] == Char(v)
  {}

  lemma AlphabetHas(c: char)
    ensures c in ABC <==> InAlphabet(c)
  {
    if InAlphabet(c) {
      assert Char(Digit(c)) == c;
      AlphabetIs(Digit(c));
    }
    if c in ABC {
      var v: nat :| v < |ABC| && ABC[v] == c;
      AlphabetIs(v);
    }
  }

  // The first n characters of the code of these bytes.
  function Chars(raw: seq<Byte>, n: nat): (s: string)
    requires 5 * n <= 8 * |raw|
    ensures |s| == n && forall k :: 0 <= k < n ==> s[k] == Char(Five(raw, k))
  {
    if n == 0 then "" else Chars(raw, n - 1) + [Char(Five(raw, n - 1))]
  }

  // ---- the packer -----------------------------------------------------------------

  // The accumulator after one more byte: its low 16 bits are the last two.
  lemma AccStep(acc: nat, x: nat)
    requires x < 256
    ensures Shift(acc, x) % 0x1_0000 == acc % 256 * 256 + x && Shift(acc, x) % 256 == x
  {
    var t := acc * 256 + x;
    Remainder(t % WRAP, acc / 256 - 0x1_0000 * (t / WRAP), acc % 256 * 256 + x);
  }

  // acc<<8 | x on 32 bits.
  function Shift(acc: nat, x: nat): nat { (acc * 256 + x) % WRAP }

  // (acc>>bits) & 31.
  function Take(acc: nat, bits: nat): (v: nat)
    ensures v < 32
  {
    Shr(acc, bits) % 32
  }

  lemma Remainder(x: int, q: int, r: int)
    requires x == 0x1_0000 * q + r && 0 <= r < 0x1_0000
    ensures x % 0x1_0000 == r
  {}

  lemma {:induction false} ShrTwice(x: nat, m: nat, n: nat)
    ensures Shr(Shr(x, m), n) == Shr(x, m + n)
    decreases m
  {
    if m > 0 { ShrTwice(x / 2, m - 1, n); }
  }

  // A bit below position 8 depends on the low byte alone.
  lemma {:induction false} LowByteBit(x: nat, high: nat, low: nat, n: nat, t: nat)
    requires x == high * Two(n) + low && t < n
    ensures Shr(x, t) % 2 == Shr(low, t) % 2
    decreases t
  {
    var p := high * Two(n - 1);
    assert x == 2 * p + low;
    if t > 0 {
      assert x / 2 == p + low / 2;
      LowByteBit(x / 2, high, low / 2, n - 1, t - 1);
    }
  }

  function Two(n: nat): nat { if n == 0 then 1 else 2 * Two(n - 1) }

  lemma ShrByte(x: nat)
    ensures Shr(x, 8) == x / 256 && Two(8) == 256
  {
    assert Shr(x, 4) == x / 16;
    assert Shr(x / 16, 4) == x / 256;
    ShrTwice(x, 4, 4);
    assert Two(4) == 16;
  }

  lemma LowBit(x: nat, high: nat, low: nat, t: nat)
    requires x == high * 256 + low && t < 8
    ensures Shr(x, t) % 2 == Shr(low, t) % 2
  {
    ShrByte(x);
    assert high * Two(8) == high * 256;
    LowByteBit(x, high, low, 8, t);
  }

  // Bit t of a number whose low bytes are hi and lo.
  lemma WindowBit(acc: nat, hi: nat, lo: nat, t: nat)
    requires hi < 256 && lo < 256 && acc % 0x1_0000 == hi * 256 + lo && t < 16
    ensures Shr(acc, t) % 2 == if t < 8 then Shr(lo, t) % 2 else Shr(hi, t - 8) % 2
  {
    hide Shr;
    ShrByte(acc);
    var top := acc / 0x1_0000;
    assert acc == (top * 256 + hi) * 256 + lo;
    assert acc / 256 == top * 256 + hi;
    if t < 8 {
      LowBit(acc, top * 256 + hi, lo, t);
    } else {
      ShrTwice(acc, 8, t - 8);
      LowBit(acc / 256, top, hi, t - 8);
    }
  }

  // The low five bits of a number, one by one.
  lemma FiveBits(y: nat)
    ensures y % 32 == 16 * (Shr(y, 4) % 2) + 8 * (Shr(y, 3) % 2) + 4 * (Shr(y, 2) % 2) + 2 * (Shr(y, 1) % 2) + Shr(y, 0) % 2
  {
    var y1 := y / 2;
    var y2 := y1 / 2;
    var y3 := y2 / 2;
    var y4 := y3 / 2;
    ShrTwice(y, 1, 1); ShrTwice(y, 2, 1); ShrTwice(y, 3, 1);
    assert Shr(y, 0) == y && Shr(y, 1) == y1 && Shr(y, 2) == y2 && Shr(y, 3) == y3 && Shr(y, 4) == y4;
    FromBits(y, y4 / 2, y4 % 2, y3 % 2, y2 % 2, y1 % 2, y % 2);
  }

  lemma FromBits(y: nat, high: nat, b4: nat, b3: nat, b2: nat, b1: nat, b0: nat)
    requires y == 32 * high + 16 * b4 + 8 * b3 + 4 * b2 + 2 * b1 + b0
    requires b4 < 2 && b3 < 2 && b2 < 2 && b1 < 2 && b0 < 2
    ensures y % 32 == 16 * b4 + 8 * b3 + 4 * b2 + 2 * b1 + b0
  {}

  // Bits b to b + 4 of the accumulator are the next five bits.
  lemma WindowIsRaw(raw: seq<Byte>, i: nat, acc: nat, t: nat)
    requires i < |raw| && t < 12 && t <= 8 * i + 7
    requires acc % 0x1_0000 == (if i > 0 then raw[i - 1] as nat else 0) * 256 + raw[i] as nat
    ensures Shr(acc, t) % 2 == Bit(raw, 8 * i + 7 - t)
  {
    WindowBit(acc, if i > 0 then raw[i - 1] as nat else 0, raw[i] as nat, t);
    var j := 8 * i + 7 - t;
    assert if t < 8 then j / 8 == i && j % 8 == 7 - t else j / 8 == i - 1 && j % 8 == 15 - t;
  }

  // What the packer takes from the accumulator is the next five bits.
  lemma TakesFive(raw: seq<Byte>, i: nat, k: nat, acc: nat, b: nat)
    requires i < |raw| && b < 8 && 5 * k + 5 == 8 * (i + 1) - b
    requires acc % 0x1_0000 == (if i > 0 then raw[i - 1] as nat else 0) * 256 + raw[i] as nat
    ensures Take(acc, b) == Five(raw, k)
  {
    hide Bit, Shr;
    FiveBits(Shr(acc, b));
    ShrTwice(acc, b, 0); ShrTwice(acc, b, 1); ShrTwice(acc, b, 2); ShrTwice(acc, b, 3); ShrTwice(acc, b, 4);
    WindowIsRaw(raw, i, acc, b);
    WindowIsRaw(raw, i, acc, b + 1);
    WindowIsRaw(raw, i, acc, b + 2);
    WindowIsRaw(raw, i, acc, b + 3);
    WindowIsRaw(raw, i, acc, b + 4);
  }

  // NewInviteCode. The accumulator is 32 bits wide and shifts old bytes out.
  method NewInviteCode(raw: seq<Byte>) returns (code: string)
    requires |raw| == 13
    ensures code == PREFIX + Chars(raw, CODE_LEN)
  {
    hide Five, Shr, Char, Shift, Take;
    var body := "";
    var acc: nat := 0;
    var bits: nat := 0;
    for i := 0 to 13
      invariant |body| <= CODE_LEN && bits < 5 && bits == 8 * i - 5 * |body|
      invariant body == Chars(raw, |body|)
      invariant acc % 256 == if i > 0 then raw[i - 1] as nat else 0
    {
      AccStep(acc, raw[i] as nat);
      acc := Shift(acc, raw[i] as nat);
      bits := bits + 8;
      while bits >= 5 && |body| < CODE_LEN
        invariant |body| <= CODE_LEN && bits < 13 && bits == 8 * (i + 1) - 5 * |body|
        invariant body == Chars(raw, |body|)
      {
        bits := bits - 5;
        TakesFive(raw, i, |body|, acc, bits);
        AlphabetIs(Take(acc, bits));
        body := body + [ABC[Take(acc, bits)]];
      }
    }
    code := PREFIX + body;
  }

  // ---- no two codes alike ------------------------------------------------------------

  // The number a character stands for, -1 for none.
  function Digit(c: char): (v: int)
    ensures InAlphabet(c) ==> 0 <= v < 32
  {
    if '0' <= c <= '9' then c as int - '0' as int
    else if 'A' <= c <= 'H' then c as int - 'A' as int + 10
    else if 'J' <= c <= 'K' then c as int - 'J' as int + 18
    else if 'M' <= c <= 'N' then c as int - 'M' as int + 20
    else if 'P' <= c <= 'T' then c as int - 'P' as int + 22
    else if 'V' <= c <= 'Z' then c as int - 'V' as int + 27
    else -1
  }

  lemma DigitOfChar(v: nat)
    requires v < 32
    ensures Digit(Char(v)) == v
  {}

  lemma FiveBitsOnce(a: nat, b: nat, c: nat, d: nat, e: nat, a': nat, b': nat, c': nat, d': nat, e': nat)
    requires a <= 1 && b <= 1 && c <= 1 && d <= 1 && e <= 1 && a' <= 1 && b' <= 1 && c' <= 1 && d' <= 1 && e' <= 1
    requires 16 * a + 8 * b + 4 * c + 2 * d + e == 16 * a' + 8 * b' + 4 * c' + 2 * d' + e'
    ensures a == a' && b == b' && c == c' && d == d' && e == e'
  {}

  lemma FiveTellsBits(raw1: seq<Byte>, raw2: seq<Byte>, k: nat, j: nat)
    requires 5 * k + 5 <= 8 * |raw1| && |raw1| == |raw2| && Five(raw1, k) == Five(raw2, k) && 5 * k <= j < 5 * k + 5
    ensures Bit(raw1, j) == Bit(raw2, j)
  {
    hide Bit;
    FiveBitsOnce(Bit(raw1, 5 * k), Bit(raw1, 5 * k + 1), Bit(raw1, 5 * k + 2), Bit(raw1, 5 * k + 3), Bit(raw1, 5 * k + 4),
                 Bit(raw2, 5 * k), Bit(raw2, 5 * k + 1), Bit(raw2, 5 * k + 2), Bit(raw2, 5 * k + 3), Bit(raw2, 5 * k + 4));
    assert j in {5 * k, 5 * k + 1, 5 * k + 2, 5 * k + 3, 5 * k + 4};
  }

  lemma SameCharTellsBits(raw1: seq<Byte>, raw2: seq<Byte>, j: nat)
    requires |raw1| == |raw2| == 13 && Chars(raw1, CODE_LEN) == Chars(raw2, CODE_LEN) && j < 100
    ensures Bit(raw1, j) == Bit(raw2, j)
  {
    hide Five, Bit, Char, Digit, Chars;
    var k := j / 5;
    assert Chars(raw1, CODE_LEN)[k] == Chars(raw2, CODE_LEN)[k];
    DigitOfChar(Five(raw1, k));
    DigitOfChar(Five(raw2, k));
    FiveTellsBits(raw1, raw2, k, j);
  }

  lemma SameBitsSameChars(raw1: seq<Byte>, raw2: seq<Byte>, n: nat)
    requires |raw1| == |raw2| == 13 && n <= CODE_LEN && forall j :: 0 <= j < 100 ==> Bit(raw1, j) == Bit(raw2, j)
    ensures Chars(raw1, n) == Chars(raw2, n)
  {
    hide Char, Bit;
    if n > 0 {
      SameBitsSameChars(raw1, raw2, n - 1);
      assert Five(raw1, n - 1) == Five(raw2, n - 1);
    }
  }

  // Two codes are the same exactly when the first 100 random bits are.
  lemma SameCodeExactly(raw1: seq<Byte>, raw2: seq<Byte>)
    requires |raw1| == |raw2| == 13
    ensures Chars(raw1, CODE_LEN) == Chars(raw2, CODE_LEN) <==> forall j :: 0 <= j < 100 ==> Bit(raw1, j) == Bit(raw2, j)
  {
    hide Chars, Bit;
    if Chars(raw1, CODE_LEN) == Chars(raw2, CODE_LEN) {
      forall j | 0 <= j < 100 ensures Bit(raw1, j) == Bit(raw2, j) { SameCharTellsBits(raw1, raw2, j); }
    }
    if forall j :: 0 <= j < 100 ==> Bit(raw1, j) == Bit(raw2, j) { SameBitsSameChars(raw1, raw2, CODE_LEN); }
  }

  // ---- reading a code ------------------------------------------------------------------

  // unicode.IsSpace.
  predicate IsSpace(c: char) {
    || c == ' ' || '\t' <= c <= '\r' || c == '\U{85}' || c == '\U{A0}' || c == '\U{1680}' || '\U{2000}' <= c <= '\U{200A}'
    || c == '\U{2028}' || c == '\U{2029}' || c == '\U{202F}' || c == '\U{205F}' || c == '\U{3000}'
  }

  function TrimLeft(s: string): string { if s != "" && IsSpace(s[0]) then TrimLeft(s[1..]) else s }

  function TrimRight(s: string): string { if s != "" && IsSpace(s[|s| - 1]) then TrimRight(s[..|s| - 1]) else s }

  function TrimSpace(s: string): string { TrimRight(TrimLeft(s)) }

  function Upper(c: char): char { if 'a' <= c <= 'z' then (c as int - 32) as char else c }

  // Starts with "nbi-", in any case.
  predicate HasPrefix(s: string) { |s| >= 4 && Upper(s[0]) == 'N' && Upper(s[1]) == 'B' && Upper(s[2]) == 'I' && s[3] == '-' }

  function Strip(s: string): string { if HasPrefix(s) then s[4..] else s }

  predicate Blank(c: char) { c == '-' || c == ' ' }

  function Canon(c: char): char {
    var u := Upper(c);
    if u == 'O' then '0' else if u == 'I' || u == 'L' then '1' else u
  }

  function Reading(s: string): Option<string> {
    if s == "" then Some("")
    else
      var c := s[|s| - 1];
      var r := Reading(s[..|s| - 1]);
      if r.None? || Blank(c) then r
      else if InAlphabet(Canon(c)) then Some(r.value + [Canon(c)])
      else None
  }

  function Normalize(code: string): string {
    var r := Reading(Strip(TrimSpace(code)));
    if r.Some? && |r.value| == CODE_LEN then r.value else ""
  }

  lemma {:induction false} ReadingConcat(a: string, b: string)
    ensures Reading(a + b) ==
      if Reading(a).None? || Reading(b).None? then None else Some(Reading(a).value + Reading(b).value)
  {
    hide Blank, Canon, InAlphabet;
    if b == "" {
      assert a + b == a;
      assert Reading(a).Some? ==> Reading(a).value + "" == Reading(a).value;
    } else {
      assert (a + b)[..|a + b| - 1] == a + b[..|b| - 1];
      ReadingConcat(a, b[..|b| - 1]);
      if Reading(a).Some? && Reading(b[..|b| - 1]).Some? {
        var c := Canon(b[|b| - 1]);
        assert Reading(a).value + (Reading(b[..|b| - 1]).value + [c]) == Reading(a).value + Reading(b[..|b| - 1]).value + [c];
      }
    }
  }

  // NormalizeInviteCode.
  method NormalizeInviteCode(code: string) returns (body: string)
    ensures body == Normalize(code)
  {
    hide Canon, Blank, HasPrefix, TrimSpace, InAlphabet;
    var s := Strip(TrimSpace(code));
    var out := "";
    for i := 0 to |s|
      invariant Reading(s[..i]) == Some(out)
    {
      var c := s[i];
      assert s[..i + 1][..i] == s[..i];
      if !Blank(c) {
        c := Canon(c);
        AlphabetHas(c);
        if c !in ABC {
          assert s == s[..i + 1] + s[i + 1..];
          ReadingConcat(s[..i + 1], s[i + 1..]);
          return "";
        }
        out := out + [c];
      }
    }
    assert s[..|s|] == s;
    if |out| != CODE_LEN { return ""; }
    return out;
  }

  // ---- every spelling of a code -----------------------------------------------------------

  // A character a person may write for d.
  predicate SameDigit(c: char, d: char) {
    && InAlphabet(d)
    && (c == d || ('A' <= d <= 'Z' && c as int == d as int + 32) || (d == '0' && c in "Oo") || (d == '1' && c in "IiLl"))
  }

  // s writes b, with dashes and spaces anywhere.
  predicate Spells(s: string, b: string) {
    if s == "" then b == ""
    else if Blank(s[|s| - 1]) then Spells(s[..|s| - 1], b)
    else b != "" && SameDigit(s[|s| - 1], b[|b| - 1]) && Spells(s[..|s| - 1], b[..|b| - 1])
  }

  lemma CanonExactly(c: char, d: char)
    requires !Blank(c)
    ensures Canon(c) == d && InAlphabet(d) <==> SameDigit(c, d)
  {}

  lemma {:induction false} ReadingIsSpelling(s: string, b: string)
    ensures Reading(s) == Some(b) <==> Spells(s, b)
  {
    if s != "" {
      var front, c := s[..|s| - 1], s[|s| - 1];
      ReadingIsSpelling(front, b);
      if !Blank(c) && b != "" {
        ReadingIsSpelling(front, b[..|b| - 1]);
        CanonExactly(c, b[|b| - 1]);
        assert b == b[..|b| - 1] + [b[|b| - 1]];
      }
    }
  }

  // A code is read as b exactly when what is left of it, without the outer
  // white space and the prefix, writes b.
  lemma NormalizeExactly(code: string, b: string)
    requires |b| == CODE_LEN
    ensures Normalize(code) == b <==> Spells(Strip(TrimSpace(code)), b)
  {
    hide Reading, Spells, Strip, TrimSpace;
    ReadingIsSpelling(Strip(TrimSpace(code)), b);
  }

  predicate AllSpace(s: string) { forall i :: 0 <= i < |s| ==> IsSpace(s[i]) }

  lemma {:induction false} TrimLeftDrops(lead: string, s: string)
    requires AllSpace(lead) && s != "" && !IsSpace(s[0])
    ensures TrimLeft(lead + s) == s
  {
    hide IsSpace;
    if lead == "" {
      assert lead + s == s;
    } else {
      assert (lead + s)[1..] == lead[1..] + s;
      TrimLeftDrops(lead[1..], s);
    }
  }

  lemma {:induction false} TrimRightDrops(s: string, tail: string)
    requires AllSpace(tail)
    ensures TrimRight(s + tail) == TrimRight(s)
  {
    hide IsSpace;
    if tail == "" {
      assert s + tail == s;
    } else {
      assert (s + tail)[..|s + tail| - 1] == s + tail[..|tail| - 1];
      TrimRightDrops(s, tail[..|tail| - 1]);
    }
  }

  lemma {:induction false} TrimRightKeeps(p: string, t: string)
    requires p != "" && !IsSpace(p[|p| - 1])
    ensures TrimRight(p + t) == p + TrimRight(t)
  {
    hide IsSpace;
    if t == "" {
      assert p + t == p && p + TrimRight(t) == p;
    } else if IsSpace(t[|t| - 1]) {
      assert (p + t)[..|p + t| - 1] == p + t[..|t| - 1];
      TrimRightKeeps(p, t[..|t| - 1]);
    }
  }

  lemma {:induction false} TrimmedSpells(t: string, b: string)
    requires Spells(t, b)
    ensures Spells(TrimRight(t), b)
  {
    hide SameDigit, IsSpace;
    if t != "" && IsSpace(t[|t| - 1]) {
      if !Blank(t[|t| - 1]) { SpaceIsNoDigit(t[|t| - 1], b[|b| - 1]); }
      TrimmedSpells(t[..|t| - 1], b);
    }
  }

  lemma SpaceIsNoDigit(c: char, d: char)
    requires IsSpace(c)
    ensures !SameDigit(c, d)
  {
  }

  // Every spelling of a code behind its prefix is read as that code.
  lemma PrefixedSpelling(lead: string, p: string, t: string, tail: string, b: string)
    requires AllSpace(lead) && AllSpace(tail) && |p| == 4 && HasPrefix(p) && Spells(t, b) && |b| == CODE_LEN
    ensures Normalize(lead + p + t + tail) == b
  {
    assert lead + p + t + tail == lead + (p + (t + tail));
    TrimLeftDrops(lead, p + (t + tail));
    TrimRightKeeps(p, t + tail);
    TrimRightDrops(t, tail);
    TrimmedSpells(t, b);
    hide TrimLeft, TrimRight, Spells, AllSpace, IsSpace;
    assert Strip(p + TrimRight(t)) == TrimRight(t);
    NormalizeExactly(lead + p + t + tail, b);
  }

  lemma {:induction false} CodeSpellsItself(b: string)
    requires forall i :: 0 <= i < |b| ==> InAlphabet(b[i])
    ensures Spells(b, b)
  {
    if b != "" {
      CodeSpellsItself(b[..|b| - 1]);
    }
  }

  // A new code is read back as its own 20 characters.
  lemma NewCodeIsRead(raw: seq<Byte>)
    requires |raw| == 13
    ensures Normalize(PREFIX + Chars(raw, CODE_LEN)) == Chars(raw, CODE_LEN)
  {
    var b := Chars(raw, CODE_LEN);
    hide Five;
    forall k | 0 <= k < CODE_LEN ensures InAlphabet(b[k]) { assert InAlphabet(Char(Five(raw, k))); }
    hide Char, Chars, InAlphabet;
    CodeSpellsItself(b);
    assert PREFIX + b == "" + PREFIX + b + "";
    hide Spells, Normalize;
    PrefixedSpelling("", PREFIX, b, "", b);
  }

  // Without the prefix, a spelling is read as its code exactly when it does
  // not itself look prefixed: "nbi-" can also be written for "NB1".
  lemma UnprefixedSpelling(t: string, b: string)
    requires Spells(TrimSpace(t), b) && |b| == CODE_LEN
    ensures Normalize(t) == b <==> !HasPrefix(TrimSpace(t))
  {
    hide Reading, Spells, TrimSpace;
    var s := TrimSpace(t);
    NormalizeExactly(t, b);
    if HasPrefix(s) {
      assert s == s[..4] + s[4..];
      ReadingConcat(s[..4], s[4..]);
      ReadingIsSpelling(s, b);
      ReadingIsSpelling(s[4..], b);
      PrefixReads(s[..4]);
    }
  }

  lemma PrefixReads(p: string)
    requires |p| == 4 && HasPrefix(p)
    ensures Reading(p) == Some("NB1")
  {
    assert InAlphabet('N') && InAlphabet('B') && InAlphabet('1');
    assert Canon(p[0]) == 'N' && Canon(p[1]) == 'B' && Canon(p[2]) == '1' && Blank(p[3]);
    assert !Blank(p[0]) && !Blank(p[1]) && !Blank(p[2]);
    hide InAlphabet, Reading, Canon, Blank, HasPrefix;
    ReadingOne(p[0]); ReadingOne(p[1]); ReadingOne(p[2]); ReadingOne(p[3]);
    ReadingConcat([p[0]], [p[1]]);
    ReadingConcat([p[0]] + [p[1]], [p[2]]);
    ReadingConcat([p[0]] + [p[1]] + [p[2]], [p[3]]);
    assert p == [p[0]] + [p[1]] + [p[2]] + [p[3]];
    assert ['N'] + ['B'] + ['1'] + "" == "NB1";
  }

  lemma ReadingOne(c: char)
    ensures Reading([c]) == if Blank(c) then Some("") else if InAlphabet(Canon(c)) then Some([Canon(c)]) else None
  {
    hide InAlphabet, Blank, Canon;
    var front := [c][..0];
    assert front == "" && Reading(front) == Some("");
    assert "" + [Canon(c)] == [Canon(c)];
  }

  // Dashes and spaces within a code change nothing, wherever and however many.
  lemma SeparatorsDoNotCount(a: string, c: char, b: string)
    requires c == '-' || c == ' '
    ensures Reading(a + [c] + b) == Reading(a + b)
  {
    ReadingConcat(a + [c], b);
    ReadingConcat(a, [c]);
    ReadingConcat(a, b);
    assert [c][..0] == "" && Reading([c]) == Some("");
    hide Blank, Canon, InAlphabet;
    assert Reading(a).Some? ==> Reading(a).value + "" == Reading(a).value;
  }

  // White space around a code changes nothing.
  lemma SpaceAroundDoesNotCount(c: char, s: string)
    requires c in " \t\n\r"
    ensures Normalize([c] + s) == Normalize(s) == Normalize(s + [c])
  {
    assert ([c] + s)[1..] == s;
    assert TrimLeft([c] + s) == TrimLeft(s);
    SpaceAfter(s, c);
    hide TrimLeft, TrimRight, Strip, Reading;
  }

  lemma {:induction false} SpaceAfter(s: string, c: char)
    requires IsSpace(c)
    ensures TrimSpace(s + [c]) == TrimSpace(s)
    decreases |s|
  {
    hide IsSpace;
    if s == "" {
      assert s + [c] == [c];
      assert TrimLeft([c]) == TrimLeft([c][1..]) == "";
    } else if IsSpace(s[0]) {
      assert (s + [c])[1..] == s[1..] + [c];
      SpaceAfter(s[1..], c);
    } else {
      assert (s + [c])[..|s|] == s;
    }
  }
}
