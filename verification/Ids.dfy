// Object and collection ids: 26 characters of base 32 that fit 128 bits.

module Ids {
  import opened Model
  import opened Invite

  // The number a ULID spells.
  function Value(s: string): int {
    if s == "" then 0 else 32 * Value(s[..|s| - 1]) + Digit(Upper(s[|s| - 1]))
  }

  function Pow32(n: nat): nat { if n == 0 then 1 else 32 * Pow32(n - 1) }

  lemma UlidCharHasDigit(c: char)
    requires UlidChar(c)
    ensures InAlphabet(Upper(c)) && 0 <= Digit(Upper(c)) < 32
  {}

  // The first character alone says how large the number is.
  lemma {:induction false} FirstDecides(s: string)
    requires s != "" && forall c :: c in s ==> UlidChar(c)
    ensures var d := Digit(Upper(s[0])); d * Pow32(|s| - 1) <= Value(s) < (d + 1) * Pow32(|s| - 1)
  {
    hide Digit, Upper;
    UlidCharHasDigit(s[|s| - 1]);
    var head := s[..|s| - 1];
    if head == "" {
      assert Value(head) == 0;
    } else {
      FirstDecides(head);
      Times(Digit(Upper(s[0])), Pow32(|s| - 2));
      Times(Digit(Upper(s[0])) + 1, Pow32(|s| - 2));
    }
  }

  lemma Times(d: int, p: nat)
    ensures d * (32 * p) == 32 * (d * p)
  {}

  lemma FirstIsAtMost7(c: char)
    requires UlidChar(c)
    ensures c <= '7' <==> Digit(Upper(c)) < 8
  {}

  const TWO_128 := 0x1_0000_0000_0000_0000_0000_0000_0000_0000

  lemma Pow25()
    ensures 8 * Pow32(25) == TWO_128
  {
    assert Pow32(5) == 0x200_0000;
    assert Pow32(10) == 0x4_0000_0000_0000;
    assert Pow32(15) == 0x800_0000_0000_0000_0000;
    assert Pow32(20) == 0x10_0000_0000_0000_0000_0000_0000;
  }

  // An id is valid exactly if it is 26 characters of the alphabet, in either
  // case, whose number fits 128 bits.
  lemma ValidIdExactly(s: Id)
    ensures ValidId(s) <==> |s| == 26 && (forall c :: c in s ==> InAlphabet(Upper(c))) && Value(s) < TWO_128
  {
    hide Value, Digit, Pow32;
    AlphabetIsUlid(s);
    if |s| == 26 && forall c :: c in s ==> UlidChar(c) {
      assert s[0] in s;
      FirstDecides(s);
      FirstIsAtMost7(s[0]);
      Pow25();
    }
  }

  lemma AlphabetIsUlid(s: string)
    ensures (forall c :: c in s ==> InAlphabet(Upper(c))) <==> forall i :: 0 <= i < |s| ==> UlidChar(s[i])
  {
    hide Digit;
    forall c ensures UlidChar(c) <==> InAlphabet(Upper(c)) {}
    if forall i :: 0 <= i < |s| ==> UlidChar(s[i]) {
      forall c | c in s ensures UlidChar(c) {}
    }
  }
}
