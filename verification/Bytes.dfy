/** Octets, input strings and the ASCII case folding the recognizers rely on. */
module Bytes {

  type Byte = b: int | 0 <= b < 256

  type Bytes = seq<Byte>

  datatype Option<+T> = None | Some(value: T)

  /** The octet a recognizer sees at `pos`: like std::string, reading at the size yields 0.
      Reading any further is undefined in the source, hence the precondition. */
  function At(s: Bytes, pos: nat): Byte
    requires pos <= |s|
  {
    if pos < |s| then s[pos] else 0
  }

  function ToLower(b: int): int {
    if 65 <= b <= 90 then b + 32 else b
  }

  function ToUpper(b: int): int {
    if 97 <= b <= 122 then b - 32 else b
  }

  /** The same octet, or the capital and the small form of one ASCII letter. */
  predicate SameLetter(a: int, b: int) {
    || a == b
    || exists i {:trigger "ABCDEFGHIJKLMNOPQRSTUVWXYZ"[i]} ::
         && 0 <= i < 26
         && {a, b} == {"ABCDEFGHIJKLMNOPQRSTUVWXYZ"[i] as int, "abcdefghijklmnopqrstuvwxyz"[i] as int}
  }

  predicate IsCapital(a: int) {
    'A' as int <= a <= 'Z' as int
  }

  predicate IsSmall(a: int) {
    'a' as int <= a <= 'z' as int
  }

  lemma SameLetterShifts(a: int, b: int)
    ensures SameLetter(a, b) <==> a == b || (65 <= a <= 90 && b == a + 32) || (65 <= b <= 90 && a == b + 32)
  {
    var capitals, small := "ABCDEFGHIJKLMNOPQRSTUVWXYZ", "abcdefghijklmnopqrstuvwxyz";
    assert forall i :: 0 <= i < 26 ==> capitals[i] as int == 65 + i;
    assert forall i :: 0 <= i < 26 ==> small[i] as int == 97 + i;
    if 65 <= a <= 90 && b == a + 32 {
      assert {a, b} == {capitals[a - 65] as int, small[a - 65] as int};
    }
    if 65 <= b <= 90 && a == b + 32 {
      assert {a, b} == {capitals[b - 65] as int, small[b - 65] as int};
    }
    if i :| 0 <= i < 26 && {a, b} == {capitals[i] as int, small[i] as int} {
      assert a in {capitals[i] as int, small[i] as int} && b in {capitals[i] as int, small[i] as int};
      assert capitals[i] as int in {a, b} && small[i] as int in {a, b};
    }
  }

  /** Folding to either case keeps the letter and fixes its case, so that octets fold alike exactly
      when they differ in case alone. */
  lemma Folds(a: int, b: int)
    ensures SameLetter(a, ToLower(a)) && !IsCapital(ToLower(a))
    ensures SameLetter(a, ToUpper(a)) && !IsSmall(ToUpper(a))
    ensures ToLower(a) == ToLower(b) <==> SameLetter(a, b)
    ensures ToUpper(a) == ToUpper(b) <==> SameLetter(a, b)
  {
    hide SameLetter;
    SameLetterShifts(a, ToLower(a));
    SameLetterShifts(a, ToUpper(a));
    SameLetterShifts(a, b);
  }

  function Max(a: nat, b: nat): nat {
    if a < b then b else a
  }
}
