/** The texts of numeric values that the grammar of ABNF hands to the grammar builder, and what is read there. */
module NumValTexts {
  import opened Bytes
  import opened Words
  import opened NumVals
  import N = Numbers
  import P = AbnfProductions
  import W = AbnfWords

  /** One digit is a string of `digit`, and every string of it is one. */
  ghost predicate DigitWords(digit: Words, base: nat) {
    forall w :: digit(w) ==> |w| == 1 && N.IsDigit(base, w[0])
  }

  lemma {:induction false} RunOfDigits(digit: Words, base: nat, parts: seq<Bytes>)
    requires DigitWords(digit, base) && All(digit, parts)
    ensures N.AllDigits(base, Flat(parts)) && |Flat(parts)| == |parts|
    decreases |parts|
  {
    hide N.DigitOf;
    if parts != [] {
      assert digit(parts[0]);
      RunOfDigits(digit, base, parts[1..]);
    }
  }

  lemma DigitsAreNumber(digit: Words, base: nat, w: Bytes)
    requires DigitWords(digit, base) && Many(digit, 1, -1)(w)
    ensures IsNumber(base, w)
  {
    var parts :| Flat(parts) == w && 1 <= |parts| && All(digit, parts);
    RunOfDigits(digit, base, parts);
  }

  /** The sign, then a number. */
  lemma SignedNumber(c: int, digit: Words, base: nat, w: Bytes)
    requires DigitWords(digit, base) && InOrder([Sign(c), Many(digit, 1, -1)])(w)
    ensures w != [] && w[0] == c && IsNumber(base, w[1..])
  {
    hide InOrder, Many, N.AllDigits;
    PairInOrder(Sign(c), Many(digit, 1, -1), w);
    var k :| 0 <= k <= |w| && Sign(c)(w[..k]) && Many(digit, 1, -1)(w[k..]);
    assert k == 1 && w[..k][0] == w[0];
    DigitsAreNumber(digit, base, w[1..]);
  }

  lemma DottedNext(base: nat, first: Bytes, d: Bytes, ds: seq<Bytes>, rest: Bytes)
    requires IsNumber(base, first) && AreNumbers(base, [d] + ds) && d + rest == Dotted([d] + ds)
    ensures AreNumbers(base, [first] + ([d] + ds)) && first + ([46] + d + rest) == Dotted([first] + ([d] + ds))
  {
    hide IsNumber;
    var all := [first] + ([d] + ds);
    assert all[1..] == [d] + ds;
    assert first + ([46] + d + rest) == first + [46] + (d + rest);
    forall i | 0 <= i < |all|
      ensures IsNumber(base, all[i])
    {
      if i > 0 {
        assert all[i] == ([d] + ds)[i - 1];
      }
    }
  }

  lemma DottedAlone(base: nat, first: Bytes)
    requires IsNumber(base, first)
    ensures AreNumbers(base, [first]) && first + [] == Dotted([first])
  {
  }

  lemma {:induction false} DottedParts(digit: Words, base: nat, first: Bytes, parts: seq<Bytes>)
    returns (ds: seq<Bytes>)
    requires DigitWords(digit, base) && All(InOrder([Sign(46), Many(digit, 1, -1)]), parts) && IsNumber(base, first)
    ensures AreNumbers(base, [first] + ds) && first + Flat(parts) == Dotted([first] + ds)
    decreases |parts|
  {
    hide InOrder, Many, IsNumber, AreNumbers, Dotted, DigitWords;
    ds := [];
    if parts == [] {
      DottedAlone(base, first);
      assert [first] + ds == [first];
    } else {
      assert InOrder([Sign(46), Many(digit, 1, -1)])(parts[0]);
      SignedNumber(46, digit, base, parts[0]);
      var d := parts[0][1..];
      var rest := DottedParts(digit, base, d, parts[1..]);
      assert parts[0] == [46] + d;
      DottedNext(base, first, d, rest, Flat(parts[1..]));
      ds := [d] + rest;
    }
  }

  /** How a text is read: as the numbers it lists, or as the range between the two it names. */
  ghost predicate ReadsBack(base: nat, w: Bytes, ds: seq<Bytes>) {
    && w != [] && ds != [] && AreNumbers(base, ds)
    && if Meaning(base, w).0
       then |ds| == 2 && w[1..] == ds[0] + [45] + ds[1] && Meaning(base, w).1 == Ints(base, ds)
       else w[1..] == Dotted(ds) && Meaning(base, w).1 == Ints(base, ds)
  }

  lemma TripleInOrder(a: Words, b: Words, c: Words, w: Bytes) returns (i: nat, j: nat)
    requires InOrder([a, b, c])(w)
    ensures i <= j <= |w| && a(w[..i]) && b(w[i..j]) && c(w[j..])
  {
    hide InOrder;
    assert [a, b, c] == [a] + [b, c];
    InOrderFirst(a, [b, c], w);
    i :| 0 <= i <= |w| && a(w[..i]) && InOrder([b, c])(w[i..]);
    var rest := w[i..];
    PairInOrder(b, c, rest);
    var k :| 0 <= k <= |rest| && b(rest[..k]) && c(rest[k..]);
    j := i + k;
    assert rest[..k] == w[i..j] && rest[k..] == w[j..];
  }

  lemma RangeRead(base: nat, w: Bytes, first: Bytes, last: Bytes)
    requires 2 <= base <= 16 && IsNumber(base, first) && IsNumber(base, last)
    requires w != [] && w[0] != 45 && w[1..] == first + ([45] + last)
    ensures ReadsBack(base, w, [first, last])
  {
    hide Meaning, Ints, IsNumber;
    assert w == [w[0]] + first + [45] + last;
    RangeMeans(base, w[0], first, last);
    PairAreNumbers(base, first, last);
    assert w[1..] == first + [45] + last;
  }

  lemma ListRead(base: nat, w: Bytes, ds: seq<Bytes>)
    requires 2 <= base <= 16 && ds != [] && AreNumbers(base, ds)
    requires w != [] && w[0] != 45 && w[1..] == Dotted(ds)
    ensures ReadsBack(base, w, ds)
  {
    hide Meaning, Ints, Dotted, AreNumbers;
    assert w == [w[0]] + Dotted(ds);
    DottedMeans(base, w[0], ds);
  }

  /** What comes after the first number of a text. */
  lemma RestRead(digit: Words, base: nat, w: Bytes, first: Bytes, rest: Bytes) returns (ds: seq<Bytes>)
    requires 2 <= base <= 16 && DigitWords(digit, base) && IsNumber(base, first)
    requires w != [] && w[0] != 45 && w[1..] == first + rest
    requires var digits := Many(digit, 1, -1);
             var dotted, dashed := InOrder([Sign(46), digits]), InOrder([Sign(45), digits]);
             rest == [] || Many(dotted, 1, -1)(rest) || dashed(rest)
    ensures ReadsBack(base, w, ds)
  {
    hide InOrder, Many, ReadsBack, Dotted, AreNumbers, DigitWords, IsNumber;
    var digits := Many(digit, 1, -1);
    var dotted, dashed := InOrder([Sign(46), digits]), InOrder([Sign(45), digits]);
    if rest != [] && dashed(rest) {
      SignedNumber(45, digit, base, rest);
      ds := [first, rest[1..]];
      assert rest == [45] + rest[1..];
      RangeRead(base, w, first, rest[1..]);
    } else {
      NoParts(dotted);
      var more := if rest == [] then [] else PartsOf(dotted, rest);
      var others := DottedParts(digit, base, first, more);
      ds := [first] + others;
      ListRead(base, w, ds);
    }
  }

  lemma NumeralsRead(letter: Byte, digit: Words, base: nat, w: Bytes) returns (ds: seq<Bytes>)
    requires 97 <= letter <= 122 && 2 <= base <= 16 && DigitWords(digit, base)
    requires P.Numerals(letter, Many(digit, 1, -1))(w)
    ensures ReadsBack(base, w, ds)
  {
    hide InOrder, Many, OneOf, ReadsBack, DigitWords, IsNumber;
    var digits := Many(digit, 1, -1);
    var dotted, dashed := InOrder([Sign(46), digits]), InOrder([Sign(45), digits]);
    var i, j := TripleInOrder(Letter(letter), digits, Perhaps(OneOf([Many(dotted, 1, -1), dashed])), w);
    SameLetterShifts(w[..i][0], letter);
    assert i == 1 && w[..i][0] == w[0] && w[0] != 45;
    DigitsAreNumber(digit, base, w[i..j]);
    OneOfTwo(Many(dotted, 1, -1), dashed, w[j..]);
    assert w[1..] == w[1..j] + w[j..];
    ds := RestRead(digit, base, w, w[1..j], w[j..]);
  }

  lemma PairAreNumbers(base: nat, a: Bytes, b: Bytes)
    requires IsNumber(base, a) && IsNumber(base, b)
    ensures AreNumbers(base, [a, b])
  {
  }

  ghost function PartsOf(l: Words, w: Bytes): (parts: seq<Bytes>)
    requires Many(l, 1, -1)(w)
    ensures Flat(parts) == w && All(l, parts)
  {
    var parts :| Flat(parts) == w && 1 <= |parts| && All(l, parts);
    parts
  }

  lemma NoParts(l: Words)
    ensures Flat([]) == [] && All(l, [])
  {
  }

  /** Every text that the grammar of ABNF takes for a value in base 2, 10 or 16 is read as the numbers it
      spells, whatever their number: none is skipped, and only a dash makes a range. */
  lemma ValueTextsRead(w: Bytes)
    ensures W.The("bin-val")(w) ==> exists ds :: ReadsBack(2, w, ds)
    ensures W.The("dec-val")(w) ==> exists ds :: ReadsBack(10, w, ds)
    ensures W.The("hex-val")(w) ==> exists ds :: ReadsBack(16, w, ds)
  {
    hide W.The, P.Numerals, ReadsBack, Many;
    P.NumberProductions();
    DigitsOfBases();
    if W.The("bin-val")(w) {
      var ds := NumeralsRead(98, W.The("bit"), 2, w);
    }
    if W.The("dec-val")(w) {
      var ds := NumeralsRead(100, W.The("digit"), 10, w);
    }
    if W.The("hex-val")(w) {
      var ds := NumeralsRead(120, W.The("hexdig"), 16, w);
    }
  }

  lemma DigitsOfBases()
    ensures DigitWords(W.The("bit"), 2) && DigitWords(W.The("digit"), 10) && DigitWords(W.The("hexdig"), 16)
  {
    hide W.The;
    P.ClassProductions();
    P.OctetProductions();
    P.HexdigProduction();
  }
}
