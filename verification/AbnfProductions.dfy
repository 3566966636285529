/** The languages of the rules of ABNF, production by production, as section 4 and appendix B.1 of RFC 5234
    give them. Octets are written as numbers: 47 separates alternatives, 42 is in repeats, 61 defines. */
module AbnfProductions {
  import opened Bytes
  import opened Words
  import opened Recognizers
  import opened AbnfRules
  import opened AbnfWords
  import F = AbnfForms
  import G = AbnfGrammar

  // The characters, down to the octets.

  /** The rule `x` has the octets of `octets`, one at a time. */
  ghost predicate IsClass(x: Name, octets: Byte -> bool) {
    forall w :: The(x)(w) <==> |w| == 1 && octets(w[0])
  }

  lemma RangeClass(r: Rule, lo: int, hi: int)
    requires G.Body(r) == F.Range(lo, hi)
    ensures IsClass(NameOf(r), b => lo <= b <= hi)
  {
    hide The, NameOf, G.Body;
    RuleForm(r);
  }

  lemma SignClass(r: Rule, c: int)
    requires G.Body(r) == F.Sign(c)
    ensures IsClass(NameOf(r), b => b == c)
  {
    hide The, NameOf, G.Body;
    RuleForm(r);
  }

  lemma EitherClass(r: Rule, f: F.Form, f': F.Form, octets: Byte -> bool)
    requires G.Body(r) == F.Exclusive(F.Two(f, f'))
    requires forall w :: WordsOf(f)(w) || WordsOf(f')(w) <==> |w| == 1 && octets(w[0])
    ensures IsClass(NameOf(r), octets)
  {
    hide The, NameOf, G.Body, OneOf, WordsOf;
    RuleForm(r);
    ChoiceWords(f, f');
    forall w
      ensures The(NameOf(r))(w) <==> |w| == 1 && octets(w[0])
    {
      OneOfTwo(WordsOf(f), WordsOf(f'), w);
    }
  }

  lemma ChoiceWords(f: F.Form, f': F.Form)
    ensures WordsOf(F.Exclusive(F.Two(f, f'))) == OneOf([WordsOf(f), WordsOf(f')])
  {
    ListedWords(f, f', F.End);
  }

  /** Appendix B.1: CHAR, CR, LF, DIGIT, DQUOTE, HTAB, OCTET, SP, VCHAR. */
  lemma OctetProductions()
    ensures IsClass("char", b => 1 <= b <= 127) && IsClass("octet", b => 0 <= b <= 255)
    ensures IsClass("cr", b => b == 13) && IsClass("lf", b => b == 10)
    ensures IsClass("digit", b => 48 <= b <= 57) && IsClass("vchar", b => 33 <= b <= 126)
    ensures IsClass("dquote", b => b == 34) && IsClass("htab", b => b == 9) && IsClass("sp", b => b == 32)
  {
    hide NameOf, G.Body, IsClass;
    CharacterNames();
    BlankNames();
    G.CharacterBodies();
    G.BlankBodies();
    RangeClass(Char, 1, 127);
    RangeClass(Octet, 0, 255);
    RangeClass(Digit, 48, 57);
    RangeClass(Vchar, 33, 126);
    SignClass(Cr, 13);
    SignClass(Lf, 10);
    SignClass(Dquote, 34);
    SignClass(Htab, 9);
    SignClass(Sp, 32);
  }

  lemma AlphaClass()
    ensures IsClass(NameOf(Alpha), b => 65 <= b <= 90 || 97 <= b <= 122)
  {
    hide NameOf, G.Body, IsClass, The;
    G.CharacterBodies();
    EitherClass(Alpha, F.Range(97, 122), F.Range(65, 90), b => 65 <= b <= 90 || 97 <= b <= 122);
  }

  lemma BitClass()
    ensures IsClass(NameOf(Bit), b => b == 48 || b == 49)
  {
    hide NameOf, G.Body, IsClass, The;
    G.CharacterBodies();
    EitherClass(Bit, F.Sign(48), F.Sign(49), b => b == 48 || b == 49);
  }

  lemma CtlClass()
    ensures IsClass(NameOf(Ctl), b => 0 <= b <= 31 || b == 127)
  {
    hide NameOf, G.Body, IsClass, The;
    G.CharacterBodies();
    EitherClass(Ctl, F.Range(0, 31), F.Sign(127), b => 0 <= b <= 31 || b == 127);
  }

  /** ALPHA, BIT, CTL. */
  lemma ClassProductions()
    ensures IsClass("alpha", b => 65 <= b <= 90 || 97 <= b <= 122)
    ensures IsClass("bit", b => b == 48 || b == 49)
    ensures IsClass("ctl", b => 0 <= b <= 31 || b == 127)
  {
    hide NameOf, IsClass, The;
    CharacterNames();
    AlphaClass();
    BitClass();
    CtlClass();
  }

  lemma HexLetterWords(w: Bytes)
    ensures OneOf(WordsOfAll(F.HexLetters()))(w) <==> |w| == 1 && (65 <= w[0] <= 70 || 97 <= w[0] <= 102)
  {
    hide OneOf, WordsOf, WordsOfAll;
    SixWords(F.Letter(97), F.Letter(98), F.Letter(99), F.Letter(100), F.Letter(101), F.Letter(102));
    var ls := [Letter(97), Letter(98), Letter(99), Letter(100), Letter(101), Letter(102)];
    forall c | 97 <= c <= 102
      ensures WordsOf(F.Letter(c)) == Letter(c)
      ensures |w| == 1 ==> (SameLetter(w[0], c) <==> w[0] == c || w[0] == c - 32)
    {
      SignWords(c);
      if |w| == 1 {
        SameLetterShifts(w[0], c);
      }
    }
    assert WordsOfAll(F.HexLetters()) == ls;
    OneOfSix(ls[0], ls[1], ls[2], ls[3], ls[4], ls[5], w);
  }

  lemma HexdigWords(w: Bytes)
    ensures WordsOf(F.HexdigForm())(w) <==> The(NameOf(Digit))(w) || OneOf(WordsOfAll(F.HexLetters()))(w)
  {
    hide WordsOfAll, F.HexLetters, The, NameOf, OneOf;
    ListedWords(F.Ref(Digit), F.Ref(Digit), F.HexLetters());
    ReferenceWords(Digit);
    OneOfFirst(The(NameOf(Digit)), WordsOfAll(F.HexLetters()), w);
  }

  lemma HexdigStrings(w: Bytes)
    ensures The(NameOf(Hexdig))(w) <==> |w| == 1 && (48 <= w[0] <= 57 || 65 <= w[0] <= 70 || 97 <= w[0] <= 102)
  {
    hide NameOf, G.Body, The, WordsOf, WordsOfAll, OneOf, F.HexdigForm, F.HexLetters, F.DigitForm;
    assert G.Body(Hexdig) == F.HexdigForm() by {
      G.BlankBodies();
    }
    assert G.Body(Digit) == F.DigitForm() by {
      G.CharacterBodies();
    }
    RuleAtWord(Hexdig, w);
    HexdigWords(w);
    RuleAtWord(Digit, w);
    DigitWords(w);
    HexLetterWords(w);
  }

  /** HEXDIG: letters of quoted strings are case-insensitive (section 2.3), hence both forms of A to F. */
  lemma HexdigProduction()
    ensures IsClass("hexdig", b => 48 <= b <= 57 || 65 <= b <= 70 || 97 <= b <= 102)
  {
    hide NameOf, The;
    BlankNames();
    forall w
      ensures The("hexdig")(w) <==> |w| == 1 && (48 <= w[0] <= 57 || 65 <= w[0] <= 70 || 97 <= w[0] <= 102)
    {
      HexdigStrings(w);
    }
  }

  lemma DigitWords(w: Bytes)
    ensures WordsOf(F.DigitForm())(w) <==> |w| == 1 && 48 <= w[0] <= 57
  {
  }

  // The other rules, in terms of the rules they refer to.

  /** The strings of the rule `x` are those of `l`. */
  ghost predicate Reads(x: Name, l: Words) {
    Alike(The(x), l)
  }

  lemma WrittenReads(r: Rule, f: F.Form)
    requires G.Body(r) == f
    ensures Reads(NameOf(r), WordsOf(f))
  {
    hide The, NameOf, G.Body, WordsOf;
    RuleForm(r);
  }

  lemma CrlfProduction()
    ensures Reads("crlf", InOrder([The("cr"), The("lf")]))
  {
    hide NameOf, G.Body, The, Reads, WordsOf, InOrder, OneOf, Many, Sign, Letter, Octets, Perhaps;
    hide F.Star, F.Plus, F.Opt, F.Sign, F.Letter, F.Exclusive, F.Longest, F.One, F.Two, F.Three, F.Four;
    CharacterNames();
    G.CharacterBodies();
    ReferenceWords(Cr);
    ReferenceWords(Lf);
    TwoInOrder(F.Ref(Cr), F.Ref(Lf));
    WrittenReads(Crlf, F.CrlfForm());
  }

  lemma WspProduction()
    ensures Reads("wsp", OneOf([The("sp"), The("htab")]))
  {
    hide NameOf, G.Body, The, Reads, WordsOf, InOrder, OneOf, Many, Sign, Letter, Octets, Perhaps;
    hide F.Star, F.Plus, F.Opt, F.Sign, F.Letter, F.Exclusive, F.Longest, F.One, F.Two, F.Three, F.Four;
    BlankNames();
    G.BlankBodies();
    ReferenceWords(Sp);
    ReferenceWords(Htab);
    OneOfPair(F.Ref(Sp), F.Ref(Htab));
    WrittenReads(Wsp, F.WspForm());
  }

  lemma LwspProduction()
    ensures Reads("lwsp", Many(OneOf([The("wsp"), InOrder([The("crlf"), The("wsp")])]), 0, -1))
  {
    hide NameOf, G.Body, The, Reads, WordsOf, InOrder, OneOf, Many, Sign, Letter, Octets, Perhaps;
    hide F.Star, F.Plus, F.Opt, F.Sign, F.Letter, F.Exclusive, F.Longest, F.One, F.Two, F.Three, F.Four;
    CharacterNames();
    BlankNames();
    G.BlankBodies();
    ReferenceWords(Wsp);
    ReferenceWords(Crlf);
    var folded := F.Seq(F.Two(F.Ref(Crlf), F.Ref(Wsp)));
    TwoInOrder(F.Ref(Crlf), F.Ref(Wsp));
    OneOfPair(F.Ref(Wsp), folded);
    ManyWords(F.Exclusive(F.Two(F.Ref(Wsp), folded)));
    WrittenReads(Lwsp, F.LwspForm());
  }

  /** *c-wsp */
  ghost function Blanks(): Words {
    Many(The("c-wsp"), 0, -1)
  }

  lemma BlanksWords()
    ensures WordsOf(F.Star(F.Ref(CWsp))) == Blanks()
  {
    hide NameOf, The;
    LineNames();
  }

  lemma CWspProduction()
    ensures Reads("c-wsp", OneOf([The("wsp"), InOrder([The("c-nl"), The("wsp")])]))
  {
    hide NameOf, G.Body, The, Reads, WordsOf, InOrder, OneOf, Many, Sign, Letter, Octets, Perhaps;
    hide F.Star, F.Plus, F.Opt, F.Sign, F.Letter, F.Exclusive, F.Longest, F.One, F.Two, F.Three, F.Four;
    BlankNames();
    LineNames();
    G.LineBodies();
    ReferenceWords(Wsp);
    ReferenceWords(CNl);
    TwoInOrder(F.Ref(CNl), F.Ref(Wsp));
    OneOfPair(F.Ref(Wsp), F.Seq(F.Two(F.Ref(CNl), F.Ref(Wsp))));
    WrittenReads(CWsp, F.CWspForm());
  }

  /** And a line likewise. */
  lemma CNlProduction()
    ensures Reads("c-nl", OneOf([The("comment"), The("crlf-or-lf")]))
  {
    hide NameOf, G.Body, The, Reads, WordsOf, InOrder, OneOf, Many, Sign, Letter, Octets, Perhaps;
    hide F.Star, F.Plus, F.Opt, F.Sign, F.Letter, F.Exclusive, F.Longest, F.One, F.Two, F.Three, F.Four;
    LineNames();
    ElementNames();
    G.LineBodies();
    ReferenceWords(Comment);
    ReferenceWords(CrlfOrLf);
    OneOfPair(F.Ref(Comment), F.Ref(CrlfOrLf));
    WrittenReads(CNl, F.CNlForm());
  }

  /** belr ends a comment with LF alone too, where RFC 5234 wants CRLF. */
  lemma CommentProduction()
    ensures Reads("comment", InOrder([Sign(59), Many(OneOf([The("wsp"), The("vchar")]), 0, -1), The("crlf-or-lf")]))
  {
    hide NameOf, G.Body, The, Reads, WordsOf, InOrder, OneOf, Many, Sign, Letter, Octets, Perhaps;
    hide F.Star, F.Plus, F.Opt, F.Sign, F.Letter, F.Exclusive, F.Longest, F.One, F.Two, F.Three, F.Four;
    BlankNames();
    LineNames();
    ElementNames();
    G.LineBodies();
    SignWords(59);
    ReferenceWords(Wsp);
    ReferenceWords(Vchar);
    ReferenceWords(CrlfOrLf);
    var inside := F.Exclusive(F.Two(F.Ref(Wsp), F.Ref(Vchar)));
    OneOfPair(F.Ref(Wsp), F.Ref(Vchar));
    ManyWords(inside);
    ThreeInOrder(F.Sign(59), F.Star(inside), F.Ref(CrlfOrLf));
    WrittenReads(Comment, F.CommentForm());
  }

  /** A rule of belr's own. */
  lemma CrlfOrLfProduction()
    ensures Reads("crlf-or-lf", OneOf([The("crlf"), The("lf")]))
  {
    hide NameOf, G.Body, The, Reads, WordsOf, InOrder, OneOf, Many, Sign, Letter, Octets, Perhaps;
    hide F.Star, F.Plus, F.Opt, F.Sign, F.Letter, F.Exclusive, F.Longest, F.One, F.Two, F.Three, F.Four;
    CharacterNames();
    ElementNames();
    G.LastBodies();
    ReferenceWords(Crlf);
    ReferenceWords(Lf);
    OneOfPair(F.Ref(Crlf), F.Ref(Lf));
    WrittenReads(CrlfOrLf, F.CrlfOrLfForm());
  }

  lemma LineSigns(w: Bytes)
    ensures The("cr")(w) <==> w == [13]
    ensures The("lf")(w) <==> w == [10]
  {
    hide The, NameOf, G.Body;
    CharacterNames();
    G.CharacterBodies();
    RuleAtWord(Cr, w);
    RuleAtWord(Lf, w);
  }

  /** CRLF, and where belr takes a line to end. */
  lemma LineEnds(w: Bytes)
    ensures The("crlf")(w) <==> w == [13, 10]
    ensures The("crlf-or-lf")(w) <==> w == [13, 10] || w == [10]
  {
    hide The, InOrder, OneOf, NameOf, G.Body, WordsOf;
    CrlfProduction();
    CrlfOrLfProduction();
    OneOfTwo(The("crlf"), The("lf"), w);
    PairInOrder(The("cr"), The("lf"), w);
    LineSigns(w);
    forall k | 0 <= k <= |w|
      ensures The("cr")(w[..k]) && The("lf")(w[k..]) <==> k == 1 && w == [13, 10]
    {
      LineSigns(w[..k]);
      LineSigns(w[k..]);
      assert w == w[..k] + w[k..];
    }
    if w == [13, 10] {
      assert The("cr")(w[..1]) && The("lf")(w[1..]);
    }
  }

  // Values.

  lemma CharValProduction()
    ensures Reads("char-val",
              InOrder([The("dquote"), Many(OneOf([Octets(32, 33), Octets(35, 126)]), 0, -1), The("dquote")]))
  {
    hide NameOf, G.Body, The, Reads, WordsOf, InOrder, OneOf, Many, Sign, Letter, Octets, Perhaps;
    hide F.Star, F.Plus, F.Opt, F.Sign, F.Letter, F.Exclusive, F.Longest, F.One, F.Two, F.Three, F.Four;
    BlankNames();
    ReferenceWords(Dquote);
    ValueNames();
    G.ValueBodies();
    RangeWords(32, 33);
    RangeWords(35, 126);
    var inside := F.Exclusive(F.Two(F.Range(32, 33), F.Range(35, 126)));
    OneOfPair(F.Range(32, 33), F.Range(35, 126));
    ManyWords(inside);
    ThreeInOrder(F.Ref(Dquote), F.Star(inside), F.Ref(Dquote));
    WrittenReads(CharVal, F.CharValForm());
  }

  lemma ProseValProduction()
    ensures Reads("prose-val", InOrder([Sign(60), Many(OneOf([Octets(32, 61), Octets(63, 126)]), 0, -1), Sign(62)]))
  {
    hide NameOf, G.Body, The, Reads, WordsOf, InOrder, OneOf, Many, Sign, Letter, Octets, Perhaps;
    hide F.Star, F.Plus, F.Opt, F.Sign, F.Letter, F.Exclusive, F.Longest, F.One, F.Two, F.Three, F.Four;
    SignWords(60);
    SignWords(62);
    ValueNames();
    G.ValueBodies();
    RangeWords(32, 61);
    RangeWords(63, 126);
    var inside := F.Exclusive(F.Two(F.Range(32, 61), F.Range(63, 126)));
    OneOfPair(F.Range(32, 61), F.Range(63, 126));
    ManyWords(inside);
    ThreeInOrder(F.Sign(60), F.Star(inside), F.Sign(62));
    WrittenReads(ProseVal, F.ProseValForm());
  }

  lemma NumValProduction()
    ensures Reads("num-val", InOrder([Sign(37), OneOf([The("bin-val"), The("dec-val"), The("hex-val")])]))
  {
    hide NameOf, G.Body, The, Reads, WordsOf, InOrder, OneOf, Many, Sign, Letter, Octets, Perhaps;
    hide F.Star, F.Plus, F.Opt, F.Sign, F.Letter, F.Exclusive, F.Longest, F.One, F.Two, F.Three, F.Four;
    ValueNames();
    G.ValueBodies();
    SignWords(37);
    ReferenceWords(BinVal);
    ReferenceWords(DecVal);
    ReferenceWords(HexVal);
    OneOfThree(F.Ref(BinVal), F.Ref(DecVal), F.Ref(HexVal));
    TwoInOrder(F.Sign(37), F.Exclusive(F.Three(F.Ref(BinVal), F.Ref(DecVal), F.Ref(HexVal))));
    WrittenReads(NumVal, F.NumValForm());
  }

  /** Numbers joined by 46, or two of them with 45 in between. */
  ghost function Numerals(letter: int, digits: Words): Words {
    InOrder([Letter(letter), digits,
             Perhaps(OneOf([Many(InOrder([Sign(46), digits]), 1, -1), InOrder([Sign(45), digits])]))])
  }

  lemma ValueWords(prefix: int, digit: Rule)
    requires !IsCapital(prefix)
    ensures var digits := Many(The(NameOf(digit)), 1, -1);
            WordsOf(F.ValueForm(prefix, digit)) ==
            InOrder([Letter(prefix), digits,
                     Many(OneOf([Many(InOrder([Sign(46), digits]), 0, -1), InOrder([Sign(45), digits])]), 0, 1)])
  {
    hide NameOf, The, WordsOf, InOrder, OneOf, Many, Sign, Letter;
    hide F.Star, F.Plus, F.Opt, F.Sign, F.Letter, F.Exclusive, F.Longest, F.One, F.Two, F.Three, F.Four;
    var digits, dotted, dashed :=
      F.Plus(F.Ref(digit)), F.Seq(F.Two(F.Sign(46), F.Plus(F.Ref(digit)))),
      F.Seq(F.Two(F.Sign(45), F.Plus(F.Ref(digit))));
    ReferenceWords(digit);
    ManyWords(F.Ref(digit));
    SignWords(46);
    SignWords(45);
    SignWords(prefix);
    TwoInOrder(F.Sign(46), digits);
    TwoInOrder(F.Sign(45), digits);
    ManyWords(dotted);
    OneOfPair(F.Star(dotted), dashed);
    ManyWords(F.Longest(F.Two(F.Star(dotted), dashed)));
    ThreeInOrder(F.Letter(prefix), digits, F.Opt(F.Values(digit)));
  }

  lemma ValueProduction(r: Rule, prefix: int, digit: Rule)
    requires !IsCapital(prefix) && G.Body(r) == F.ValueForm(prefix, digit)
    ensures Reads(NameOf(r), Numerals(prefix, Many(The(NameOf(digit)), 1, -1)))
  {
    hide NameOf, The, WordsOf, InOrder, OneOf, Many, Sign, Letter, Perhaps, G.Body, Alike, F.ValueForm;
    WrittenReads(r, F.ValueForm(prefix, digit));
    ValueWords(prefix, digit);
    var digits := Many(The(NameOf(digit)), 1, -1);
    var dotted, dashed := InOrder([Sign(46), digits]), InOrder([Sign(45), digits]);
    PerhapsAny(dotted, dashed);
    LastAlike(Letter(prefix), digits, Many(OneOf([Many(dotted, 0, -1), dashed]), 0, 1),
              Perhaps(OneOf([Many(dotted, 1, -1), dashed])));
    AlikeTwice(The(NameOf(r)), WordsOf(F.ValueForm(prefix, digit)), Numerals(prefix, digits));
  }

  /** "b", "d" and "x" in either case, each with its digits. */
  lemma NumberProductions()
    ensures Reads("bin-val", Numerals(98, Many(The("bit"), 1, -1)))
    ensures Reads("dec-val", Numerals(100, Many(The("digit"), 1, -1)))
    ensures Reads("hex-val", Numerals(120, Many(The("hexdig"), 1, -1)))
  {
    hide NameOf, The, Many, G.Body, Reads, Numerals, F.ValueForm;
    CharacterNames();
    BlankNames();
    ValueNames();
    G.ValueBodies();
    ValueProduction(BinVal, 98, Bit);
    ValueProduction(DecVal, 100, Digit);
    ValueProduction(HexVal, 120, Hexdig);
  }

  // Rules and their parts.

  lemma RulenameProduction()
    ensures Reads("rulename", InOrder([The("alpha"), Many(OneOf([The("alpha"), The("digit"), Sign(45)]), 0, -1)]))
  {
    hide NameOf, G.Body, The, Reads, WordsOf, InOrder, OneOf, Many, Sign, Letter, Octets, Perhaps;
    hide F.Star, F.Plus, F.Opt, F.Sign, F.Letter, F.Exclusive, F.Longest, F.One, F.Two, F.Three, F.Four;
    CharacterNames();
    LineNames();
    G.LineBodies();
    ReferenceWords(Alpha);
    ReferenceWords(Digit);
    SignWords(45);
    var more := F.Exclusive(F.Three(F.Ref(Alpha), F.Ref(Digit), F.Sign(45)));
    OneOfThree(F.Ref(Alpha), F.Ref(Digit), F.Sign(45));
    ManyWords(more);
    TwoInOrder(F.Ref(Alpha), F.Star(more));
    WrittenReads(Rulename, F.RulenameForm());
  }

  /** belr has rules of its own for the parts of a repeat. */
  lemma RepeatPartsProduction()
    ensures Reads("repeat-count", Many(The("digit"), 1, -1))
    ensures Reads("repeat-min", Many(The("digit"), 0, -1)) && Reads("repeat-max", Many(The("digit"), 0, -1))
    ensures Reads("repeat", OneOf([The("repeat-count"), InOrder([The("repeat-min"), Sign(42), The("repeat-max")])]))
  {
    hide NameOf, G.Body, The, Reads, WordsOf, InOrder, OneOf, Many, Sign, Letter, Octets, Perhaps;
    hide F.Star, F.Plus, F.Opt, F.Sign, F.Letter, F.Exclusive, F.Longest, F.One, F.Two, F.Three, F.Four;
    CharacterNames();
    RepeatRuleNames();
    G.RepeatBodies();
    ReferenceWords(Digit);
    ManyWords(F.Ref(Digit));
    WrittenReads(RepeatCount, F.RepeatCountForm());
    WrittenReads(RepeatMin, F.RepeatMinForm());
    WrittenReads(RepeatMax, F.RepeatMaxForm());
    SignWords(42);
    ReferenceWords(RepeatCount);
    ReferenceWords(RepeatMin);
    ReferenceWords(RepeatMax);
    ThreeInOrder(F.Ref(RepeatMin), F.Sign(42), F.Ref(RepeatMax));
    OneOfPair(F.Ref(RepeatCount), F.Seq(F.Three(F.Ref(RepeatMin), F.Sign(42), F.Ref(RepeatMax))));
    WrittenReads(Repeat, F.RepeatForm());
  }

  /** The repeat of RFC 5234, without those rules: 1*DIGIT / (*DIGIT "*" *DIGIT). */
  lemma RepeatProduction()
    ensures var digits := Many(The("digit"), 0, -1);
            Reads("repeat", OneOf([Many(The("digit"), 1, -1), InOrder([digits, Sign(42), digits])]))
  {
    hide The, InOrder, OneOf, Many, Alike;
    RepeatPartsProduction();
    var some, digits := Many(The("digit"), 1, -1), Many(The("digit"), 0, -1);
    BoundsAlike(The("repeat-min"), digits, Sign(42), The("repeat-max"));
    PairAlike(The("repeat-count"), some, InOrder([The("repeat-min"), Sign(42), The("repeat-max")]),
              InOrder([digits, Sign(42), digits]));
    AlikeTwice(The("repeat"),
               OneOf([The("repeat-count"), InOrder([The("repeat-min"), Sign(42), The("repeat-max")])]),
               OneOf([some, InOrder([digits, Sign(42), digits])]));
  }

  lemma DefinedAsProduction()
    ensures Reads("defined-as", InOrder([Blanks(), OneOf([Sign(61), Letters([61, 47])]), Blanks()]))
  {
    hide NameOf, G.Body, The, Reads, WordsOf, InOrder, OneOf, Many, Sign, Letter, Octets, Perhaps;
    hide F.Star, F.Plus, F.Opt, F.Sign, F.Letter, F.Exclusive, F.Longest, F.One, F.Two, F.Three, F.Four;
    RepeatRuleNames();
    DefinitionNames();
    G.DefinitionBodies();
    BlanksWords();
    SignWords(61);
    SlashWords();
    OneOfPair(F.Sign(61), F.Word([61, 47]));
    ThreeInOrder(F.Star(F.Ref(CWsp)), F.Longest(F.Two(F.Sign(61), F.Word([61, 47]))), F.Star(F.Ref(CWsp)));
    WrittenReads(DefinedAs, F.DefinedAsForm());
  }

  lemma RulelistProduction()
    ensures Reads("rulelist", Many(OneOf([The("rule"), InOrder([Blanks(), The("c-nl")])]), 1, -1))
  {
    hide NameOf, G.Body, The, Reads, WordsOf, InOrder, OneOf, Many, Sign, Letter, Octets, Perhaps;
    hide F.Star, F.Plus, F.Opt, F.Sign, F.Letter, F.Exclusive, F.Longest, F.One, F.Two, F.Three, F.Four;
    LineNames();
    DefinitionNames();
    G.DefinitionBodies();
    BlanksWords();
    ReferenceWords(Definition);
    ReferenceWords(CNl);
    var line := F.Seq(F.Two(F.Star(F.Ref(CWsp)), F.Ref(CNl)));
    TwoInOrder(F.Star(F.Ref(CWsp)), F.Ref(CNl));
    OneOfPair(F.Ref(Definition), line);
    ManyWords(F.Longest(F.Two(F.Ref(Definition), line)));
    WrittenReads(Rulelist, F.RulelistForm());
  }

  lemma DefinitionProduction()
    ensures Reads("rule", InOrder([The("rulename"), The("defined-as"), The("elements"), The("c-nl")]))
  {
    hide NameOf, G.Body, The, Reads, WordsOf, InOrder, OneOf, Many, Sign, Letter, Octets, Perhaps;
    hide F.Star, F.Plus, F.Opt, F.Sign, F.Letter, F.Exclusive, F.Longest, F.One, F.Two, F.Three, F.Four;
    LineNames();
    DefinitionNames();
    G.DefinitionBodies();
    ReferenceWords(Rulename);
    ReferenceWords(DefinedAs);
    ReferenceWords(Elements);
    ReferenceWords(CNl);
    FourInOrder(F.Ref(Rulename), F.Ref(DefinedAs), F.Ref(Elements), F.Ref(CNl));
    WrittenReads(Definition, F.DefinitionForm());
  }

  lemma ElementsProduction()
    ensures Reads("elements", InOrder([The("alternation"), Blanks()]))
  {
    hide NameOf, G.Body, The, Reads, WordsOf, InOrder, OneOf, Many, Sign, Letter, Octets, Perhaps;
    hide F.Star, F.Plus, F.Opt, F.Sign, F.Letter, F.Exclusive, F.Longest, F.One, F.Two, F.Three, F.Four;
    DefinitionNames();
    SeriesNames();
    G.DefinitionBodies();
    BlanksWords();
    ReferenceWords(Alternation);
    TwoInOrder(F.Ref(Alternation), F.Star(F.Ref(CWsp)));
    WrittenReads(Elements, F.ElementsForm());
  }

  /** Concatenations with the octet 47 between them, and blanks around it. */
  lemma AlternationProduction()
    ensures Reads("alternation",
              InOrder([The("concatenation"),
                       Many(InOrder([Blanks(), Sign(47), Blanks(), The("concatenation")]), 0, -1)]))
  {
    hide NameOf, G.Body, The, Reads, WordsOf, InOrder, OneOf, Many, Sign, Letter, Octets, Perhaps;
    hide F.Star, F.Plus, F.Opt, F.Sign, F.Letter, F.Exclusive, F.Longest, F.One, F.Two, F.Three, F.Four;
    SeriesNames();
    G.SeriesBodies();
    BlanksWords();
    SignWords(47);
    ReferenceWords(Concatenation);
    var more := F.Seq(F.Four(F.Star(F.Ref(CWsp)), F.Sign(47), F.Star(F.Ref(CWsp)), F.Ref(Concatenation)));
    FourInOrder(F.Star(F.Ref(CWsp)), F.Sign(47), F.Star(F.Ref(CWsp)), F.Ref(Concatenation));
    ManyWords(more);
    TwoInOrder(F.Ref(Concatenation), F.Star(more));
    WrittenReads(Alternation, F.AlternationForm());
  }

  lemma ConcatenationProduction()
    ensures Reads("concatenation",
              InOrder([The("repetition"), Many(InOrder([Many(The("c-wsp"), 1, -1), The("repetition")]), 0, -1)]))
  {
    hide NameOf, G.Body, The, Reads, WordsOf, InOrder, OneOf, Many, Sign, Letter, Octets, Perhaps;
    hide F.Star, F.Plus, F.Opt, F.Sign, F.Letter, F.Exclusive, F.Longest, F.One, F.Two, F.Three, F.Four;
    LineNames();
    SeriesNames();
    G.SeriesBodies();
    ReferenceWords(CWsp);
    ReferenceWords(Repetition);
    ManyWords(F.Ref(CWsp));
    var more := F.Seq(F.Two(F.Plus(F.Ref(CWsp)), F.Ref(Repetition)));
    TwoInOrder(F.Plus(F.Ref(CWsp)), F.Ref(Repetition));
    ManyWords(more);
    TwoInOrder(F.Ref(Repetition), F.Star(more));
    WrittenReads(Concatenation, F.ConcatenationForm());
  }

  lemma RepetitionProduction()
    ensures Reads("repetition", InOrder([Perhaps(The("repeat")), The("element")]))
  {
    hide NameOf, G.Body, The, WordsOf, InOrder, OneOf, Many, Perhaps, Alike;
    hide F.Star, F.Plus, F.Opt, F.One, F.Two;
    RepeatRuleNames();
    SeriesNames();
    ElementNames();
    G.SeriesBodies();
    ReferenceWords(Repeat);
    ReferenceWords(Element);
    ManyWords(F.Ref(Repeat));
    TwoInOrder(F.Opt(F.Ref(Repeat)), F.Ref(Element));
    WrittenReads(Repetition, F.RepetitionForm());
    PerhapsIsMany(The("repeat"));
    FirstAlike(Many(The("repeat"), 0, 1), Perhaps(The("repeat")), The("element"));
    AlikeTwice(The("repetition"), InOrder([Many(The("repeat"), 0, 1), The("element")]),
               InOrder([Perhaps(The("repeat")), The("element")]));
  }

  lemma ElementWords()
    ensures WordsOf(F.ElementForm()) ==
            OneOf([WordsOf(F.Ref(Rulename)), WordsOf(F.Ref(Group)), WordsOf(F.Ref(Optional)), WordsOf(F.Ref(CharVal)),
                   WordsOf(F.Ref(NumVal)), WordsOf(F.Ref(ProseVal))])
  {
    hide WordsOfAll, NameOf, The, OneOf;
    SixWords(F.Ref(Rulename), F.Ref(Group), F.Ref(Optional), F.Ref(CharVal), F.Ref(NumVal), F.Ref(ProseVal));
  }

  lemma ElementProduction()
    ensures Reads("element", OneOf([The("rulename"), The("group"), The("option"), The("char-val"), The("num-val"),
                                    The("prose-val")]))
  {
    hide NameOf, G.Body, The, WordsOf, WordsOfAll, OneOf, Reads;
    hide F.Four;
    LineNames();
    ElementNames();
    ValueNames();
    G.ElementBodies();
    ReferenceWords(Rulename);
    ReferenceWords(Group);
    ReferenceWords(Optional);
    ReferenceWords(CharVal);
    ReferenceWords(NumVal);
    ReferenceWords(ProseVal);
    ElementWords();
    WrittenReads(Element, F.ElementForm());
  }

  lemma BracketWords(open: int, close: int)
    ensures WordsOf(F.BracketForm(open, close)) ==
            InOrder([Sign(open), Blanks(), The(NameOf(Alternation)), Blanks(), Sign(close)])
  {
    hide WordsOf, WordsOfAll, NameOf, The, InOrder, Many, F.Star, F.Sign, F.Four;
    SignWords(open);
    SignWords(close);
    BlanksWords();
    ReferenceWords(Alternation);
    var rest := F.Four(F.Star(F.Ref(CWsp)), F.Ref(Alternation), F.Star(F.Ref(CWsp)), F.Sign(close));
    FourWords(F.Star(F.Ref(CWsp)), F.Ref(Alternation), F.Star(F.Ref(CWsp)), F.Sign(close));
    ListedWords(F.Sign(open), F.Sign(open), rest);
    SequenceForm(F.And(F.Sign(open), rest));
    assert [Sign(open)] + [Blanks(), The(NameOf(Alternation)), Blanks(), Sign(close)] ==
           [Sign(open), Blanks(), The(NameOf(Alternation)), Blanks(), Sign(close)];
  }

  /** An alternation between the octets 40 and 41, or 91 and 93, with blanks around it. */
  lemma BracketProductions()
    ensures Reads("group", InOrder([Sign(40), Blanks(), The("alternation"), Blanks(), Sign(41)]))
    ensures Reads("option", InOrder([Sign(91), Blanks(), The("alternation"), Blanks(), Sign(93)]))
  {
    hide WordsOf, NameOf, The, InOrder, Many, Reads, G.Body, F.BracketForm;
    SeriesNames();
    ElementNames();
    G.ElementBodies();
    G.LastBodies();
    BracketWords(40, 41);
    BracketWords(91, 93);
    WrittenReads(Group, F.GroupForm());
    WrittenReads(Optional, F.OptionalForm());
  }
}
