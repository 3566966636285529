/** Which selectors of the grammar of ABNF keep their first match, and which the longest. */
module AbnfSelectors {
  import opened AbnfRules
  import F = AbnfForms
  import G = AbnfGrammar

  /** The form has a selector that keeps the first match, not the longest. */
  ghost predicate KeepsFirst(f: F.Form) {
    F.FactsOf(f).selectors > 0 && G.SelectorIn(f).exclusive
  }

  lemma CharactersKeepFirst()
    ensures KeepsFirst(F.AlphaForm()) && KeepsFirst(F.BitForm()) && KeepsFirst(F.CtlForm())
    ensures !KeepsFirst(F.CharForm()) && !KeepsFirst(F.CrForm()) && !KeepsFirst(F.LfForm())
    ensures !KeepsFirst(F.CrlfForm()) && !KeepsFirst(F.DigitForm())
  {
    hide Order, RuleAt, NameOf;
  }

  lemma BlanksKeepFirst()
    ensures KeepsFirst(F.HexdigForm()) && KeepsFirst(F.WspForm()) && KeepsFirst(F.LwspForm())
    ensures !KeepsFirst(F.DquoteForm()) && !KeepsFirst(F.HtabForm()) && !KeepsFirst(F.OctetForm())
    ensures !KeepsFirst(F.SpForm()) && !KeepsFirst(F.VcharForm())
  {
    hide Order, RuleAt, NameOf;
  }

  lemma ValuesKeepFirst()
    ensures KeepsFirst(F.CharValForm()) && KeepsFirst(F.NumValForm()) && KeepsFirst(F.ProseValForm())
  {
    hide Order, RuleAt, NameOf;
  }

  lemma ValuesSelector(digit: Rule)
    ensures F.Values(digit).Sel? && !F.Values(digit).exclusive && F.FactsOf(F.Values(digit)).selectors > 0
  {
    hide Order, RuleAt, NameOf;
  }

  lemma NumbersKeepLongest(prefix: int, digit: Rule)
    ensures !KeepsFirst(F.ValueForm(prefix, digit))
  {
    hide Order, RuleAt, NameOf, F.Values, F.Rank, F.CanBeEmpty, F.AcceptsZero;
    ValuesSelector(digit);
    var more := F.Opt(F.Values(digit));
    assert F.FactsOf(more).selectors > 0 && G.SelectorIn(more) == F.Values(digit);
    assert G.Count(F.One(more)) > 0 && G.SelectorAmong(F.One(more)) == F.Values(digit);
    assert F.FactsOf(F.Plus(F.Ref(digit))).selectors == 0;
    assert G.SelectorAmong(F.Two(F.Plus(F.Ref(digit)), more)) == F.Values(digit);
    var fs := F.Three(F.Letter(prefix), F.Plus(F.Ref(digit)), more);
    assert G.Count(fs) > 0 && G.SelectorAmong(fs) == F.Values(digit);
    G.SequenceFactsCount(fs);
  }

  lemma LinesKeepFirst()
    ensures KeepsFirst(F.CommentForm()) && KeepsFirst(F.RulenameForm())
    ensures !KeepsFirst(F.CNlForm()) && !KeepsFirst(F.CWspForm())
  {
    hide Order, RuleAt, NameOf;
  }

  lemma RepeatsKeepLongest()
    ensures !KeepsFirst(F.RepeatCountForm()) && !KeepsFirst(F.RepeatMaxForm()) && !KeepsFirst(F.RepeatMinForm())
    ensures !KeepsFirst(F.RepeatForm()) && !KeepsFirst(F.DefinedAsForm()) && !KeepsFirst(F.RulelistForm())
    ensures !KeepsFirst(F.DefinitionForm()) && !KeepsFirst(F.ElementsForm())
  {
    hide Order, RuleAt, NameOf;
  }

  lemma SeriesKeepLongest()
    ensures !KeepsFirst(F.AlternationForm()) && !KeepsFirst(F.ConcatenationForm()) && !KeepsFirst(F.RepetitionForm())
    ensures !KeepsFirst(F.GroupForm()) && !KeepsFirst(F.OptionalForm()) && !KeepsFirst(F.CrlfOrLfForm())
  {
    hide Order, RuleAt, NameOf;
  }

  lemma ElementKeepsLongest()
    ensures !KeepsFirst(F.ElementForm())
  {
    hide Order, RuleAt, NameOf;
    assert G.SelectorIn(F.ElementForm()) == F.ElementForm();
  }

  ghost predicate BuiltExclusive(r: Rule) {
    Order(r) in G.ExclusiveSelectors()
  }

  lemma ExclusiveForms(r: Rule)
    ensures BuiltExclusive(r) <==> KeepsFirst(G.Body(r))
  {
    hide Order, RuleAt, G.Body, F.FactsOf, G.SelectorIn, F.Fits;
    OrderRead(r);
  }

  lemma CharacterRules()
    ensures KeepsFirst(G.Body(Alpha)) && KeepsFirst(G.Body(Bit)) && KeepsFirst(G.Body(Ctl))
    ensures !KeepsFirst(G.Body(Char)) && !KeepsFirst(G.Body(Cr)) && !KeepsFirst(G.Body(Lf))
    ensures !KeepsFirst(G.Body(Crlf)) && !KeepsFirst(G.Body(Digit))
    ensures KeepsFirst(G.Body(Hexdig)) && KeepsFirst(G.Body(Wsp)) && KeepsFirst(G.Body(Lwsp))
    ensures !KeepsFirst(G.Body(Dquote)) && !KeepsFirst(G.Body(Htab)) && !KeepsFirst(G.Body(Octet))
    ensures !KeepsFirst(G.Body(Sp)) && !KeepsFirst(G.Body(Vchar))
  {
    hide KeepsFirst, G.Body, Order, NameOf;
    G.CharacterBodies();
    G.BlankBodies();
    CharactersKeepFirst();
    BlanksKeepFirst();
  }

  lemma ValueRules()
    ensures KeepsFirst(G.Body(CharVal)) && KeepsFirst(G.Body(NumVal)) && KeepsFirst(G.Body(ProseVal))
    ensures !KeepsFirst(G.Body(BinVal)) && !KeepsFirst(G.Body(DecVal)) && !KeepsFirst(G.Body(HexVal))
    ensures KeepsFirst(G.Body(Comment)) && KeepsFirst(G.Body(Rulename))
    ensures !KeepsFirst(G.Body(CNl)) && !KeepsFirst(G.Body(CWsp))
  {
    hide KeepsFirst, G.Body, Order, NameOf;
    G.ValueBodies();
    G.LineBodies();
    ValuesKeepFirst();
    NumbersKeepLongest(98, Bit);
    NumbersKeepLongest(100, Digit);
    NumbersKeepLongest(120, Hexdig);
    LinesKeepFirst();
  }

  lemma OtherRules()
    ensures !KeepsFirst(G.Body(RepeatCount)) && !KeepsFirst(G.Body(RepeatMax)) && !KeepsFirst(G.Body(RepeatMin))
    ensures !KeepsFirst(G.Body(Repeat)) && !KeepsFirst(G.Body(DefinedAs)) && !KeepsFirst(G.Body(Rulelist))
    ensures !KeepsFirst(G.Body(Definition)) && !KeepsFirst(G.Body(Elements)) && !KeepsFirst(G.Body(Alternation))
    ensures !KeepsFirst(G.Body(Concatenation)) && !KeepsFirst(G.Body(Repetition)) && !KeepsFirst(G.Body(Element))
    ensures !KeepsFirst(G.Body(Group)) && !KeepsFirst(G.Body(Optional)) && !KeepsFirst(G.Body(CrlfOrLf))
  {
    hide KeepsFirst, G.Body, Order, NameOf;
    G.RepeatBodies();
    G.DefinitionBodies();
    G.SeriesBodies();
    G.ElementBodies();
    G.LastBodies();
    RepeatsKeepLongest();
    SeriesKeepLongest();
    ElementKeepsLongest();
  }

  /** These and no others: "=" or "=/" and the forms of a repeat are told apart by the longest match. */
  lemma ExclusiveExactly(r: Rule)
    ensures BuiltExclusive(r) <==>
            r in {Alpha, Bit, Ctl, Hexdig, Wsp, Lwsp, CharVal, NumVal, ProseVal, Comment, Rulename}
  {
    hide KeepsFirst, BuiltExclusive, G.Body, Order, NameOf;
    ExclusiveForms(r);
    CharacterRules();
    ValueRules();
    OtherRules();
  }
}
