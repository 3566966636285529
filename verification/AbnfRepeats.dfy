/** How the parser of ABNF, with the grammar that belr builds, tells the forms of a repeat apart. */
module AbnfRepeats {
  import opened Recognizers
  import opened PureParser
  import opened Repeats
  import R = AbnfRules
  import F = AbnfForms
  import G = AbnfGrammar
  import Grammars

  ghost function TheGrammar(): Grammar {
    Grammar(G.AbnfGraph(), G.ExclusiveSelectors())
  }

  lemma DigitsWritten()
    ensures G.Written(R.Digit) == CharRange(48, 57)
    ensures G.Written(R.RepeatCount) == Loop(Named(R.NameOf(R.Digit)), 1, -1)
    ensures G.Written(R.RepeatMin) == Loop(Named(R.NameOf(R.Digit)), 0, -1)
    ensures G.Written(R.RepeatMax) == Loop(Named(R.NameOf(R.Digit)), 0, -1)
  {
    hide R.NameOf, R.Order, F.Fits, G.Body;
    R.CharacterOrders();
    R.RepeatOrders();
    G.CharacterBodies();
    G.RepeatBodies();
  }

  /** The selector of a repeat is not exclusive: the longer of its alternatives counts. */
  lemma RepeatWritten()
    ensures G.Written(R.Repeat) == Selector(R.Order(R.Repeat), RepeatAlternatives(Names()))
    ensures R.Order(R.Repeat) !in G.ExclusiveSelectors()
  {
    hide R.NameOf, R.Order, R.RuleAt, F.Fits, G.Body;
    R.RepeatOrders();
    R.OrderRead(R.Repeat);
    G.RepeatBodies();
  }

  lemma RepetitionWritten()
    ensures G.Written(R.Repetition) ==
            Sequence(Cons(Optionally(Named(R.NameOf(R.Repeat))),
                Cons(Named(Grammars.Deferred(R.NameOf(R.Element))), Nil)))
  {
    hide R.NameOf, R.Order, F.Fits, G.Body;
    R.RepeatOrders();
    R.ElementOrders();
    G.SeriesBodies();
  }

  lemma CollectedTexts(r: R.Rule)
    requires r.Digit? || r.Repeat? || r.RepeatCount? || r.RepeatMin? || r.RepeatMax?
    ensures R.NameOf(r) !in Handlers()
    ensures Collects(Handlers(), Repetition(), R.NameOf(r)) <==> !r.Digit?
  {
    hide R.NameOf, Handlers;
    HandlersSay(r, r);
    HandlersSay(R.Repetition, r);
  }

  lemma TextRuleFound(r: R.Rule)
    requires r.Repeat? || r.RepeatCount? || r.RepeatMin? || r.RepeatMax?
    ensures TextRule(TheGrammar(), Handlers(), Repetition(), R.NameOf(r), G.Written(r))
  {
    hide G.AbnfGraph, R.NameOf, G.Written, Handlers, Collects, Repetition, F.Rank, F.CanBeEmpty;
    G.RuleRecorded(r);
    CollectedTexts(r);
  }

  lemma DigitRuleFound()
    ensures DigitRule(TheGrammar(), Handlers(), Repetition(), R.NameOf(R.Digit))
  {
    hide G.AbnfGraph, R.NameOf, G.Written, Handlers, Collects, Repetition, F.Rank, WellFormed;
    G.AbnfWellFormed();
    G.RuleRecorded(R.Digit);
    DigitsWritten();
    CollectedTexts(R.Digit);
  }

  lemma RepeatRulesFound()
    ensures RepeatRules(TheGrammar(), Handlers(), Repetition(), Names())
  {
    hide DigitRule, TextRule, G.AbnfGraph, R.NameOf, G.Written, Handlers, G.ExclusiveSelectors, RepeatAlternatives;
    DigitRuleFound();
    DigitsWritten();
    RepeatWritten();
    TextRuleFound(R.Repeat);
    TextRuleFound(R.RepeatCount);
    TextRuleFound(R.RepeatMin);
    TextRuleFound(R.RepeatMax);
  }

  lemma RepetitionRuleFound()
    ensures RepetitionRule(TheGrammar(), Repetition(), Optionally(Named(Names().repeat)), Named(ElementPlaceholder()))
  {
    hide G.AbnfGraph, R.NameOf, G.Written, F.Rank, F.CanBeEmpty;
    RepetitionWritten();
    G.RuleRecorded(R.Repetition);
  }

  lemma ElementIsEarly()
    ensures G.Early(R.Element, R.RULES)
  {
    hide R.NameOf, R.Order, F.Fits, G.Body;
    R.ElementOrders();
    G.SeriesBodies();
    assert G.AsksEarly(R.Repetition, R.Element);
  }

  lemma ElementRulesFound()
    ensures ElementRules(TheGrammar(), Handlers(), Repetition(), ElementPlaceholder(), R.NameOf(R.Element))
  {
    hide G.AbnfGraph, R.NameOf, G.Early, Handlers, F.Rank;
    ElementIsEarly();
    G.PlaceholderRecorded(R.Element);
    HandlersSay(R.Element, R.Element);
    HandlersSay(R.Repetition, R.Element);
    PlaceholderUnhandled(R.Element);
  }

  lemma PlaceholderUnhandled(r: R.Rule)
    ensures Grammars.Deferred(R.NameOf(r)) !in Handlers()
    ensures !Collects(Handlers(), Repetition(), Grammars.Deferred(R.NameOf(r)))
  {
    hide R.NameOf, HasHandler, Collected;
    G.NamesApart(r);
  }

  /** The grammar that belr builds has the rules for a repetition, with the handlers of the grammar
      builder: its repeats are told apart. */
  lemma AbnfRepetition()
    ensures RepetitionRules(TheGrammar(), Handlers())
  {
    hide RepeatRules, RepetitionRule, ElementRules, TheGrammar, Handlers, R.NameOf;
    RepeatRulesFound();
    RepetitionRuleFound();
    ElementRulesFound();
  }
}
