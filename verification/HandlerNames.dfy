/** The handlers and collectors that the grammar builder installs on the parser of ABNF, by name. */
module HandlerNames {
  import opened Recognizers
  import opened PureParser
  import opened Repeats
  import opened AbnfRules

  /** The rule `x` has a handler, and collectors for the rules of `xs` alone. */
  ghost predicate Handles(x: Name, xs: set<Name>) {
    x in Handlers() && Handlers()[x] == xs
  }

  lemma CollectedBy(h: Rule, rs: set<Rule>)
    requires HasHandler(h) && forall r :: Collected(h, r) <==> r in rs
    ensures Handles(NameOf(h), set r | r in rs :: NameOf(r))
  {
    hide NameOf, HasHandler, Collected;
    NameRead(h);
    HandlersSay(h, h);
  }

  lemma OneName(a: Rule)
    ensures (set r | r in {a} :: NameOf(r)) == {NameOf(a)}
  {
    hide NameOf;
  }

  lemma ThreeNames(a: Rule, b: Rule, c: Rule)
    ensures (set r | r in {a, b, c} :: NameOf(r)) == {NameOf(a), NameOf(b), NameOf(c)}
  {
    hide NameOf;
  }

  lemma RulesHandled()
    ensures Handles(NameOf(Rulelist), {NameOf(Definition)})
    ensures Handles(NameOf(Definition), {NameOf(Rulename), NameOf(DefinedAs), NameOf(Alternation)})
    ensures Handles(NameOf(Alternation), {NameOf(Concatenation)})
    ensures Handles(NameOf(Concatenation), {NameOf(Repetition)})
  {
    hide NameOf, Handlers;
    OneName(Definition);
    CollectedBy(Rulelist, {Definition});
    ThreeNames(Rulename, DefinedAs, Alternation);
    CollectedBy(Definition, {Rulename, DefinedAs, Alternation});
    OneName(Concatenation);
    CollectedBy(Alternation, {Concatenation});
    OneName(Repetition);
    CollectedBy(Concatenation, {Repetition});
  }

  lemma BracketsHandled()
    ensures Handles(NameOf(Group), {NameOf(Alternation)}) && Handles(NameOf(Optional), {NameOf(Alternation)})
    ensures Handles(NameOf(NumVal), {NameOf(BinVal), NameOf(HexVal), NameOf(DecVal)})
  {
    hide NameOf, Handlers;
    OneName(Alternation);
    CollectedBy(Group, {Alternation});
    CollectedBy(Optional, {Alternation});
    ThreeNames(BinVal, HexVal, DecVal);
    CollectedBy(NumVal, {BinVal, HexVal, DecVal});
  }

  lemma RepetitionHandled()
    ensures Handles(NameOf(Repetition), {NameOf(Repeat), NameOf(RepeatMin), NameOf(RepeatMax), NameOf(RepeatCount),
                                         NameOf(Element)})
  {
    hide NameOf, Handlers;
    var rs := {Repeat, RepeatMin, RepeatMax, RepeatCount, Element};
    CollectedBy(Repetition, rs);
    assert (set r | r in rs :: NameOf(r)) ==
           {NameOf(Repeat), NameOf(RepeatMin), NameOf(RepeatMax), NameOf(RepeatCount), NameOf(Element)};
  }

  lemma ElementHandled()
    ensures Handles(NameOf(Element), {NameOf(Rulename), NameOf(Group), NameOf(Optional), NameOf(CharVal),
                                      NameOf(NumVal), NameOf(ProseVal)})
  {
    hide NameOf, Handlers;
    var rs := {Rulename, Group, Optional, CharVal, NumVal, ProseVal};
    CollectedBy(Element, rs);
    assert (set r | r in rs :: NameOf(r)) ==
           {NameOf(Rulename), NameOf(Group), NameOf(Optional), NameOf(CharVal), NameOf(NumVal), NameOf(ProseVal)};
  }

  /** Those of the constructor of the grammar builder. */
  lemma HandlersListed()
    ensures Handles("rulelist", {"rule"}) && Handles("rule", {"rulename", "defined-as", "alternation"})
    ensures Handles("alternation", {"concatenation"}) && Handles("concatenation", {"repetition"})
    ensures Handles("repetition", {"repeat", "repeat-min", "repeat-max", "repeat-count", "element"})
    ensures Handles("element", {"rulename", "group", "option", "char-val", "num-val", "prose-val"})
    ensures Handles("group", {"alternation"}) && Handles("option", {"alternation"})
    ensures Handles("num-val", {"bin-val", "hex-val", "dec-val"})
  {
    hide NameOf, Handles;
    ValueNames();
    LineNames();
    RepeatRuleNames();
    DefinitionNames();
    SeriesNames();
    ElementNames();
    RulesHandled();
    BracketsHandled();
    RepetitionHandled();
    ElementHandled();
  }

  /** And no others. */
  lemma NoOtherHandler(x: Name)
    requires x in Handlers()
    ensures x in {"rulelist", "rule", "alternation", "concatenation", "repetition", "element", "group", "option",
                  "num-val"}
  {
    hide NameOf, Collected;
    ValueNames();
    DefinitionNames();
    SeriesNames();
    ElementNames();
    var r :| NameOf(r) == x;
    HandlersSay(r, r);
  }
}
