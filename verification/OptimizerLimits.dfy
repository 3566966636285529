/** Grammars that the optimizer changes, because it does not check what it relies on. */
module OptimizerLimits {
  import opened Bytes
  import opened Recognizers
  import opened PureParser
  import opened TransitionMaps
  import opened Emptiness
  import opened Optimizer

  /** ["a"] / "b" */
  function OptionAlternatives(): Recs {
    Cons(Loop(CharRec(97, false), 0, 1), Cons(CharRec(98, false), Nil))
  }

  /** r = ["a"] / "b" */
  function OptionOrOctet(): (g: Grammar) {
    var es := OptionAlternatives();
    Grammar(Graph(map["r" := Selector(0, es)], {"r"}, map["r" := 0], {"r"}, map[0 := es]), {})
  }

  lemma OptionAlternativesOk(g: Graph)
    ensures var es := OptionAlternatives();
            && AnyNullable(g, es) && OkAll(g, es.tail, false) && OkAll(g, es, false) && OkAll(g, es, true)
            && SelectorRank(g, es) == 0
  {
    var octet := CharRec(98, false);
    assert Ok(g, octet, true) && Ok(g, octet, false) && HeadRank(g, octet) == 0;
    assert SelectorRank(g, Nil) == 0 && SelectorRank(g, Cons(octet, Nil)) == 0;
    assert OkAll(g, Cons(octet, Nil), true) && OkAll(g, Cons(octet, Nil), false);
    var option := Loop(CharRec(97, false), 0, 1);
    assert Nullable(g, option) && HeadRank(g, option) == 0 && Ok(g, option, true) && Ok(g, option, false);
  }

  /** Its annotations are no larger than they need be, so the exact conditions apply to it. */
  lemma OptionSharp(g: Grammar)
    requires g == OptionOrOctet()
    ensures SharpRules(g) && SharpAll(g, g.graph.alts[0])
  {
    var es := OptionAlternatives();
    OptionAlternativesOk(g.graph);
    assert SharpAll(g, Nil) && Sharp(g, es.tail.head) && Sharp(g, es.head.body);
    assert es.tail.tail == Nil && SharpAll(g, es.tail) && SharpAll(g, es);
    assert Nullable(g.graph, Selector(0, es)) && Sharp(g, Selector(0, es));
    assert SharpRule(g, "r");
  }

  lemma OptionWellFormed(g: Grammar)
    requires g == OptionOrOctet()
    ensures var es := g.graph.alts[0];
            && es.Cons? && es.tail.Cons? && es.tail.tail.Nil?
            && WellFormed(g.graph) && AnyNullable(g.graph, es)
            && OkAll(g.graph, es.tail, false) && OkAll(g.graph, es, false)
  {
    var es := g.graph.alts[0];
    assert es.tail.tail == Nil;
    OptionAlternativesOk(g.graph);
    assert g.graph.rules["r"] == Selector(0, es);
    hide OkAll, SelectorRank, AnyNullable;
    assert RuleOk(g.graph, "r");
  }

  lemma OptionDisjoint(g: Grammar)
    requires WellFormed(g.graph) && OkAll(g.graph, OptionAlternatives(), false)
    requires OkAll(g.graph, OptionAlternatives().tail, false)
    ensures Disjoint(g, OptionAlternatives(), {})
  {
    hide WellFormed;
    var es := OptionAlternatives();
    var option, octet := es.head, es.tail.head;
    forall b: Byte
      ensures Starts(g, option, b) == (ToLower(b) == 97) && Starts(g, octet, b) == (ToLower(b) == 98)
    {
      UnitParsed(g, map[], "", option.body, [b, 0], 0);
      UnitParsed(g, map[], "", octet, [b, 0], 0);
    }
    assert es.tail.tail == Nil;
    var seen := set b: Byte | Starts(g, option, b);
    var more := seen + set b: Byte | Starts(g, octet, b);
    assert Disjoint(g, Nil, more);
    assert Disjoint(g, es.tail, seen);
    assert {} + seen == seen;
  }

  /** With a lone selector as its only rule, a grammar is optimized in one step. */
  lemma OneRuleOptimized(g: Grammar, es: Recs)
    requires g.graph.rules == map["r" := Selector(0, es)] && WellFormed(g.graph) && OkAll(g.graph, es, false)
    requires OptimizedAll(map[], g, es, Count(es)) == g && Disjoint(g, es, {})
    ensures OptimizedRules(map[], g, ["r"]) == Flip(g, 0)
  {
    hide WellFormed, Disjoint, OptimizedAll;
    assert RuleOk(g.graph, "r") by {
      RuleIsOk(g.graph, "r");
    }
    assert ["r"][1..] == [];
    assert Optimized(map[], g, g.graph.rules["r"]) == Flip(g, 0);
    assert OptimizedRules(map[], Flip(g, 0), []) == Flip(g, 0);
  }

  lemma OptionAlternativesOptimized(g: Grammar)
    requires WellFormed(g.graph) && OkAll(g.graph, OptionAlternatives(), false)
    requires OkAll(g.graph, OptionAlternatives().tail, false)
    ensures OptimizedAll(map[], g, OptionAlternatives(), Count(OptionAlternatives())) == g
  {
    hide WellFormed;
    var es := OptionAlternatives();
    assert Count(es.tail) == 1 && Count(es) == 2;
    assert OptimizedAll(map[], g, es.tail, 1) == g;
  }

  lemma OptionFed(g: Grammar, g': Grammar)
    requires g' == OptionOrOctet() && WellFormed(g'.graph) && OkAll(g'.graph, g'.graph.alts[0], false)
    requires g.graph == g'.graph
    ensures var es := g.graph.alts[0];
            && Parse(g, map[], "", es.head, [99], 0) == Match(0, [])
            && Parse(g, map[], "", es.tail.head, [99], 0) == NoMatch
  {
    hide WellFormed;
    var es := g.graph.alts[0];
    UnitParsed(g, map[], "", es.head.body, [99], 0);
    UnitParsed(g, map[], "", es.tail.head, [99], 0);
    assert ParseLoop(g, map[], "", es.head.body, 0, 1, 0, [99], 0) == Match(0, []);
  }

  /** What a rule that is one selector matches, without handlers. */
  lemma RuleParsed(g: Grammar, es: Recs, s: Bytes)
    requires "r" in g.graph.rules && g.graph.rules["r"] == Selector(0, es) && WellFormed(g.graph)
    requires ReadyAll(g.graph, es, s, 0) && Ready(g.graph, Named("r"), s, 0)
    ensures Parse(g, map[], "", Named("r"), s, 0) ==
            CloseText(map[], "", "r", 0, if 0 in g.exclusive then ParseFirst(g, map[], "", es, s, 0)
                                         else ParseBest(g, map[], "", es, NoMatch, s, 0))
  {
    hide ParseFirst, ParseBest, WellFormed;
    RuleIsOk(g.graph, "r");
  }

  /** What the two ways of choosing make of two alternatives. */
  lemma PairChosen(g: Grammar, first: Rec, second: Rec, s: Bytes)
    requires WellFormed(g.graph) && ReadyAll(g.graph, Cons(first, Cons(second, Nil)), s, 0)
    ensures Ready(g.graph, first, s, 0) && Ready(g.graph, second, s, 0)
    ensures var es, m, m' := Cons(first, Cons(second, Nil)), Parse(g, map[], "", first, s, 0),
                             Parse(g, map[], "", second, s, 0);
            && ParseFirst(g, map[], "", es, s, 0) == (if Consumed(m) then m else if Consumed(m') then m' else NoMatch)
            && ParseBest(g, map[], "", es, NoMatch, s, 0) == if Better(m', m) then m' else m
  {
    hide WellFormed, Parse, ParseFirst, ParseBest;
    var es := Cons(first, Cons(second, Nil));
    SelectorUnfolds(g, map[], "", es, NoMatch, s, 0);
    var m, m' := Parse(g, map[], "", first, s, 0), Parse(g, map[], "", second, s, 0);
    SelectorUnfolds(g, map[], "", es.tail, m, s, 0);
    SelectorEnds(g, map[], "", m, s, 0);
    SelectorEnds(g, map[], "", m', s, 0);
  }

  lemma EmptyMatchParsed(g: Grammar, g': Grammar, s: Bytes)
    requires g' == OptionOrOctet() && g.graph == g'.graph && s == [99]
    ensures WellFormed(g.graph) && Ready(g.graph, Named("r"), s, 0)
    ensures Parse(g, map[], "", Named("r"), s, 0) == if 0 in g.exclusive then NoMatch else Match(0, [])
  {
    var es := g.graph.alts[0];
    OptionWellFormed(g');
    hide WellFormed, Parse, ParseFirst, ParseBest, OkAll;
    assert ReadyAll(g.graph, es, s, 0);
    OptionFed(g, g');
    PairChosen(g, es.head, es.tail.head, s);
    RuleParsed(g, es, s);
  }

  lemma EmptyMatchOptimized(g: Grammar)
    requires g == OptionOrOctet()
    ensures WellFormed(g.graph) && "r" in g.graph.rules && OptimizedRules(map[], g, ["r"]) == Flip(g, 0)
  {
    hide WellFormed, OkAll, Disjoint, OptimizedRules, OptimizedAll;
    OptionWellFormed(g);
    OptionDisjoint(g);
    OptionAlternativesOptimized(g);
    OneRuleOptimized(g, g.graph.alts[0]);
  }

  /** An optional alternative: on another octet a plain selector successfully matches nothing; the
      optimizer makes it exclusive, and then it fails. */
  lemma NullableAlternativeLost()
    ensures var g, s, r := OptionOrOctet(), [99], Named("r");
            && WellFormed(g.graph) && Ready(g.graph, r, s, 0)
            && Parse(g, map[], "", r, s, 0) == Match(0, [])
            && Parse(OptimizedRules(map[], g, ["r"]), map[], "", r, s, 0) == NoMatch
  {
    var g, s: Bytes := OptionOrOctet(), [99];
    hide WellFormed, Parse, Ready, OptimizedRules, OptionOrOctet;
    EmptyMatchOptimized(g);
    EmptyMatchParsed(g, g, s);
    EmptyMatchParsed(Flip(g, 0), g, s);
    NothingExclusive();
  }

  /** r = [["a"] / "b"] */
  function OptionalOption(): (g: Grammar) {
    var es := OptionAlternatives();
    Grammar(Graph(map["r" := Loop(Selector(0, es), 0, 1)], {"r"}, map["r" := 0], {"r"}, map[0 := es]), {})
  }

  lemma OptionalWellFormed(g: Grammar)
    requires g == OptionalOption()
    ensures var es := OptionAlternatives();
            && g.graph.alts == map[0 := es] && g.graph.rules == map["r" := Loop(Selector(0, es), 0, 1)]
            && WellFormed(g.graph) && AnyNullable(g.graph, es)
            && OkAll(g.graph, es.tail, false) && OkAll(g.graph, es, false)
  {
    var es := OptionAlternatives();
    OptionAlternativesOk(g.graph);
    assert g.graph.rules["r"] == Loop(Selector(0, es), 0, 1);
    hide OkAll, SelectorRank, AnyNullable, OptionAlternatives;
    assert RuleOk(g.graph, "r");
  }

  lemma AlternativesUnaffected(g: Grammar)
    requires g == OptionalOption() && WellFormed(g.graph)
    ensures Unaffected(g, 0)
  {
    hide WellFormed, Parse, ParseFirst;
    var es, g' := OptionAlternatives(), Flip(g, 0);
    forall t, h, s, pos: nat | ReadyAll(g.graph, es, s, pos)
      ensures ParseFirst(g', t, h, es, s, pos) == ParseFirst(g, t, h, es, s, pos)
    {
      SelectorUnfolds(g, t, h, es, NoMatch, s, pos);
      SelectorUnfolds(g', t, h, es, NoMatch, s, pos);
      SelectorUnfolds(g, t, h, es.tail, NoMatch, s, pos);
      SelectorUnfolds(g', t, h, es.tail, NoMatch, s, pos);
      SelectorEnds(g, t, h, NoMatch, s, pos);
      SelectorEnds(g', t, h, NoMatch, s, pos);
      AlternativesSame(g, g', t, h, s, pos);
    }
  }

  lemma AlternativesSame(g: Grammar, g': Grammar, t: Table, h: Name, s: Bytes, pos: nat)
    requires WellFormed(g.graph) && g'.graph == g.graph && pos <= |s|
    ensures var es := OptionAlternatives();
            && Ready(g.graph, es.head, s, pos) && Ready(g.graph, es.tail.head, s, pos)
            && Parse(g', t, h, es.head, s, pos) == Parse(g, t, h, es.head, s, pos)
            && Parse(g', t, h, es.tail.head, s, pos) == Parse(g, t, h, es.tail.head, s, pos)
  {
    hide WellFormed, ParseLoop;
    var body := CharRec(97, false);
    UnitParsed(g, t, h, body, s, pos);
    UnitParsed(g', t, h, body, s, pos);
    UnitParsed(g, t, h, CharRec(98, false), s, pos);
    UnitParsed(g', t, h, CharRec(98, false), s, pos);
    OptionParsed(g, t, h, body, s, pos);
    OptionParsed(g', t, h, body, s, pos);
  }

  /** With an option of a selector as its only rule, a grammar is optimized in one step, too. */
  lemma OneOptionOptimized(g: Grammar, es: Recs)
    requires g.graph.rules == map["r" := Loop(Selector(0, es), 0, 1)] && WellFormed(g.graph)
    requires OkAll(g.graph, es, false) && 0 in g.graph.alts && g.graph.alts[0] == es
    requires OptimizedAll(map[], g, es, Count(es)) == g && Disjoint(g, es, {})
    ensures OptimizedRules(map[], g, ["r"]) == Flip(g, 0)
  {
    hide WellFormed, Disjoint, OptimizedAll;
    RuleIsOk(g.graph, "r");
    assert ["r"][1..] == [];
    assert Optimized(map[], g, Selector(0, es)) == Flip(g, 0);
    assert Optimized(map[], g, g.graph.rules["r"]) == Flip(g, 0);
    assert OptimizedRules(map[], Flip(g, 0), []) == Flip(g, 0);
  }

  /** With the same alternatives within an option, the selector is made exclusive as well, and fails
      where it matched nothing; but the only rule of the grammar hides that. */
  lemma OptionHidesDifference()
    ensures var g := OptionalOption();
            && WellFormed(g.graph) && AnyNullable(g.graph, g.graph.alts[0])
            && 0 !in g.exclusive && 0 in OptimizedRules(map[], g, ["r"]).exclusive
            && RulesKept(g, OptimizedRules(map[], g, ["r"]))
  {
    var g := OptionalOption();
    OptionalWellFormed(g);
    OptionDisjoint(g);
    OptionAlternativesOptimized(g);
    OneOptionOptimized(g, OptionAlternatives());
    AlternativesUnaffected(g);
    hide OptimizedRules, WellFormed, Disjoint, RuleKept, Unaffected;
    OptionHides(g, 0, "r");
  }

  /** r = y / "aaa" and y = "aa", where `y` is used before it is added. */
  function PlaceholderOrLiteral(): (g: Grammar) {
    var es := Cons(Named("@y"), Cons(Literal([97, 97, 97]), Nil));
    Grammar(
      Graph(
        map["r" := Selector(0, es), "y" := Literal([97, 97]), "@y" := Pointer(Named("y"))],
        {},
        map["r" := 2, "y" := 0, "@y" := 1],
        {"r", "y", "@y"},
        map[0 := es]),
      {})
  }

  lemma PlaceholderWellFormed(g: Grammar)
    requires g == PlaceholderOrLiteral()
    ensures var es := g.graph.alts[0];
            && es == Cons(Named("@y"), Cons(Literal([97, 97, 97]), Nil))
            && WellFormed(g.graph) && OkAll(g.graph, es, false) && OkAll(g.graph, es.tail, false)
  {
    var es := g.graph.alts[0];
    assert es.tail.tail == Nil;
    assert Ok(g.graph, Literal([97, 97, 97]), true) && Ok(g.graph, Literal([97, 97, 97]), false);
    assert OkAll(g.graph, es.tail, false) && OkAll(g.graph, es.tail, true);
    assert SelectorRank(g.graph, Nil) == 0 && SelectorRank(g.graph, es.tail) == 0;
    assert Ok(g.graph, Named("@y"), true) && Ok(g.graph, Named("@y"), false) && HeadRank(g.graph, Named("@y")) == 2;
    assert SelectorRank(g.graph, es) == 2 && OkAll(g.graph, es, true) && OkAll(g.graph, es, false);
    assert !AnyNullable(g.graph, es.tail) && !AnyNullable(g.graph, es);
    assert RuleOk(g.graph, "r");
    assert RuleOk(g.graph, "y");
    assert Ok(g.graph, Named("y"), true) && Ok(g.graph, Named("y"), false) && HeadRank(g.graph, Named("y")) == 1;
    assert RuleOk(g.graph, "@y");
  }

  /** What rule `y`, or the placeholder for it, matches. */
  lemma PlaceholderParsed(g: Grammar, g': Grammar, s: Bytes)
    requires g' == PlaceholderOrLiteral() && g.graph == g'.graph && WellFormed(g.graph)
    ensures Ready(g.graph, Named("@y"), s, 0)
    ensures Parse(g, map[], "", Named("@y"), s, 0) == if LiteralAt([97, 97], s, 0) then Match(2, []) else NoMatch
  {
    hide WellFormed;
    var y := Literal([97, 97]);
    RuleIsOk(g.graph, "y");
    RuleIsOk(g.graph, "@y");
    assert Ready(g.graph, y, s, 0);
    assert Ready(g.graph, Named("y"), s, 0) && Ready(g.graph, Pointer(Named("y")), s, 0);
    assert ParseBody(g, map[], "", y, s, 0) == if LiteralAt([97, 97], s, 0) then Match(2, []) else NoMatch;
    PointerParsed(g, map[], "", Pointer(Named("y")), Named("y"), s, 0);
  }

  lemma PlaceholderUnseen(g: Grammar, b: Byte)
    requires g == PlaceholderOrLiteral() && WellFormed(g.graph)
    ensures Placed(g.graph, Named("@y")) && !Starts(g, Named("@y"), b)
  {
    var p: Bytes := [b, 0];
    PlaceholderParsed(g, g, p);
    assert p[0 + 1] == 0 && [97, 97][1] == 97;
    assert !LiteralAt([97, 97], p, 0);
    hide WellFormed;
    RuleIsOk(g.graph, "@y");
    RuleIsOk(g.graph, "y");
    assert Probe(g, Named("@y"), b) == NoMatch;
    PlaceholderProbed(g, "@y", b);
  }

  /** The map of the placeholder is that of a probe. */
  lemma PlaceholderProbed(g: Grammar, y: Name, b: Byte)
    requires WellFormed(g.graph) && y in g.graph.rules && g.graph.rules[y].Pointer? && Placed(g.graph, Named(y))
    requires Probe(g, Named(y), b) == NoMatch
    ensures !Starts(g, Named(y), b)
  {
    RuleIsOk(g.graph, y);
    var r := g.graph.rules[y];
    assert Starts(g, Named(y), b) == Starts(g, r, b) == ProbedAlone(g, r, b);
    assert Parse(g, map[], "", Named(y), [b, 0], 0) ==
           CloseText(map[], "", y, 0, ParseBody(g, map[], "", r, [b, 0], 0));
  }

  lemma PlaceholderDisjoint(g: Grammar)
    requires g == PlaceholderOrLiteral() && WellFormed(g.graph)
    requires OkAll(g.graph, g.graph.alts[0], false) && OkAll(g.graph, g.graph.alts[0].tail, false)
    ensures Disjoint(g, g.graph.alts[0], {})
  {
    hide WellFormed, Starts;
    var es := g.graph.alts[0];
    assert es.tail.tail == Nil;
    forall b: Byte
      ensures !Starts(g, es.head, b)
    {
      PlaceholderUnseen(g, b);
    }
    assert (set b: Byte | Starts(g, es.head, b)) == {};
    var more := {} + set b: Byte | Starts(g, es.tail.head, b);
    assert Disjoint(g, Nil, more);
    assert Disjoint(g, es.tail, {});
    assert {} + (set b: Byte | Starts(g, es.head, b)) == {};
  }

  lemma FirstRuleOptimized(g: Grammar)
    requires g == PlaceholderOrLiteral() && WellFormed(g.graph) && OkAll(g.graph, g.graph.alts[0], false)
    requires OkAll(g.graph, g.graph.alts[0].tail, false) && Disjoint(g, g.graph.alts[0], {})
    ensures Placed(g.graph, g.graph.rules["r"]) && Optimized(map[], g, g.graph.rules["r"]) == Flip(g, 0)
  {
    hide WellFormed, Disjoint;
    var es := g.graph.alts[0];
    assert Count(es.tail) == 1 && Count(es) == 2;
    assert OptimizedAll(map[], g, es.tail, 1) == g;
    assert OptimizedAll(map[], g, es, 2) == g;
  }

  lemma PlaceholderOptimized(g: Grammar)
    requires g == PlaceholderOrLiteral() && WellFormed(g.graph) && OkAll(g.graph, g.graph.alts[0], false)
    requires OkAll(g.graph, g.graph.alts[0].tail, false) && Disjoint(g, g.graph.alts[0], {})
    ensures OptimizedRules(map[], g, ["r", "y"]) == Flip(g, 0)
  {
    FirstRuleOptimized(g);
    var r, y, g' := g.graph.rules["r"], g.graph.rules["y"], Flip(g, 0);
    RuleIsOk(g.graph, "y");
    assert Optimized(map[], g', y) == g';
    hide WellFormed, Disjoint, Optimized;
    assert ["r", "y"][1..] == ["y"] && ["y"][1..] == [];
    assert OptimizedRules(map[], g', []) == g';
    assert OptimizedRules(map[], g', ["y"]) == g';
  }

  lemma AlternativesFed(g: Grammar, g': Grammar)
    requires g' == PlaceholderOrLiteral() && g.graph == g'.graph && WellFormed(g.graph)
    ensures var s: Bytes, y, literal := [97, 97, 97], Named("@y"), Literal([97, 97, 97]);
            && Ready(g.graph, y, s, 0) && Parse(g, map[], "", y, s, 0) == Match(2, [])
            && Ready(g.graph, literal, s, 0) && Parse(g, map[], "", literal, s, 0) == Match(3, [])
  {
    var s: Bytes, literal := [97, 97, 97], Literal([97, 97, 97]);
    PlaceholderParsed(g, g', s);
    assert LiteralAt([97, 97], s, 0) && LiteralAt(literal.lit, s, 0);
    hide WellFormed;
    assert Ready(g.graph, literal, s, 0);
  }

  lemma LongestParsed(g: Grammar, g': Grammar, s: Bytes)
    requires g' == PlaceholderOrLiteral() && g.graph == g'.graph && s == [97, 97, 97]
    ensures WellFormed(g.graph) && Ready(g.graph, Named("r"), s, 0)
    ensures Parse(g, map[], "", Named("r"), s, 0) == if 0 in g.exclusive then Match(2, []) else Match(3, [])
  {
    var es := g.graph.alts[0];
    PlaceholderWellFormed(g');
    hide WellFormed, Parse, ParseFirst, ParseBest, OkAll;
    assert ReadyAll(g.graph, es, s, 0);
    AlternativesFed(g, g');
    PairChosen(g, es.head, es.tail.head, s);
    RuleParsed(g, es, s);
  }

  lemma LongestOptimized(g: Grammar)
    requires g == PlaceholderOrLiteral()
    ensures WellFormed(g.graph) && "r" in g.graph.rules && "y" in g.graph.rules
    ensures OptimizedRules(map[], g, ["r", "y"]) == Flip(g, 0)
  {
    hide WellFormed, OkAll, Disjoint, OptimizedRules;
    PlaceholderWellFormed(g);
    PlaceholderDisjoint(g);
    PlaceholderOptimized(g);
  }

  lemma NothingExclusive()
    ensures PlaceholderOrLiteral().exclusive == {} && OptionOrOctet().exclusive == {}
  {
  }

  /** A placeholder is probed with single octets only, so its map is empty unless one octet matches:
      the optimizer makes the selector exclusive, and then the shorter alternative wins. */
  lemma PlaceholderHidesLongest()
    ensures var g, s, r := PlaceholderOrLiteral(), [97, 97, 97], Named("r");
            && WellFormed(g.graph) && Ready(g.graph, r, s, 0)
            && Parse(g, map[], "", r, s, 0) == Match(3, [])
            && Parse(OptimizedRules(map[], g, ["r", "y"]), map[], "", r, s, 0) == Match(2, [])
  {
    var g, s: Bytes := PlaceholderOrLiteral(), [97, 97, 97];
    hide WellFormed, Parse, Ready, OptimizedRules, PlaceholderOrLiteral;
    LongestOptimized(g);
    LongestParsed(g, g, s);
    LongestParsed(Flip(g, 0), g, s);
    NothingExclusive();
  }
}
