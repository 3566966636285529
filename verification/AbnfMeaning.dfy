/** The constructs of ABNF as section 3 of RFC 5234 describes them: what strings of its parts a construct is
    made of, and the equations between the rules of a list. */
module AbnfMeaning {
  import opened Bytes
  import opened Recognizers
  import opened Language
  import opened Words
  import opened Grammars
  import opened Abnf
  import opened AbnfCompiler
  import opened AbnfLanguage

  ghost function OfElement(e: Element, env: Lang): Words {
    w => ElementDerives(e, env, w)
  }

  ghost function OfRepetition(r: Repetition, env: Lang): Words {
    w => RepetitionDerives(r, env, w)
  }

  ghost function OfConcatenation(c: Concatenation, env: Lang): Words {
    w => ConcatenationDerives(c.repetitions, env, w)
  }

  ghost function OfAlternation(a: Alternation, env: Lang): Words {
    w => AlternationDerives(a, env, w)
  }

  ghost function OfRepetitions(rs: seq<Repetition>, env: Lang): seq<Words> {
    seq(|rs|, i requires 0 <= i < |rs| => OfRepetition(rs[i], env))
  }

  ghost function OfConcatenations(cs: seq<Concatenation>, env: Lang): seq<Words> {
    seq(|cs|, i requires 0 <= i < |cs| => OfConcatenation(cs[i], env))
  }

  /** Section 2.3: the letters of a quoted string, in either case. */
  lemma CharValMeaning(text: Bytes, env: Lang)
    ensures Alike(OfElement(CharVal(text), env), Letters(text))
  {
    forall a, b
      ensures ToLower(a) == ToLower(b) <==> SameLetter(a, b)
    {
      Folds(a, b);
    }
  }

  /** Section 3.4 and terminals of section 2.3: one octet of a range, or the octets listed. */
  lemma NumValMeaning(values: seq<int>, env: Lang, w: Bytes)
    ensures |values| >= 2 ==> Alike(OfElement(NumVal(true, values), env), Octets(values[0], values[1]))
    ensures OfElement(NumVal(false, values), env)(w) <==>
            |w| == |values| && forall i :: 0 <= i < |w| ==> w[i] as int == values[i]
  {
  }

  /** Section 2.1: a rule is referred to in any case. */
  lemma RuleNameMeaning(x: Name, y: Name, env: Lang)
    requires SameName(x, y) && LowerCase(y)
    ensures Alike(OfElement(RuleName(x), env), w => env(y, w))
  {
    LowerExactly(x, y);
    assert Lower(y) == y;
  }

  /** Sections 3.5 and 3.8. */
  lemma BracketMeaning(a: Alternation, env: Lang)
    ensures Alike(OfElement(Group(a), env), OfAlternation(a, env))
    ensures Alike(OfElement(Optional(a), env), Perhaps(OfAlternation(a, env)))
  {
    hide AlternationDerives;
  }

  /** Section 3.2: alternatives. */
  lemma AlternationMeaning(a: Alternation, env: Lang)
    ensures Alike(OfAlternation(a, env), OneOf(OfConcatenations(a.concatenations, env)))
  {
    hide ConcatenationDerives;
    var cs, ls := a.concatenations, OfConcatenations(a.concatenations, env);
    forall w
      ensures OfAlternation(a, env)(w) <==> OneOf(ls)(w)
    {
      if i :| 0 <= i < |cs| && ConcatenationDerives(cs[i].repetitions, env, w) {
        assert ls[i](w);
      }
    }
  }

  lemma {:induction false} RepetitionsMeaning(rs: seq<Repetition>, env: Lang, w: Bytes)
    ensures ConcatenationDerives(rs, env, w) <==> InOrder(OfRepetitions(rs, env))(w)
    decreases |rs|
  {
    hide InOrder, RepetitionDerives;
    if rs == [] {
      InOrderNothing(w);
      assert OfRepetitions(rs, env) == [];
    } else {
      var ls := OfRepetitions(rs[1..], env);
      assert OfRepetitions(rs, env) == [OfRepetition(rs[0], env)] + ls;
      InOrderFirst(OfRepetition(rs[0], env), ls, w);
      forall k | 0 <= k <= |w|
        ensures ConcatenationDerives(rs[1..], env, w[k..]) <==> InOrder(ls)(w[k..])
      {
        RepetitionsMeaning(rs[1..], env, w[k..]);
      }
    }
  }

  /** Section 3.1: one after the other. */
  lemma ConcatenationMeaning(c: Concatenation, env: Lang)
    ensures Alike(OfConcatenation(c, env), InOrder(OfRepetitions(c.repetitions, env)))
  {
    hide InOrder, ConcatenationDerives;
    forall w
      ensures OfConcatenation(c, env)(w) <==> InOrder(OfRepetitions(c.repetitions, env))(w)
    {
      RepetitionsMeaning(c.repetitions, env, w);
    }
  }

  lemma {:induction false} OccurrencesMeaning(e: Element, env: Lang, n: nat, w: Bytes)
    ensures ElementRepeats(e, env, n, w) <==> Times(OfElement(e, env), n, w)
    decreases n
  {
    hide Times, ElementDerives;
    if n == 0 {
      TimesNone(OfElement(e, env), w);
    } else {
      TimesFirst(OfElement(e, env), n - 1, w);
      forall k | 0 <= k <= |w|
        ensures ElementRepeats(e, env, n - 1, w[k..]) <==> Times(OfElement(e, env), n - 1, w[k..])
      {
        OccurrencesMeaning(e, env, n - 1, w[k..]);
      }
    }
  }

  /** Sections 3.6 and 3.7: without a repeat, one occurrence; with a count, that many; and otherwise from the
      minimum to the maximum. */
  lemma RepetitionMeaning(r: Repetition, env: Lang)
    ensures var one := OfElement(r.element, env);
            && (r.repeat == [] ==> Alike(OfRepetition(r, env), one))
            && (r.repeat != [] && r.count != -1 ==> Alike(OfRepetition(r, env), Many(one, r.count, r.count)))
            && (r.repeat != [] && r.count == -1 ==> Alike(OfRepetition(r, env), Many(one, r.min, r.max)))
  {
    hide Times, ElementDerives, Many, Alike;
    if r.repeat == [] {
      OneOccurrence(r, env);
    } else {
      var (min, max) := if r.count != -1 then (r.count, r.count) else (r.min, r.max);
      forall w
        ensures OfRepetition(r, env)(w) <==> Many(OfElement(r.element, env), min, max)(w)
      {
        BoundedOccurrences(r, env, min, max, w);
      }
      AlikeEverywhere(OfRepetition(r, env), Many(OfElement(r.element, env), min, max));
    }
  }

  lemma OneOccurrence(r: Repetition, env: Lang)
    requires r.repeat == []
    ensures Alike(OfRepetition(r, env), OfElement(r.element, env))
  {
    hide ElementDerives;
  }

  lemma AlikeEverywhere(l: Words, l': Words)
    requires forall w :: l(w) <==> l'(w)
    ensures Alike(l, l')
  {
  }

  lemma BoundedOccurrences(r: Repetition, env: Lang, min: int, max: int, w: Bytes)
    requires r.repeat != []
    requires (min, max) == if r.count != -1 then (r.count, r.count) else (r.min, r.max)
    ensures RepetitionDerives(r, env, w) <==> Many(OfElement(r.element, env), min, max)(w)
  {
    hide Times, ElementDerives, Many;
    var one := OfElement(r.element, env);
    ManyTimes(one, min, max, w);
    if RepetitionDerives(r, env, w) {
      var n: nat :| InBounds(r, n) && ElementRepeats(r.element, env, n, w);
      OccurrencesMeaning(r.element, env, n, w);
      assert min <= n && (max == -1 || n <= max) && Times(one, n, w);
    }
    if Many(one, min, max)(w) {
      var n: nat :| min <= n && (max == -1 || n <= max) && Times(one, n, w);
      OccurrencesMeaning(r.element, env, n, w);
      assert InBounds(r, n) && ElementRepeats(r.element, env, n, w);
    }
  }

  // The parts of what is compiled come in the order of the parts of the rule.

  lemma {:induction false} AlternativesInOrder(cs: seq<Concatenation>, es: Recs)
    requires CompiledAll(cs, es)
    ensures |Listed(es)| == |cs| && forall i :: 0 <= i < |cs| ==> CompiledConcatenation(cs[i], Listed(es)[i])
    decreases |cs|
  {
    hide CompiledConcatenation;
    if cs != [] {
      AlternativesInOrder(cs[1..], es.tail);
      forall i | 0 <= i < |cs|
        ensures CompiledConcatenation(cs[i], Listed(es)[i])
      {
        if i > 0 {
          assert cs[i] == cs[1..][i - 1] && Listed(es)[i] == Listed(es.tail)[i - 1];
        }
      }
    }
  }

  lemma {:induction false} ElementsInOrder(rs: seq<Repetition>, es: Recs)
    requires CompiledSequence(rs, es)
    ensures |Listed(es)| == |rs| && forall i :: 0 <= i < |rs| ==> CompiledRepetition(rs[i], Listed(es)[i])
    decreases |rs|
  {
    hide CompiledRepetition;
    if rs != [] {
      ElementsInOrder(rs[1..], es.tail);
      forall i | 0 <= i < |rs|
        ensures CompiledRepetition(rs[i], Listed(es)[i])
      {
        if i > 0 {
          assert rs[i] == rs[1..][i - 1] && Listed(es)[i] == Listed(es.tail)[i - 1];
        }
      }
    }
  }

  /** Several alternatives become one selector and several repetitions one sequence, part by part; a single
      one is compiled alone. */
  lemma CompiledInOrder(a: Alternation, r: Rec, c: Concatenation, q: Rec)
    requires CompiledAlternation(a, r) && CompiledConcatenation(c, q)
    ensures |a.concatenations| == 1 ==> CompiledConcatenation(a.concatenations[0], r)
    ensures |a.concatenations| != 1 ==>
              && r.Selector? && |Listed(r.es)| == |a.concatenations|
              && forall i :: 0 <= i < |a.concatenations| ==> CompiledConcatenation(a.concatenations[i], Listed(r.es)[i])
    ensures |c.repetitions| == 1 ==> CompiledRepetition(c.repetitions[0], q)
    ensures |c.repetitions| != 1 ==>
              && q.Sequence? && |Listed(q.es)| == |c.repetitions|
              && forall i :: 0 <= i < |c.repetitions| ==> CompiledRepetition(c.repetitions[i], Listed(q.es)[i])
  {
    hide CompiledRepetition;
    if |a.concatenations| != 1 {
      AlternativesInOrder(a.concatenations, r.es);
    }
    if |c.repetitions| != 1 {
      ElementsInOrder(c.repetitions, q.es);
    }
  }

  // The rules of a list define each other.

  /** What each name stands for. */
  ghost function Meant(core: map<Name, Rec>, rules: seq<AbnfRule>): Lang {
    (x, w) => InAbnf(core, rules, x, w)
  }

  /** One of the definitions of `x`, under whatever capitals, derives the string; `x` may have one of the core
      rules as well. */
  ghost predicate ByDefinition(core: map<Name, Rec>, rules: seq<AbnfRule>, x: Name, env: Lang, w: Bytes) {
    || (x in core && Derives(core[x], ThroughBase(env), w))
    || exists i :: 0 <= i < |rules| && SameName(rules[i].name, x) && OfAlternation(rules[i].alternation, env)(w)
  }

  lemma DefinedExactly(core: map<Name, Rec>, rules: seq<AbnfRule>, x: Name, env: Lang, w: Bytes)
    requires LowerCase(x)
    ensures DefinedDerives(core, rules, |rules|, x, env, w) <==> ByDefinition(core, rules, x, env, w)
  {
    hide Derives, AlternationDerives;
    assert Lower(x) == x;
    forall i | 0 <= i < |rules|
      ensures Lower(rules[i].name) == x <==> SameName(rules[i].name, x)
    {
      LowerExactly(rules[i].name, x);
    }
    if ByDefinition(core, rules, x, env, w) && !(x in core && Derives(core[x], ThroughBase(env), w)) {
      var i :| 0 <= i < |rules| && SameName(rules[i].name, x) && OfAlternation(rules[i].alternation, env)(w);
      assert AlternationDerives(rules[i].alternation, env, w);
    }
    if i :| 0 <= i < |rules| && Lower(rules[i].name) == x && AlternationDerives(rules[i].alternation, env, w) {
      assert OfAlternation(rules[i].alternation, env)(w);
    }
  }

  /** The equations: a name stands for what its definitions derive when names stand for what they do. */
  lemma AbnfEquations(core: map<Name, Rec>, rules: seq<AbnfRule>, entries: map<Name, Entry>, g: Graph, x: Name,
                      w: Bytes)
    requires Complete(core, rules, entries, g.rules) && x in g.rules && IsRuleName(x) && LowerCase(x)
    ensures InAbnf(core, rules, x, w) <==> ByDefinition(core, rules, x, Meant(core, rules), w)
  {
    hide Complete, DefinedDerives, Derives, InAbnf, InLanguage, IsRuleName, Base, ByDefinition;
    var env := Meant(core, rules);
    CompiledLanguage(core, rules, entries, g, x, w);
    RuleWords(g, x);
    assert InLanguage(g, Named(x), w) <==> Of(g.rules[x], LanguageOf(g))(w);
    NamesMeant(core, rules, entries, g);
    RuleRefers(core, rules, entries, g.rules, x);
    if Derives(g.rules[x], LanguageOf(g), w) {
      DerivesOn(g.rules[x], y => y in g.rules, LanguageOf(g), ThroughBase(env), w);
    }
    if Derives(g.rules[x], ThroughBase(env), w) {
      DerivesOn(g.rules[x], y => y in g.rules, ThroughBase(env), LanguageOf(g), w);
    }
    RuleMeans(core, rules, entries, g.rules, x, env, w);
    DefinedExactly(core, rules, x, env, w);
  }

  /** In the graph, rules and placeholders alike stand for what their rule means. */
  lemma NamesMeant(core: map<Name, Rec>, rules: seq<AbnfRule>, entries: map<Name, Entry>, g: Graph)
    requires Complete(core, rules, entries, g.rules)
    ensures WithinOn(y => y in g.rules, LanguageOf(g), ThroughBase(Meant(core, rules)))
    ensures WithinOn(y => y in g.rules, ThroughBase(Meant(core, rules)), LanguageOf(g))
  {
    hide Complete, InAbnf, InLanguage, IsRuleName, Base;
    forall y, w | y in g.rules
      ensures InLanguage(g, Named(y), w) <==> InAbnf(core, rules, Base(y), w)
    {
      PlaceholderPoints(core, rules, entries, g.rules, y);
      if IsRuleName(y) {
        CompiledLanguage(core, rules, entries, g, y, w);
      } else {
        PlaceholderWords(g, y, Base(y));
        RuleNamesAreBase(core, rules, entries, g.rules, y);
        CompiledLanguage(core, rules, entries, g, Base(y), w);
        assert Strings(g, y)(w) <==> Strings(g, Base(y))(w);
      }
    }
  }

  lemma RuleNamesAreBase(core: map<Name, Rec>, rules: seq<AbnfRule>, entries: map<Name, Entry>, g: map<Name, Rec>,
                         y: Name)
    requires Complete(core, rules, entries, g) && y in g
    ensures IsRuleName(Base(y))
  {
  }

  // What the code takes for granted about a list of rules: anything else ends in a fatal error, or renames a rule.

  lemma WellBuiltExactly(a: Alternation, c: Concatenation)
    ensures WellBuilt(a) <==> forall i :: 0 <= i < |a.concatenations| ==> WellBuiltConcatenation(a.concatenations[i])
    ensures WellBuiltConcatenation(c) <==>
            && |c.repetitions| > 0
            && forall i :: 0 <= i < |c.repetitions| ==> WellBuiltElement(c.repetitions[i].element)
    ensures WellBuiltElement(Group(a)) <==> WellBuilt(a)
    ensures WellBuiltElement(Optional(a)) <==> WellBuilt(a)
  {
  }

  lemma ElementsExactly(values: seq<int>, x: Name, text: Bytes)
    ensures WellBuiltElement(NumVal(false, values)) && (WellBuiltElement(NumVal(true, values)) <==> |values| >= 2)
    ensures WellBuiltElement(RuleName(x)) <==> |x| > 0 && x[0] != '@'
    ensures WellBuiltElement(CharVal(text)) <==> |text| > 0
  {
    if |x| > 0 {
      assert Lower(x)[0] == LowerChar(x[0]);
    }
  }

  /** An extension needs a choice to extend, that of a core rule or that of an earlier definition, and must not be
      a lone reference; a definition needs a name that nothing has. */
  lemma AcceptableExactly(core: map<Name, Rec>, rules: seq<AbnfRule>, i: nat, x: Name)
    requires i < |rules| && SameName(rules[i].name, x) && LowerCase(x)
    ensures var slash := exists k :: 0 <= k < |rules[i].definedAs| && rules[i].definedAs[k] == '/' as int;
            Acceptable(core, rules, i) <==>
            && WellBuilt(rules[i].alternation) && IsRuleName(x)
            && if slash
               then !IsReference(rules[i].alternation) &&
                    ((x in core && core[x].Selector?) || exists k :: ChoiceAt(rules, i, k, x))
               else x !in core && forall k :: 0 <= k < i ==> !SameName(rules[k].name, x)
  {
    hide WellBuilt, IsReference, IsChoice;
    LowerExactly(rules[i].name, x);
    assert Lower(x) == x;
    forall k | 0 <= k < i
      ensures Lower(rules[k].name) == x <==> SameName(rules[k].name, x)
    {
      LowerExactly(rules[k].name, x);
    }
    if k :| ChoiceAt(rules, i, k, x) {
      assert Lower(rules[k].name) == x && !IsExtension(rules[k]) && IsChoice(rules[k].alternation);
    }
    if k :| 0 <= k < i && Lower(rules[k].name) == x && !IsExtension(rules[k]) && IsChoice(rules[k].alternation) {
      assert ChoiceAt(rules, i, k, x);
    }
  }

  /** The rule before `i` at `k` defines `x` as a choice. */
  ghost predicate ChoiceAt(rules: seq<AbnfRule>, i: nat, k: int, x: Name) {
    0 <= k < i <= |rules| && SameName(rules[k].name, x) && !IsExtension(rules[k]) && IsChoice(rules[k].alternation)
  }

  // A definition and an extension of it: sign = "+" / "-" and SIGN =/ "~".

  function Quoted(c: Byte): Concatenation {
    Concatenation([Repetition([], 0, -1, -1, CharVal([c]))])
  }

  function SignRules(): seq<AbnfRule> {
    [AbnfRule("sign", [61], Alternation([Quoted(43), Quoted(45)])),
     AbnfRule("SIGN", [61, 47], Alternation([Quoted(126)]))]
  }

  lemma QuotedDerives(c: Byte, env: Lang)
    ensures ConcatenationDerives(Quoted(c).repetitions, env, [c]) && WellBuiltConcatenation(Quoted(c))
  {
    var r := Repetition([], 0, -1, -1, CharVal([c]));
    assert ElementDerives(r.element, env, [c]);
    assert RepetitionDerives(r, env, [c]);
    SingletonConcatenation([r], env, [c]);
  }

  /** Rules like these are built, and the extension adds to the definition whatever the case of its name. */
  lemma ExtensionAdds()
    ensures var rules := SignRules();
            && Acceptable(map[], rules, 0) && Acceptable(map[], rules, 1)
            && InAbnf(map[], rules, "sign", [43]) && InAbnf(map[], rules, "sign", [126])
  {
    hide ConcatenationDerives;
    var rules, none := SignRules(), AbnfLang(map[], SignRules(), 0);
    QuotedDerives(43, none);
    QuotedDerives(45, none);
    QuotedDerives(126, none);
    assert Lower("sign") == "sign" && Lower("SIGN") == "sign";
    assert !IsExtension(rules[0]) && IsChoice(rules[0].alternation);
    assert IsExtension(rules[1]) by {
      assert rules[1].definedAs[1] == '/' as int;
    }
    assert WellBuilt(rules[0].alternation) && WellBuilt(rules[1].alternation);
    assert rules[0].alternation.concatenations[0] == Quoted(43);
    assert rules[1].alternation.concatenations[0] == Quoted(126);
    assert AlternationDerives(rules[0].alternation, none, [43]);
    assert AlternationDerives(rules[1].alternation, none, [126]);
    assert AbnfLang(map[], rules, 1)("sign", [43]) && AbnfLang(map[], rules, 1)("sign", [126]);
  }
}
