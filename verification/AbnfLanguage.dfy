/** A compiled grammar derives exactly the language of its ABNF rules, and what it matches is in it. */
module AbnfLanguage {
  import opened Bytes
  import opened Recognizers
  import opened PureParser
  import opened Language
  import opened Grammars
  import opened Identities
  import opened Abnf
  import opened AbnfCompiler

  /** What the core rules and the ABNF rules together derive in at most `k` expansions of names. */
  ghost function AbnfLang(core: map<Name, Rec>, rules: seq<AbnfRule>, k: nat): Lang {
    if k == 0 then (x, w) => false
    else (x, w) => DefinedDerives(core, rules, |rules|, x, AbnfLang(core, rules, k - 1), w)
  }

  ghost predicate InAbnf(core: map<Name, Rec>, rules: seq<AbnfRule>, x: Name, w: Bytes) {
    exists k: nat :: AbnfLang(core, rules, k)(x, w)
  }

  /** `g` holds what has been compiled, with every placeholder resolved. */
  ghost predicate Complete(core: map<Name, Rec>, rules: seq<AbnfRule>, entries: map<Name, Entry>, g: map<Name, Rec>) {
    && Compiled(core, rules, |rules|, entries)
    && (forall x :: x in entries ==> x in g && entries[x] == Rule(g[x]) && Refers(g[x], y => y in g) && IsRuleName(x))
    && (forall x :: x in g && IsRuleName(x) ==> x in entries)
    && (forall x :: x in g && !IsRuleName(x) ==> IsRuleName(Base(x)) && Base(x) in g && g[x] == Pointer(Named(Base(x))))
  }

  /** A grammar built from a list of rules is complete once none of its placeholders is unresolved. */
  lemma BuiltIsComplete(core: map<Name, Rec>, rules: seq<AbnfRule>, table: RuleTable)
    requires table.Valid() && Compiled(core, rules, |rules|, table.rules)
    requires forall x :: x in table.rules ==> table.rules[x].Rule?
    ensures Complete(core, rules, table.rules, Nodes(table))
  {
    hide Compiled;
    NodesResolved(table);
  }

  // What the proofs below use of a complete grammar, one name at a time.

  lemma RuleMeans(core: map<Name, Rec>, rules: seq<AbnfRule>, entries: map<Name, Entry>, g: map<Name, Rec>, x: Name,
                  env: Lang, w: Bytes)
    requires Complete(core, rules, entries, g)
    ensures x in g && IsRuleName(x) ==>
              (Derives(g[x], ThroughBase(env), w) <==> DefinedDerives(core, rules, |rules|, x, env, w))
    ensures DefinedDerives(core, rules, |rules|, x, env, w) ==> x in g && IsRuleName(x) && Base(x) == x
  {
    if x in entries {
      assert entries[x].Rule? && Means(entries[x].body, core, rules, |rules|, x);
    }
    assert DefinedDerives(core, rules, |rules|, x, env, w) ==> x in core || Defines(rules, |rules|, x);
  }

  lemma RuleRefers(core: map<Name, Rec>, rules: seq<AbnfRule>, entries: map<Name, Entry>, g: map<Name, Rec>, x: Name)
    requires Complete(core, rules, entries, g) && x in g && IsRuleName(x)
    ensures Refers(g[x], y => y in g)
  {
  }

  lemma PlaceholderPoints(core: map<Name, Rec>, rules: seq<AbnfRule>, entries: map<Name, Entry>, g: map<Name, Rec>,
                          x: Name)
    requires Complete(core, rules, entries, g) && x in g
    ensures if IsRuleName(x) then Base(x) == x
            else g[x] == Pointer(Named(Base(x))) && Base(x) in g && Base(Base(x)) == Base(x)
  {
  }

  lemma ThroughBaseWithin(a: Lang, b: Lang)
    requires Within(a, b)
    ensures Within(ThroughBase(a), ThroughBase(b))
  {
    forall x, w | ThroughBase(a)(x, w)
      ensures ThroughBase(b)(x, w)
    {
      assert a(Base(x), w);
    }
  }

  lemma {:induction false} AbnfLangGrows(core: map<Name, Rec>, rules: seq<AbnfRule>, entries: map<Name, Entry>,
                                         g: map<Name, Rec>, k: nat)
    requires Complete(core, rules, entries, g)
    ensures Within(AbnfLang(core, rules, k), AbnfLang(core, rules, k + 1))
  {
    hide Complete, Derives, DefinedDerives, Base, IsRuleName;
    if k > 0 {
      var less, more := AbnfLang(core, rules, k - 1), AbnfLang(core, rules, k);
      AbnfLangGrows(core, rules, entries, g, k - 1);
      forall x, w | AbnfLang(core, rules, k)(x, w)
        ensures AbnfLang(core, rules, k + 1)(x, w)
      {
        RuleMeans(core, rules, entries, g, x, less, w);
        assert DefinedDerives(core, rules, |rules|, x, less, w);
        ThroughBaseWithin(less, more);
        DerivesMore(g[x], ThroughBase(less), ThroughBase(more), w);
        RuleMeans(core, rules, entries, g, x, more, w);
      }
    }
  }

  /** What the grammar derives, the ABNF rules derive. */
  lemma {:induction false} GrammarWithinAbnf(core: map<Name, Rec>, rules: seq<AbnfRule>, entries: map<Name, Entry>,
                                             g: Graph, k: nat)
    requires Complete(core, rules, entries, g.rules)
    ensures Within(RuleLang(g, k), ThroughBase(AbnfLang(core, rules, k)))
  {
    hide Complete, DefinedDerives, Base, IsRuleName;
    if k > 0 {
      var less := AbnfLang(core, rules, k - 1);
      GrammarWithinAbnf(core, rules, entries, g, k - 1);
      AbnfLangGrows(core, rules, entries, g.rules, k - 1);
      forall x, w | RuleLang(g, k)(x, w)
        ensures AbnfLang(core, rules, k)(Base(x), w)
      {
        assert Derives(g.rules[x], RuleLang(g, k - 1), w);
        PlaceholderPoints(core, rules, entries, g.rules, x);
        if IsRuleName(x) {
          DerivesMore(g.rules[x], RuleLang(g, k - 1), ThroughBase(less), w);
          RuleMeans(core, rules, entries, g.rules, x, less, w);
        } else {
          assert RuleLang(g, k - 1)(Base(x), w) by { assert Derives(Named(Base(x)), RuleLang(g, k - 1), w); }
          assert less(Base(x), w);
        }
      }
    }
  }

  /** What the ABNF rules derive, the grammar derives, with one more expansion for a placeholder. */
  lemma {:induction false} AbnfWithinGrammar(core: map<Name, Rec>, rules: seq<AbnfRule>, entries: map<Name, Entry>,
                                             g: Graph, k: nat)
    requires Complete(core, rules, entries, g.rules)
    ensures Within(AbnfLang(core, rules, k), RuleLang(g, 2 * k))
  {
    hide Complete, DefinedDerives, Base, IsRuleName;
    if k > 0 {
      var less, half, more := AbnfLang(core, rules, k - 1), RuleLang(g, 2 * k - 2), RuleLang(g, 2 * k - 1);
      AbnfWithinGrammar(core, rules, entries, g, k - 1);
      RuleLangGrows(g, 2 * k - 2, 2 * k - 1);
      forall y, w | y in g.rules && ThroughBase(less)(y, w)
        ensures more(y, w)
      {
        assert half(Base(y), w);
        PlaceholderPoints(core, rules, entries, g.rules, y);
        if !IsRuleName(y) {
          assert Derives(Named(Base(y)), half, w);
          assert Derives(g.rules[y], half, w);
        }
      }
      forall x, w | AbnfLang(core, rules, k)(x, w)
        ensures RuleLang(g, 2 * k)(x, w)
      {
        RuleMeans(core, rules, entries, g.rules, x, less, w);
        assert DefinedDerives(core, rules, |rules|, x, less, w);
        RuleRefers(core, rules, entries, g.rules, x);
        DerivesOn(g.rules[x], y => y in g.rules, ThroughBase(less), more, w);
      }
    }
  }

  /** Compiling ABNF rules preserves the language of every rule. */
  lemma CompiledLanguage(core: map<Name, Rec>, rules: seq<AbnfRule>, entries: map<Name, Entry>, g: Graph, x: Name,
                         w: Bytes)
    requires Complete(core, rules, entries, g.rules) && IsRuleName(x)
    ensures InLanguage(g, Named(x), w) <==> InAbnf(core, rules, x, w)
  {
    hide Complete, DefinedDerives, AbnfLang, RuleLang;
    if InLanguage(g, Named(x), w) {
      var k :| Derives(Named(x), RuleLang(g, k), w);
      GrammarWithinAbnf(core, rules, entries, g, k);
      var lang := AbnfLang(core, rules, k);
      assert Base(x) == x && RuleLang(g, k)(x, w);
      assert ThroughBase(lang)(x, w);
      assert lang(x, w);
    }
    if InAbnf(core, rules, x, w) {
      var k: nat :| AbnfLang(core, rules, k)(x, w);
      AbnfWithinGrammar(core, rules, entries, g, k);
      assert Derives(Named(x), RuleLang(g, 2 * k), w);
    }
  }

  /** From the rules to the parser: what a rule of a compiled grammar matches is a string of that rule. */
  lemma MatchesAreAbnf(core: map<Name, Rec>, rules: seq<AbnfRule>, entries: map<Name, Entry>, g: Grammar, t: Table,
                       h: Name,
                       x: Name, s: Bytes, pos: nat)
    requires Complete(core, rules, entries, g.graph.rules) && IsRuleName(x)
    requires WellFormed(g.graph) && Ready(g.graph, Named(x), s, pos)
    ensures var m := Parse(g, t, h, Named(x), s, pos);
            m.Match? ==> pos + m.len <= |s| && InAbnf(core, rules, x, s[pos..pos + m.len])
  {
    hide Complete, Parse, WellFormed, Ok, InLanguage, InAbnf;
    FeedSound(g, t, h, Named(x), s, pos);
    var m := Parse(g, t, h, Named(x), s, pos);
    if m.Match? {
      CompiledLanguage(core, rules, entries, g.graph, x, s[pos..pos + m.len]);
    }
  }

  // The grammar that is built, with its selectors.

  /** The graph of the grammar a compiler has built, whatever the annotations on it. */
  ghost predicate BuiltGraph(compiler: Compiler, g: Graph)
    requires compiler.Valid()
    reads compiler, compiler.table, compiler.table.pointers
  {
    g.rules == Nodes(compiler.table) && g.alts == compiler.alts
  }

  lemma {:induction false} BuiltIsOwned(compiler: Compiler, x: Name)
    requires compiler.Valid() && x in Nodes(compiler.table)
    ensures Owned(compiler.alts, Nodes(compiler.table)[x])
  {
    hide Refers, Uses, Base;
    var table := compiler.table;
    if x in table.rules && table.rules[x].Rule? {
      assert Owned(compiler.alts, table.rules[x].body);
    }
  }

  /** The graph that is built is complete, and whether it is well-formed is a matter of ranks, loops and
      the octet 0 alone: each of its selectors is one object. */
  lemma BuiltIsWellFormed(core: map<Name, Rec>, rules: seq<AbnfRule>, compiler: Compiler, g: Graph)
    requires compiler.Valid() && Compiled(core, rules, |rules|, compiler.table.rules) && BuiltGraph(compiler, g)
    requires forall x :: x in compiler.table.rules ==> compiler.table.rules[x].Rule?
    ensures Complete(core, rules, compiler.table.rules, g.rules)
    ensures WellFormed(g) <==> forall x :: x in g.rules ==> SteadyRule(g, x)
  {
    hide Compiled, Complete, Owned, WellFormed, SteadyRule;
    BuiltIsComplete(core, rules, compiler.table);
    forall x | x in g.rules
      ensures Owned(g.alts, g.rules[x])
    {
      BuiltIsOwned(compiler, x);
    }
    SteadyIsWellFormed(g);
  }

  /** Builds a grammar from parsed rules, and says whether every name they use has a definition. If so,
      the grammar derives what the rules derive, and each of its selectors is one object. */
  method CreateFromAbnf(rules: seq<AbnfRule>, compiler: Compiler, ghost core: map<Name, Rec>) returns (complete: bool)
    requires compiler.Valid() && forall i :: 0 <= i < |rules| ==> Acceptable(core, rules, i)
    requires forall x :: x in compiler.table.rules ==> compiler.table.rules[x].Rule?
    requires core == map x | x in compiler.table.rules && compiler.table.rules[x].Rule? :: compiler.table.rules[x].body
    modifies compiler, compiler.table, compiler.table.PointerSet()
    ensures compiler.Valid() && Compiled(core, rules, |rules|, compiler.table.rules)
    ensures complete <==> forall x :: x in compiler.table.rules ==> compiler.table.rules[x].Rule?
    ensures complete ==> forall g: Graph {:trigger BuiltGraph(compiler, g)} :: BuiltGraph(compiler, g) ==>
              && Complete(core, rules, compiler.table.rules, g.rules)
              && (WellFormed(g) <==> forall x :: x in g.rules ==> SteadyRule(g, x))
  {
    hide Compiled, Acceptable, WellFormed, SteadyRule, Complete;
    compiler.BuildRules(rules, core);
    complete := compiler.table.IsComplete();
    if complete {
      forall g: Graph | BuiltGraph(compiler, g)
        ensures Complete(core, rules, compiler.table.rules, g.rules)
        ensures WellFormed(g) <==> forall x :: x in g.rules ==> SteadyRule(g, x)
      {
        BuiltIsWellFormed(core, rules, compiler, g);
      }
    }
  }

  /** From a list of rules to the parser: what a rule of the grammar built from them matches is a string
      of that rule, as long as no rule is left-recursive and no unbounded loop runs over nothing. */
  lemma BuiltMatchesAreAbnf(core: map<Name, Rec>, rules: seq<AbnfRule>, compiler: Compiler, g: Grammar, t: Table,
                            h: Name, x: Name, s: Bytes, pos: nat)
    requires compiler.Valid() && Compiled(core, rules, |rules|, compiler.table.rules)
    requires forall y :: y in compiler.table.rules ==> compiler.table.rules[y].Rule?
    requires BuiltGraph(compiler, g.graph) && forall y :: y in g.graph.rules ==> SteadyRule(g.graph, y)
    requires IsRuleName(x) && Ready(g.graph, Named(x), s, pos)
    ensures WellFormed(g.graph)
    ensures var m := Parse(g, t, h, Named(x), s, pos);
            m.Match? ==> pos + m.len <= |s| && InAbnf(core, rules, x, s[pos..pos + m.len])
  {
    hide Compiled, Complete, WellFormed, SteadyRule, Parse, InAbnf, Ok;
    BuiltIsWellFormed(core, rules, compiler, g.graph);
    MatchesAreAbnf(core, rules, compiler.table.rules, g, t, h, x, s, pos);
  }
}
