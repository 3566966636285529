/** Grammars of ABNF rules that start from the core rules of belr. */
module CoreGrammars {
  import opened Recognizers
  import opened Grammars
  import opened Identities
  import opened AbnfCompiler
  import opened AbnfLanguage
  import Abnf
  import R = AbnfRules
  import T = AbnfTables
  import G = AbnfGrammar

  /** The core rules, by name. */
  ghost function CoreBodies(): map<Name, Rec> {
    map x | x in (set r | R.Order(r) < R.CORE_RULES :: R.NameOf(r)) :: G.Written(R.RuleNamed(x))
  }

  lemma CoreIsRecorded(table: RuleTable)
    requires G.Built(table, R.CORE_RULES)
    ensures table.Valid() && forall x :: x in table.rules ==> table.rules[x].Rule?
    ensures CoreBodies() == map x | x in table.rules && table.rules[x].Rule? :: table.rules[x].body
  {
    hide R.NameOf, R.Order, R.RuleNamed, G.Written, RuleTable.Valid, G.AskedFor, T.PointerNames;
    G.CoreIsResolved(table);
    forall r: R.Rule
      ensures R.RuleNamed(R.NameOf(r)) == r
      ensures R.NameOf(r) in table.rules <==> R.Order(r) < R.CORE_RULES
    {
      R.NameRead(r);
    }
  }

  lemma SelectorsBelow(n: nat)
    requires n <= R.RULES
    ensures forall sel :: sel in G.Selectors(n) ==> sel < n
    ensures forall sel :: sel in G.Homes(n) ==> sel < n
  {
    hide G.HasSelector, G.Body, R.NameOf, R.RuleAt;
  }

  /** Builds a grammar from parsed rules and the core rules. The selectors of the core rules keep their
      identities, and those of the rules get new ones. */
  method BuildOnCore(rules: seq<Abnf.AbnfRule>) returns (compiler: Compiler, complete: bool)
    requires forall i :: 0 <= i < |rules| ==> Acceptable(CoreBodies(), rules, i)
    ensures compiler.Valid() && Compiled(CoreBodies(), rules, |rules|, compiler.table.rules)
    ensures complete <==> forall x :: x in compiler.table.rules ==> compiler.table.rules[x].Rule?
    ensures complete ==> forall g: Graph {:trigger BuiltGraph(compiler, g)} :: BuiltGraph(compiler, g) ==>
              && Complete(CoreBodies(), rules, compiler.table.rules, g.rules)
              && (WellFormed(g) <==> forall x :: x in g.rules ==> SteadyRule(g, x))
  {
    hide Acceptable, CoreBodies, T.Holds, G.Selectors, G.Homes, Compiled, Complete, WellFormed, SteadyRule, BuiltGraph;
    hide Homed, RuleTable.Valid;
    var table := G.CoreRules();
    CoreIsRecorded(table);
    G.HoldsHomed(table.rules, T.PointerNames(table), R.CORE_RULES, G.AskedFor(R.CORE_RULES));
    SelectorsBelow(R.CORE_RULES);
    compiler := new Compiler(table, G.Selectors(R.CORE_RULES), R.CORE_RULES, G.Homes(R.CORE_RULES));
    complete := CreateFromAbnf(rules, compiler, CoreBodies());
  }
}
