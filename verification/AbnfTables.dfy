/** The table of rules while the rules of ABNF are added to it one by one. */
module AbnfTables {
  import opened Recognizers
  import opened Grammars
  import opened AbnfRules

  /** What a rule added at place `at` gets for a reference: the rule itself if it has been added before,
      its placeholder otherwise. */
  function Reference(r: Rule, at: nat): Name {
    if Order(r) < at then NameOf(r) else Deferred(NameOf(r))
  }

  ghost function PointerNames(table: RuleTable): set<Name>
    reads table
  {
    set p | p in table.pointers :: p.name
  }

  /** The map holds the first `n` rules, as `written`, and placeholders have been made for the rules of `asked`. */
  ghost predicate Holds(written: Rule -> Rec, rules: map<Name, Entry>, placeholders: set<Name>, n: nat,
                        asked: set<Rule>)
  {
    && (forall r :: Order(r) < n ==> NameOf(r) in rules && rules[NameOf(r)] == Entry.Rule(written(r)))
    && (forall r :: n <= Order(r) ==> (NameOf(r) in rules <==> r in asked))
    && (forall r :: n <= Order(r) && r in asked ==> rules[NameOf(r)].Placeholder?)
    && (forall r :: NameOf(r) in placeholders <==> r in asked)
    && (forall x :: x in rules ==> x in Names())
  }

  function NotBefore(rs: set<Rule>, n: nat): set<Rule> {
    set r | r in rs && n <= Order(r)
  }

  lemma RulesApart(q: Rule, r: Rule)
    ensures q == r <==> Order(q) == Order(r)
    ensures q == r <==> NameOf(q) == NameOf(r)
  {
    hide NameOf, Order, RuleAt;
    OrderRead(q);
    OrderRead(r);
    if NameOf(q) == NameOf(r) {
      Distinct(q, r);
    }
  }

  /** A rule that has been added, or asked for, calls for no new placeholder. */
  lemma AskedBefore(written: Rule -> Rec, rules: map<Name, Entry>, placeholders: set<Name>, n: nat,
                    asked: set<Rule>, q: Rule)
    requires Holds(written, rules, placeholders, n, asked) && NameOf(q) in rules
    ensures asked + NotBefore({q}, n) == asked
    ensures rules[NameOf(q)].Rule? <==> Order(q) < n
  {
    hide NameOf, Order;
  }

  lemma AskedNow(written: Rule -> Rec, rules: map<Name, Entry>, placeholders: set<Name>, n: nat,
                 asked: set<Rule>, q: Rule, p: RecognizerPointer)
    requires Holds(written, rules, placeholders, n, asked) && NameOf(q) !in rules
    ensures Holds(written, rules[NameOf(q) := Placeholder(p)], placeholders + {NameOf(q)}, n, asked + NotBefore({q}, n))
    ensures n <= Order(q)
  {
    hide NameOf, Order, RuleAt, RuleNamed, Names;
    assert n <= Order(q);
    var later, more := rules[NameOf(q) := Placeholder(p)], asked + {q};
    forall r
      ensures Order(r) < n ==> NameOf(r) in later && later[NameOf(r)] == Entry.Rule(written(r))
      ensures n <= Order(r) ==> (NameOf(r) in later <==> r in more)
      ensures n <= Order(r) && r in more ==> later[NameOf(r)].Placeholder?
      ensures NameOf(r) in placeholders + {NameOf(q)} <==> r in more
    {
      RulesApart(r, q);
      assert r != q ==> (NameOf(r) in later <==> NameOf(r) in rules);
      assert r != q && NameOf(r) in rules ==> later[NameOf(r)] == rules[NameOf(r)];
    }
    NameListed(q);
    assert asked + NotBefore({q}, n) == more;
  }

  lemma NameListed(r: Rule)
    ensures NameOf(r) in Names()
  {
    hide NameOf;
  }

  lemma AddedNext(written: Rule -> Rec, rules: map<Name, Entry>, placeholders: set<Name>, asked: set<Rule>, r: Rule)
    requires Holds(written, rules, placeholders, Order(r), asked)
    ensures Holds(written, rules[NameOf(r) := Entry.Rule(written(r))], placeholders, Order(r) + 1, asked)
  {
    hide NameOf, Order;
    var later := rules[NameOf(r) := Entry.Rule(written(r))];
    forall q
      ensures Order(q) < Order(r) + 1 ==> NameOf(q) in later && later[NameOf(q)] == Entry.Rule(written(q))
      ensures Order(r) + 1 <= Order(q) ==> (NameOf(q) in later <==> q in asked)
      ensures Order(r) + 1 <= Order(q) && q in asked ==> later[NameOf(q)].Placeholder?
    {
      RulesApart(q, r);
      assert q != r ==> Order(q) < Order(r) || Order(r) + 1 <= Order(q);
      assert q != r && NameOf(q) in later ==> NameOf(q) in rules && later[NameOf(q)] == rules[NameOf(q)];
    }
  }

  lemma NotAddedYet(written: Rule -> Rec, rules: map<Name, Entry>, placeholders: set<Name>, asked: set<Rule>, r: Rule)
    requires Holds(written, rules, placeholders, Order(r), asked)
    ensures NameOf(r) in rules ==> rules[NameOf(r)].Placeholder?
  {
    hide NameOf, Order;
  }

  /** When what was asked for has been added, nothing is left to resolve. */
  lemma NothingLeft(written: Rule -> Rec, rules: map<Name, Entry>, placeholders: set<Name>, n: nat, asked: set<Rule>)
    requires Holds(written, rules, placeholders, n, asked) && forall r :: r in asked ==> Order(r) < n
    ensures forall x :: x in rules ==> rules[x].Rule?
  {
    hide NameOf, Order;
    forall x | x in rules
      ensures rules[x].Rule?
    {
      var r :| NameOf(r) == x;
      assert n <= Order(r) ==> r in asked;
    }
  }

  /** A call of getRule. */
  method Ask(ghost written: Rule -> Rec, table: RuleTable, q: Rule, at: nat, ghost asked: set<Rule>) returns (r: Rec)
    requires table.Valid() && Holds(written, table.rules, PointerNames(table), at, asked)
    modifies table
    ensures table.Valid() && Holds(written, table.rules, PointerNames(table), at, asked + NotBefore({q}, at))
    ensures fresh(table.PointerSet() - old(table.PointerSet()))
    ensures r == Named(Reference(q, at))
    ensures Refers(r, table.Handed()) && forall x :: old(table.Handed())(x) ==> table.Handed()(x)
  {
    hide NameOf, Order, Lower, Holds, RuleTable.Valid, RuleTable.Handed, Refers, Deferred, NotBefore;
    NameKept(q);
    ghost var rules, names, name := table.rules, PointerNames(table), NameOf(q);
    r := table.GetRule(NameOf(q));
    if name in rules {
      AskedBefore(written, rules, names, at, asked, q);
    } else {
      ghost var p := table.pointers[|table.pointers| - 1];
      AskedNow(written, rules, names, at, asked, q, p);
      assert PointerNames(table) == names + {name};
    }
  }
}
