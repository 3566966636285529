/** From parsed ABNF rules to the rules of a grammar. */
module AbnfCompiler {
  import opened Bytes
  import opened Recognizers
  import opened Language
  import opened Grammars
  import opened Identities
  import opened Abnf

  /** The rules are the same, but for placeholders added to them. */
  ghost predicate Deferring(a: map<Name, Entry>, b: map<Name, Entry>) {
    && (forall x :: x in a ==> x in b && b[x] == a[x])
    && (forall x :: x in b && x !in a ==> b[x].Placeholder?)
  }

  /** A lone reference to another rule. */
  predicate IsReference(a: Alternation) {
    |a.concatenations| == 1 && var rs := a.concatenations[0].repetitions;
    |rs| == 1 && rs[0].repeat == [] &&
    match rs[0].element
    case Group(b) => IsReference(b)
    case RuleName(_) => true
    case _ => false
  }

  /** Several alternatives, possibly in parentheses. */
  predicate IsChoice(a: Alternation) {
    |a.concatenations| != 1 || (
      var rs := a.concatenations[0].repetitions;
      |rs| == 1 && rs[0].repeat == [] &&
      match rs[0].element
      case Group(b) => IsChoice(b)
      case _ => false)
  }

  lemma {:induction false} CompiledKind(a: Alternation, r: Rec)
    requires CompiledAlternation(a, r)
    ensures r.Named? <==> IsReference(a)
    ensures r.Selector? <==> IsChoice(a)
    decreases a
  {
    if |a.concatenations| == 1 {
      var c := a.concatenations[0];
      assert CompiledConcatenation(c, r);
      assert |c.repetitions| == 1 ==> CompiledRepetition(c.repetitions[0], r);
      if |c.repetitions| == 1 && c.repetitions[0].repeat == [] {
        var e := c.repetitions[0].element;
        assert CompiledElement(e, r);
        match e {
          case Group(b) => CompiledKind(b, r);
          case _ =>
        }
      }
    }
  }

  lemma {:induction false} CompiledAllAppended(cs: seq<Concatenation>, es: Recs, c: Concatenation, r: Rec)
    requires CompiledAll(cs, es) && CompiledConcatenation(c, r)
    ensures CompiledAll(cs + [c], Append(es, r))
    decreases |cs|
  {
    if cs == [] {
      assert (cs + [c])[1..] == [];
    } else {
      assert (cs + [c])[1..] == cs[1..] + [c];
      CompiledAllAppended(cs[1..], es.tail, c, r);
    }
  }

  lemma {:induction false} CompiledSequenceAppended(rs: seq<Repetition>, es: Recs, p: Repetition, r: Rec)
    requires CompiledSequence(rs, es) && CompiledRepetition(p, r)
    ensures CompiledSequence(rs + [p], Append(es, r))
    decreases |rs|
  {
    if rs == [] {
      assert (rs + [p])[1..] == [];
    } else {
      assert (rs + [p])[1..] == rs[1..] + [p];
      CompiledSequenceAppended(rs[1..], es.tail, p, r);
    }
  }

  lemma {:induction false} CharsAppended(values: seq<int>, v: int)
    ensures Chars(values + [v]) == Append(Chars(values), MakeChar(v, true))
    decreases |values|
  {
    if values == [] {
      assert ([] + [v])[1..] == [];
    } else {
      assert (values + [v])[1..] == values[1..] + [v];
      CharsAppended(values[1..], v);
    }
  }

  lemma {:induction false} CharsAreNew(values: seq<int>, known: Name -> bool, alts: map<nat, Recs>, sels: nat -> bool)
    ensures RefersAll(Chars(values), known) && OwnedAll(alts, Chars(values)) && UsesAll(Chars(values), sels)
    decreases |values|
  {
    if values != [] {
      CharsAreNew(values[1..], known, alts, sels);
    }
  }

  // The selectors of a grammar, and the rules they belong to.

  /** The selectors of `before` are as they were, and those added have identities from `from` on. */
  ghost predicate Added(before: map<nat, Recs>, later: map<nat, Recs>, from: nat, to: nat) {
    && from <= to
    && (forall sel :: sel in before ==> sel in later && later[sel] == before[sel])
    && (forall sel :: sel in later && sel !in before ==> from <= sel < to)
  }

  ghost function Between(from: nat, to: nat): nat -> bool {
    sel => from <= sel < to
  }

  ghost function Settled(home: map<nat, Name>, from: nat, to: nat, x: Name): map<nat, Name> {
    home + map sel: nat | sel < to && Between(from, to)(sel) :: x
  }

  lemma HomedDeferring(before: map<Name, Entry>, entries: map<Name, Entry>, alts: map<nat, Recs>,
                       later: map<nat, Recs>, home: map<nat, Name>, from: nat, to: nat)
    requires Homed(before, alts, home) && Deferring(before, entries) && Added(alts, later, from, to)
    ensures Homed(entries, later, home)
  {
    forall x | x in entries && entries[x].Rule?
      ensures Owned(later, entries[x].body) && Uses(entries[x].body, HomeIs(home, x))
    {
      OwnedStill(alts, later, entries[x].body, HomeIs(home, x));
    }
  }

  lemma HomedDefined(entries: map<Name, Entry>, alts: map<nat, Recs>, home: map<nat, Name>, x: Name, r: Rec,
                     from: nat, to: nat)
    requires Homed(entries, alts, home) && (forall sel :: sel in home ==> sel < from)
    requires Owned(alts, r) && Uses(r, Between(from, to)) && from <= to
    ensures Homed(entries[x := Rule(r)], alts, Settled(home, from, to, x))
    ensures forall sel :: sel in Settled(home, from, to, x) ==> sel < to
  {
    var later, home' := entries[x := Rule(r)], Settled(home, from, to, x);
    forall y | y in later && later[y].Rule?
      ensures Owned(alts, later[y].body) && Uses(later[y].body, HomeIs(home', y))
    {
      UsesMore(later[y].body, if y == x then Between(from, to) else HomeIs(home, y), HomeIs(home', y));
    }
  }

  lemma HomedExtended(entries: map<Name, Entry>, alts: map<nat, Recs>, home: map<nat, Name>, x: Name, sel: nat,
                      es: Recs, r: Rec, from: nat, to: nat)
    requires Homed(entries, alts, home) && (forall sel :: sel in home ==> sel < from)
    requires x in entries && entries[x] == Rule(Selector(sel, es))
    requires Owned(alts, r) && Uses(r, Between(from, to)) && from <= to
    ensures Homed(entries[x := Rule(Selector(sel, Append(es, r)))], alts[sel := Append(es, r)],
                  Settled(home, from, to, x))
    ensures sel in alts && forall k :: k in Settled(home, from, to, x) ==> k < to
  {
    var body, alts', home' := Selector(sel, Append(es, r)), alts[sel := Append(es, r)], Settled(home, from, to, x);
    var later := entries[x := Rule(body)];
    assert Owned(alts, Selector(sel, es)) && Uses(Selector(sel, es), HomeIs(home, x));
    NotInsideAll(alts, es, sel);
    OwnedAllStill(alts, alts', es, k => k != sel);
    OwnedStill(alts, alts', r, Between(from, to));
    UsesMore(r, Between(from, to), HomeIs(home', x));
    UsesAllMore(es, HomeIs(home, x), HomeIs(home', x));
    AppendOwned(alts', es, r, HomeIs(home', x));
    forall y | y in later && later[y].Rule?
      ensures Owned(alts', later[y].body) && Uses(later[y].body, HomeIs(home', y))
    {
      if y != x {
        OwnedStill(alts, alts', later[y].body, HomeIs(home, y));
        UsesMore(later[y].body, HomeIs(home, y), HomeIs(home', y));
      }
    }
  }

  /** What was new is still so after more has been built, and may be followed by that. */
  lemma AppendNew(alts: map<nat, Recs>, es: Recs, known: Name -> bool, from: nat, mid: nat,
                  later: map<nat, Recs>, r: Rec, more: Name -> bool, to: nat)
    requires RefersAll(es, known) && OwnedAll(alts, es) && UsesAll(es, Between(from, mid)) && from <= mid
    requires Refers(r, more) && Owned(later, r) && Uses(r, Between(mid, to))
    requires Added(alts, later, mid, to) && forall x :: known(x) ==> more(x)
    ensures RefersAll(Append(es, r), more)
    ensures OwnedAll(later, Append(es, r)) && UsesAll(Append(es, r), Between(from, to))
  {
    RefersAllMore(es, known, more);
    AppendRefers(es, r, more);
    OwnedAllStill(alts, later, es, Between(from, mid));
    UsesAllMore(es, Between(from, mid), Between(from, to));
    UsesMore(r, Between(mid, to), Between(from, to));
    AppendOwned(later, es, r, Between(from, to));
  }

  /** Builds recognizers in a grammar. `alts` holds the selectors that exist, by identity, those the
      grammar started with included; `home` is the rule each of them is part of. */
  class Compiler {
    const table: RuleTable
    var alts: map<nat, Recs>
    var next: nat
    ghost var home: map<nat, Name>

    ghost predicate Valid()
      reads this, table, table.pointers
    {
      && table.Valid() && Homed(table.rules, alts, home)
      && (forall sel :: sel in alts ==> sel < next) && (forall sel :: sel in home ==> sel < next)
    }

    constructor (table: RuleTable, alts: map<nat, Recs>, next: nat, ghost home: map<nat, Name>)
      requires table.Valid() && Homed(table.rules, alts, home)
      requires (forall sel :: sel in alts ==> sel < next) && forall sel :: sel in home ==> sel < next
      ensures this.table == table && this.alts == alts && Valid()
    {
      this.table, this.alts, this.next, this.home := table, alts, next, home;
    }

    /** Building adds placeholders, references to them and selectors, and changes nothing that is there. */
    twostate predicate OnlyAdds()
      reads this, table, table.pointers
    {
      && table.Valid() && Deferring(old(table.rules), table.rules)
      && fresh(table.PointerSet() - old(table.PointerSet()))
      && (forall x :: old(table.Handed())(x) ==> table.Handed()(x))
      && Added(old(alts), alts, old(next), next) && forall sel :: sel in alts ==> sel < next
    }

    /** A recognizer made of references handed out and of new selectors. */
    ghost predicate New(r: Rec, from: nat)
      reads this, table, table.pointers
      requires table.Valid()
    {
      Refers(r, table.Handed()) && Owned(alts, r) && Uses(r, Between(from, next))
    }

    ghost predicate NewAll(es: Recs, from: nat)
      reads this, table, table.pointers
      requires table.Valid()
    {
      RefersAll(es, table.Handed()) && OwnedAll(alts, es) && UsesAll(es, Between(from, next))
    }

    method NewSelector(es: Recs, ghost from: nat) returns (r: Rec)
      requires table.Valid() && NewAll(es, from) && from <= next && forall sel :: sel in alts ==> sel < next
      modifies this`alts, this`next
      ensures r == Selector(old(next), es) && OnlyAdds() && New(r, from)
    {
      r := Selector(next, es);
      OwnedAllStill(alts, alts[next := es], es, Between(from, next));
      UsesAllMore(es, Between(from, next), Between(from, next + 1));
      alts := alts[next := es];
      next := next + 1;
    }

    method BuildChars(values: seq<int>) returns (es: Recs)
      ensures es == Chars(values)
    {
      var i := 0;
      es := Nil;
      while i < |values|
        invariant 0 <= i <= |values| && es == Chars(values[..i])
      {
        CharsAppended(values[..i], values[i]);
        assert values[..i + 1] == values[..i] + [values[i]];
        es := Append(es, MakeChar(values[i], true));
        i := i + 1;
      }
      assert values[..i] == values;
    }

    method BuildElement(e: Element) returns (r: Rec)
      requires table.Valid() && WellBuiltElement(e) && forall sel :: sel in alts ==> sel < next
      modifies this`alts, this`next, table
      ensures OnlyAdds() && New(r, old(next)) && CompiledElement(e, r)
      decreases e, 0
    {
      match e {
        case Group(a) =>
          r := BuildAlternation(a);
        case Optional(a) =>
          var body := BuildAlternation(a);
          r := Loop(body, 0, 1);
        case RuleName(x) =>
          r := table.GetRule(x);
        case CharVal(text) =>
          r := if |text| == 1 then MakeChar(text[0], false) else Literal(LowerBytes(text));
        case NumVal(isRange, values) =>
          if isRange {
            r := CharRange(values[0], values[1]);
          } else {
            var es := BuildChars(values);
            CharsAreNew(values, table.Handed(), alts, Between(next, next));
            r := Sequence(es);
          }
      }
    }

    method BuildRepetition(p: Repetition) returns (r: Rec)
      requires table.Valid() && WellBuiltElement(p.element) && forall sel :: sel in alts ==> sel < next
      modifies this`alts, this`next, table
      ensures OnlyAdds() && New(r, old(next)) && CompiledRepetition(p, r)
      decreases p, 0
    {
      var body := BuildElement(p.element);
      if p.repeat == [] {
        r := body;
      } else if p.count != -1 {
        r := Loop(body, p.count, p.count);
      } else {
        r := Loop(body, p.min, p.max);
      }
    }

    method BuildConcatenation(c: Concatenation) returns (r: Rec)
      requires table.Valid() && WellBuiltConcatenation(c) && forall sel :: sel in alts ==> sel < next
      modifies this`alts, this`next, table
      ensures OnlyAdds() && New(r, old(next)) && CompiledConcatenation(c, r)
      decreases c, 0
    {
      var rs := c.repetitions;
      if |rs| == 1 {
        r := BuildRepetition(rs[0]);
      } else {
        var es, i := Nil, 0;
        while i < |rs|
          invariant 0 <= i <= |rs| && OnlyAdds() && NewAll(es, old(next)) && CompiledSequence(rs[..i], es)
        {
          ghost var selectors, handed, mid := alts, table.Handed(), next;
          var e := BuildRepetition(rs[i]);
          AppendNew(selectors, es, handed, old(next), mid, alts, e, table.Handed(), next);
          CompiledSequenceAppended(rs[..i], es, rs[i], e);
          assert rs[..i + 1] == rs[..i] + [rs[i]];
          es := Append(es, e);
          i := i + 1;
        }
        assert rs[..i] == rs;
        r := Sequence(es);
      }
    }

    method BuildAlternation(a: Alternation) returns (r: Rec)
      requires table.Valid() && WellBuilt(a) && forall sel :: sel in alts ==> sel < next
      modifies this`alts, this`next, table
      ensures OnlyAdds() && New(r, old(next)) && CompiledAlternation(a, r)
      decreases a, 0
    {
      var cs := a.concatenations;
      if |cs| == 1 {
        r := BuildConcatenation(cs[0]);
      } else {
        var es, i := Nil, 0;
        while i < |cs|
          invariant 0 <= i <= |cs| && OnlyAdds() && NewAll(es, old(next)) && CompiledAll(cs[..i], es)
        {
          ghost var selectors, handed, mid := alts, table.Handed(), next;
          var e := BuildConcatenation(cs[i]);
          AppendNew(selectors, es, handed, old(next), mid, alts, e, table.Handed(), next);
          CompiledAllAppended(cs[..i], es, cs[i], e);
          assert cs[..i + 1] == cs[..i] + [cs[i]];
          es := Append(es, e);
          i := i + 1;
        }
        assert cs[..i] == cs;
        r := NewSelector(es, old(next));
      }
    }

    /** A recognizer for rule `n` has been built, and nothing has been done with it yet. */
    ghost predicate Pending(rules: seq<AbnfRule>, n: nat, core: map<Name, Rec>, rec: Rec, from: nat)
      reads this, table, table.pointers
    {
      && n < |rules| && Acceptable(core, rules, n) && Valid() && Compiled(core, rules, n, table.rules)
      && CompiledAlternation(rules[n].alternation, rec) && New(rec, from)
      && from <= next && forall sel :: sel in home ==> sel < from
    }

    /** Adds an alternative to the selector that exists. */
    method AddAlternative(ghost rules: seq<AbnfRule>, ghost n: nat, ghost core: map<Name, Rec>, name: Name, rec: Rec,
                          ghost from: nat)
      requires Pending(rules, n, core, rec, from) && IsExtension(rules[n]) && name == rules[n].name
      modifies this, table
      ensures Valid() && Compiled(core, rules, n + 1, table.rules) && table.pointers == old(table.pointers)
      ensures Entered(rules[n], old(table.rules), table.rules)
    {
      hide WellBuilt, CompiledAlternation, Means, Refers, Lower, IsReference, IsChoice, RuleTable.Valid, Compiled;
      hide Owned, Uses, Homed, IsExtension;
      CompiledKind(rules[n].alternation, rec);
      ExtendableIsSelector(core, rules, n, table.rules);
      ghost var entries, x := table.rules, Lower(name);
      ghost var body := entries[x].body;
      HomedExtended(entries, alts, home, x, body.sel, body.es, rec, from, next);
      table.ExtendRule(name, rec);
      CompiledExtended(core, rules, n, entries, table.rules, rec, body.sel, body.es);
      match table.rules[Lower(name)].body
      case Selector(sel, es) =>
        alts := alts[sel := es];
        home := Settled(home, from, next, x);
        ExtensionEntered(rules[n], entries, rec, body.sel, body.es);
    }

    /** Adds a rule under its name; one that is just another rule is an alias. */
    method AddDefinition(ghost rules: seq<AbnfRule>, ghost n: nat, ghost core: map<Name, Rec>, name: Name, rec: Rec,
                         ghost from: nat)
      requires Pending(rules, n, core, rec, from) && !IsExtension(rules[n]) && name == rules[n].name
      modifies this, table, table.PointerSet()
      ensures Valid() && Compiled(core, rules, n + 1, table.rules) && table.pointers == old(table.pointers)
      ensures Entered(rules[n], old(table.rules), table.rules)
    {
      hide WellBuilt, CompiledAlternation, Means, Refers, Lower, IsReference, IsChoice, RuleTable.Valid, Compiled;
      hide Owned, Uses, Homed, IsExtension;
      CompiledKind(rules[n].alternation, rec);
      NotDefinedYet(core, rules, n, table.rules);
      ghost var entries, x := table.rules, Lower(name);
      var r := if rec.Named? then Alias(rec) else rec;
      if rec.Named? {
        AliasIsNew(rec, table.Handed(), alts, Between(from, next));
      }
      HomedDefined(entries, alts, home, x, r, from, next);
      table.AddRule(name, r);
      CompiledDefined(core, rules, n, entries, table.rules, r);
      home := Settled(home, from, next, x);
      DefinitionEntered(rules[n], entries, rec);
    }

    /** Compiles one rule and adds it to the grammar, as a rule of its own or as one more alternative. */
    method BuildRule(rules: seq<AbnfRule>, n: nat, ghost core: map<Name, Rec>)
      requires Valid() && n < |rules| && Acceptable(core, rules, n) && Compiled(core, rules, n, table.rules)
      modifies this, table, table.PointerSet()
      ensures Valid() && Compiled(core, rules, n + 1, table.rules) && Entered(rules[n], old(table.rules), table.rules)
      ensures fresh(table.PointerSet() - old(table.PointerSet()))
    {
      hide WellBuilt, CompiledAlternation, Means, Refers, Lower, IsReference, IsChoice, RuleTable.Valid, Compiled;
      hide Owned, Uses, Homed, IsExtension, Entered;
      ghost var before, selectors, from := table.rules, alts, next;
      var rec := BuildAlternation(rules[n].alternation);
      ghost var entries := table.rules;
      CompiledDeferring(core, rules, n, before, entries);
      HomedDeferring(before, entries, selectors, alts, home, from, next);
      if IsExtension(rules[n]) {
        AddAlternative(rules, n, core, rules[n].name, rec, from);
      } else {
        AddDefinition(rules, n, core, rules[n].name, rec, from);
      }
      EnteredDeferring(rules[n], before, entries, table.rules);
    }

    /** Builds a grammar from a list of rules: each name derives what its definitions derive. */
    method BuildRules(rules: seq<AbnfRule>, ghost core: map<Name, Rec>)
      requires Valid() && forall i :: 0 <= i < |rules| ==> Acceptable(core, rules, i)
      requires forall x :: x in table.rules ==> table.rules[x].Rule?
      requires core == map x | x in table.rules && table.rules[x].Rule? :: table.rules[x].body
      modifies this, table, table.PointerSet()
      ensures Valid() && Compiled(core, rules, |rules|, table.rules)
    {
      CompiledNothing(core, rules, table.rules);
      var i := 0;
      while i < |rules|
        invariant 0 <= i <= |rules| && Valid() && Compiled(core, rules, i, table.rules)
        invariant fresh(table.PointerSet() - old(table.PointerSet()))
      {
        BuildRule(rules, i, core);
        i := i + 1;
      }
    }
  }

  /** What a rule of a list does to the table. A definition becomes the recognizer of its alternation, or an
      alias if that is a lone reference; an extension becomes the last alternative of the selector that is
      there. Names are compared in any case, and the other rules are as before. */
  ghost predicate Entered(rule: AbnfRule, before: map<Name, Entry>, later: map<Name, Entry>) {
    exists x, rec :: EnteredAs(rule, before, later, x, rec)
  }

  ghost predicate EnteredAs(rule: AbnfRule, before: map<Name, Entry>, later: map<Name, Entry>, x: Name, rec: Rec) {
    && SameName(rule.name, x) && CompiledAlternation(rule.alternation, rec) && x in later
    && (forall y :: y != x && y in before && before[y].Rule? ==> y in later && later[y] == before[y])
    && if exists i :: 0 <= i < |rule.definedAs| && rule.definedAs[i] == '/' as int
       then exists sel, es, more :: x in before && before[x] == Rule(Selector(sel, es))
              && later[x] == Rule(Selector(sel, more)) && Listed(more) == Listed(es) + [rec]
       else later[x] == Rule(if rec.Named? then Alias(rec) else rec)
  }

  lemma ExtensionEntered(rule: AbnfRule, before: map<Name, Entry>, rec: Rec, sel: nat, es: Recs)
    requires var x := Lower(rule.name); x in before && before[x] == Rule(Selector(sel, es))
    requires IsExtension(rule) && CompiledAlternation(rule.alternation, rec)
    ensures Entered(rule, before, before[Lower(rule.name) := Rule(Selector(sel, Append(es, rec)))])
  {
    hide CompiledAlternation, Lower, SameName;
    var x := Lower(rule.name);
    LowerFolds(rule.name);
    AppendListed(es, rec);
    assert EnteredAs(rule, before, before[x := Rule(Selector(sel, Append(es, rec)))], x, rec);
  }

  lemma DefinitionEntered(rule: AbnfRule, before: map<Name, Entry>, rec: Rec)
    requires !IsExtension(rule) && CompiledAlternation(rule.alternation, rec)
    ensures Entered(rule, before, before[Lower(rule.name) := Rule(if rec.Named? then Alias(rec) else rec)])
  {
    hide CompiledAlternation, Lower, SameName;
    var x := Lower(rule.name);
    LowerFolds(rule.name);
    assert EnteredAs(rule, before, before[x := Rule(if rec.Named? then Alias(rec) else rec)], x, rec);
  }

  /** Placeholders added in between make no difference. */
  lemma EnteredDeferring(rule: AbnfRule, before: map<Name, Entry>, entries: map<Name, Entry>, later: map<Name, Entry>)
    requires Deferring(before, entries) && Entered(rule, entries, later)
    ensures Entered(rule, before, later)
  {
    hide CompiledAlternation, SameName;
    var x, rec :| EnteredAs(rule, entries, later, x, rec);
    assert EnteredAs(rule, before, later, x, rec);
  }

  // The rules of a grammar, from those it starts with and a list of parsed ones.

  predicate IsExtension(rule: AbnfRule): (more: bool)
    ensures more <==> exists i :: 0 <= i < |rule.definedAs| && rule.definedAs[i] == '/' as int
  {
    47 in rule.definedAs
  }

  /** The rules of `core` derive a string for `x`, or one of the first `n` rules of the list does. */
  ghost predicate DefinedDerives(core: map<Name, Rec>, rules: seq<AbnfRule>, n: int, x: Name, env: Lang, w: Bytes)
    requires 0 <= n <= |rules|
  {
    || (x in core && Derives(core[x], ThroughBase(env), w))
    || exists i :: 0 <= i < n && Lower(rules[i].name) == x && AlternationDerives(rules[i].alternation, env, w)
  }

  /** The recognizer `r` derives what all the definitions of `x` together derive. */
  ghost predicate Means(r: Rec, core: map<Name, Rec>, rules: seq<AbnfRule>, n: int, x: Name)
    requires 0 <= n <= |rules|
  {
    forall env: Lang, w ::
      Derives(r, ThroughBase(env), w) <==> DefinedDerives(core, rules, n, x, env, w)
  }

  predicate Defines(rules: seq<AbnfRule>, n: int, x: Name)
    requires 0 <= n <= |rules|
  {
    exists i :: 0 <= i < n && Lower(rules[i].name) == x
  }

  /** A rule is defined once, before it is extended; only choices are extended, and not with a lone
      reference to another rule. Anything else is a fatal error, or renames the other rule. */
  predicate Acceptable(core: map<Name, Rec>, rules: seq<AbnfRule>, i: int)
    requires 0 <= i < |rules|
  {
    var x := Lower(rules[i].name);
    && WellBuilt(rules[i].alternation) && IsRuleName(x)
    && if IsExtension(rules[i])
       then !IsReference(rules[i].alternation) && ExtendsChoice(core, rules, i, x)
       else x !in core && !Defines(rules, i, x)
  }

  predicate ExtendsChoice(core: map<Name, Rec>, rules: seq<AbnfRule>, n: int, x: Name)
    requires 0 <= n <= |rules|
  {
    || (x in core && core[x].Selector?)
    || exists i :: 0 <= i < n && Lower(rules[i].name) == x && !IsExtension(rules[i]) && IsChoice(rules[i].alternation)
  }

  lemma DefinedMeans(core: map<Name, Rec>, rules: seq<AbnfRule>, n: int, r: Rec)
    requires 0 <= n < |rules| && WellBuilt(rules[n].alternation) && CompiledAlternation(rules[n].alternation, r)
    requires Lower(rules[n].name) !in core && !Defines(rules, n, Lower(rules[n].name))
    ensures Means(r, core, rules, n + 1, Lower(rules[n].name))
  {
    var x := Lower(rules[n].name);
    forall env: Lang, w
      ensures Derives(r, ThroughBase(env), w) <==> DefinedDerives(core, rules, n + 1, x, env, w)
    {
      AlternationPreserved(rules[n].alternation, r, env, w);
      if DefinedDerives(core, rules, n + 1, x, env, w) {
        var i :| 0 <= i < n + 1 && Lower(rules[i].name) == x && AlternationDerives(rules[i].alternation, env, w);
        assert i == n;
      }
    }
  }

  lemma AliasMeans(core: map<Name, Rec>, rules: seq<AbnfRule>, n: int, r: Rec, x: Name)
    requires 0 <= n <= |rules| && Means(r, core, rules, n, x)
    ensures Means(Alias(r), core, rules, n, x)
  {
    forall env: Lang, w
      ensures Derives(Alias(r), ThroughBase(env), w) <==> DefinedDerives(core, rules, n, x, env, w)
    {
      assert Derives(Alias(r), ThroughBase(env), w) == Derives(r, ThroughBase(env), w);
    }
  }

  lemma OtherMeans(core: map<Name, Rec>, rules: seq<AbnfRule>, n: int, r: Rec, x: Name)
    requires 0 <= n < |rules| && Means(r, core, rules, n, x) && Lower(rules[n].name) != x
    ensures Means(r, core, rules, n + 1, x)
  {
    forall env: Lang, w
      ensures Derives(r, ThroughBase(env), w) <==> DefinedDerives(core, rules, n + 1, x, env, w)
    {
      assert DefinedDerives(core, rules, n + 1, x, env, w) == DefinedDerives(core, rules, n, x, env, w);
    }
  }

  lemma {:induction false} AppendDerives(es: Recs, r: Rec, env: Lang, w: Bytes)
    ensures DerivesAny(Append(es, r), env, w) <==> DerivesAny(es, env, w) || Derives(r, env, w)
  {
    if es.Cons? {
      AppendDerives(es.tail, r, env, w);
    }
  }

  lemma ExtendedMeans(core: map<Name, Rec>, rules: seq<AbnfRule>, n: int, sel: nat, es: Recs, r: Rec)
    requires 0 <= n < |rules| && WellBuilt(rules[n].alternation) && CompiledAlternation(rules[n].alternation, r)
    requires Means(Selector(sel, es), core, rules, n, Lower(rules[n].name))
    ensures Means(Selector(sel, Append(es, r)), core, rules, n + 1, Lower(rules[n].name))
  {
    var x := Lower(rules[n].name);
    forall env: Lang, w
      ensures Derives(Selector(sel, Append(es, r)), ThroughBase(env), w) <==>
              DefinedDerives(core, rules, n + 1, x, env, w)
    {
      AlternationPreserved(rules[n].alternation, r, env, w);
      AppendDerives(es, r, ThroughBase(env), w);
      assert Derives(Selector(sel, es), ThroughBase(env), w) <==> DefinedDerives(core, rules, n, x, env, w);
    }
  }

  /** After the first `n` rules of the list, the grammar holds those and the core rules, each with
      the language of its definitions. */
  ghost predicate Compiled(core: map<Name, Rec>, rules: seq<AbnfRule>, n: int, entries: map<Name, Entry>)
    requires 0 <= n <= |rules|
  {
    && (forall x :: (x in entries && entries[x].Rule?) <==> (x in core || Defines(rules, n, x)))
    && (forall x :: x in entries && entries[x].Rule? ==>
          && Means(entries[x].body, core, rules, n, x)
          && (ExtendsChoice(core, rules, n, x) ==> entries[x].body.Selector?))
  }

  lemma CompiledNothing(core: map<Name, Rec>, rules: seq<AbnfRule>, entries: map<Name, Entry>)
    requires forall x :: x in entries ==> entries[x].Rule?
    requires core == map x | x in entries && entries[x].Rule? :: entries[x].body
    ensures Compiled(core, rules, 0, entries)
  {
  }

  lemma CompiledDeferring(core: map<Name, Rec>, rules: seq<AbnfRule>, n: int, before: map<Name, Entry>,
                          entries: map<Name, Entry>)
    requires 0 <= n <= |rules| && Compiled(core, rules, n, before) && Deferring(before, entries)
    ensures Compiled(core, rules, n, entries)
  {
  }

  lemma ExtendableIsSelector(core: map<Name, Rec>, rules: seq<AbnfRule>, n: int, entries: map<Name, Entry>)
    requires 0 <= n < |rules| && Compiled(core, rules, n, entries) && Acceptable(core, rules, n) &&
            IsExtension(rules[n])
    ensures var x := Lower(rules[n].name); x in entries && entries[x].Rule? && entries[x].body.Selector?
  {
    var x := Lower(rules[n].name);
    if x !in core {
      var i :| 0 <= i < n && Lower(rules[i].name) == x && !IsExtension(rules[i]) && IsChoice(rules[i].alternation);
      assert Defines(rules, n, x);
    }
  }

  lemma NotDefinedYet(core: map<Name, Rec>, rules: seq<AbnfRule>, n: int, entries: map<Name, Entry>)
    requires 0 <= n < |rules| && Compiled(core, rules, n, entries) && Acceptable(core, rules, n) &&
            !IsExtension(rules[n])
    ensures var x := Lower(rules[n].name); x in entries ==> entries[x].Placeholder?
  {
  }

  lemma AliasIsNew(r: Rec, known: Name -> bool, alts: map<nat, Recs>, sels: nat -> bool)
    requires Refers(r, known) && Owned(alts, r) && Uses(r, sels)
    ensures Refers(Alias(r), known) && Owned(alts, Alias(r)) && Uses(Alias(r), sels)
  {
  }

  /** How the definitions of the names grow with one more rule. */
  lemma DefinesNext(rules: seq<AbnfRule>, n: int, x: Name)
    requires 0 <= n < |rules|
    ensures Defines(rules, n + 1, x) <==> Defines(rules, n, x) || Lower(rules[n].name) == x
  {
    if Defines(rules, n, x) {
      var i :| 0 <= i < n && Lower(rules[i].name) == x;
      assert 0 <= i < n + 1;
    }
  }

  lemma ExtendsChoiceNext(core: map<Name, Rec>, rules: seq<AbnfRule>, n: int, x: Name)
    requires 0 <= n < |rules| && ExtendsChoice(core, rules, n + 1, x)
    ensures || ExtendsChoice(core, rules, n, x)
            || (Lower(rules[n].name) == x && !IsExtension(rules[n]) && IsChoice(rules[n].alternation))
  {
  }

  lemma CompiledOthers(core: map<Name, Rec>, rules: seq<AbnfRule>, n: int, entries: map<Name, Entry>, later: map<Name,
                       Entry>, r: Rec)
    requires 0 <= n < |rules| && Compiled(core, rules, n, entries) && later == entries[Lower(rules[n].name) := Rule(r)]
    requires Means(r, core, rules, n + 1, Lower(rules[n].name))
    requires ExtendsChoice(core, rules, n + 1, Lower(rules[n].name)) ==> r.Selector?
    ensures Compiled(core, rules, n + 1, later)
  {
    forall x
      ensures (x in later && later[x].Rule?) <==> (x in core || Defines(rules, n + 1, x))
    {
      DefinesNext(rules, n, x);
    }
    forall x | x in later && later[x].Rule?
      ensures Means(later[x].body, core, rules, n + 1, x)
      ensures ExtendsChoice(core, rules, n + 1, x) ==> later[x].body.Selector?
    {
      if x != Lower(rules[n].name) {
        OtherMeans(core, rules, n, later[x].body, x);
        if ExtendsChoice(core, rules, n + 1, x) {
          ExtendsChoiceNext(core, rules, n, x);
        }
      }
    }
  }

  lemma CompiledDefined(core: map<Name, Rec>, rules: seq<AbnfRule>, n: int, entries: map<Name, Entry>,
                        later: map<Name, Entry>, r: Rec)
    requires 0 <= n < |rules| && Compiled(core, rules, n, entries) && Acceptable(core, rules, n) &&
            !IsExtension(rules[n])
    requires later == entries[Lower(rules[n].name) := Rule(r)]
    requires if r.Alias? && IsReference(rules[n].alternation) then CompiledAlternation(rules[n].alternation, r.target)
             else CompiledAlternation(rules[n].alternation, r)
    ensures Compiled(core, rules, n + 1, later)
  {
    var x := Lower(rules[n].name);
    if r.Alias? && IsReference(rules[n].alternation) {
      CompiledKind(rules[n].alternation, r.target);
      DefinedMeans(core, rules, n, r.target);
      AliasMeans(core, rules, n + 1, r.target, x);
    } else {
      CompiledKind(rules[n].alternation, r);
      DefinedMeans(core, rules, n, r);
    }
    if ExtendsChoice(core, rules, n + 1, x) {
      ExtendsChoiceNext(core, rules, n, x);
      assert !ExtendsChoice(core, rules, n, x);
    }
    CompiledOthers(core, rules, n, entries, later, r);
  }

  lemma CompiledExtended(core: map<Name, Rec>, rules: seq<AbnfRule>, n: int, entries: map<Name, Entry>,
                         later: map<Name, Entry>,
                         r: Rec, sel: nat, es: Recs)
    requires 0 <= n < |rules| && Compiled(core, rules, n, entries) && Acceptable(core, rules, n) &&
            IsExtension(rules[n])
    requires var x := Lower(rules[n].name);
             x in entries && entries[x] == Rule(Selector(sel, es)) &&
                 later == entries[x := Rule(Selector(sel, Append(es, r)))]
    requires CompiledAlternation(rules[n].alternation, r)
    ensures Compiled(core, rules, n + 1, later)
  {
    ExtendedMeans(core, rules, n, sel, es, r);
    CompiledOthers(core, rules, n, entries, later, Selector(sel, Append(es, r)));
  }
}
