/** The rules of a grammar under construction: names may be used before they are defined, through
    placeholders that are resolved when the definition comes. */
module Grammars {
  import opened Bytes
  import opened Recognizers

  function LowerChar(c: char): char {
    if 'A' <= c <= 'Z' then (c as int + 32) as char else c
  }

  function Lower(x: Name): (y: Name)
    ensures |y| == |x|
  {
    seq(|x|, i requires 0 <= i < |x| => LowerChar(x[i]))
  }

  lemma LowerTwice(x: Name)
    ensures Lower(Lower(x)) == Lower(x)
  {
  }

  /** Rule names are case-insensitive (section 2.1 of RFC 5234): the names differ in case at most. */
  predicate SameName(x: Name, y: Name) {
    |x| == |y| && forall i :: 0 <= i < |x| ==> SameLetter(x[i] as int, y[i] as int)
  }

  predicate LowerCase(x: Name) {
    forall i :: 0 <= i < |x| ==> !('A' <= x[i] <= 'Z')
  }

  /** What names are folded to is the one of their forms without capitals. */
  lemma LowerFolds(x: Name)
    ensures SameName(x, Lower(x)) && LowerCase(Lower(x))
  {
    hide SameLetter;
    forall i | 0 <= i < |x|
      ensures SameLetter(x[i] as int, Lower(x)[i] as int) && !('A' <= Lower(x)[i] <= 'Z')
    {
      SameLetterShifts(x[i] as int, LowerChar(x[i]) as int);
    }
  }

  /** Names that differ in case alone stand for one rule: whatever the table is asked for under one of
      them, it is asked for under the other. */
  lemma LowerExactly(x: Name, y: Name)
    ensures Lower(x) == Lower(y) <==> SameName(x, y)
  {
    hide SameLetter;
    if |x| == |y| {
      forall i | 0 <= i < |x|
        ensures SameLetter(x[i] as int, y[i] as int) <==> Lower(x)[i] == Lower(y)[i]
      {
        SameLetterShifts(x[i] as int, y[i] as int);
      }
    }
  }

  /** The name of the placeholder for rule `x`. */
  function Deferred(x: Name): Name {
    "@" + x
  }

  predicate IsRuleName(x: Name) {
    x != [] && x[0] != '@'
  }

  /** The rule a name refers to, directly or through its placeholder. */
  function Base(x: Name): Name {
    if x != [] && x[0] == '@' then x[1..] else x
  }

  /** The placeholder for a rule not defined when it was first referred to. */
  class RecognizerPointer {
    const name: Name
    var pointed: Option<Name>

    constructor (name: Name)
      ensures this.name == name && pointed == None
    {
      this.name, pointed := name, None;
    }

    method SetPointed(x: Name)
      modifies this
      ensures pointed == Some(x)
    {
      pointed := Some(x);
    }
  }

  /** What the map of rules holds for a name. */
  datatype Entry = Rule(body: Rec) | Placeholder(pointer: RecognizerPointer)

  predicate OneForEach(pointers: seq<RecognizerPointer>) {
    forall i, j :: 0 <= i < j < |pointers| ==> pointers[i].name != pointers[j].name
  }

  lemma OneForEachAdded(pointers: seq<RecognizerPointer>, p: RecognizerPointer)
    requires OneForEach(pointers) && forall q :: q in pointers ==> q.name != p.name
    ensures OneForEach(pointers + [p])
  {
  }

  ghost predicate AllRefer(rules: map<Name, Entry>, known: Name -> bool) {
    forall x :: x in rules && rules[x].Rule? ==> !rules[x].body.Named? && Refers(rules[x].body, known)
  }

  lemma AllReferMore(rules: map<Name, Entry>, known: Name -> bool, more: Name -> bool)
    requires AllRefer(rules, known) && forall x :: known(x) ==> more(x)
    ensures AllRefer(rules, more)
  {
    forall x | x in rules && rules[x].Rule?
      ensures Refers(rules[x].body, more)
    {
      RefersMore(rules[x].body, known, more);
    }
  }

  ghost function HandedOut(rules: map<Name, Entry>, placeholders: set<Name>): Name -> bool {
    x => (x in rules && rules[x].Rule?) || x in placeholders
  }

  /** Defining a rule leaves what it refers to, and what the others do, handed out. */
  lemma HandedAfter(rules: map<Name, Entry>, placeholders: set<Name>, name: Name, rule: Rec)
    requires AllRefer(rules, HandedOut(rules, placeholders)) && Refers(rule, HandedOut(rules, placeholders))
    requires !rule.Named?
    ensures var later := rules[name := Rule(rule)];
            && AllRefer(later, HandedOut(later, placeholders))
            && forall x :: HandedOut(rules, placeholders)(x) ==> HandedOut(later, placeholders)(x)
  {
    var later := rules[name := Rule(rule)];
    var known, more := HandedOut(rules, placeholders), HandedOut(later, placeholders);
    RefersMore(rule, known, more);
    AllReferMore(rules, known, more);
  }

  lemma HandedDeferred(rules: map<Name, Entry>, placeholders: set<Name>, p: RecognizerPointer)
    requires AllRefer(rules, HandedOut(rules, placeholders)) && p.name !in rules
    ensures var later, more := rules[p.name := Placeholder(p)], placeholders + {Deferred(p.name)};
            && AllRefer(later, HandedOut(later, more)) && HandedOut(later, more)(Deferred(p.name))
            && forall x :: HandedOut(rules, placeholders)(x) ==> HandedOut(later, more)(x)
  {
    var later, more := rules[p.name := Placeholder(p)], placeholders + {Deferred(p.name)};
    AllReferMore(rules, HandedOut(rules, placeholders), HandedOut(later, more));
  }

  lemma NamedRefers(x: Name, known: Name -> bool)
    ensures Refers(Named(x), known) <==> known(x)
  {
  }

  class RuleTable {
    var rules: map<Name, Entry>
    var pointers: seq<RecognizerPointer>

    /** The placeholders are distinct, one for each name at most; one is resolved exactly when its
        rule is defined, and then it points to that rule; the map holds the unresolved ones. */
    ghost predicate Valid()
      reads this, pointers
    {
      OneForEach(pointers) && Linked() && AllRefer(rules, Handed())
    }

    ghost predicate Linked()
      reads this, pointers
    {
      && (forall x :: x in rules ==> IsRuleName(x) && Lower(x) == x)
      && (forall x :: x in rules && rules[x].Placeholder? ==>
            && rules[x].pointer in pointers && rules[x].pointer.name == x)
      && (forall p :: p in pointers ==> Tied(p))
    }

    ghost predicate Tied(p: RecognizerPointer)
      reads this, p
    {
      && p.name in rules
      && (p.pointed == None <==> rules[p.name] == Placeholder(p))
      && (p.pointed.Some? ==> p.pointed.value == p.name)
    }

    ghost function PointerSet(): set<RecognizerPointer>
      reads this
    {
      set p | p in pointers
    }

    /** The references that have been handed out: defined rules and placeholders. */
    ghost function Handed(): Name -> bool
      reads this, pointers
    {
      HandedOut(rules, set p | p in pointers :: Deferred(p.name))
    }

    constructor ()
      ensures Valid() && rules == map[] && pointers == []
    {
      rules, pointers := map[], [];
    }

    /** A name finds the rule or the placeholder that differs from it in case at most. */
    lemma HeldUnder(argname: Name)
      requires Valid()
      ensures SameName(argname, Lower(argname)) && Lower(Lower(argname)) == Lower(argname)
      ensures forall x :: x in rules ==> (SameName(argname, x) <==> x == Lower(argname))
      ensures forall p :: p in pointers ==> (SameName(argname, p.name) <==> p.name == Lower(argname))
    {
      hide SameName, Lower, Handed, AllRefer;
      LowerFolds(argname);
      LowerTwice(argname);
      forall x
        ensures Lower(argname) == Lower(x) <==> SameName(argname, x)
      {
        LowerExactly(argname, x);
      }
    }

    /** Defines a rule, and resolves the placeholder made for it under whatever capitals. */
    method AddRule(argname: Name, rule: Rec)
      requires Valid() && IsRuleName(Lower(argname))
      requires !rule.Named? && Refers(rule, Handed())
      requires Lower(argname) in rules ==> rules[Lower(argname)].Placeholder?
      modifies this, PointerSet()
      ensures Valid() && rules == old(rules)[Lower(argname) := Rule(rule)] && pointers == old(pointers)
      ensures forall x :: old(Handed())(x) ==> Handed()(x)
      ensures forall p :: p in pointers ==>
                p.pointed == if p.name == Lower(argname) then Some(p.name) else old(p.pointed)
      ensures exists x :: x in rules && SameName(argname, x) && rules == old(rules)[x := Rule(rule)]
      ensures forall p :: p in pointers ==>
                p.pointed == if SameName(argname, p.name) then Some(p.name) else old(p.pointed)
    {
      hide SameName, Lower, LowerChar, Refers, IsRuleName, HandedOut, AllRefer, OneForEach;
      var name := Lower(argname);
      HeldUnder(argname);
      if name in rules {
        rules[name].pointer.SetPointed(name);
      }
      rules := rules[name := Rule(rule)];
      forall p | p in pointers
        ensures Tied(p)
      {
        assert old(Tied(p));
      }
      HandedAfter(old(rules), set p | p in pointers :: Deferred(p.name), name, rule);
    }

    /** Makes the placeholder for a rule that is not defined yet. */
    method Defer(name: Name) returns (p: RecognizerPointer)
      requires Valid() && IsRuleName(name) && Lower(name) == name && name !in rules
      modifies this
      ensures Valid() && fresh(PointerSet() - old(PointerSet()))
      ensures fresh(p) && p.name == name && p.pointed == None
      ensures pointers == old(pointers) + [p] && rules == old(rules)[name := Placeholder(p)]
      ensures Handed()(Deferred(name)) && forall x :: old(Handed())(x) ==> Handed()(x)
    {
      hide OneForEach, Lower, Deferred, Refers, HandedOut, AllRefer;
      p := new RecognizerPointer(name);
      assert forall q :: q in pointers ==> q.name != name;
      OneForEachAdded(pointers, p);
      rules := rules[name := Placeholder(p)];
      pointers := pointers + [p];
      assert p in pointers;
      ghost var placeholders := set q | q in old(pointers) :: Deferred(q.name);
      HandedDeferred(old(rules), placeholders, p);
      assert (set q | q in pointers :: Deferred(q.name)) == placeholders + {Deferred(name)};
    }

    /** Never fails: a name that is not defined yet gets its one placeholder. */
    method GetRule(argname: Name) returns (r: Rec)
      requires Valid() && IsRuleName(Lower(argname))
      modifies this
      ensures Valid() && fresh(PointerSet() - old(PointerSet()))
      ensures var name := Lower(argname);
              && (name in old(rules) ==> rules == old(rules) && pointers == old(pointers))
              && (name !in old(rules) ==>
                    && |pointers| == |old(pointers)| + 1 && pointers[..|old(pointers)|] == old(pointers)
                    && var p := pointers[|old(pointers)|];
                    && fresh(p) && p.name == name && p.pointed == None && rules == old(rules)[name := Placeholder(p)])
              && r == if rules[name].Rule? then Named(name) else Named(Deferred(name))
      ensures forall x :: x in old(rules) && SameName(argname, x) ==>
                && rules == old(rules) && pointers == old(pointers)
                && r == if rules[x].Rule? then Named(x) else Named("@" + x)
      ensures (forall x :: x in old(rules) ==> !SameName(argname, x)) ==>
                exists p :: p in pointers && fresh(p) && SameName(argname, p.name) && r == Named("@" + p.name)
      ensures Refers(r, Handed()) && forall x :: old(Handed())(x) ==> Handed()(x)
    {
      hide SameName, Lower, LowerChar, Refers, IsRuleName;
      var name := Lower(argname);
      HeldUnder(argname);
      if name in rules {
        match rules[name]
        case Rule(_) =>
          r := Named(name);
        case Placeholder(p) =>
          if p.pointed.Some? {
            assert false;
          }
          r := Named(Deferred(name));
      } else {
        var p := Defer(name);
        r := Named(Deferred(name));
      }
      NamedRefers(r.name, Handed());
    }

    /** Adds an alternative to a rule that was defined as a selector. */
    method ExtendRule(argname: Name, rule: Rec)
      requires Valid() && Lower(argname) in rules && rules[Lower(argname)].Rule?
      requires rules[Lower(argname)].body.Selector?
      requires !rule.Named? && Refers(rule, Handed())
      modifies this
      ensures Valid() && pointers == old(pointers)
      ensures var name := Lower(argname);
              var sel := old(rules)[name].body;
              rules == old(rules)[name := Rule(Selector(sel.sel, Append(sel.es, rule)))]
      ensures exists x, sel, es, more ::
                && x in old(rules) && SameName(argname, x) && old(rules)[x] == Rule(Selector(sel, es))
                && rules == old(rules)[x := Rule(Selector(sel, more))] && Listed(more) == Listed(es) + [rule]
    {
      var name := Lower(argname);
      match rules[name].body
      case Selector(sel, es) =>
        LowerFolds(argname);
        AppendListed(es, rule);
        AppendRefers(es, rule, Handed());
        rules := rules[name := Rule(Selector(sel, Append(es, rule)))];
        assert forall x :: old(Handed())(x) ==> Handed()(x);
        RefersMore(Selector(sel, Append(es, rule)), old(Handed()), Handed());
        AllReferMore(old(rules), old(Handed()), Handed());
    }

    /** True exactly when every placeholder handed out has been resolved. */
    method IsComplete() returns (complete: bool)
      requires Valid()
      ensures complete <==> forall p :: p in pointers ==> p.pointed.Some?
      ensures complete <==> forall x :: x in rules ==> rules[x].Rule?
    {
      complete := true;
      var names := rules.Keys;
      while names != {}
        invariant names <= rules.Keys
        invariant complete <==> forall x :: x in rules.Keys - names ==> rules[x].Rule?
        decreases names
      {
        var x :| x in names;
        if rules[x].Placeholder? && rules[x].pointer.pointed.None? {
          complete := false;
        }
        names := names - {x};
      }
    }
  }

  /** A new element at the end of a list. */
  function Append(es: Recs, r: Rec): Recs {
    match es
    case Nil => Cons(r, Nil)
    case Cons(e, tail) => Cons(e, Append(tail, r))
  }

  lemma {:induction false} AppendListed(es: Recs, r: Rec)
    ensures Listed(Append(es, r)) == Listed(es) + [r]
  {
    if es.Cons? {
      AppendListed(es.tail, r);
    }
  }

  lemma {:induction false} AppendRefers(es: Recs, r: Rec, known: Name -> bool)
    requires RefersAll(es, known) && Refers(r, known)
    ensures RefersAll(Append(es, r), known)
  {
    if es.Cons? {
      AppendRefers(es.tail, r, known);
    }
  }

  /** The named recognizers of a grammar: its rules, and the placeholders that were handed out. */
  ghost function Nodes(table: RuleTable): map<Name, Rec>
    requires table.Valid()
    reads table, table.pointers
  {
    map x | x in (set y | y in table.rules && table.rules[y].Rule?) +
        (set p | p in table.pointers :: Deferred(p.name)) ::
      if x in table.rules && table.rules[x].Rule? then table.rules[x].body else Pointer(Named(Base(x)))
  }

  lemma NodesResolved(table: RuleTable)
    requires table.Valid() && forall x :: x in table.rules ==> table.rules[x].Rule?
    ensures var nodes := Nodes(table);
            && (forall x :: x in table.rules ==> x in nodes && nodes[x] == table.rules[x].body && !nodes[x].Named?)
            && (forall x :: x in nodes && IsRuleName(x) ==> x in table.rules)
            && (forall x :: x in nodes && !IsRuleName(x) ==>
                  x != [] && IsRuleName(Base(x)) && Base(x) in nodes && nodes[x] == Pointer(Named(Base(x))))
            && (forall x :: x in table.rules ==> Refers(nodes[x], y => y in nodes))
  {
    var nodes := Nodes(table);
    forall x | x in table.rules
      ensures Refers(nodes[x], y => y in nodes)
    {
      RefersMore(nodes[x], table.Handed(), y => y in nodes);
    }
  }
}
