/** The identities of selectors: each stands for one object, wherever that object is used. */
module Identities {
  import opened Recognizers
  import opened Grammars

  /** The selectors of `r` are the objects `alts` knows by their identities. */
  ghost predicate Owned(alts: map<nat, Recs>, r: Rec) {
    match r
    case Sequence(es) => OwnedAll(alts, es)
    case Selector(sel, es) => sel in alts && alts[sel] == es && OwnedAll(alts, es)
    case Loop(body, _, _) => Owned(alts, body)
    case Pointer(target) => Owned(alts, target)
    case Alias(target) => Owned(alts, target)
    case _ => true
  }

  ghost predicate OwnedAll(alts: map<nat, Recs>, es: Recs) {
    es.Cons? ==> Owned(alts, es.head) && OwnedAll(alts, es.tail)
  }

  /** The identities in `r` satisfy `known`. */
  ghost predicate Uses(r: Rec, known: nat -> bool) {
    match r
    case Sequence(es) => UsesAll(es, known)
    case Selector(sel, es) => known(sel) && UsesAll(es, known)
    case Loop(body, _, _) => Uses(body, known)
    case Pointer(target) => Uses(target, known)
    case Alias(target) => Uses(target, known)
    case _ => true
  }

  ghost predicate UsesAll(es: Recs, known: nat -> bool) {
    es.Cons? ==> Uses(es.head, known) && UsesAll(es.tail, known)
  }

  lemma {:induction false} UsesMore(r: Rec, known: nat -> bool, more: nat -> bool)
    requires Uses(r, known) && forall sel :: known(sel) ==> more(sel)
    ensures Uses(r, more)
  {
    match r {
      case Sequence(es) => UsesAllMore(es, known, more);
      case Selector(_, es) => UsesAllMore(es, known, more);
      case Loop(body, _, _) => UsesMore(body, known, more);
      case Pointer(target) => UsesMore(target, known, more);
      case Alias(target) => UsesMore(target, known, more);
      case _ =>
    }
  }

  lemma {:induction false} UsesAllMore(es: Recs, known: nat -> bool, more: nat -> bool)
    requires UsesAll(es, known) && forall sel :: known(sel) ==> more(sel)
    ensures UsesAll(es, more)
  {
    if es.Cons? {
      UsesMore(es.head, known, more);
      UsesAllMore(es.tail, known, more);
    }
  }

  /** What is owned stays owned as long as its own identities keep their alternatives. */
  lemma {:induction false} OwnedStill(alts: map<nat, Recs>, later: map<nat, Recs>, r: Rec, known: nat -> bool)
    requires Owned(alts, r) && Uses(r, known)
    requires forall sel :: known(sel) && sel in alts ==> sel in later && later[sel] == alts[sel]
    ensures Owned(later, r)
  {
    match r {
      case Sequence(es) => OwnedAllStill(alts, later, es, known);
      case Selector(_, es) => OwnedAllStill(alts, later, es, known);
      case Loop(body, _, _) => OwnedStill(alts, later, body, known);
      case Pointer(target) => OwnedStill(alts, later, target, known);
      case Alias(target) => OwnedStill(alts, later, target, known);
      case _ =>
    }
  }

  lemma {:induction false} OwnedAllStill(alts: map<nat, Recs>, later: map<nat, Recs>, es: Recs, known: nat -> bool)
    requires OwnedAll(alts, es) && UsesAll(es, known)
    requires forall sel :: known(sel) && sel in alts ==> sel in later && later[sel] == alts[sel]
    ensures OwnedAll(later, es)
  {
    if es.Cons? {
      OwnedStill(alts, later, es.head, known);
      OwnedAllStill(alts, later, es.tail, known);
    }
  }

  function Size(r: Rec): nat {
    match r
    case Sequence(es) => 1 + SizeAll(es)
    case Selector(_, es) => 1 + SizeAll(es)
    case Loop(body, _, _) => 1 + Size(body)
    case Pointer(target) => 1 + Size(target)
    case Alias(target) => 1 + Size(target)
    case _ => 1
  }

  function SizeAll(es: Recs): nat {
    if es.Nil? then 0 else Size(es.head) + SizeAll(es.tail)
  }

  /** A selector is not among its own alternatives. */
  lemma {:induction false} NotInside(alts: map<nat, Recs>, r: Rec, sel: nat)
    requires Owned(alts, r) && sel in alts && Size(r) <= SizeAll(alts[sel])
    ensures Uses(r, k => k != sel)
    decreases r
  {
    match r {
      case Sequence(es) => NotInsideAll(alts, es, sel);
      case Selector(_, es) => NotInsideAll(alts, es, sel);
      case Loop(body, _, _) => NotInside(alts, body, sel);
      case Pointer(target) => NotInside(alts, target, sel);
      case Alias(target) => NotInside(alts, target, sel);
      case _ =>
    }
  }

  lemma {:induction false} NotInsideAll(alts: map<nat, Recs>, es: Recs, sel: nat)
    requires OwnedAll(alts, es) && sel in alts && SizeAll(es) <= SizeAll(alts[sel])
    ensures UsesAll(es, k => k != sel)
    decreases es
  {
    if es.Cons? {
      NotInside(alts, es.head, sel);
      NotInsideAll(alts, es.tail, sel);
    }
  }

  lemma {:induction false} AppendOwned(alts: map<nat, Recs>, es: Recs, r: Rec, known: nat -> bool)
    requires OwnedAll(alts, es) && Owned(alts, r) && UsesAll(es, known) && Uses(r, known)
    ensures OwnedAll(alts, Append(es, r)) && UsesAll(Append(es, r), known)
  {
    if es.Cons? {
      AppendOwned(alts, es.tail, r, known);
    }
  }

  /** The conditions on a recognizer, but for the identities of its selectors. */
  predicate Steady(g: Graph, r: Rec, inside: bool) {
    match r
    case Sequence(es) => SteadySequence(g, es, inside)
    case Selector(_, es) => SteadyAll(g, es, inside)
    case Loop(body, _, max) => -1 <= max && Steady(g, body, true) && (max == -1 ==> !Nullable(g, body))
    case Pointer(target) => Steady(g, target, inside)
    case Alias(target) => Steady(g, target, inside)
    case _ => Ok(g, r, inside)
  }

  predicate SteadySequence(g: Graph, es: Recs, inside: bool) {
    es.Cons? ==> Steady(g, es.head, inside) && SteadySequence(g, es.tail, false)
  }

  predicate SteadyAll(g: Graph, es: Recs, inside: bool) {
    es.Cons? ==> Steady(g, es.head, inside) && SteadyAll(g, es.tail, inside)
  }

  predicate SteadyRule(g: Graph, x: Name)
    requires x in g.rules
  {
    var r := g.rules[x];
    && !r.Named?
    && (Nullable(g, r) ==> x in g.nullable)
    && x in g.rank && HeadRank(g, r) <= g.rank[x]
    && Steady(g, r, true)
    && (x in g.atEnd ==> Steady(g, r, false))
  }

  lemma {:induction false} SteadyIsOk(g: Graph, r: Rec, inside: bool)
    requires Owned(g.alts, r)
    ensures Steady(g, r, inside) <==> Ok(g, r, inside)
  {
    match r {
      case Sequence(es) => SteadySequenceIsOk(g, es, inside);
      case Selector(_, es) => SteadyAllIsOk(g, es, inside);
      case Loop(body, _, _) => SteadyIsOk(g, body, true);
      case Pointer(target) => SteadyIsOk(g, target, inside);
      case Alias(target) => SteadyIsOk(g, target, inside);
      case _ =>
    }
  }

  lemma {:induction false} SteadySequenceIsOk(g: Graph, es: Recs, inside: bool)
    requires OwnedAll(g.alts, es)
    ensures SteadySequence(g, es, inside) <==> OkSequence(g, es, inside)
  {
    if es.Cons? {
      SteadyIsOk(g, es.head, inside);
      SteadySequenceIsOk(g, es.tail, false);
    }
  }

  lemma {:induction false} SteadyAllIsOk(g: Graph, es: Recs, inside: bool)
    requires OwnedAll(g.alts, es)
    ensures SteadyAll(g, es, inside) <==> OkAll(g, es, inside)
  {
    if es.Cons? {
      SteadyIsOk(g, es.head, inside);
      SteadyAllIsOk(g, es.tail, inside);
    }
  }

  /** When every rule owns its selectors, their identities never stand in the way. */
  lemma SteadyIsWellFormed(g: Graph)
    requires forall x :: x in g.rules ==> Owned(g.alts, g.rules[x])
    ensures WellFormed(g) <==> forall x :: x in g.rules ==> SteadyRule(g, x)
  {
    hide Nullable, HeadRank, Ok, Steady, Owned;
    forall x | x in g.rules
      ensures SteadyRule(g, x) <==> RuleOk(g, x)
    {
      SteadyIsOk(g, g.rules[x], true);
      SteadyIsOk(g, g.rules[x], false);
    }
  }

  // To which rule each selector belongs.

  ghost function HomeIs(home: map<nat, Name>, x: Name): nat -> bool {
    sel => sel in home && home[sel] == x
  }

  /** Every rule is made of known selectors, which belong to it alone. */
  ghost predicate Homed(entries: map<Name, Entry>, alts: map<nat, Recs>, home: map<nat, Name>) {
    forall x :: x in entries && entries[x].Rule? ==>
      Owned(alts, entries[x].body) && Uses(entries[x].body, HomeIs(home, x))
  }
}
