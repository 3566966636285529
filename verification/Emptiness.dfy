/** What matches nothing where no input remains, and when the static notion of a nullable recognizer says
    exactly that. */
module Emptiness {
  import opened Bytes
  import opened Recognizers
  import opened PureParser

  /** Whether `r` matches nothing where no input remains, with the flags as they are: a loop does not
      iterate there, and an exclusive selector does not take an empty match. */
  predicate Vanishes(g: Grammar, r: Rec): (v: bool)
    requires WellFormed(g.graph) && Ok(g.graph, r, false)
    ensures v ==> Nullable(g.graph, r)
    decreases HeadRank(g.graph, r), r
  {
    match r
    case Literal(lit) => lit == []
    case Sequence(es) => AllVanish(g, es)
    case Selector(sel, es) => sel !in g.exclusive && AnyVanishes(g, es)
    case Loop(_, min, _) => min <= 0
    case Pointer(target) => Vanishes(g, target)
    case Alias(target) => Vanishes(g, target)
    case Named(x) => assert RuleOk(g.graph, x); Vanishes(g, g.graph.rules[x])
    case _ => false
  }

  predicate AllVanish(g: Grammar, es: Recs): (v: bool)
    requires WellFormed(g.graph) && OkSequence(g.graph, es, false)
    ensures v ==> AllNullable(g.graph, es)
    decreases SequenceRank(g.graph, es), es
  {
    es.Cons? ==> Vanishes(g, es.head) && AllVanish(g, es.tail)
  }

  predicate AnyVanishes(g: Grammar, es: Recs): (v: bool)
    requires WellFormed(g.graph) && OkAll(g.graph, es, false)
    ensures v ==> AnyNullable(g.graph, es)
    decreases SelectorRank(g.graph, es), es
  {
    es.Cons? && (Vanishes(g, es.head) || AnyVanishes(g, es.tail))
  }

  function Emptied(vanishes: bool): Result {
    if vanishes then Match(0, []) else NoMatch
  }

  /** Where no input remains, a recognizer matches nothing exactly if it vanishes, and fails otherwise. */
  lemma {:induction false} ParsedAtEnd(g: Grammar, t: Table, h: Name, r: Rec, s: Bytes)
    requires WellFormed(g.graph) && Ok(g.graph, r, false)
    ensures Parse(g, t, h, r, s, |s|) == Emptied(Vanishes(g, r))
    decreases HeadRank(g.graph, r), r, 1
  {
    if r.Named? {
      var x := r.name;
      assert RuleOk(g.graph, x);
      BodyAtEnd(g, t, if x in t then x else h, g.graph.rules[x], s);
    } else {
      BodyAtEnd(g, t, h, r, s);
    }
  }

  lemma {:induction false} BodyAtEnd(g: Grammar, t: Table, h: Name, r: Rec, s: Bytes)
    requires WellFormed(g.graph) && Ok(g.graph, r, false) && !r.Named?
    ensures ParseBody(g, t, h, r, s, |s|) == Emptied(Vanishes(g, r))
    decreases HeadRank(g.graph, r), r, 0
  {
    match r {
      case CharRec(_, _) =>
      case CharRange(_, _) =>
      case Literal(_) =>
      case Sequence(es) => SequenceAtEnd(g, t, h, es, s);
      case Selector(_, es) => SelectorAtEnd(g, t, h, es, NoMatch, s);
      case Loop(body, min, max) => LoopEnds(g, t, h, body, min, max, 0, s, |s|);
      case Pointer(target) => ParsedAtEnd(g, t, h, target, s);
      case Alias(target) => ParsedAtEnd(g, t, h, target, s);
    }
  }

  lemma {:induction false} SequenceAtEnd(g: Grammar, t: Table, h: Name, es: Recs, s: Bytes)
    requires WellFormed(g.graph) && OkSequence(g.graph, es, false)
    ensures ParseSequence(g, t, h, es, s, |s|) == Emptied(AllVanish(g, es))
    decreases SequenceRank(g.graph, es), es
  {
    if es.Cons? {
      ParsedAtEnd(g, t, h, es.head, s);
      if Vanishes(g, es.head) {
        SequenceAtEnd(g, t, h, es.tail, s);
      }
    }
  }

  lemma {:induction false} SelectorAtEnd(g: Grammar, t: Table, h: Name, es: Recs, best: Result, s: Bytes)
    requires WellFormed(g.graph) && OkAll(g.graph, es, false)
    requires best == NoMatch || best == Match(0, [])
    ensures ParseFirst(g, t, h, es, s, |s|) == NoMatch
    ensures ParseBest(g, t, h, es, best, s, |s|) == Emptied(best.Match? || AnyVanishes(g, es))
    decreases SelectorRank(g.graph, es), es
  {
    if es.Cons? {
      ParsedAtEnd(g, t, h, es.head, s);
      var m := Parse(g, t, h, es.head, s, |s|);
      SelectorAtEnd(g, t, h, es.tail, if Better(m, best) then m else best, s);
    }
  }

  // Where the static notion of a nullable recognizer is not wider than that.

  /** Nothing in `r` fails for want of an octet although it is nullable: no exclusive selector has a
      nullable alternative, and no loop asks for something nullable at least once. */
  predicate Sharp(g: Grammar, r: Rec) {
    match r
    case Sequence(es) => SharpAll(g, es)
    case Selector(sel, es) => SharpAll(g, es) && (sel in g.exclusive ==> !AnyNullable(g.graph, es))
    case Loop(body, min, _) => min > 0 ==> !Nullable(g.graph, body)
    case Pointer(target) => Sharp(g, target)
    case Alias(target) => Sharp(g, target)
    case _ => true
  }

  predicate SharpAll(g: Grammar, es: Recs) {
    es.Cons? ==> Sharp(g, es.head) && SharpAll(g, es.tail)
  }

  predicate SharpRule(g: Grammar, x: Name)
    requires x in g.graph.rules
  {
    Sharp(g, g.graph.rules[x]) && (x in g.graph.nullable ==> Nullable(g.graph, g.graph.rules[x]))
  }

  /** The rules are sharp, and those marked as nullable are. */
  predicate SharpRules(g: Grammar) {
    forall x {:trigger SharpRule(g, x)} :: x in g.graph.rules ==> SharpRule(g, x)
  }

  lemma {:induction false} SharpVanishes(g: Grammar, r: Rec)
    requires WellFormed(g.graph) && SharpRules(g) && Ok(g.graph, r, false) && Sharp(g, r)
    ensures Vanishes(g, r) <==> Nullable(g.graph, r)
    decreases HeadRank(g.graph, r), r
  {
    match r {
      case Sequence(es) => SharpAllVanish(g, es);
      case Selector(_, es) => SharpAnyVanishes(g, es);
      case Pointer(target) => SharpVanishes(g, target);
      case Alias(target) => SharpVanishes(g, target);
      case Named(x) =>
        assert RuleOk(g.graph, x) && SharpRule(g, x);
        SharpVanishes(g, g.graph.rules[x]);
      case _ =>
    }
  }

  lemma {:induction false} SharpAllVanish(g: Grammar, es: Recs)
    requires WellFormed(g.graph) && SharpRules(g) && OkSequence(g.graph, es, false) && SharpAll(g, es)
    ensures AllVanish(g, es) <==> AllNullable(g.graph, es)
    decreases SequenceRank(g.graph, es), es
  {
    if es.Cons? {
      SharpVanishes(g, es.head);
      if Nullable(g.graph, es.head) {
        SharpAllVanish(g, es.tail);
      }
    }
  }

  lemma {:induction false} SharpAnyVanishes(g: Grammar, es: Recs)
    requires WellFormed(g.graph) && SharpRules(g) && OkAll(g.graph, es, false) && SharpAll(g, es)
    ensures AnyVanishes(g, es) <==> AnyNullable(g.graph, es)
    decreases SelectorRank(g.graph, es), es
  {
    if es.Cons? {
      SharpVanishes(g, es.head);
      SharpAnyVanishes(g, es.tail);
    }
  }

  /** A plain selector over `es` never successfully matches nothing. */
  ghost predicate NeverEmpty(g: Grammar, es: Recs)
    requires WellFormed(g.graph)
  {
    forall t, h, s, pos: nat :: ReadyAll(g.graph, es, s, pos) ==>
      var m := ParseBest(g, t, h, es, NoMatch, s, pos);
      m.Match? ==> m.len > 0
  }

  /** A plain selector matches nothing on some input if and only if an alternative is nullable. */
  lemma NeverEmptyExactly(g: Grammar, es: Recs)
    requires WellFormed(g.graph) && SharpRules(g) && SharpAll(g, es) && OkAll(g.graph, es, false)
    ensures NeverEmpty(g, es) <==> !AnyNullable(g.graph, es)
  {
    if AnyNullable(g.graph, es) {
      SharpAnyVanishes(g, es);
      SelectorAtEnd(g, map[], "", es, NoMatch, []);
      assert ReadyAll(g.graph, es, [], 0);
    }
  }
}
