/** Recognizers that differ only in which references go through placeholders and in the identities
    of their selectors match and assign the same. */
module Similarity {
  import opened Bytes
  import opened Recognizers
  import opened PureParser
  import opened Grammars

  ghost predicate Similar(a: Grammar, r: Rec, b: Grammar, r': Rec) {
    match (r, r')
    case (CharRec(_, _), CharRec(_, _)) => r == r'
    case (CharRange(_, _), CharRange(_, _)) => r == r'
    case (Literal(_), Literal(_)) => r == r'
    case (Sequence(es), Sequence(es')) => SimilarAll(a, es, b, es')
    case (Selector(sel, es), Selector(sel', es')) =>
      (sel in a.exclusive <==> sel' in b.exclusive) && SimilarAll(a, es, b, es')
    case (Loop(body, min, max), Loop(body', min', max')) => min == min' && max == max' && Similar(a, body, b, body')
    case (Alias(target), Alias(target')) => Similar(a, target, b, target')
    case (Named(x), Named(y)) => Base(x) == Base(y)
    case _ => false
  }

  ghost predicate SimilarAll(a: Grammar, es: Recs, b: Grammar, es': Recs) {
    match (es, es')
    case (Nil, Nil) => true
    case (Cons(e, tail), Cons(e', tail')) => Similar(a, e, b, e') && SimilarAll(a, tail, b, tail')
    case _ => false
  }

  /** A placeholder points to the rule it stands for. */
  ghost predicate Resolved(g: Graph) {
    forall x {:trigger g.rules[x]} :: x in g.rules && !IsRuleName(x) ==>
      x != [] && IsRuleName(Base(x)) && g.rules[x] == Pointer(Named(Base(x)))
  }

  /** The rules of both grammars are the same, but for placeholders and selector identities. */
  ghost predicate SimilarGrammars(a: Grammar, b: Grammar) {
    && Resolved(a.graph) && Resolved(b.graph)
    && forall x :: x in a.graph.rules && IsRuleName(x) ==>
         x in b.graph.rules && Similar(a, a.graph.rules[x], b, b.graph.rules[x])
  }

  /** Handlers and collectors are installed for rules, not for placeholders. */
  predicate ForRules(t: Table) {
    forall h :: h in t ==> IsRuleName(h) && forall x :: x in t[h] ==> IsRuleName(x)
  }

  /** What a reference matches and assigns is what the rule it stands for does, with or without a
      placeholder in between. */
  lemma ReferenceResolved(g: Grammar, t: Table, h: Name, x: Name, s: Bytes, pos: nat)
    requires WellFormed(g.graph) && Resolved(g.graph) && Ready(g.graph, Named(x), s, pos) && ForRules(t)
    ensures Base(x) in g.graph.rules && IsRuleName(Base(x)) && Ready(g.graph, Named(Base(x)), s, pos)
    ensures Ready(g.graph, g.graph.rules[Base(x)], s, pos) && !g.graph.rules[Base(x)].Named?
    ensures HeadRank(g.graph, g.graph.rules[Base(x)]) < HeadRank(g.graph, Named(x))
    ensures Parse(g, t, h, Named(x), s, pos) == Parse(g, t, h, Named(Base(x)), s, pos)
  {
    assert RuleOk(g.graph, x);
    if !IsRuleName(x) {
      var target := Named(Base(x));
      assert g.graph.rules[x] == Pointer(target);
      assert Ok(g.graph, target, true) && (x in g.graph.atEnd ==> Ok(g.graph, target, false));
      assert HeadRank(g.graph, Pointer(target)) == HeadRank(g.graph, target);
      assert RuleOk(g.graph, Base(x));
      PlaceholderParsed(g, t, h, x, s, pos);
    }
  }

  lemma PlaceholderParsed(g: Grammar, t: Table, h: Name, y: Name, s: Bytes, pos: nat)
    requires WellFormed(g.graph) && ForRules(t) && !IsRuleName(y) && y in g.graph.rules
    requires g.graph.rules[y] == Pointer(Named(Base(y)))
    requires Ready(g.graph, Named(y), s, pos) && Ready(g.graph, Named(Base(y)), s, pos)
    ensures Parse(g, t, h, Named(y), s, pos) == Parse(g, t, h, Named(Base(y)), s, pos)
  {
    var target := Named(Base(y));
    var m := Parse(g, t, h, target, s, pos);
    assert RuleOk(g.graph, y);
    assert ParseBody(g, t, h, Pointer(target), s, pos) == m;
    assert Parse(g, t, h, Named(y), s, pos) == CloseText(t, h, y, pos, m);
  }

  lemma {:induction false} SimilarParsed(a: Grammar, b: Grammar, t: Table, h: Name, r: Rec, r': Rec, s: Bytes, pos: nat)
    requires WellFormed(a.graph) && Ready(a.graph, r, s, pos) && WellFormed(b.graph) && Ready(b.graph, r', s, pos)
    requires SimilarGrammars(a, b) && ForRules(t) && Similar(a, r, b, r')
    ensures Parse(a, t, h, r, s, pos) == Parse(b, t, h, r', s, pos)
    decreases |s| - pos, HeadRank(a.graph, r), r, 1
  {
    if r.Named? {
      ReferenceResolved(a, t, h, r.name, s, pos);
      ReferenceResolved(b, t, h, r'.name, s, pos);
      var x := Base(r.name);
      SimilarBody(a, b, t, if x in t then x else h, a.graph.rules[x], b.graph.rules[x], s, pos);
    } else {
      SimilarBody(a, b, t, h, r, r', s, pos);
    }
  }

  lemma {:induction false} SimilarBody(a: Grammar, b: Grammar, t: Table, h: Name, r: Rec, r': Rec, s: Bytes, pos: nat)
    requires WellFormed(a.graph) && Ready(a.graph, r, s, pos) && WellFormed(b.graph) && Ready(b.graph, r', s, pos)
    requires SimilarGrammars(a, b) && ForRules(t) && Similar(a, r, b, r') && !r.Named? && !r'.Named?
    ensures ParseBody(a, t, h, r, s, pos) == ParseBody(b, t, h, r', s, pos)
    decreases |s| - pos, HeadRank(a.graph, r), r, 0
  {
    hide WellFormed, Parse, SimilarGrammars;
    match r {
      case CharRec(_, _) =>
      case CharRange(_, _) =>
      case Literal(_) =>
      case Sequence(es) => SimilarSequence(a, b, t, h, es, r'.es, s, pos);
      case Selector(_, es) => SimilarSelector(a, b, t, h, es, r'.es, NoMatch, s, pos);
      case Loop(body, min, max) => SimilarLoop(a, b, t, h, body, r'.body, min, max, 0, s, pos);
      case Alias(target) => SimilarParsed(a, b, t, h, target, r'.target, s, pos);
    }
  }

  lemma {:induction false} SimilarSequence(a: Grammar, b: Grammar, t: Table, h: Name, es: Recs, es': Recs,
                                           s: Bytes, pos: nat)
    requires WellFormed(a.graph) && ReadySequence(a.graph, es, s, pos)
    requires WellFormed(b.graph) && ReadySequence(b.graph, es', s, pos)
    requires SimilarGrammars(a, b) && ForRules(t) && SimilarAll(a, es, b, es')
    ensures ParseSequence(a, t, h, es, s, pos) == ParseSequence(b, t, h, es', s, pos)
    decreases |s| - pos, SequenceRank(a.graph, es), es, 0
  {
    hide WellFormed, Parse, ParseSequence, Ok, HeadRank, SequenceRank, SimilarGrammars;
    if es.Cons? {
      SequenceUnfolds(a, t, h, es, s, pos);
      SequenceUnfolds(b, t, h, es', s, pos);
      SimilarParsed(a, b, t, h, es.head, es'.head, s, pos);
      var m := Parse(a, t, h, es.head, s, pos);
      if m.Match? {
        SimilarSequence(a, b, t, h, es.tail, es'.tail, s, pos + m.len);
      }
    } else {
      SequenceEnds(a, t, h, s, pos);
      SequenceEnds(b, t, h, s, pos);
    }
  }

  lemma {:induction false} SimilarSelector(a: Grammar, b: Grammar, t: Table, h: Name, es: Recs, es': Recs,
                                           best: Result, s: Bytes, pos: nat)
    requires WellFormed(a.graph) && ReadyAll(a.graph, es, s, pos)
    requires WellFormed(b.graph) && ReadyAll(b.graph, es', s, pos)
    requires SimilarGrammars(a, b) && ForRules(t) && SimilarAll(a, es, b, es')
    ensures ParseFirst(a, t, h, es, s, pos) == ParseFirst(b, t, h, es', s, pos)
    ensures ParseBest(a, t, h, es, best, s, pos) == ParseBest(b, t, h, es', best, s, pos)
    decreases |s| - pos, SelectorRank(a.graph, es), es, 0
  {
    hide WellFormed, Parse, ParseFirst, ParseBest, Ok, HeadRank, SelectorRank, SimilarGrammars;
    if es.Cons? {
      SelectorUnfolds(a, t, h, es, best, s, pos);
      SelectorUnfolds(b, t, h, es', best, s, pos);
      SimilarParsed(a, b, t, h, es.head, es'.head, s, pos);
      var m := Parse(a, t, h, es.head, s, pos);
      SimilarSelector(a, b, t, h, es.tail, es'.tail, if Better(m, best) then m else best, s, pos);
    } else {
      SelectorEnds(a, t, h, best, s, pos);
      SelectorEnds(b, t, h, best, s, pos);
    }
  }

  lemma {:induction false} SimilarLoop(a: Grammar, b: Grammar, t: Table, h: Name, body: Rec, body': Rec,
                                       min: int, max: int, count: nat, s: Bytes, pos: nat)
    requires WellFormed(a.graph) && pos <= |s| && LoopOk(a.graph, body, max)
    requires WellFormed(b.graph) && LoopOk(b.graph, body', max)
    requires SimilarGrammars(a, b) && ForRules(t) && Similar(a, body, b, body')
    ensures ParseLoop(a, t, h, body, min, max, count, s, pos) == ParseLoop(b, t, h, body', min, max, count, s, pos)
    decreases |s| - pos, HeadRank(a.graph, body), body, 2 + if count < max then max - count else 0
  {
    hide WellFormed, Parse, ParseLoop, LoopOk, HeadRank, SimilarGrammars;
    if Continues(max, count, s, pos) {
      LoopUnfolds(a, t, h, body, min, max, count, s, pos);
      LoopUnfolds(b, t, h, body', min, max, count, s, pos);
      SimilarParsed(a, b, t, h, body, body', s, pos);
      var m := Parse(a, t, h, body, s, pos);
      if m.Match? {
        SimilarLoop(a, b, t, h, body, body', min, max, count + 1, s, pos + m.len);
        return;
      }
    }
    LoopEnds(a, t, h, body, min, max, count, s, pos);
    LoopEnds(b, t, h, body', min, max, count, s, pos);
  }
}
