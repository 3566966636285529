/** What an application can rely on about the objects it gets: every one of them, at any depth, and every text
    assigned to one, is a string of the rule it was assigned for. */
module Objects {
  import opened Bytes
  import opened Recognizers
  import opened PureParser
  import opened Spans
  import opened Language

  /** The assignment `a` to an element of `h`: `h` has a collector for its rule, its span is a string of that
      rule, and it is an element of that rule if the rule has a handler, and text otherwise. */
  ghost predicate Genuine(g: Graph, t: Table, h: Name, a: Assignment, s: Bytes)
    decreases a
  {
    && h in t && a.collector.rule in t[h] && a.collector.owner == h
    && a.begin + a.count <= |s| && InLanguage(g, Named(a.collector.rule), s[a.begin..a.begin + a.count])
    && match a
       case Text(c, _, _) => c.rule !in t
       case Child(c, _, _, node) =>
         && c.rule in t && node.rule == c.rule
         && forall i :: 0 <= i < |node.kids| ==> Genuine(g, t, c.rule, node.kids[i], s)
  }

  ghost predicate AllGenuine(g: Graph, t: Table, h: Name, m: Result, s: Bytes) {
    m.Match? ==> forall i :: 0 <= i < |m.out| ==> Genuine(g, t, h, m.out[i], s)
  }

  lemma PrependGenuine(g: Graph, t: Table, h: Name, m: Result, rest: Result, s: Bytes)
    requires m.Match? && AllGenuine(g, t, h, m, s) && AllGenuine(g, t, h, rest, s)
    ensures AllGenuine(g, t, h, Prepend(m.len, m.out, rest), s)
  {
    hide Genuine;
  }

  // Whatever a feed commits is genuine.

  lemma {:induction false} ParseGenuine(g: Grammar, t: Table, h: Name, r: Rec, s: Bytes, pos: nat)
    requires WellFormed(g.graph) && Ready(g.graph, r, s, pos)
    ensures AllGenuine(g.graph, t, h, Parse(g, t, h, r, s, pos), s)
    decreases |s| - pos, HeadRank(g.graph, r), r, 1
  {
    if r.Named? {
      var x := r.name;
      assert RuleOk(g.graph, x);
      ParseBodyGenuine(g, t, if x in t then x else h, g.graph.rules[x], s, pos);
      RuleGenuine(g, t, h, x, s, pos);
    } else {
      ParseBodyGenuine(g, t, h, r, s, pos);
    }
  }

  /** What is done on leaving a rule. */
  lemma RuleGenuine(g: Grammar, t: Table, h: Name, x: Name, s: Bytes, pos: nat)
    requires WellFormed(g.graph) && Ready(g.graph, Named(x), s, pos)
    requires var h' := if x in t then x else h; AllGenuine(g.graph, t, h', ParseRule(g, t, h', x, s, pos), s)
    ensures AllGenuine(g.graph, t, h, Parse(g, t, h, Named(x), s, pos), s)
  {
    hide WellFormed, InLanguage, ParseBody;
    FeedSound(g, t, h, Named(x), s, pos);
  }

  lemma {:induction false} ParseBodyGenuine(g: Grammar, t: Table, h: Name, r: Rec, s: Bytes, pos: nat)
    requires WellFormed(g.graph) && Ready(g.graph, r, s, pos) && !r.Named?
    ensures AllGenuine(g.graph, t, h, ParseBody(g, t, h, r, s, pos), s)
    decreases |s| - pos, HeadRank(g.graph, r), r, 0
  {
    hide WellFormed, Parse, AllGenuine;
    match r {
      case CharRec(_, _) => NothingGenuine(g.graph, t, h, 1, s);
      case CharRange(_, _) => NothingGenuine(g.graph, t, h, 1, s);
      case Literal(lit) => NothingGenuine(g.graph, t, h, |lit|, s);
      case Sequence(es) => SequenceGenuine(g, t, h, es, s, pos);
      case Selector(_, es) =>
        NothingGenuine(g.graph, t, h, 0, s);
        SelectorGenuine(g, t, h, es, NoMatch, s, pos);
      case Loop(body, min, max) => LoopGenuine(g, t, h, body, min, max, 0, s, pos);
      case Pointer(target) => ParseGenuine(g, t, h, target, s, pos);
      case Alias(target) => ParseGenuine(g, t, h, target, s, pos);
    }
  }

  lemma NothingGenuine(g: Graph, t: Table, h: Name, len: nat, s: Bytes)
    ensures AllGenuine(g, t, h, NoMatch, s) && AllGenuine(g, t, h, Match(len, []), s)
  {
  }

  lemma {:induction false} SequenceGenuine(g: Grammar, t: Table, h: Name, es: Recs, s: Bytes, pos: nat)
    requires WellFormed(g.graph) && ReadySequence(g.graph, es, s, pos)
    ensures AllGenuine(g.graph, t, h, ParseSequence(g, t, h, es, s, pos), s)
    decreases |s| - pos, SequenceRank(g.graph, es), es, 0
  {
    hide WellFormed, Parse, ParseSequence, Ok, HeadRank, SequenceRank, AllGenuine;
    NothingGenuine(g.graph, t, h, 0, s);
    if es.Cons? {
      SequenceUnfolds(g, t, h, es, s, pos);
      ParseGenuine(g, t, h, es.head, s, pos);
      var m := Parse(g, t, h, es.head, s, pos);
      if m.Match? {
        SequenceGenuine(g, t, h, es.tail, s, pos + m.len);
        PrependGenuine(g.graph, t, h, m, ParseSequence(g, t, h, es.tail, s, pos + m.len), s);
      }
    } else {
      SequenceEnds(g, t, h, s, pos);
    }
  }

  lemma {:induction false} SelectorGenuine(g: Grammar, t: Table, h: Name, es: Recs, best: Result, s: Bytes, pos: nat)
    requires WellFormed(g.graph) && ReadyAll(g.graph, es, s, pos) && AllGenuine(g.graph, t, h, best, s)
    ensures AllGenuine(g.graph, t, h, ParseFirst(g, t, h, es, s, pos), s)
    ensures AllGenuine(g.graph, t, h, ParseBest(g, t, h, es, best, s, pos), s)
    decreases |s| - pos, SelectorRank(g.graph, es), es, 0
  {
    hide WellFormed, Parse, AllGenuine;
    NothingGenuine(g.graph, t, h, 0, s);
    if es.Cons? {
      ParseGenuine(g, t, h, es.head, s, pos);
      var m := Parse(g, t, h, es.head, s, pos);
      SelectorGenuine(g, t, h, es.tail, if Better(m, best) then m else best, s, pos);
    }
  }

  lemma {:induction false} LoopGenuine(g: Grammar, t: Table, h: Name, body: Rec, min: int, max: int, count: nat,
                                       s: Bytes, pos: nat)
    requires WellFormed(g.graph) && pos <= |s| && LoopOk(g.graph, body, max)
    ensures AllGenuine(g.graph, t, h, ParseLoop(g, t, h, body, min, max, count, s, pos), s)
    decreases |s| - pos, HeadRank(g.graph, body), body, 2 + if count < max then max - count else 0
  {
    hide WellFormed, Parse, ParseLoop, LoopOk, HeadRank, AllGenuine;
    NothingGenuine(g.graph, t, h, 0, s);
    if Continues(max, count, s, pos) {
      LoopUnfolds(g, t, h, body, min, max, count, s, pos);
      ParseGenuine(g, t, h, body, s, pos);
      var m := Parse(g, t, h, body, s, pos);
      if m.Match? {
        LoopGenuine(g, t, h, body, min, max, count + 1, s, pos + m.len);
        PrependGenuine(g.graph, t, h, m, ParseLoop(g, t, h, body, min, max, count + 1, s, pos + m.len), s);
        return;
      }
    }
    LoopEnds(g, t, h, body, min, max, count, s, pos);
  }

  /** An object whose text is a string of its rule, and whose properties were given to its own collectors:
      texts of rules without a handler, and objects of those with one, all of them of this kind again. */
  ghost predicate Derived(g: Graph, t: Table, e: Element)
    decreases e, 1
  {
    && InLanguage(g, Named(e.rule), e.text)
    && forall i :: 0 <= i < |e.props| ==> DerivedOne(g, t, e.rule, e.props[i])
  }

  ghost predicate DerivedOne(g: Graph, t: Table, h: Name, p: Property)
    decreases p, 0
  {
    var x := p.collector.rule;
    && p.collector.owner == h && h in t && x in t[h]
    && match p
       case Value(_, value) => x !in t && InLanguage(g, Named(x), value)
       case Object(_, element) => x in t && element.rule == x && Derived(g, t, element)
  }

  lemma {:induction false} BuiltIsDerived(g: Graph, t: Table, e: Element, node: Node, s: Bytes, begin: nat, count: nat)
    requires Builds(e, node, s, begin, count) && InLanguage(g, Named(node.rule), s[begin..begin + count])
    requires forall i :: 0 <= i < |node.kids| ==> Genuine(g, t, node.rule, node.kids[i], s)
    ensures Derived(g, t, e)
    decreases node
  {
    hide InLanguage;
    forall i | 0 <= i < |e.props|
      ensures DerivedOne(g, t, e.rule, e.props[i])
    {
      var a := node.kids[i];
      assert Genuine(g, t, node.rule, a, s) && BuildsOne(e.props[i], a, s);
      if a.Child? {
        BuiltIsDerived(g, t, e.props[i].element, a.node, s, a.begin, a.count);
      }
    }
  }

  /** The object of the outermost rule, and all those below it. */
  lemma RootDerived(g: Grammar, t: Table, x: Name, s: Bytes, e: Element)
    requires WellFormed(g.graph) && Ready(g.graph, Named(x), s, 0) && ParseRule(g, t, x, x, s, 0).Match?
    requires var m := ParseRule(g, t, x, x, s, 0); Builds(e, Node(x, m.out), s, 0, m.len)
    ensures Derived(g.graph, t, e)
  {
    assert RuleOk(g.graph, x);
    var m := ParseRule(g, t, x, x, s, 0);
    ParseBodyGenuine(g, t, x, g.graph.rules[x], s, 0);
    var k := ParseBodySound(g, t, x, g.graph.rules[x], s, 0);
    assert Derives(Named(x), RuleLang(g.graph, k + 1), s[0..0 + m.len]);
    hide ParseRule, Parse, InLanguage;
    BuiltIsDerived(g.graph, t, e, Node(x, m.out), s, 0, m.len);
  }
}
