/** Where the assignments of an element lie in the input, and the elements built from them. */
module Spans {
  import opened Bytes
  import opened Recognizers
  import opened PureParser

  function End(a: Assignment): nat {
    a.begin + a.count
  }

  /** A span is non-empty, within lo..hi, and contains those of the assignments of its own element. */
  predicate Inside(a: Assignment, lo: nat, hi: nat) {
    && lo <= a.begin && 0 < a.count && End(a) <= hi
    && (a.Child? ==> Nested(a.node.kids, a.begin, End(a)))
  }

  /** In post-order: the spans end one after the other, and two of them are disjoint or the later
      one contains the earlier one. */
  predicate Nested(xs: seq<Assignment>, lo: nat, hi: nat) {
    && (forall i :: 0 <= i < |xs| ==> Inside(xs[i], lo, hi))
    && (forall i, j :: 0 <= i < j < |xs| ==> Follows(xs[i], xs[j]))
  }

  predicate Follows(a: Assignment, b: Assignment) {
    End(a) <= End(b) && (End(a) <= b.begin || b.begin <= a.begin)
  }

  lemma NestedAppended(a: seq<Assignment>, b: seq<Assignment>, lo: nat, mid: nat, hi: nat)
    requires lo <= mid <= hi && Nested(a, lo, mid) && Nested(b, mid, hi)
    ensures Nested(a + b, lo, hi)
  {
    forall i | 0 <= i < |a + b|
      ensures Inside((a + b)[i], lo, hi)
    {
      assert if i < |a| then Inside(a[i], lo, mid) else Inside(b[i - |a|], mid, hi);
    }
    forall i, j | 0 <= i < j < |a + b|
      ensures Follows((a + b)[i], (a + b)[j])
    {
      if i < |a| <= j {
        assert Inside(a[i], lo, mid) && Inside(b[j - |a|], mid, hi);
      }
    }
  }

  ghost predicate Spanned(m: Result, pos: nat) {
    m.Match? ==> Nested(m.out, pos, pos + m.len)
  }

  lemma PrependSpanned(m: Result, rest: Result, pos: nat)
    requires m.Match? && Spanned(m, pos) && Spanned(rest, pos + m.len)
    ensures Spanned(Prepend(m.len, m.out, rest), pos)
  {
    if rest.Match? {
      NestedAppended(m.out, rest.out, pos, pos + m.len, pos + m.len + rest.len);
    }
  }

  lemma NothingSpanned(len: nat, pos: nat)
    ensures Spanned(Match(len, []), pos) && Spanned(NoMatch, pos)
  {
  }

  lemma CloseTextSpanned(t: Table, h: Name, x: Name, pos: nat, m: Result)
    requires Spanned(m, pos)
    ensures Spanned(CloseText(t, h, x, pos, m), pos)
  {
    if Consumed(m) {
      assert forall i :: 0 <= i < |m.out| ==> Inside(m.out[i], pos, pos + m.len);
    }
  }

  /** What a feed commits lies within what it matched. */
  lemma {:induction false} ParseSpanned(g: Grammar, t: Table, h: Name, r: Rec, s: Bytes, pos: nat)
    requires WellFormed(g.graph) && Ready(g.graph, r, s, pos)
    ensures Spanned(Parse(g, t, h, r, s, pos), pos)
    decreases |s| - pos, HeadRank(g.graph, r), r, 1
  {
    match r {
      case Named(x) =>
        assert RuleOk(g.graph, x);
        var h' := if x in t then x else h;
        ParseBodySpanned(g, t, h', g.graph.rules[x], s, pos);
        CloseTextSpanned(t, h, x, pos, ParseBody(g, t, h', g.graph.rules[x], s, pos));
      case _ => ParseBodySpanned(g, t, h, r, s, pos);
    }
  }

  lemma {:induction false} ParseBodySpanned(g: Grammar, t: Table, h: Name, r: Rec, s: Bytes, pos: nat)
    requires WellFormed(g.graph) && Ready(g.graph, r, s, pos) && !r.Named?
    ensures Spanned(ParseBody(g, t, h, r, s, pos), pos)
    decreases |s| - pos, HeadRank(g.graph, r), r, 0
  {
    match r {
      case CharRec(_, _) =>
      case CharRange(_, _) =>
      case Literal(_) =>
      case Sequence(es) => SequenceSpanned(g, t, h, es, s, pos);
      case Selector(sel, es) => SelectorSpanned(g, t, h, es, NoMatch, s, pos);
      case Loop(body, min, max) => LoopSpanned(g, t, h, body, min, max, 0, s, pos);
      case Pointer(target) => ParseSpanned(g, t, h, target, s, pos);
      case Alias(target) => ParseSpanned(g, t, h, target, s, pos);
    }
  }

  lemma {:induction false} SequenceSpanned(g: Grammar, t: Table, h: Name, es: Recs, s: Bytes, pos: nat)
    requires WellFormed(g.graph) && ReadySequence(g.graph, es, s, pos)
    ensures Spanned(ParseSequence(g, t, h, es, s, pos), pos)
    decreases |s| - pos, SequenceRank(g.graph, es), es, 0
  {
    hide Spanned;
    NothingSpanned(0, pos);
    if es.Cons? {
      ParseSpanned(g, t, h, es.head, s, pos);
      var m := Parse(g, t, h, es.head, s, pos);
      if m.Match? {
        SequenceSpanned(g, t, h, es.tail, s, pos + m.len);
        PrependSpanned(m, ParseSequence(g, t, h, es.tail, s, pos + m.len), pos);
      }
    }
  }

  lemma {:induction false} SelectorSpanned(g: Grammar, t: Table, h: Name, es: Recs, best: Result, s: Bytes, pos: nat)
    requires WellFormed(g.graph) && ReadyAll(g.graph, es, s, pos) && Spanned(best, pos)
    ensures Spanned(ParseFirst(g, t, h, es, s, pos), pos)
    ensures Spanned(ParseBest(g, t, h, es, best, s, pos), pos)
    decreases |s| - pos, SelectorRank(g.graph, es), es, 0
  {
    hide Spanned;
    NothingSpanned(0, pos);
    if es.Cons? {
      ParseSpanned(g, t, h, es.head, s, pos);
      var m := Parse(g, t, h, es.head, s, pos);
      SelectorSpanned(g, t, h, es.tail, if Better(m, best) then m else best, s, pos);
    }
  }

  lemma {:induction false} LoopSpanned(g: Grammar, t: Table, h: Name, body: Rec, min: int, max: int, count: nat,
                                       s: Bytes, pos: nat)
    requires WellFormed(g.graph) && pos <= |s| && LoopOk(g.graph, body, max)
    ensures Spanned(ParseLoop(g, t, h, body, min, max, count, s, pos), pos)
    decreases |s| - pos, HeadRank(g.graph, body), body, 2 + if count < max then max - count else 0
  {
    hide Spanned;
    NothingSpanned(0, pos);
    if Continues(max, count, s, pos) {
      ParseSpanned(g, t, h, body, s, pos);
      var m := Parse(g, t, h, body, s, pos);
      if m.Match? {
        LoopSpanned(g, t, h, body, min, max, count + 1, s, pos + m.len);
        PrependSpanned(m, ParseLoop(g, t, h, body, min, max, count + 1, s, pos + m.len), pos);
      }
    }
  }

  lemma RuleSpanned(g: Grammar, t: Table, x: Name, s: Bytes, pos: nat)
    requires WellFormed(g.graph) && Ready(g.graph, Named(x), s, pos)
    ensures Spanned(ParseRule(g, t, x, x, s, pos), pos)
  {
    assert RuleOk(g.graph, x);
    ParseBodySpanned(g, t, x, g.graph.rules[x], s, pos);
  }

  /** The application's object for a matched rule, with what was assigned to it, in order. */
  datatype Element = Element(rule: Name, text: Bytes, props: seq<Property>)

  datatype Property =
    | Value(collector: Collector, value: Bytes)
    | Object(collector: Collector, element: Element)

  /** The object a node denotes. */
  function Realized(node: Node, s: Bytes, begin: nat, count: nat): (e: Element)
    requires begin + count <= |s| && Nested(node.kids, begin, begin + count)
    decreases node, 1
  {
    assert forall i :: 0 <= i < |node.kids| ==> Inside(node.kids[i], begin, begin + count);
    Element(node.rule, s[begin..begin + count], RealizedAll(node.kids, s))
  }

  function RealizedAll(xs: seq<Assignment>, s: Bytes): (ps: seq<Property>)
    requires forall i :: 0 <= i < |xs| ==> Inside(xs[i], 0, |s|)
    ensures |ps| == |xs|
    decreases xs, 0
  {
    seq(|xs|, i requires 0 <= i < |xs| => assert Inside(xs[i], 0, |s|); RealizedOne(xs[i], s))
  }

  function RealizedOne(a: Assignment, s: Bytes): (p: Property)
    requires Inside(a, 0, |s|)
    decreases a, 0
  {
    match a
    case Text(c, begin, count) => Value(c, s[begin..begin + count])
    case Child(c, begin, count, node) => Object(c, Realized(node, s, begin, count))
  }

  /** `e` is the object of `node`, matched from `begin` on over `count` octets: it has the rule of the node
      and exactly those octets as its text, and one property for each assignment, in order. */
  ghost predicate Builds(e: Element, node: Node, s: Bytes, begin: nat, count: nat)
    decreases node
  {
    && begin + count <= |s| && e.rule == node.rule && e.text == s[begin..begin + count]
    && |e.props| == |node.kids|
    && forall i :: 0 <= i < |node.kids| ==> BuildsOne(e.props[i], node.kids[i], s)
  }

  /** A property goes to the collector of its assignment: the octets of its span, or the object made of them. */
  ghost predicate BuildsOne(p: Property, a: Assignment, s: Bytes)
    decreases a
  {
    && p.collector == a.collector && a.begin + a.count <= |s|
    && match a
       case Text(_, begin, count) => p.Value? && p.value == s[begin..begin + count]
       case Child(_, begin, count, node) => p.Object? && Builds(p.element, node, s, begin, count)
  }

  lemma {:induction false} RealizedBuilds(node: Node, s: Bytes, begin: nat, count: nat)
    requires begin + count <= |s| && Nested(node.kids, begin, begin + count)
    ensures Builds(Realized(node, s, begin, count), node, s, begin, count)
    decreases node
  {
    var e := Realized(node, s, begin, count);
    forall i | 0 <= i < |node.kids|
      ensures BuildsOne(e.props[i], node.kids[i], s)
    {
      var a := node.kids[i];
      assert forall k :: 0 <= k < |node.kids| ==> Inside(node.kids[k], begin, begin + count);
      assert Inside(a, begin, begin + count) && Inside(a, 0, |s|);
      assert e.props == RealizedAll(node.kids, s) && e.props[i] == RealizedOne(a, s);
      if a.Child? {
        RealizedBuilds(a.node, s, a.begin, a.count);
      }
    }
  }

  /** A node has one object. */
  lemma {:induction false} BuildsOneObject(e: Element, e': Element, node: Node, s: Bytes, begin: nat, count: nat)
    requires Builds(e, node, s, begin, count) && Builds(e', node, s, begin, count)
    ensures e == e'
    decreases node
  {
    forall i | 0 <= i < |node.kids|
      ensures e.props[i] == e'.props[i]
    {
      var a := node.kids[i];
      assert BuildsOne(e.props[i], a, s) && BuildsOne(e'.props[i], a, s);
      if a.Child? {
        BuildsOneObject(e.props[i].element, e'.props[i].element, a.node, s, a.begin, a.count);
      }
    }
  }
}
