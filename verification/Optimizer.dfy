/** The optimization that makes a selector exclusive when the transition maps of its alternatives
    are disjoint. */
module Optimizer {
  import opened Bytes
  import opened Recognizers
  import opened PureParser
  import opened TransitionMaps
  import opened Emptiness

  /** The maps of the alternatives are disjoint from each other and from the octets of `seen`. */
  ghost predicate Disjoint(g: Grammar, es: Recs, seen: set<Byte>)
    requires WellFormed(g.graph) && PlacedAll(g.graph, es)
    decreases es
  {
    es.Cons? ==>
      && (forall b :: b in seen ==> !Starts(g, es.head, b))
      && Disjoint(g, es.tail, seen + (set b: Byte | Starts(g, es.head, b)))
  }

  /** An exclusive selector loses the empty matches of a plain one. */
  function WithoutEmpty(m: Result): Result {
    if Consumed(m) then m else NoMatch
  }

  ghost predicate Reached(seen: set<Byte>, s: Bytes, pos: nat) {
    pos < |s| ==> s[pos] in seen
  }

  lemma {:induction false} NoneConsumes(g: Grammar, t: Table, h: Name, es: Recs, best: Result, seen: set<Byte>,
                                        s: Bytes, pos: nat)
    requires WellFormed(g.graph) && ReadyAll(g.graph, es, s, pos) && MappableAll(g, es)
    requires Disjoint(g, es, seen) && Reached(seen, s, pos)
    ensures ParseFirst(g, t, h, es, s, pos) == NoMatch
    ensures WithoutEmpty(ParseBest(g, t, h, es, best, s, pos)) == WithoutEmpty(best)
    decreases es
  {
    if es.Cons? {
      var m := Parse(g, t, h, es.head, s, pos);
      if Consumed(m) {
        StartsSound(g, t, h, es.head, s, pos);
        assert false;
      }
      NoneConsumes(g, t, h, es.tail, if Better(m, best) then m else best,
                   seen + (set b: Byte | Starts(g, es.head, b)), s, pos);
    }
  }

  /** With disjoint maps that can be trusted, trying the alternatives in turn finds the longest match:
      all that an exclusive selector changes is that an empty match becomes a failure. */
  lemma {:induction false} FirstIsBest(g: Grammar, t: Table, h: Name, es: Recs, best: Result, seen: set<Byte>,
                                       s: Bytes, pos: nat)
    requires WellFormed(g.graph) && ReadyAll(g.graph, es, s, pos) && MappableAll(g, es)
    requires Disjoint(g, es, seen) && !Consumed(best)
    ensures ParseFirst(g, t, h, es, s, pos) == WithoutEmpty(ParseBest(g, t, h, es, best, s, pos))
    decreases es
  {
    if es.Cons? {
      var m := Parse(g, t, h, es.head, s, pos);
      var seen' := seen + (set b: Byte | Starts(g, es.head, b));
      if Consumed(m) {
        StartsSound(g, t, h, es.head, s, pos);
        NoneConsumes(g, t, h, es.tail, m, seen', s, pos);
      } else {
        FirstIsBest(g, t, h, es.tail, if Better(m, best) then m else best, seen', s, pos);
      }
    }
  }

  /** Trying the alternatives in turn is the same as looking for the longest match. */
  ghost predicate Agrees(g: Grammar, es: Recs)
    requires WellFormed(g.graph)
  {
    forall t, h, s, pos: nat :: ReadyAll(g.graph, es, s, pos) ==>
      ParseFirst(g, t, h, es, s, pos) == ParseBest(g, t, h, es, NoMatch, s, pos)
  }

  lemma DisjointAgrees(g: Grammar, es: Recs)
    requires WellFormed(g.graph) && PlacedAll(g.graph, es) && MappableAll(g, es) && !AnyNullable(g.graph, es)
    requires Disjoint(g, es, {})
    ensures Agrees(g, es)
  {
    forall t, h, s, pos: nat | ReadyAll(g.graph, es, s, pos)
      ensures ParseFirst(g, t, h, es, s, pos) == ParseBest(g, t, h, es, NoMatch, s, pos)
    {
      FirstIsBest(g, t, h, es, NoMatch, {}, s, pos);
    }
  }

  function Flip(g: Grammar, sel: nat): Grammar {
    g.(exclusive := g.exclusive + {sel})
  }

  // Flipping a selector whose alternatives agree changes nothing anywhere in the grammar.

  lemma {:induction false} FlipKeeps(g: Grammar, sel: nat, t: Table, h: Name, r: Rec, s: Bytes, pos: nat)
    requires WellFormed(g.graph) && Ready(g.graph, r, s, pos) && sel in g.graph.alts && Agrees(g, g.graph.alts[sel])
    ensures Parse(Flip(g, sel), t, h, r, s, pos) == Parse(g, t, h, r, s, pos)
    decreases |s| - pos, HeadRank(g.graph, r), r, 1
  {
    match r {
      case Named(x) =>
        assert RuleOk(g.graph, x);
        FlipKeepsBody(g, sel, t, if x in t then x else h, g.graph.rules[x], s, pos);
      case _ => FlipKeepsBody(g, sel, t, h, r, s, pos);
    }
  }

  lemma {:induction false} FlipKeepsBody(g: Grammar, sel: nat, t: Table, h: Name, r: Rec, s: Bytes, pos: nat)
    requires WellFormed(g.graph) && Ready(g.graph, r, s, pos) && sel in g.graph.alts && Agrees(g, g.graph.alts[sel])
    requires !r.Named?
    ensures ParseBody(Flip(g, sel), t, h, r, s, pos) == ParseBody(g, t, h, r, s, pos)
    decreases |s| - pos, HeadRank(g.graph, r), r, 0
  {
    hide WellFormed, Agrees;
    match r {
      case CharRec(_, _) =>
      case CharRange(_, _) =>
      case Literal(_) =>
      case Sequence(es) => FlipKeepsSequence(g, sel, t, h, es, s, pos);
      case Selector(sel', es) =>
        FlipKeepsSelector(g, sel, t, h, es, NoMatch, s, pos);
        if sel' == sel {
          AgreesAt(g, t, h, es, s, pos);
        }
      case Loop(body, min, max) => FlipKeepsLoop(g, sel, t, h, body, min, max, 0, s, pos);
      case Pointer(target) => FlipKeeps(g, sel, t, h, target, s, pos);
      case Alias(target) => FlipKeeps(g, sel, t, h, target, s, pos);
    }
  }

  lemma AgreesAt(g: Grammar, t: Table, h: Name, es: Recs, s: Bytes, pos: nat)
    requires WellFormed(g.graph) && Agrees(g, es) && ReadyAll(g.graph, es, s, pos)
    ensures ParseFirst(g, t, h, es, s, pos) == ParseBest(g, t, h, es, NoMatch, s, pos)
  {
  }

  lemma {:induction false} FlipKeepsSequence(g: Grammar, sel: nat, t: Table, h: Name, es: Recs, s: Bytes, pos: nat)
    requires WellFormed(g.graph) && ReadySequence(g.graph, es, s, pos) && sel in g.graph.alts &&
            Agrees(g, g.graph.alts[sel])
    ensures ParseSequence(Flip(g, sel), t, h, es, s, pos) == ParseSequence(g, t, h, es, s, pos)
    decreases |s| - pos, SequenceRank(g.graph, es), es, 0
  {
    hide WellFormed, Agrees, Parse, ParseSequence, Ok, HeadRank, SequenceRank;
    var g' := Flip(g, sel);
    if es.Cons? {
      SequenceUnfolds(g, t, h, es, s, pos);
      SequenceUnfolds(g', t, h, es, s, pos);
      FlipKeeps(g, sel, t, h, es.head, s, pos);
      var m := Parse(g, t, h, es.head, s, pos);
      if m.Match? {
        FlipKeepsSequence(g, sel, t, h, es.tail, s, pos + m.len);
      }
    } else {
      SequenceEnds(g, t, h, s, pos);
      SequenceEnds(g', t, h, s, pos);
    }
  }

  lemma {:induction false} FlipKeepsSelector(g: Grammar, sel: nat, t: Table, h: Name, es: Recs, best: Result,
                                             s: Bytes, pos: nat)
    requires WellFormed(g.graph) && ReadyAll(g.graph, es, s, pos) && sel in g.graph.alts && Agrees(g, g.graph.alts[sel])
    ensures ParseFirst(Flip(g, sel), t, h, es, s, pos) == ParseFirst(g, t, h, es, s, pos)
    ensures ParseBest(Flip(g, sel), t, h, es, best, s, pos) == ParseBest(g, t, h, es, best, s, pos)
    decreases |s| - pos, SelectorRank(g.graph, es), es, 0
  {
    hide WellFormed, Agrees;
    if es.Cons? {
      FlipKeeps(g, sel, t, h, es.head, s, pos);
      var m := Parse(g, t, h, es.head, s, pos);
      FlipKeepsSelector(g, sel, t, h, es.tail, if Better(m, best) then m else best, s, pos);
    }
  }

  lemma {:induction false} FlipKeepsLoop(g: Grammar, sel: nat, t: Table, h: Name, body: Rec, min: int, max: int,
                                         count: nat, s: Bytes, pos: nat)
    requires WellFormed(g.graph) && pos <= |s| && LoopOk(g.graph, body, max)
    requires sel in g.graph.alts && Agrees(g, g.graph.alts[sel])
    ensures ParseLoop(Flip(g, sel), t, h, body, min, max, count, s, pos) ==
            ParseLoop(g, t, h, body, min, max, count, s, pos)
    decreases |s| - pos, HeadRank(g.graph, body), body, 2 + if count < max then max - count else 0
  {
    hide WellFormed, Agrees, Parse, ParseLoop, LoopOk, HeadRank;
    var g' := Flip(g, sel);
    if Continues(max, count, s, pos) {
      LoopUnfolds(g, t, h, body, min, max, count, s, pos);
      LoopUnfolds(g', t, h, body, min, max, count, s, pos);
      FlipKeeps(g, sel, t, h, body, s, pos);
      var m := Parse(g, t, h, body, s, pos);
      if m.Match? {
        FlipKeepsLoop(g, sel, t, h, body, min, max, count + 1, s, pos + m.len);
        return;
      }
    }
    LoopEnds(g, t, h, body, min, max, count, s, pos);
    LoopEnds(g', t, h, body, min, max, count, s, pos);
  }

  /** Two grammars over the same rules that match and assign the same everywhere. */
  ghost predicate Equivalent(g: Grammar, g': Grammar) {
    && g'.graph == g.graph
    && (WellFormed(g.graph) ==>
          forall t, h, r, s, pos: nat :: Ready(g.graph, r, s, pos) ==>
              Parse(g', t, h, r, s, pos) == Parse(g, t, h, r, s, pos))
  }

  lemma EquivalentTwice(a: Grammar, b: Grammar, c: Grammar)
    requires Equivalent(a, b) && Equivalent(b, c)
    ensures Equivalent(a, c)
  {
    if WellFormed(a.graph) {
      forall t, h, r, s, pos: nat | Ready(a.graph, r, s, pos)
        ensures Parse(c, t, h, r, s, pos) == Parse(a, t, h, r, s, pos)
      {
        assert Parse(b, t, h, r, s, pos) == Parse(a, t, h, r, s, pos);
      }
    }
  }

  lemma FlipEquivalent(g: Grammar, sel: nat)
    requires WellFormed(g.graph) && sel in g.graph.alts && Agrees(g, g.graph.alts[sel])
    ensures Equivalent(g, Flip(g, sel))
  {
    forall t, h, r, s, pos: nat | Ready(g.graph, r, s, pos)
      ensures Parse(Flip(g, sel), t, h, r, s, pos) == Parse(g, t, h, r, s, pos)
    {
      FlipKeeps(g, sel, t, h, r, s, pos);
    }
  }

  /** Making a selector exclusive when its maps are disjoint and can be trusted preserves what every
      recognizer matches, the selector itself included, if and only if none of its alternatives is
      nullable. */
  lemma FlipExactly(g: Grammar, sel: nat)
    requires WellFormed(g.graph) && SharpRules(g) && sel in g.graph.alts && sel !in g.exclusive
    requires OkAll(g.graph, g.graph.alts[sel], false) && SharpAll(g, g.graph.alts[sel])
    requires MappableAll(g, g.graph.alts[sel]) && Disjoint(g, g.graph.alts[sel], {})
    ensures Equivalent(g, Flip(g, sel)) <==> !AnyNullable(g.graph, g.graph.alts[sel])
  {
    hide WellFormed, Equivalent, Disjoint, MappableAll, SharpAll, OkAll, SharpRules, AnyNullable, Agrees, NeverEmpty;
    var es := g.graph.alts[sel];
    if Equivalent(g, Flip(g, sel)) {
      EquivalentNeverEmpty(g, Flip(g, sel), sel);
      NeverEmptyExactly(g, es);
    }
    if !AnyNullable(g.graph, es) {
      DisjointAgrees(g, es);
      FlipEquivalent(g, sel);
    }
  }

  /** A selector that is exclusive in an equivalent grammar never matches nothing. */
  lemma EquivalentNeverEmpty(g: Grammar, g': Grammar, sel: nat)
    requires WellFormed(g.graph) && Equivalent(g, g') && sel in g.graph.alts
    requires sel !in g.exclusive && sel in g'.exclusive
    ensures NeverEmpty(g, g.graph.alts[sel])
  {
    hide WellFormed, Parse, ParseFirst, ParseBest;
    var es := g.graph.alts[sel];
    forall t, h, s, pos: nat | ReadyAll(g.graph, es, s, pos)
      ensures var m := ParseBest(g, t, h, es, NoMatch, s, pos); m.Match? ==> m.len > 0
    {
      SelectorReady(g.graph, sel, s, pos);
      SelectorParsed(g, t, h, sel, s, pos);
      SelectorParsed(g', t, h, sel, s, pos);
      assert Parse(g', t, h, Selector(sel, es), s, pos) == Parse(g, t, h, Selector(sel, es), s, pos);
    }
  }

  lemma SelectorReady(g: Graph, sel: nat, s: Bytes, pos: nat)
    requires sel in g.alts && ReadyAll(g, g.alts[sel], s, pos)
    ensures Ready(g, Selector(sel, g.alts[sel]), s, pos)
  {
  }

  lemma SelectorParsed(g: Grammar, t: Table, h: Name, sel: nat, s: Bytes, pos: nat)
    requires WellFormed(g.graph) && sel in g.graph.alts && ReadyAll(g.graph, g.graph.alts[sel], s, pos)
    requires Ready(g.graph, Selector(sel, g.graph.alts[sel]), s, pos)
    ensures var es := g.graph.alts[sel];
            Parse(g, t, h, Selector(sel, es), s, pos) ==
            CloseAnonymous(if sel in g.exclusive then ParseFirst(g, t, h, es, s, pos)
                           else ParseBest(g, t, h, es, NoMatch, s, pos))
  {
    hide ParseFirst, ParseBest, WellFormed;
  }

  // Equivalent grammars have the same transition maps.

  lemma ProbedSame(g: Grammar, g': Grammar, r: Rec, b: Byte)
    requires WellFormed(g.graph) && Placed(g.graph, r) && Equivalent(g, g')
    ensures ProbedAlone(g', r, b) == ProbedAlone(g, r, b)
  {
    assert Ready(g.graph, r, [b, 0], 0);
  }

  lemma {:induction false} StartsSame(g: Grammar, g': Grammar, r: Rec, b: Byte)
    requires WellFormed(g.graph) && Placed(g.graph, r) && Equivalent(g, g')
    ensures Starts(g', r, b) == Starts(g, r, b)
    decreases HeadRank(g.graph, r), r
  {
    ProbedSame(g, g', r, b);
    hide Equivalent, WellFormed;
    match r {
      case CharRec(_, _) =>
      case CharRange(_, _) =>
      case Literal(_) =>
      case Sequence(es) => StartsSequenceSame(g, g', es, b);
      case Selector(_, es) => StartsAnySame(g, g', es, b);
      case Loop(body, _, _) => StartsSame(g, g', body, b);
      case Pointer(_) =>
      case Alias(_) =>
      case Named(x) =>
        RuleIsOk(g.graph, x);
        StartsSame(g, g', g.graph.rules[x], b);
    }
  }

  lemma RuleIsOk(g: Graph, x: Name)
    requires WellFormed(g) && x in g.rules
    ensures RuleOk(g, x)
  {
  }

  lemma {:induction false} StartsSequenceSame(g: Grammar, g': Grammar, es: Recs, b: Byte)
    requires WellFormed(g.graph) && PlacedSequence(g.graph, es) && Equivalent(g, g')
    ensures StartsSequence(g', es, b) == StartsSequence(g, es, b)
    decreases SequenceRank(g.graph, es), es
  {
    assert g'.graph == g.graph;
    hide Equivalent, WellFormed, Starts;
    if es.Cons? {
      StartsSame(g, g', es.head, b);
      if !Complete(g.graph, es.head) {
        StartsSequenceSame(g, g', es.tail, b);
      }
    }
  }

  lemma {:induction false} StartsAnySame(g: Grammar, g': Grammar, es: Recs, b: Byte)
    requires WellFormed(g.graph) && PlacedAll(g.graph, es) && Equivalent(g, g')
    ensures StartsAny(g', es, b) == StartsAny(g, es, b)
    decreases SelectorRank(g.graph, es), es
  {
    assert g'.graph == g.graph;
    hide Equivalent, WellFormed, Starts;
    if es.Cons? {
      StartsSame(g, g', es.head, b);
      StartsAnySame(g, g', es.tail, b);
    }
  }

  lemma {:induction false} DisjointSame(g: Grammar, g': Grammar, es: Recs, seen: set<Byte>)
    requires WellFormed(g.graph) && PlacedAll(g.graph, es) && Equivalent(g, g')
    ensures Disjoint(g', es, seen) == Disjoint(g, es, seen)
    decreases es
  {
    assert g'.graph == g.graph;
    hide Equivalent, WellFormed, Starts;
    if es.Cons? {
      forall b: Byte
        ensures Starts(g', es.head, b) == Starts(g, es.head, b)
      {
        StartsSame(g, g', es.head, b);
      }
      var added := set b: Byte | Starts(g, es.head, b);
      assert added == set b: Byte | Starts(g', es.head, b);
      DisjointSame(g, g', es.tail, seen + added);
    }
  }

  lemma {:induction false} MappableSame(g: Grammar, g': Grammar, r: Rec)
    requires WellFormed(g.graph) && Placed(g.graph, r) && Equivalent(g, g')
    ensures Mappable(g', r) == Mappable(g, r)
    decreases HeadRank(g.graph, r), r, 0
  {
    assert g'.graph == g.graph;
    hide Equivalent, WellFormed;
    match r {
      case CharRec(_, _) =>
      case CharRange(_, _) =>
      case Literal(_) =>
      case Sequence(es) => MappableSequenceSame(g, g', es);
      case Selector(_, es) => MappableAllSame(g, g', es);
      case Loop(body, _, _) => MappableSame(g, g', body);
      case Pointer(target) => MappableTargetSame(g, g', target);
      case Alias(target) => MappableTargetSame(g, g', target);
      case Named(x) =>
        RuleIsOk(g.graph, x);
        MappableSame(g, g', g.graph.rules[x]);
    }
  }

  lemma {:induction false} MappableTargetSame(g: Grammar, g': Grammar, target: Rec)
    requires WellFormed(g.graph) && Placed(g.graph, target) && Equivalent(g, g')
    ensures Mappable(g', target) == Mappable(g, target)
    ensures StartsAreMatches(g', target) == StartsAreMatches(g, target)
    decreases HeadRank(g.graph, target), target, 1
  {
    MappableSame(g, g', target);
    assert g'.graph == g.graph;
    hide Equivalent, WellFormed, Mappable;
    forall b: Byte
      ensures Starts(g', target, b) == Starts(g, target, b) && ProbedAlone(g', target, b) == ProbedAlone(g, target, b)
    {
      StartsSame(g, g', target, b);
      ProbedSame(g, g', target, b);
    }
  }

  lemma {:induction false} MappableSequenceSame(g: Grammar, g': Grammar, es: Recs)
    requires WellFormed(g.graph) && PlacedSequence(g.graph, es) && Equivalent(g, g')
    ensures MappableSequence(g', es) == MappableSequence(g, es)
    decreases SequenceRank(g.graph, es), es
  {
    assert g'.graph == g.graph;
    hide Equivalent, WellFormed, Mappable;
    if es.Cons? {
      MappableSame(g, g', es.head);
      if !Complete(g.graph, es.head) {
        MappableSequenceSame(g, g', es.tail);
      }
    }
  }

  lemma {:induction false} MappableAllSame(g: Grammar, g': Grammar, es: Recs)
    requires WellFormed(g.graph) && PlacedAll(g.graph, es) && Equivalent(g, g')
    ensures MappableAll(g', es) == MappableAll(g, es)
    decreases SelectorRank(g.graph, es), es
  {
    assert g'.graph == g.graph;
    hide Equivalent, WellFormed, Mappable;
    if es.Cons? {
      MappableSame(g, g', es.head);
      MappableAllSame(g, g', es.tail);
    }
  }

  // What optimizing computes: the elements of a node first, then the node itself. References to
  // rules are not followed, since every rule of the grammar is optimized in turn, and neither are
  // the alternatives that extensions added: those have an identifier, though no name.

  /** How many alternatives a selector was defined with, if it was extended. */
  type Extended = map<nat, nat>

  function Own(own: Extended, sel: nat, es: Recs): nat {
    if sel in own then own[sel] else Count(es)
  }

  /** Only flags are set, and only those of selectors of the grammar. */
  ghost predicate Grown(g: Grammar, g': Grammar) {
    && g'.graph == g.graph && g.exclusive <= g'.exclusive
    && forall sel :: sel in g'.exclusive && sel !in g.exclusive ==>
         sel in g.graph.alts && PlacedAll(g.graph, g.graph.alts[sel])
  }

  ghost function Optimized(own: Extended, g: Grammar, r: Rec): (g': Grammar)
    requires WellFormed(g.graph) && Placed(g.graph, r)
    ensures Grown(g, g')
    decreases r, 0
  {
    match r
    case Sequence(es) => OptimizedSequence(own, g, es)
    case Selector(sel, es) =>
      var g' := OptimizedAll(own, g, es, Own(own, sel, es));
      if Disjoint(g', es, {}) then Flip(g', sel) else g'
    case Loop(body, _, _) => OptimizedElement(own, g, body)
    case _ => g
  }

  ghost function OptimizedElement(own: Extended, g: Grammar, r: Rec): (g': Grammar)
    requires WellFormed(g.graph) && Placed(g.graph, r)
    ensures Grown(g, g')
    decreases r, 1
  {
    if r.Named? then g else Optimized(own, g, r)
  }

  ghost function OptimizedSequence(own: Extended, g: Grammar, es: Recs): (g': Grammar)
    requires WellFormed(g.graph) && PlacedSequence(g.graph, es)
    ensures Grown(g, g')
    decreases es, 0
  {
    if es.Nil? then g else OptimizedSequence(own, OptimizedElement(own, g, es.head), es.tail)
  }

  /** The first `n` alternatives are optimized. */
  ghost function OptimizedAll(own: Extended, g: Grammar, es: Recs, n: nat): (g': Grammar)
    requires WellFormed(g.graph) && PlacedAll(g.graph, es)
    ensures Grown(g, g')
    decreases es, 0
  {
    if es.Nil? || n == 0 then g else OptimizedAll(own, OptimizedElement(own, g, es.head), es.tail, n - 1)
  }

  ghost function OptimizedRules(own: Extended, g: Grammar, order: seq<Name>): (g': Grammar)
    requires WellFormed(g.graph) && forall x :: x in order ==> x in g.graph.rules
    ensures Grown(g, g')
    decreases |order|
  {
    if order == [] then g
    else
      assert RuleOk(g.graph, order[0]);
      OptimizedRules(own, Optimized(own, g, g.graph.rules[order[0]]), order[1..])
  }

  /** The maps of the selectors whose flags were set can be trusted. */
  ghost predicate Trusted(g: Grammar, g': Grammar)
    requires WellFormed(g.graph) && Grown(g, g')
  {
    forall sel :: sel in g'.exclusive && sel !in g.exclusive ==> MappableAll(g, g.graph.alts[sel])
  }

  /** And none of their alternatives can match nothing. */
  ghost predicate NoneNullable(g: Grammar, g': Grammar)
    requires Grown(g, g')
  {
    forall sel :: sel in g'.exclusive && sel !in g.exclusive ==> !AnyNullable(g.graph, g.graph.alts[sel])
  }

  // Which selectors are made exclusive. Optimizing comes to them one after the other.

  /** A selector the optimizer comes to. */
  datatype Visit = Visit(sel: nat, es: Recs)

  /** Those in `r`, each after the selectors it contains. */
  function Visits(own: Extended, r: Rec): seq<Visit>
    decreases r
  {
    match r
    case Sequence(es) => VisitsAmong(own, es, Count(es))
    case Selector(sel, es) => VisitsAmong(own, es, Own(own, sel, es)) + [Visit(sel, es)]
    case Loop(body, _, _) => Visits(own, body)
    case _ => []
  }

  function VisitsAmong(own: Extended, es: Recs, n: nat): seq<Visit>
    decreases es
  {
    if es.Nil? || n == 0 then [] else Visits(own, es.head) + VisitsAmong(own, es.tail, n - 1)
  }

  function VisitsOfRules(own: Extended, g: Graph, order: seq<Name>): seq<Visit>
    requires forall x :: x in order ==> x in g.rules
  {
    if order == [] then [] else Visits(own, g.rules[order[0]]) + VisitsOfRules(own, g, order[1..])
  }

  ghost predicate AllPlaced(g: Graph, vs: seq<Visit>) {
    forall i :: 0 <= i < |vs| ==> PlacedVisit(g, vs[i])
  }

  ghost predicate PlacedVisit(g: Graph, v: Visit) {
    v.sel in g.alts && g.alts[v.sel] == v.es && PlacedAll(g, v.es)
  }

  /** The flag of each selector is set when its turn comes, if its maps are disjoint then. */
  ghost function Run(g: Grammar, vs: seq<Visit>): (g': Grammar)
    requires WellFormed(g.graph) && AllPlaced(g.graph, vs)
    ensures Grown(g, g')
    decreases |vs|
  {
    if vs == [] then g
    else
      assert PlacedVisit(g.graph, vs[0]);
      Run(if Disjoint(g, vs[0].es, {}) then Flip(g, vs[0].sel) else g, vs[1..])
  }

  lemma {:induction false} RunTwice(g: Grammar, a: seq<Visit>, b: seq<Visit>)
    requires WellFormed(g.graph) && AllPlaced(g.graph, a) && AllPlaced(g.graph, b)
    ensures AllPlaced(g.graph, a + b) && Run(g, a + b) == Run(Run(g, a), b)
    decreases |a|
  {
    hide WellFormed, Disjoint;
    if a == [] {
      assert a + b == b;
    } else {
      assert (a + b)[1..] == a[1..] + b && PlacedVisit(g.graph, a[0]);
      RunTwice(if Disjoint(g, a[0].es, {}) then Flip(g, a[0].sel) else g, a[1..], b);
    }
  }

  lemma {:induction false} OptimizedIsRun(own: Extended, g: Grammar, r: Rec)
    requires WellFormed(g.graph) && Placed(g.graph, r)
    ensures AllPlaced(g.graph, Visits(own, r)) && Optimized(own, g, r) == Run(g, Visits(own, r))
    decreases r, 0
  {
    hide WellFormed, Disjoint;
    match r {
      case Sequence(es) => OptimizedSequenceIsRun(own, g, es);
      case Selector(sel, es) =>
        var n := Own(own, sel, es);
        OptimizedAllIsRun(own, g, es, n);
        assert PlacedVisit(g.graph, Visit(sel, es));
        RunTwice(g, VisitsAmong(own, es, n), [Visit(sel, es)]);
        var g' := OptimizedAll(own, g, es, n);
        RunOnce(g', Visit(sel, es));
      case Loop(body, _, _) => OptimizedIsRun(own, g, body);
      case _ =>
    }
  }

  lemma RunOnce(g: Grammar, v: Visit)
    requires WellFormed(g.graph) && PlacedVisit(g.graph, v)
    ensures Run(g, [v]) == if Disjoint(g, v.es, {}) then Flip(g, v.sel) else g
  {
    hide WellFormed, Disjoint;
    assert [v][1..] == [];
  }

  lemma {:induction false} OptimizedSequenceIsRun(own: Extended, g: Grammar, es: Recs)
    requires WellFormed(g.graph) && PlacedSequence(g.graph, es)
    ensures AllPlaced(g.graph, VisitsAmong(own, es, Count(es)))
    ensures OptimizedSequence(own, g, es) == Run(g, VisitsAmong(own, es, Count(es)))
    decreases es, 0
  {
    hide WellFormed, Disjoint, Optimized, Visits, Run, AllPlaced;
    RunNothing(g);
    if es.Cons? {
      OptimizedIsRun(own, g, es.head);
      OptimizedSequenceIsRun(own, OptimizedElement(own, g, es.head), es.tail);
      NamedNotVisited(own, g, es.head);
      RunTwice(g, Visits(own, es.head), VisitsAmong(own, es.tail, Count(es.tail)));
    }
  }

  lemma {:induction false} OptimizedAllIsRun(own: Extended, g: Grammar, es: Recs, n: nat)
    requires WellFormed(g.graph) && PlacedAll(g.graph, es)
    ensures var vs := VisitsAmong(own, es, n);
            AllPlaced(g.graph, vs) && OptimizedAll(own, g, es, n) == Run(g, vs)
    decreases es, 0
  {
    hide WellFormed, Disjoint, Optimized, Visits, Run, AllPlaced;
    RunNothing(g);
    if es.Cons? && n > 0 {
      OptimizedIsRun(own, g, es.head);
      OptimizedAllIsRun(own, OptimizedElement(own, g, es.head), es.tail, n - 1);
      NamedNotVisited(own, g, es.head);
      RunTwice(g, Visits(own, es.head), VisitsAmong(own, es.tail, n - 1));
    }
  }

  lemma RunNothing(g: Grammar)
    requires WellFormed(g.graph)
    ensures AllPlaced(g.graph, []) && Run(g, []) == g
  {
  }

  lemma NamedNotVisited(own: Extended, g: Grammar, r: Rec)
    requires WellFormed(g.graph) && Placed(g.graph, r)
    ensures OptimizedElement(own, g, r) == Optimized(own, g, r)
  {
  }

  lemma {:induction false} OptimizedRulesAreRun(own: Extended, g: Grammar, order: seq<Name>)
    requires WellFormed(g.graph) && forall x :: x in order ==> x in g.graph.rules
    ensures var vs := VisitsOfRules(own, g.graph, order);
            AllPlaced(g.graph, vs) && OptimizedRules(own, g, order) == Run(g, vs)
    decreases |order|
  {
    hide WellFormed, Disjoint, Optimized, Visits, Run, AllPlaced;
    RunNothing(g);
    if order != [] {
      var r := g.graph.rules[order[0]];
      RuleIsOk(g.graph, order[0]);
      OptimizedIsRun(own, g, r);
      OptimizedRulesAreRun(own, Optimized(own, g, r), order[1..]);
      RunTwice(g, Visits(own, r), VisitsOfRules(own, g.graph, order[1..]));
    }
  }

  // Where the selectors are that optimizing comes to.

  /** `c` is a part of `r` that is optimized with it: an element of a sequence, the body of a loop, or one of
      the alternatives a selector was defined with. */
  ghost predicate Part(own: Extended, r: Rec, c: Rec) {
    match r
    case Sequence(es) => c in Listed(es)
    case Selector(sel, es) =>
      exists i :: 0 <= i < |Listed(es)| && Listed(es)[i] == c && (sel in own ==> i < own[sel])
    case Loop(body, _, _) => c == body
    case _ => false
  }

  /** From `rs[0]` down to the selector `sel`, from part to part. */
  ghost predicate Path(own: Extended, rs: seq<Rec>, sel: nat, es: Recs) {
    && rs != [] && rs[|rs| - 1] == Selector(sel, es)
    && forall i :: 0 <= i < |rs| - 1 ==> Part(own, rs[i], rs[i + 1])
  }

  /** The selector occurs in `r`, outside the rules that `r` refers to. */
  ghost predicate Occurs(own: Extended, r: Rec, sel: nat, es: Recs) {
    exists rs :: Path(own, rs, sel, es) && rs[0] == r
  }

  lemma {:induction false} VisitedAmong(own: Extended, es: Recs, n: nat, i: nat, v: Visit)
    requires i < n && i < |Listed(es)| && v in Visits(own, Listed(es)[i])
    ensures v in VisitsAmong(own, es, n)
    decreases i
  {
    if i > 0 {
      VisitedAmong(own, es.tail, n - 1, i - 1, v);
    }
  }

  lemma PartVisited(own: Extended, r: Rec, c: Rec, v: Visit)
    requires Part(own, r, c) && v in Visits(own, c)
    ensures v in Visits(own, r)
  {
    match r {
      case Sequence(es) =>
        ListedCount(es);
        var i :| 0 <= i < |Listed(es)| && Listed(es)[i] == c;
        VisitedAmong(own, es, Count(es), i, v);
      case Selector(sel, es) =>
        ListedCount(es);
        var i :| 0 <= i < |Listed(es)| && Listed(es)[i] == c && (sel in own ==> i < own[sel]);
        VisitedAmong(own, es, Own(own, sel, es), i, v);
      case Loop(_, _, _) =>
    }
  }

  lemma {:induction false} PathVisited(own: Extended, rs: seq<Rec>, v: Visit)
    requires Path(own, rs, v.sel, v.es)
    ensures v in Visits(own, rs[0])
    decreases |rs|
  {
    if |rs| > 1 {
      var rest := rs[1..];
      forall i | 0 <= i < |rest| - 1
        ensures Part(own, rest[i], rest[i + 1])
      {
        assert Part(own, rs[i + 1], rs[i + 2]);
      }
      PathVisited(own, rest, v);
      PartVisited(own, rs[0], rs[1], v);
    }
  }

  lemma PathExtended(own: Extended, r: Rec, rs: seq<Rec>, sel: nat, es: Recs)
    requires Path(own, rs, sel, es) && Part(own, r, rs[0])
    ensures Path(own, [r] + rs, sel, es)
  {
    var more := [r] + rs;
    forall i | 0 <= i < |more| - 1
      ensures Part(own, more[i], more[i + 1])
    {
      if i > 0 {
        assert Part(own, rs[i - 1], rs[i]);
      }
    }
  }

  lemma {:induction false} VisitedPath(own: Extended, r: Rec, v: Visit) returns (rs: seq<Rec>)
    requires v in Visits(own, r)
    ensures Path(own, rs, v.sel, v.es) && rs[0] == r
    decreases r
  {
    hide Path;
    match r {
      case Sequence(es) =>
        var i;
        i, rs := VisitedPathAmong(own, es, Count(es), v);
        PathExtended(own, r, rs, v.sel, v.es);
        rs := [r] + rs;
      case Selector(sel, es) =>
        if v == Visit(sel, es) {
          rs := [r];
          PathEnds(own, sel, es);
        } else {
          var i;
          i, rs := VisitedPathAmong(own, es, Own(own, sel, es), v);
          PathExtended(own, r, rs, v.sel, v.es);
          rs := [r] + rs;
        }
      case Loop(body, _, _) =>
        rs := VisitedPath(own, body, v);
        PathExtended(own, r, rs, v.sel, v.es);
        rs := [r] + rs;
    }
  }

  lemma PathEnds(own: Extended, sel: nat, es: Recs)
    ensures Path(own, [Selector(sel, es)], sel, es)
  {
  }

  lemma {:induction false} VisitedPathAmong(own: Extended, es: Recs, n: nat, v: Visit) returns (i: nat, rs: seq<Rec>)
    requires v in VisitsAmong(own, es, n)
    ensures i < n && i < |Listed(es)| && Path(own, rs, v.sel, v.es) && rs[0] == Listed(es)[i]
    decreases es
  {
    hide Path, Visits;
    if v in Visits(own, es.head) {
      rs := VisitedPath(own, es.head, v);
      i := 0;
    } else {
      i, rs := VisitedPathAmong(own, es.tail, n - 1, v);
      i := i + 1;
    }
  }

  /** Optimizing `r` comes to the selectors that occur in it, and to no other. */
  lemma VisitsOccur(own: Extended, r: Rec, sel: nat, es: Recs)
    ensures Visit(sel, es) in Visits(own, r) <==> Occurs(own, r, sel, es)
  {
    if Visit(sel, es) in Visits(own, r) {
      var rs := VisitedPath(own, r, Visit(sel, es));
    }
    if Occurs(own, r, sel, es) {
      var rs :| Path(own, rs, sel, es) && rs[0] == r;
      PathVisited(own, rs, Visit(sel, es));
    }
  }

  ghost predicate OccursInRules(own: Extended, g: Graph, order: seq<Name>, sel: nat, es: Recs) {
    exists x :: x in order && x in g.rules && Occurs(own, g.rules[x], sel, es)
  }

  lemma {:induction false} VisitsOccurInRules(own: Extended, g: Graph, order: seq<Name>, sel: nat, es: Recs)
    requires forall x :: x in order ==> x in g.rules
    ensures Visit(sel, es) in VisitsOfRules(own, g, order) <==> OccursInRules(own, g, order, sel, es)
    decreases |order|
  {
    hide Occurs, Visits;
    if order != [] {
      VisitsOccur(own, g.rules[order[0]], sel, es);
      VisitsOccurInRules(own, g, order[1..], sel, es);
      assert forall x :: x in order <==> x == order[0] || x in order[1..];
      if OccursInRules(own, g, order[1..], sel, es) {
        var x :| x in order[1..] && x in g.rules && Occurs(own, g.rules[x], sel, es);
        assert x in order;
      }
    }
  }

  // When the maps of the alternatives are disjoint.

  /** No octet is in the maps of two alternatives. */
  ghost predicate Apart(g: Grammar, es: Recs) {
    forall i, j, b: Byte :: 0 <= i < j < |Listed(es)| ==>
      !(StartsWith(g, Listed(es)[i], b) && StartsWith(g, Listed(es)[j], b))
  }

  ghost predicate Untouched(g: Grammar, rs: seq<Rec>, seen: set<Byte>) {
    forall i, b: Byte :: 0 <= i < |rs| && b in seen ==> !StartsWith(g, rs[i], b)
  }

  lemma {:induction false} DisjointIsApart(g: Grammar, es: Recs, seen: set<Byte>)
    requires WellFormed(g.graph) && PlacedAll(g.graph, es)
    ensures Disjoint(g, es, seen) <==> Apart(g, es) && Untouched(g, Listed(es), seen)
    decreases es
  {
    hide WellFormed, Starts;
    if es.Cons? {
      var starts := set b: Byte | Starts(g, es.head, b);
      DisjointIsApart(g, es.tail, seen + starts);
      ApartSplits(g, es);
      assert forall b: Byte :: b in starts <==> StartsWith(g, es.head, b);
      UntouchedSplits(g, es, seen, starts);
    }
  }

  /** No octet is in the maps of both `r` and one of `rs`. */
  ghost predicate Excludes(g: Grammar, r: Rec, rs: seq<Rec>) {
    forall j, b: Byte :: 0 <= j < |rs| ==> !(StartsWith(g, r, b) && StartsWith(g, rs[j], b))
  }

  lemma ApartSplits(g: Grammar, es: Recs)
    requires es.Cons?
    ensures Apart(g, es) <==> Apart(g, es.tail) && Excludes(g, es.head, Listed(es.tail))
  {
    hide StartsWith;
    var rs, rest := Listed(es), Listed(es.tail);
    assert rs[0] == es.head && rs[1..] == rest;
    if Apart(g, es) {
      forall i, j, b: Byte | 0 <= i < j < |rest|
        ensures !(StartsWith(g, rest[i], b) && StartsWith(g, rest[j], b))
      {
        assert rs[i + 1] == rest[i] && rs[j + 1] == rest[j];
      }
      forall j, b: Byte | 0 <= j < |rest|
        ensures !(StartsWith(g, es.head, b) && StartsWith(g, rest[j], b))
      {
        assert rs[j + 1] == rest[j];
      }
    }
    if Apart(g, es.tail) && Excludes(g, es.head, rest) {
      forall i, j, b: Byte | 0 <= i < j < |rs|
        ensures !(StartsWith(g, rs[i], b) && StartsWith(g, rs[j], b))
      {
        assert rs[j] == rest[j - 1] && (i > 0 ==> rs[i] == rest[i - 1]);
      }
    }
  }

  lemma UntouchedSplits(g: Grammar, es: Recs, seen: set<Byte>, starts: set<Byte>)
    requires es.Cons? && forall b: Byte :: b in starts <==> StartsWith(g, es.head, b)
    ensures Untouched(g, Listed(es.tail), seen + starts) <==>
            Untouched(g, Listed(es.tail), seen) && Excludes(g, es.head, Listed(es.tail))
    ensures Untouched(g, Listed(es), seen) <==>
            Untouched(g, Listed(es.tail), seen) && forall b: Byte :: b in seen ==> !StartsWith(g, es.head, b)
  {
    hide StartsWith;
    var rs, rest := Listed(es), Listed(es.tail);
    assert forall j :: 0 <= j < |rest| ==> rs[j + 1] == rest[j];
    assert forall j :: 0 < j < |rs| ==> rs[j] == rest[j - 1];
    assert rs[0] == es.head;
  }

  /** Optimizing as a run over the selectors that occur in the rules: the flag of each is set if no octet is
      in the maps of two of its alternatives, as they are when its turn comes. */
  ghost predicate FlagRun(own: Extended, order: seq<Name>, vs: seq<Visit>, gs: seq<Grammar>) {
    && |gs| == |vs| + 1
    && (forall sel, es :: Visit(sel, es) in vs <==> OccursInRules(own, gs[0].graph, order, sel, es))
    && (forall i :: 0 <= i < |vs| ==>
          gs[i + 1] == gs[i].(exclusive := gs[i].exclusive + if Apart(gs[i], vs[i].es) then {vs[i].sel} else {}))
  }

  lemma {:induction false} RunSteps(g: Grammar, vs: seq<Visit>) returns (gs: seq<Grammar>)
    requires WellFormed(g.graph) && AllPlaced(g.graph, vs)
    ensures |gs| == |vs| + 1 && gs[0] == g && gs[|vs|] == Run(g, vs)
    ensures forall i :: 0 <= i < |vs| ==>
              gs[i + 1] == gs[i].(exclusive := gs[i].exclusive + if Apart(gs[i], vs[i].es) then {vs[i].sel} else {})
    decreases |vs|
  {
    hide WellFormed, Disjoint, Apart;
    if vs == [] {
      gs := [g];
    } else {
      assert PlacedVisit(g.graph, vs[0]);
      DisjointIsApart(g, vs[0].es, {});
      var later := if Disjoint(g, vs[0].es, {}) then Flip(g, vs[0].sel) else g;
      var rest := RunSteps(later, vs[1..]);
      gs := [g] + rest;
      forall i | 0 <= i < |vs|
        ensures gs[i + 1] == gs[i].(exclusive := gs[i].exclusive + if Apart(gs[i], vs[i].es) then {vs[i].sel} else {})
      {
        if i > 0 {
          assert vs[i] == vs[1..][i - 1] && gs[i] == rest[i - 1] && gs[i + 1] == rest[i];
        }
      }
    }
  }

  /** Which flags are set, whatever the maps are worth. */
  lemma OptimizedRuns(own: Extended, g: Grammar, order: seq<Name>) returns (vs: seq<Visit>, gs: seq<Grammar>)
    requires WellFormed(g.graph) && forall x :: x in order ==> x in g.graph.rules
    ensures FlagRun(own, order, vs, gs) && gs[0] == g && gs[|vs|] == OptimizedRules(own, g, order)
  {
    hide WellFormed, Apart, AllPlaced, Run, OccursInRules;
    OptimizedRulesAreRun(own, g, order);
    vs := VisitsOfRules(own, g.graph, order);
    gs := RunSteps(g, vs);
    forall sel, es
      ensures Visit(sel, es) in vs <==> OccursInRules(own, gs[0].graph, order, sel, es)
    {
      VisitsOccurInRules(own, g.graph, order, sel, es);
    }
  }

  // With maps that can be trusted, it is the maps to begin with that count, so neither the flags set on the
  // way nor the order of the rules matter.

  /** The selectors of `safe` can be made exclusive: their maps can be trusted and their alternatives are
      not nullable. */
  ghost predicate Safe(g: Grammar, safe: set<nat>)
    requires WellFormed(g.graph)
  {
    forall sel :: sel in safe && sel !in g.exclusive && sel in g.graph.alts && PlacedAll(g.graph, g.graph.alts[sel]) ==>
      MappableAll(g, g.graph.alts[sel]) && !AnyNullable(g.graph, g.graph.alts[sel])
  }

  /** `g` is `base` with some flags set that nothing can observe. */
  ghost predicate Reaches(base: Grammar, g: Grammar) {
    g.graph == base.graph && Equivalent(base, g) && base.exclusive <= g.exclusive
  }

  /** Those of the selectors with disjoint maps. */
  ghost function Found(g: Grammar, vs: seq<Visit>): set<nat>
    requires WellFormed(g.graph) && AllPlaced(g.graph, vs)
  {
    if vs == [] then {}
    else
      assert PlacedVisit(g.graph, vs[0]);
      (if Disjoint(g, vs[0].es, {}) then {vs[0].sel} else {}) + Found(g, vs[1..])
  }

  lemma FlipReaches(base: Grammar, safe: set<nat>, g: Grammar, sel: nat)
    requires WellFormed(base.graph) && Reaches(base, g) && Safe(base, safe)
    requires sel in safe || sel in base.exclusive
    requires sel in g.graph.alts && PlacedAll(g.graph, g.graph.alts[sel]) && Disjoint(g, g.graph.alts[sel], {})
    ensures Reaches(base, Flip(g, sel))
  {
    hide WellFormed, Disjoint, Agrees;
    if sel in g.exclusive {
      assert Flip(g, sel) == g;
    } else {
      MappableAllSame(base, g, g.graph.alts[sel]);
      DisjointAgrees(g, g.graph.alts[sel]);
      FlipEquivalent(g, sel);
      EquivalentTwice(base, g, Flip(g, sel));
    }
  }

  /** If the selectors to be made exclusive are safe, or those that have been are, nothing can be observed. */
  lemma {:induction false} RunReaches(base: Grammar, safe: set<nat>, g: Grammar, vs: seq<Visit>)
    requires WellFormed(base.graph) && Reaches(base, g) && Safe(base, safe) && AllPlaced(base.graph, vs)
    requires Found(base, vs) <= safe || Run(g, vs).exclusive <= base.exclusive + safe
    ensures Reaches(base, Run(g, vs)) && Run(g, vs).exclusive == g.exclusive + Found(base, vs)
    decreases |vs|
  {
    hide WellFormed, Equivalent, Safe, Disjoint;
    if vs != [] {
      assert PlacedVisit(g.graph, vs[0]);
      DisjointSame(base, g, vs[0].es, {});
      var later := if Disjoint(g, vs[0].es, {}) then Flip(g, vs[0].sel) else g;
      if Disjoint(g, vs[0].es, {}) {
        assert vs[0].sel in later.exclusive && later.exclusive <= Run(later, vs[1..]).exclusive;
        FlipReaches(base, safe, g, vs[0].sel);
      }
      RunReaches(base, safe, later, vs[1..]);
    }
  }

  lemma {:induction false} FoundSome(g: Grammar, vs: seq<Visit>, sel: nat)
    requires WellFormed(g.graph) && AllPlaced(g.graph, vs)
    ensures sel in Found(g, vs) <==> exists es :: Visit(sel, es) in vs && Apart(g, es)
    decreases |vs|
  {
    hide WellFormed, Disjoint, Apart, PlacedAll;
    if vs != [] {
      assert PlacedVisit(g.graph, vs[0]);
      DisjointIsApart(g, vs[0].es, {});
      FoundSome(g, vs[1..], sel);
      assert vs == [vs[0]] + vs[1..];
      assert forall v :: v in vs <==> v == vs[0] || v in vs[1..];
    }
  }

  /** A selector that occurs in the rules of `order`, with no octet in the maps of two alternatives. */
  ghost predicate Separable(own: Extended, g: Grammar, order: seq<Name>, sel: nat) {
    exists es :: OccursInRules(own, g.graph, order, sel, es) && Apart(g, es)
  }

  lemma TrustedIsSafe(g: Grammar, g': Grammar)
    requires WellFormed(g.graph) && Grown(g, g') && Trusted(g, g') && NoneNullable(g, g')
    ensures Safe(g, g'.exclusive)
  {
  }

  /** A selector is exclusive in the result exactly if it was before or is one whose alternatives have
      disjoint maps, wherever it occurs in the rules. */
  lemma OptimizedFlags(own: Extended, g: Grammar, order: seq<Name>, sel: nat)
    requires WellFormed(g.graph) && forall x :: x in order ==> x in g.graph.rules
    requires Trusted(g, OptimizedRules(own, g, order)) && NoneNullable(g, OptimizedRules(own, g, order))
    ensures sel in OptimizedRules(own, g, order).exclusive <==> sel in g.exclusive || Separable(own, g, order, sel)
  {
    assert Reaches(g, g);
    TrustedIsSafe(g, OptimizedRules(own, g, order));
    hide WellFormed, Reaches, Safe, Trusted, NoneNullable, OptimizedRules, AllPlaced, Run, Found, OccursInRules, Apart;
    OptimizedRulesAreRun(own, g, order);
    var vs := VisitsOfRules(own, g.graph, order);
    RunReaches(g, Run(g, vs).exclusive, g, vs);
    FoundSome(g, vs, sel);
    forall es
      ensures Visit(sel, es) in vs <==> OccursInRules(own, g.graph, order, sel, es)
    {
      VisitsOccurInRules(own, g.graph, order, sel, es);
    }
  }

  /** The order in which the rules are optimized makes no difference to the result. */
  lemma OrderIrrelevant(own: Extended, g: Grammar, order: seq<Name>, other: seq<Name>)
    requires WellFormed(g.graph) && forall x :: x in order ==> x in g.graph.rules
    requires Trusted(g, OptimizedRules(own, g, order)) && NoneNullable(g, OptimizedRules(own, g, order))
    requires forall x :: x in order <==> x in other
    ensures OptimizedRules(own, g, other) == OptimizedRules(own, g, order)
  {
    assert Reaches(g, g);
    var g' := OptimizedRules(own, g, order);
    TrustedIsSafe(g, g');
    hide WellFormed, Reaches, Safe, Trusted, NoneNullable, OptimizedRules, AllPlaced, Run, Found, Apart, Occurs;
    OptimizedRulesAreRun(own, g, order);
    OptimizedRulesAreRun(own, g, other);
    var vs, vs' := VisitsOfRules(own, g.graph, order), VisitsOfRules(own, g.graph, other);
    RunReaches(g, g'.exclusive, g, vs);
    forall sel
      ensures sel in Found(g, vs') <==> sel in Found(g, vs)
    {
      FoundSome(g, vs, sel);
      FoundSome(g, vs', sel);
      forall es
        ensures Visit(sel, es) in vs <==> Visit(sel, es) in vs'
      {
        VisitsOccurInRules(own, g.graph, order, sel, es);
        VisitsOccurInRules(own, g.graph, other, sel, es);
      }
    }
    assert Found(g, vs') == Found(g, vs);
    RunReaches(g, g'.exclusive, g, vs');
  }

  /** Optimizing the rules of a grammar, in whatever order, changes neither what any recognizer
      matches nor what it assigns, if the selectors made exclusive can be trusted. */
  lemma OptimizedRulesKeep(own: Extended, g: Grammar, order: seq<Name>)
    requires WellFormed(g.graph) && forall x :: x in order ==> x in g.graph.rules
    requires Trusted(g, OptimizedRules(own, g, order)) && NoneNullable(g, OptimizedRules(own, g, order))
    ensures Equivalent(g, OptimizedRules(own, g, order))
  {
    assert Reaches(g, g);
    TrustedIsSafe(g, OptimizedRules(own, g, order));
    hide WellFormed, Equivalent, Safe, Trusted, NoneNullable, OptimizedRules;
    OptimizedRulesAreRun(own, g, order);
    RunReaches(g, OptimizedRules(own, g, order).exclusive, g, VisitsOfRules(own, g.graph, order));
  }

  /** The selectors made exclusive may be fed at the end of the input, and are sharp. */
  ghost predicate SharpFlips(g: Grammar, g': Grammar)
    requires WellFormed(g.graph) && Grown(g, g')
  {
    forall sel :: sel in g'.exclusive && sel !in g.exclusive ==>
      OkAll(g.graph, g.graph.alts[sel], false) && SharpAll(g, g.graph.alts[sel])
  }

  /** When the maps can be trusted, optimizing the rules preserves what every recognizer matches, the
      selectors made exclusive included, if and only if none of those has a nullable alternative. */
  lemma OptimizedRulesExactly(own: Extended, g: Grammar, order: seq<Name>)
    requires WellFormed(g.graph) && SharpRules(g) && forall x :: x in order ==> x in g.graph.rules
    requires Trusted(g, OptimizedRules(own, g, order)) && SharpFlips(g, OptimizedRules(own, g, order))
    ensures Equivalent(g, OptimizedRules(own, g, order)) <==> NoneNullable(g, OptimizedRules(own, g, order))
  {
    hide WellFormed, Equivalent, Trusted, OkAll, SharpAll, SharpRules, AnyNullable, NeverEmpty;
    var g' := OptimizedRules(own, g, order);
    if Equivalent(g, g') {
      forall sel | sel in g'.exclusive && sel !in g.exclusive
        ensures !AnyNullable(g.graph, g.graph.alts[sel])
      {
        EquivalentNeverEmpty(g, g', sel);
        NeverEmptyExactly(g, g.graph.alts[sel]);
      }
    }
    if NoneNullable(g, g') {
      OptimizedRulesKeep(own, g, order);
    }
  }

  // What parsing can observe is what the rules match. A flip that a rule does not hide is observed
  // exactly when an alternative is nullable; a rule such as r = [S] hides the flip of S.

  /** The rule `x` matches and assigns the same in both grammars, on every input. */
  ghost predicate RuleKept(g: Grammar, g': Grammar, x: Name)
    requires WellFormed(g.graph) && g'.graph == g.graph
  {
    forall t, h, s, pos: nat :: Ready(g.graph, Named(x), s, pos) ==>
      Parse(g', t, h, Named(x), s, pos) == Parse(g, t, h, Named(x), s, pos)
  }

  ghost predicate RulesKept(g: Grammar, g': Grammar)
    requires WellFormed(g.graph) && g'.graph == g.graph
  {
    forall x :: x in g.graph.rules ==> RuleKept(g, g', x)
  }

  /** Whether the rule `x` can match nothing hinges on the selector `sel`: it cannot with the flags of
      `g'`, and it can with those of `g` if an alternative of `sel` is nullable. */
  predicate Hinges(g: Grammar, g': Grammar, sel: nat, x: Name)
    requires WellFormed(g.graph) && g'.graph == g.graph && sel in g.graph.alts
  {
    && x in g.graph.rules && x in g.graph.atEnd
    && !Vanishes(g', Named(x))
    && (AnyNullable(g.graph, g.graph.alts[sel]) ==> Vanishes(g, Named(x)))
  }

  lemma EquivalentKeepsRule(g: Grammar, g': Grammar, x: Name)
    requires WellFormed(g.graph) && Equivalent(g, g')
    ensures RuleKept(g, g', x)
  {
  }

  lemma KeptNotNullable(g: Grammar, g': Grammar, sel: nat, x: Name)
    requires WellFormed(g.graph) && g'.graph == g.graph && sel in g.graph.alts
    requires Hinges(g, g', sel, x) && RuleKept(g, g', x)
    ensures !AnyNullable(g.graph, g.graph.alts[sel])
  {
    hide WellFormed, Parse, Vanishes, AnyNullable;
    var r := Named(x);
    assert Ready(g.graph, r, [], 0);
    ParsedAtEnd(g, map[], "", r, []);
    ParsedAtEnd(g', map[], "", r, []);
    assert Parse(g', map[], "", r, [], 0) == Parse(g, map[], "", r, [], 0);
  }

  /** Making a selector exclusive preserves a rule that hinges on it if and only if none of its
      alternatives is nullable. */
  lemma FlipKeepsRuleExactly(g: Grammar, sel: nat, x: Name)
    requires WellFormed(g.graph) && sel in g.graph.alts && PlacedAll(g.graph, g.graph.alts[sel])
    requires MappableAll(g, g.graph.alts[sel]) && Disjoint(g, g.graph.alts[sel], {})
    requires Hinges(g, Flip(g, sel), sel, x)
    ensures RuleKept(g, Flip(g, sel), x) <==> !AnyNullable(g.graph, g.graph.alts[sel])
  {
    hide WellFormed, Equivalent, Disjoint, MappableAll, AnyNullable, Agrees, Hinges, RuleKept;
    if RuleKept(g, Flip(g, sel), x) {
      KeptNotNullable(g, Flip(g, sel), sel, x);
    }
    if !AnyNullable(g.graph, g.graph.alts[sel]) {
      DisjointAgrees(g, g.graph.alts[sel]);
      FlipEquivalent(g, sel);
      EquivalentKeepsRule(g, Flip(g, sel), x);
    }
  }

  /** A rule that is a selector hinges on it. */
  lemma SelectorHinges(g: Grammar, g': Grammar, sel: nat, x: Name)
    requires WellFormed(g.graph) && SharpRules(g) && sel in g.graph.alts && SharpAll(g, g.graph.alts[sel])
    requires g'.graph == g.graph && sel !in g.exclusive && sel in g'.exclusive
    requires x in g.graph.rules && x in g.graph.atEnd && g.graph.rules[x] == Selector(sel, g.graph.alts[sel])
    ensures Hinges(g, g', sel, x)
  {
    assert RuleOk(g.graph, x);
    SharpAnyVanishes(g, g.graph.alts[sel]);
  }

  /** So a rule that is a selector is preserved when that is made exclusive if and only if none of its
      alternatives is nullable. */
  lemma SelectorRuleExactly(g: Grammar, sel: nat, x: Name)
    requires WellFormed(g.graph) && SharpRules(g) && sel in g.graph.alts && sel !in g.exclusive
    requires SharpAll(g, g.graph.alts[sel]) && PlacedAll(g.graph, g.graph.alts[sel])
    requires MappableAll(g, g.graph.alts[sel]) && Disjoint(g, g.graph.alts[sel], {})
    requires x in g.graph.rules && x in g.graph.atEnd && g.graph.rules[x] == Selector(sel, g.graph.alts[sel])
    ensures RuleKept(g, Flip(g, sel), x) <==> !AnyNullable(g.graph, g.graph.alts[sel])
  {
    SelectorHinges(g, Flip(g, sel), sel, x);
    FlipKeepsRuleExactly(g, sel, x);
  }

  /** Some rule hinges on each selector made exclusive. */
  ghost predicate NoneHidden(g: Grammar, g': Grammar)
    requires WellFormed(g.graph) && Grown(g, g')
  {
    forall sel :: sel in g'.exclusive && sel !in g.exclusive ==> exists x :: Hinges(g, g', sel, x)
  }

  /** When the maps can be trusted and no rule hides a flip, optimizing preserves the rules if and only
      if no selector made exclusive has a nullable alternative. */
  lemma OptimizedRulesKeptExactly(own: Extended, g: Grammar, order: seq<Name>)
    requires WellFormed(g.graph) && forall x :: x in order ==> x in g.graph.rules
    requires Trusted(g, OptimizedRules(own, g, order)) && NoneHidden(g, OptimizedRules(own, g, order))
    ensures RulesKept(g, OptimizedRules(own, g, order)) <==> NoneNullable(g, OptimizedRules(own, g, order))
  {
    hide WellFormed, Equivalent, Trusted, AnyNullable, RuleKept, Hinges;
    var g' := OptimizedRules(own, g, order);
    if RulesKept(g, g') {
      forall sel | sel in g'.exclusive && sel !in g.exclusive
        ensures !AnyNullable(g.graph, g.graph.alts[sel])
      {
        var x :| Hinges(g, g', sel, x);
        assert x in g.graph.rules by { HingesOnRule(g, g', sel, x); }
        KeptNotNullable(g, g', sel, x);
      }
    }
    if NoneNullable(g, g') {
      OptimizedRulesKeep(own, g, order);
      forall x | x in g.graph.rules
        ensures RuleKept(g, g', x)
      {
        EquivalentKeepsRule(g, g', x);
      }
    }
  }

  lemma HingesOnRule(g: Grammar, g': Grammar, sel: nat, x: Name)
    requires WellFormed(g.graph) && g'.graph == g.graph && sel in g.graph.alts && Hinges(g, g', sel, x)
    ensures x in g.graph.rules
  {
  }

  /** Feeding the alternatives of `sel` is not affected by its flag. */
  ghost predicate Unaffected(g: Grammar, sel: nat)
    requires WellFormed(g.graph) && sel in g.graph.alts
  {
    forall t, h, s, pos: nat :: ReadyAll(g.graph, g.graph.alts[sel], s, pos) ==>
      ParseFirst(Flip(g, sel), t, h, g.graph.alts[sel], s, pos) == ParseFirst(g, t, h, g.graph.alts[sel], s, pos)
  }

  /** An option is left after one iteration, and matches nothing if that fails. */
  lemma OptionParsed(g: Grammar, t: Table, h: Name, body: Rec, s: Bytes, pos: nat)
    requires WellFormed(g.graph) && pos <= |s| && LoopOk(g.graph, body, 1)
    requires At(s, pos) != 0 ==> Ready(g.graph, body, s, pos)
    ensures var m := if At(s, pos) == 0 then NoMatch else Parse(g, t, h, body, s, pos);
            ParseLoop(g, t, h, body, 0, 1, 0, s, pos) == if m.Match? then m else Match(0, [])
  {
    hide WellFormed, Parse, ParseLoop, LoopOk;
    if At(s, pos) != 0 {
      LoopUnfolds(g, t, h, body, 0, 1, 0, s, pos);
      var m := Parse(g, t, h, body, s, pos);
      if m.Match? {
        LoopEnds(g, t, h, body, 0, 1, 1, s, pos + m.len);
        assert m.out + [] == m.out;
        return;
      }
    }
    LoopEnds(g, t, h, body, 0, 1, 0, s, pos);
  }

  /** An exclusive selector fails where the plain one matched nothing, and otherwise does the same. */
  lemma FlippedParsed(g: Grammar, sel: nat, t: Table, h: Name, s: Bytes, pos: nat)
    requires WellFormed(g.graph) && sel in g.graph.alts && sel !in g.exclusive && Unaffected(g, sel)
    requires ReadyAll(g.graph, g.graph.alts[sel], s, pos) && PlacedAll(g.graph, g.graph.alts[sel])
    requires MappableAll(g, g.graph.alts[sel]) && Disjoint(g, g.graph.alts[sel], {})
    ensures var r := Selector(sel, g.graph.alts[sel]);
            && Ready(g.graph, r, s, pos)
            && Parse(Flip(g, sel), t, h, r, s, pos) == WithoutEmpty(Parse(g, t, h, r, s, pos))
  {
    hide WellFormed, Disjoint, MappableAll, Parse, ParseFirst, ParseBest;
    var es := g.graph.alts[sel];
    SelectorReady(g.graph, sel, s, pos);
    SelectorParsed(g, t, h, sel, s, pos);
    SelectorParsed(Flip(g, sel), t, h, sel, s, pos);
    FirstIsBest(g, t, h, es, NoMatch, {}, s, pos);
    assert ParseFirst(Flip(g, sel), t, h, es, s, pos) == ParseFirst(g, t, h, es, s, pos);
  }

  lemma OptionBodySame(g: Grammar, sel: nat, t: Table, h: Name, s: Bytes, pos: nat)
    requires WellFormed(g.graph) && sel in g.graph.alts && sel !in g.exclusive && Unaffected(g, sel)
    requires PlacedAll(g.graph, g.graph.alts[sel]) && LoopOk(g.graph, Selector(sel, g.graph.alts[sel]), 1)
    requires MappableAll(g, g.graph.alts[sel]) && Disjoint(g, g.graph.alts[sel], {}) && pos <= |s|
    ensures var r := Selector(sel, g.graph.alts[sel]);
            ParseLoop(Flip(g, sel), t, h, r, 0, 1, 0, s, pos) == ParseLoop(g, t, h, r, 0, 1, 0, s, pos)
  {
    hide WellFormed, Disjoint, MappableAll, Parse, ParseLoop, Unaffected;
    var r := Selector(sel, g.graph.alts[sel]);
    if At(s, pos) != 0 {
      assert ReadyAll(g.graph, g.graph.alts[sel], s, pos);
      FlippedParsed(g, sel, t, h, s, pos);
    }
    OptionParsed(g, t, h, r, s, pos);
    OptionParsed(Flip(g, sel), t, h, r, s, pos);
  }

  /** A rule r = [S] is preserved whatever the alternatives of S: the option matches nothing where S
      did, and where S fails once it is exclusive. */
  lemma OptionHides(g: Grammar, sel: nat, x: Name)
    requires WellFormed(g.graph) && sel in g.graph.alts && sel !in g.exclusive && Unaffected(g, sel)
    requires PlacedAll(g.graph, g.graph.alts[sel])
    requires MappableAll(g, g.graph.alts[sel]) && Disjoint(g, g.graph.alts[sel], {})
    requires x in g.graph.rules && g.graph.rules[x] == Loop(Selector(sel, g.graph.alts[sel]), 0, 1)
    ensures RuleKept(g, Flip(g, sel), x)
  {
    hide WellFormed, Disjoint, MappableAll, ParseLoop, Unaffected;
    RuleIsOk(g.graph, x);
    forall t, h, s, pos: nat | Ready(g.graph, Named(x), s, pos)
      ensures Parse(Flip(g, sel), t, h, Named(x), s, pos) == Parse(g, t, h, Named(x), s, pos)
    {
      OptionBodySame(g, sel, t, if x in t then x else h, s, pos);
    }
  }

  ghost function MaskOf(mask: array<bool>): set<Byte>
    requires mask.Length == 256
    reads mask
  {
    set b: Byte | mask[b]
  }

  method Intersects(mask: array<bool>, other: array<bool>) returns (found: bool)
    requires mask.Length == 256 && other.Length == 256
    ensures found <==> exists b: Byte :: b in MaskOf(mask) && b in MaskOf(other)
  {
    var i := 0;
    while i < 256
      invariant 0 <= i <= 256
      invariant forall b: Byte :: b < i ==> !(mask[b] && other[b])
    {
      if mask[i] && other[i] {
        assert i in MaskOf(mask) && i in MaskOf(other);
        return true;
      }
      i := i + 1;
    }
    found := false;
  }

  method MergeInto(mask: array<bool>, other: array<bool>)
    requires mask.Length == 256 && other.Length == 256 && mask != other
    modifies mask
    ensures MaskOf(mask) == old(MaskOf(mask)) + MaskOf(other)
  {
    var i := 0;
    while i < 256
      invariant 0 <= i <= 256
      invariant forall k :: 0 <= k < i ==> mask[k] == (old(mask[k]) || other[k])
      invariant forall k :: i <= k < 256 ==> mask[k] == old(mask[k])
    {
      if other[i] {
        mask[i] := true;
      }
      i := i + 1;
    }
  }

  /** A grammar whose selectors are made exclusive in place. */
  class OptimizedGrammar {
    const graph: Graph
    const own: Extended
    var exclusive: set<nat>

    function Value(): Grammar
      reads this
    {
      Grammar(graph, exclusive)
    }

    constructor (g: Grammar, own: Extended)
      ensures Value() == g && this.own == own
    {
      graph, exclusive, this.own := g.graph, g.exclusive, own;
    }

    /** The default transition map: feeds every single octet, followed by 0. */
    method ProbeAll(r: Rec, mask: array<bool>)
      requires WellFormed(graph) && Placed(graph, r) && mask.Length == 256
      modifies mask
      ensures MaskOf(mask) == old(MaskOf(mask)) + set b: Byte | ProbedAlone(Value(), r, b)
    {
      var g, i := Value(), 0;
      while i < 256
        invariant 0 <= i <= 256
        invariant forall b: Byte :: mask[b] == (old(mask[b]) || (b < i && ProbedAlone(g, r, b)))
      {
        if ProbedAlone(g, r, i) {
          mask[i] := true;
        }
        i := i + 1;
      }
    }

    /** Adds the transition map of `r` to `mask`, and returns whether it claims to be complete. */
    method GetTransitionMap(r: Rec, mask: array<bool>) returns (complete: bool)
      requires WellFormed(graph) && Placed(graph, r) && mask.Length == 256
      modifies mask
      ensures complete == Complete(graph, r)
      ensures MaskOf(mask) == old(MaskOf(mask)) + set b: Byte | Starts(Value(), r, b)
      decreases HeadRank(graph, r), r
    {
      complete := true;
      match r {
        case CharRec(_, _) => ProbeAll(r, mask);
        case CharRange(_, _) => ProbeAll(r, mask);
        case Pointer(_) => ProbeAll(r, mask);
        case Alias(_) => ProbeAll(r, mask);
        case Literal(lit) =>
          var c := if lit == [] then 0 else lit[0];
          mask[ToLower(c)] := true;
          mask[ToUpper(c)] := true;
        case Sequence(es) =>
          complete := SequenceMap(es, mask);
        case Selector(_, es) =>
          SelectorMap(es, mask);
        case Loop(body, min, _) =>
          var _ := GetTransitionMap(body, mask);
          complete := min != 0;
        case Named(x) =>
          assert RuleOk(graph, x);
          complete := GetTransitionMap(graph.rules[x], mask);
      }
    }

    method SequenceMap(es: Recs, mask: array<bool>) returns (complete: bool)
      requires WellFormed(graph) && PlacedSequence(graph, es) && mask.Length == 256
      modifies mask
      ensures complete == CompleteSequence(graph, es)
      ensures MaskOf(mask) == old(MaskOf(mask)) + set b: Byte | StartsSequence(Value(), es, b)
      decreases SequenceRank(graph, es), es
    {
      var it := es;
      complete := false;
      while it.Cons? && !complete
        invariant it == es || it < es
        invariant PlacedSequence(graph, it) && (complete || SequenceRank(graph, it) <= SequenceRank(graph, es))
        invariant CompleteSequence(graph, es) == (complete || CompleteSequence(graph, it))
        invariant forall b: Byte :: (old(mask[b]) || StartsSequence(Value(), es, b)) ==
                    (mask[b] || (!complete && StartsSequence(Value(), it, b)))
        decreases it
      {
        ghost var before := MaskOf(mask);
        complete := GetTransitionMap(it.head, mask);
        assert forall b: Byte :: mask[b] <==> b in MaskOf(mask);
        assert forall b: Byte :: b in MaskOf(mask) <==> b in before || Starts(Value(), it.head, b);
        it := it.tail;
      }
    }

    method SelectorMap(es: Recs, mask: array<bool>)
      requires WellFormed(graph) && PlacedAll(graph, es) && mask.Length == 256
      modifies mask
      ensures MaskOf(mask) == old(MaskOf(mask)) + set b: Byte | StartsAny(Value(), es, b)
      decreases SelectorRank(graph, es), es
    {
      var it := es;
      while it.Cons?
        invariant it == es || it < es
        invariant PlacedAll(graph, it) && SelectorRank(graph, it) <= SelectorRank(graph, es)
        invariant forall b: Byte ::
                    (old(mask[b]) || StartsAny(Value(), es, b)) == (mask[b] || StartsAny(Value(), it, b))
        decreases it
      {
        ghost var before := MaskOf(mask);
        var _ := GetTransitionMap(it.head, mask);
        assert forall b: Byte :: mask[b] <==> b in MaskOf(mask);
        assert forall b: Byte :: b in MaskOf(mask) <==> b in before || Starts(Value(), it.head, b);
        it := it.tail;
      }
    }

    /** Whether two alternatives may start with the same octet, as far as their maps can tell. */
    method IntersectionFound(es: Recs) returns (found: bool)
      requires WellFormed(graph) && PlacedAll(graph, es)
      ensures found == !Disjoint(Value(), es, {})
    {
      var all: array?<bool> := null;
      ghost var seen: set<Byte> := {};
      var it := es;
      found := false;
      while it.Cons? && !found
        invariant PlacedAll(graph, it)
        invariant all != null ==> fresh(all) && all.Length == 256 && MaskOf(all) == seen
        invariant all == null ==> seen == {}
        invariant Disjoint(Value(), es, {}) == (!found && Disjoint(Value(), it, seen))
        decreases it
      {
        var cur := new bool[256](_ => false);
        assert MaskOf(cur) == {};
        var _ := GetTransitionMap(it.head, cur);
        ghost var starts := set b: Byte | Starts(Value(), it.head, b);
        assert MaskOf(cur) == starts;
        if all != null {
          found := Intersects(cur, all);
          MergeInto(all, cur);
        } else {
          all := cur;
        }
        seen := seen + starts;
        it := it.tail;
      }
    }

    method OptimizeBody(r: Rec)
      requires WellFormed(graph) && Placed(graph, r)
      modifies this`exclusive
      ensures Value() == Optimized(own, old(Value()), r)
      decreases r, 0
    {
      match r {
        case Sequence(es) =>
          var it := es;
          while it.Cons?
            invariant it == es || it < es
            invariant PlacedSequence(graph, it)
            invariant OptimizedSequence(own, Value(), it) == OptimizedSequence(own, old(Value()), es)
            decreases it
          {
            OptimizeElement(it.head);
            it := it.tail;
          }
        case Selector(sel, es) =>
          var it, n := es, Own(own, sel, es);
          while it.Cons? && n > 0
            invariant it == es || it < es
            invariant PlacedAll(graph, it)
            invariant OptimizedAll(own, Value(), it, n) == OptimizedAll(own, old(Value()), es, Own(own, sel, es))
            decreases it
          {
            OptimizeElement(it.head);
            it, n := it.tail, n - 1;
          }
          var intersectionFound := IntersectionFound(es);
          if !intersectionFound {
            exclusive := exclusive + {sel};
          }
        case Loop(body, _, _) => OptimizeElement(body);
        case _ =>
      }
    }

    /** Stops on a rule, which is optimized on its own. */
    method OptimizeElement(r: Rec)
      requires WellFormed(graph) && Placed(graph, r)
      modifies this`exclusive
      ensures Value() == OptimizedElement(own, old(Value()), r)
      decreases r, 1
    {
      if !r.Named? {
        OptimizeBody(r);
      }
    }

    /** Optimizes every rule. If the maps relied upon can be trusted, no recognizer changes, the selectors
        made exclusive included, exactly when none of those has a nullable alternative; and no rule
        changes exactly then, if some rule hinges on each of them. */
    method Optimize(order: seq<Name>)
      requires WellFormed(graph) && forall x :: x in order ==> x in graph.rules
      modifies this`exclusive
      ensures Value() == OptimizedRules(own, old(Value()), order)
      ensures exists vs, gs :: FlagRun(own, order, vs, gs) && gs[0] == old(Value()) && gs[|vs|] == Value()
      ensures Trusted(old(Value()), Value()) && NoneNullable(old(Value()), Value()) ==>
                forall sel :: sel in exclusive <==> sel in old(exclusive) || Separable(own, old(Value()), order, sel)
      ensures old(SharpRules(Value())) && Trusted(old(Value()), Value()) && SharpFlips(old(Value()), Value()) ==>
                (Equivalent(old(Value()), Value()) <==> NoneNullable(old(Value()), Value()))
      ensures Trusted(old(Value()), Value()) && NoneHidden(old(Value()), Value()) ==>
                (RulesKept(old(Value()), Value()) <==> NoneNullable(old(Value()), Value()))
    {
      var i := 0;
      assert order[0..] == order;
      while i < |order|
        invariant 0 <= i <= |order|
        invariant OptimizedRules(own, Value(), order[i..]) == OptimizedRules(own, old(Value()), order)
      {
        assert RuleOk(graph, order[i]);
        assert order[i..][1..] == order[i + 1..];
        OptimizeBody(graph.rules[order[i]]);
        i := i + 1;
      }
      ghost var g := old(Value());
      ghost var vs, gs := OptimizedRuns(own, g, order);
      if Trusted(g, Value()) && NoneNullable(g, Value()) {
        forall sel
          ensures sel in exclusive <==> sel in g.exclusive || Separable(own, g, order, sel)
        {
          OptimizedFlags(own, g, order, sel);
        }
      }
      if SharpRules(g) && Trusted(g, Value()) && SharpFlips(g, Value()) {
        OptimizedRulesExactly(own, g, order);
      }
      if Trusted(g, Value()) && NoneHidden(g, Value()) {
        OptimizedRulesKeptExactly(own, g, order);
      }
    }
  }
}
