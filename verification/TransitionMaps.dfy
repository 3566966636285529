/** Transition maps: the octets with which a match can start, as far as the optimizer can tell. */
module TransitionMaps {
  import opened Bytes
  import opened Recognizers
  import opened PureParser

  /** `r` occurs where it may be fed, if not always at the end of the input. */
  predicate Placed(g: Graph, r: Rec) {
    Ok(g, r, false) || Ok(g, r, true)
  }

  predicate PlacedSequence(g: Graph, es: Recs) {
    OkSequence(g, es, false) || OkSequence(g, es, true)
  }

  predicate PlacedAll(g: Graph, es: Recs) {
    OkAll(g, es, false) || OkAll(g, es, true)
  }

  /** What the transition map claims: that the first octet of a match must be in it. */
  function Complete(g: Graph, r: Rec): (c: bool)
    requires WellFormed(g) && Placed(g, r)
    ensures !c ==> Nullable(g, r)
    decreases HeadRank(g, r), r
  {
    match r
    case CharRec(_, _) => true
    case CharRange(_, _) => true
    case Literal(_) => true
    case Sequence(es) => CompleteSequence(g, es)
    case Selector(_, _) => true
    case Loop(_, min, _) => min != 0
    case Pointer(_) => true
    case Alias(_) => true
    case Named(x) => assert RuleOk(g, x); Complete(g, g.rules[x])
  }

  function CompleteSequence(g: Graph, es: Recs): (c: bool)
    requires WellFormed(g) && PlacedSequence(g, es)
    ensures !c ==> AllNullable(g, es)
    decreases SequenceRank(g, es), es
  {
    es.Cons? && (Complete(g, es.head) || CompleteSequence(g, es.tail))
  }

  /** The length `r` matches on the octet `b` followed by 0, in a context that records nothing. */
  function Probe(g: Grammar, r: Rec, b: Byte): Result
    requires WellFormed(g.graph) && Placed(g.graph, r)
  {
    Parse(g, map[], "", r, [b, 0], 0)
  }

  predicate ProbedAlone(g: Grammar, r: Rec, b: Byte)
    requires WellFormed(g.graph) && Placed(g.graph, r)
  {
    Probe(g, r, b).Match? && Probe(g, r, b).len == 1
  }

  /** The transition map of `r`. */
  predicate Starts(g: Grammar, r: Rec, b: Byte)
    requires WellFormed(g.graph) && Placed(g.graph, r)
    decreases HeadRank(g.graph, r), r
  {
    match r
    case CharRec(_, _) => ProbedAlone(g, r, b)
    case CharRange(_, _) => ProbedAlone(g, r, b)
    case Literal(lit) => var c := if lit == [] then 0 else lit[0]; b == ToLower(c) || b == ToUpper(c)
    case Sequence(es) => StartsSequence(g, es, b)
    case Selector(_, es) => StartsAny(g, es, b)
    case Loop(body, _, _) => Starts(g, body, b)
    case Pointer(_) => ProbedAlone(g, r, b)
    case Alias(_) => ProbedAlone(g, r, b)
    case Named(x) => assert RuleOk(g.graph, x); Starts(g, g.graph.rules[x], b)
  }

  predicate StartsSequence(g: Grammar, es: Recs, b: Byte)
    requires WellFormed(g.graph) && PlacedSequence(g.graph, es)
    decreases SequenceRank(g.graph, es), es
  {
    es.Cons? && (Starts(g, es.head, b) || (!Complete(g.graph, es.head) && StartsSequence(g, es.tail, b)))
  }

  predicate StartsAny(g: Grammar, es: Recs, b: Byte)
    requires WellFormed(g.graph) && PlacedAll(g.graph, es)
    decreases SelectorRank(g.graph, es), es
  {
    es.Cons? && (Starts(g, es.head, b) || StartsAny(g, es.tail, b))
  }

  /** The octet `b` is in the map of `r`. */
  ghost predicate StartsWith(g: Grammar, r: Rec, b: Byte) {
    WellFormed(g.graph) && Placed(g.graph, r) && Starts(g, r, b)
  }

  /** The map of `r` claims to be complete. */
  ghost predicate Claims(g: Graph, r: Rec) {
    WellFormed(g) && Placed(g, r) && Complete(g, r)
  }

  /** `r` matches exactly one octet or fails: a terminal for one octet, a choice of those, or a
      reference to such a rule. */
  predicate Unit(g: Graph, r: Rec)
    requires WellFormed(g) && Placed(g, r)
    decreases HeadRank(g, r), r
  {
    match r
    case CharRec(_, _) => true
    case CharRange(_, _) => true
    case Literal(lit) => |lit| == 1
    case Sequence(es) => false
    case Selector(_, es) => UnitAll(g, es)
    case Loop(_, _, _) => false
    case Pointer(target) => Unit(g, target)
    case Alias(target) => Unit(g, target)
    case Named(x) => assert RuleOk(g, x); Unit(g, g.rules[x])
  }

  predicate UnitAll(g: Graph, es: Recs)
    requires WellFormed(g) && PlacedAll(g, es)
    decreases SelectorRank(g, es), es
  {
    es.Cons? ==> Unit(g, es.head) && UnitAll(g, es.tail)
  }

  /** When the transition map of `r` can be trusted. A placeholder or an alias is only probed with
      one octet, so each octet with which its target may start must be a whole match; an element of
      a sequence whose map claims to be complete must not be skipped by an empty match. */
  ghost predicate Mappable(g: Grammar, r: Rec)
    requires WellFormed(g.graph) && Placed(g.graph, r)
    decreases HeadRank(g.graph, r), r
  {
    match r
    case CharRec(_, _) => true
    case CharRange(_, _) => true
    case Literal(lit) => forall i :: 0 <= i < |lit| ==> ToLower(lit[i]) == lit[i]
    case Sequence(es) => MappableSequence(g, es)
    case Selector(_, es) => MappableAll(g, es)
    case Loop(body, _, _) => Mappable(g, body)
    case Pointer(target) => Mappable(g, target) && StartsAreMatches(g, target)
    case Alias(target) => Mappable(g, target) && StartsAreMatches(g, target)
    case Named(x) => assert RuleOk(g.graph, x); Mappable(g, g.graph.rules[x])
  }

  ghost predicate MappableSequence(g: Grammar, es: Recs)
    requires WellFormed(g.graph) && PlacedSequence(g.graph, es)
    decreases SequenceRank(g.graph, es), es
  {
    es.Cons? ==>
      && Mappable(g, es.head)
      && (if Complete(g.graph, es.head) then !Nullable(g.graph, es.head) else MappableSequence(g, es.tail))
  }

  ghost predicate MappableAll(g: Grammar, es: Recs)
    requires WellFormed(g.graph) && PlacedAll(g.graph, es)
    decreases SelectorRank(g.graph, es), es
  {
    es.Cons? ==> Mappable(g, es.head) && MappableAll(g, es.tail)
  }

  /** Every octet in the map of `r` is a whole match of `r`. */
  ghost predicate StartsAreMatches(g: Grammar, r: Rec)
    requires WellFormed(g.graph) && Placed(g.graph, r)
    decreases HeadRank(g.graph, r), r, 0
  {
    forall b: Byte :: Starts(g, r, b) ==> ProbedAlone(g, r, b)
  }

  /** Whether `r`, which stands for one octet, accepts `b`. */
  predicate UnitAccepts(g: Graph, r: Rec, b: Byte)
    requires WellFormed(g) && Placed(g, r) && Unit(g, r)
    decreases HeadRank(g, r), r
  {
    match r
    case CharRec(c, caseSensitive) => (if caseSensitive then b else ToLower(b)) == c
    case CharRange(lo, hi) => lo <= b <= hi
    case Literal(lit) => ToLower(b) == lit[0]
    case Selector(_, es) => UnitAcceptsAny(g, es, b)
    case Pointer(target) => UnitAccepts(g, target, b)
    case Alias(target) => UnitAccepts(g, target, b)
    case Named(x) => assert RuleOk(g, x); UnitAccepts(g, g.rules[x], b)
  }

  predicate UnitAcceptsAny(g: Graph, es: Recs, b: Byte)
    requires WellFormed(g) && PlacedAll(g, es) && UnitAll(g, es)
    decreases SelectorRank(g, es), es
  {
    es.Cons? && (UnitAccepts(g, es.head, b) || UnitAcceptsAny(g, es.tail, b))
  }

  predicate MatchesOne(m: Result, accepted: bool) {
    if accepted then m.Match? && m.len == 1 else m.NoMatch?
  }

  lemma {:induction false} UnitParsed(g: Grammar, t: Table, h: Name, r: Rec, s: Bytes, pos: nat)
    requires WellFormed(g.graph) && Ready(g.graph, r, s, pos) && Unit(g.graph, r)
    ensures MatchesOne(Parse(g, t, h, r, s, pos), UnitAccepts(g.graph, r, At(s, pos)))
    decreases HeadRank(g.graph, r), r, 1
  {
    if r.Named? {
      assert RuleOk(g.graph, r.name);
      UnitBodyParsed(g, t, if r.name in t then r.name else h, g.graph.rules[r.name], s, pos);
    } else {
      UnitBodyParsed(g, t, h, r, s, pos);
    }
  }

  lemma {:induction false} UnitBodyParsed(g: Grammar, t: Table, h: Name, r: Rec, s: Bytes, pos: nat)
    requires WellFormed(g.graph) && Ready(g.graph, r, s, pos) && Unit(g.graph, r) && !r.Named?
    ensures MatchesOne(ParseBody(g, t, h, r, s, pos), UnitAccepts(g.graph, r, At(s, pos)))
    decreases HeadRank(g.graph, r), r, 0
  {
    match r {
      case CharRec(_, _) =>
      case CharRange(_, _) =>
      case Literal(lit) =>
      case Selector(sel, es) => UnitAllParsed(g, t, h, es, NoMatch, s, pos);
      case Pointer(target) => UnitParsed(g, t, h, target, s, pos);
      case Alias(target) => UnitParsed(g, t, h, target, s, pos);
    }
  }

  lemma {:induction false} UnitAllParsed(g: Grammar, t: Table, h: Name, es: Recs, best: Result, s: Bytes, pos: nat)
    requires WellFormed(g.graph) && ReadyAll(g.graph, es, s, pos) && UnitAll(g.graph, es)
    requires best.Match? ==> best.len == 1
    ensures MatchesOne(ParseFirst(g, t, h, es, s, pos), UnitAcceptsAny(g.graph, es, At(s, pos)))
    ensures MatchesOne(ParseBest(g, t, h, es, best, s, pos), best.Match? || UnitAcceptsAny(g.graph, es, At(s, pos)))
    decreases SelectorRank(g.graph, es), es
  {
    if es.Cons? {
      UnitParsed(g, t, h, es.head, s, pos);
      var m := Parse(g, t, h, es.head, s, pos);
      UnitAllParsed(g, t, h, es.tail, if Better(m, best) then m else best, s, pos);
    }
  }

  // The map of a mappable recognizer contains the first octet of whatever it matches.

  lemma {:induction false} StartsSound(g: Grammar, t: Table, h: Name, r: Rec, s: Bytes, pos: nat)
    requires WellFormed(g.graph) && Ready(g.graph, r, s, pos) && Mappable(g, r)
    requires Consumed(Parse(g, t, h, r, s, pos))
    ensures Starts(g, r, s[pos])
    decreases HeadRank(g.graph, r), r, 1
  {
    match r {
      case Named(x) =>
        assert RuleOk(g.graph, x);
        StartsBodySound(g, t, if x in t then x else h, g.graph.rules[x], s, pos);
      case _ =>
        StartsBodySound(g, t, h, r, s, pos);
    }
  }

  lemma {:induction false} StartsBodySound(g: Grammar, t: Table, h: Name, r: Rec, s: Bytes, pos: nat)
    requires WellFormed(g.graph) && Ready(g.graph, r, s, pos) && Mappable(g, r) && !r.Named?
    requires Consumed(ParseBody(g, t, h, r, s, pos))
    ensures Starts(g, r, s[pos])
    decreases HeadRank(g.graph, r), r, 0
  {
    match r {
      case CharRec(_, _) =>
        UnitParsed(g, t, h, r, s, pos);
        UnitParsed(g, map[], "", r, [s[pos], 0], 0);
      case CharRange(_, _) =>
        UnitParsed(g, t, h, r, s, pos);
        UnitParsed(g, map[], "", r, [s[pos], 0], 0);
      case Literal(lit) => assert ToLower(s[pos + 0]) == lit[0];
      case Sequence(es) => StartsSequenceSound(g, t, h, es, s, pos);
      case Selector(sel, es) =>
        if sel in g.exclusive {
          StartsFirstSound(g, t, h, es, s, pos);
        } else {
          StartsBestSound(g, t, h, es, NoMatch, s, pos);
        }
      case Loop(body, min, max) => StartsLoopSound(g, t, h, body, min, max, 0, s, pos);
      case Pointer(target) =>
        StartsSound(g, t, h, target, s, pos);
        PointerProbed(g, r, target, s[pos]);
      case Alias(target) =>
        StartsSound(g, t, h, target, s, pos);
        PointerProbed(g, r, target, s[pos]);
    }
  }

  /** Probing a placeholder or an alias is probing its target. */
  lemma PointerProbed(g: Grammar, r: Rec, target: Rec, b: Byte)
    requires WellFormed(g.graph) && (r == Pointer(target) || r == Alias(target)) && Placed(g.graph, r)
    ensures Placed(g.graph, target) && ProbedAlone(g, r, b) == ProbedAlone(g, target, b)
  {
    PointerParsed(g, map[], "", r, target, [b, 0], 0);
  }

  lemma PointerParsed(g: Grammar, t: Table, h: Name, r: Rec, target: Rec, s: Bytes, pos: nat)
    requires WellFormed(g.graph) && (r == Pointer(target) || r == Alias(target)) && Ready(g.graph, r, s, pos)
    ensures Ready(g.graph, target, s, pos)
    ensures Parse(g, t, h, r, s, pos) == CloseAnonymous(Parse(g, t, h, target, s, pos))
  {
    assert ParseBody(g, t, h, r, s, pos) == Parse(g, t, h, target, s, pos);
  }

  lemma {:induction false} StartsSequenceSound(g: Grammar, t: Table, h: Name, es: Recs, s: Bytes, pos: nat)
    requires WellFormed(g.graph) && ReadySequence(g.graph, es, s, pos) && MappableSequence(g, es)
    requires Consumed(ParseSequence(g, t, h, es, s, pos))
    ensures StartsSequence(g, es, s[pos])
    decreases SequenceRank(g.graph, es), es
  {
    var m := Parse(g, t, h, es.head, s, pos);
    if m.len > 0 {
      StartsSound(g, t, h, es.head, s, pos);
    } else {
      StartsSequenceSound(g, t, h, es.tail, s, pos);
    }
  }

  lemma {:induction false} StartsFirstSound(g: Grammar, t: Table, h: Name, es: Recs, s: Bytes, pos: nat)
    requires WellFormed(g.graph) && ReadyAll(g.graph, es, s, pos) && MappableAll(g, es)
    requires Consumed(ParseFirst(g, t, h, es, s, pos))
    ensures StartsAny(g, es, s[pos])
    decreases SelectorRank(g.graph, es), es
  {
    if Consumed(Parse(g, t, h, es.head, s, pos)) {
      StartsSound(g, t, h, es.head, s, pos);
    } else {
      StartsFirstSound(g, t, h, es.tail, s, pos);
    }
  }

  lemma {:induction false} StartsBestSound(g: Grammar, t: Table, h: Name, es: Recs, best: Result, s: Bytes, pos: nat)
    requires WellFormed(g.graph) && ReadyAll(g.graph, es, s, pos) && MappableAll(g, es)
    requires var m := ParseBest(g, t, h, es, best, s, pos); Consumed(m) && m != best
    ensures StartsAny(g, es, s[pos])
    decreases SelectorRank(g.graph, es), es
  {
    var m := Parse(g, t, h, es.head, s, pos);
    var best' := if Better(m, best) then m else best;
    if ParseBest(g, t, h, es.tail, best', s, pos) == best' {
      StartsSound(g, t, h, es.head, s, pos);
    } else {
      StartsBestSound(g, t, h, es.tail, best', s, pos);
    }
  }

  lemma {:induction false} StartsLoopSound(g: Grammar, t: Table, h: Name, body: Rec, min: int, max: int, count: nat,
                                           s: Bytes, pos: nat)
    requires WellFormed(g.graph) && pos <= |s| && LoopOk(g.graph, body, max)
    requires Mappable(g, body) && Consumed(ParseLoop(g, t, h, body, min, max, count, s, pos))
    ensures Starts(g, body, s[pos])
    decreases HeadRank(g.graph, body), body, 2 + if count < max then max - count else 0
  {
    if Parse(g, t, h, body, s, pos).len > 0 {
      StartsSound(g, t, h, body, s, pos);
    } else {
      StartsLoopSound(g, t, h, body, min, max, count + 1, s, pos);
    }
  }

  // Something that stands for one octet can be behind a placeholder.

  lemma {:induction false} UnitStarts(g: Grammar, r: Rec, b: Byte)
    requires WellFormed(g.graph) && Placed(g.graph, r) && Unit(g.graph, r) && Mappable(g, r) && Starts(g, r, b)
    ensures UnitAccepts(g.graph, r, b)
    decreases HeadRank(g.graph, r), r
  {
    match r {
      case Selector(_, es) => UnitStartsAny(g, es, b);
      case Named(x) =>
        assert RuleOk(g.graph, x);
        UnitStarts(g, g.graph.rules[x], b);
      case Literal(_) =>
      case CharRec(_, _) => UnitParsed(g, map[], "", r, [b, 0], 0);
      case CharRange(_, _) => UnitParsed(g, map[], "", r, [b, 0], 0);
      case Pointer(_) => UnitParsed(g, map[], "", r, [b, 0], 0);
      case Alias(_) => UnitParsed(g, map[], "", r, [b, 0], 0);
    }
  }

  lemma {:induction false} UnitStartsAny(g: Grammar, es: Recs, b: Byte)
    requires WellFormed(g.graph) && PlacedAll(g.graph, es) && UnitAll(g.graph, es) && MappableAll(g, es)
    requires StartsAny(g, es, b)
    ensures UnitAcceptsAny(g.graph, es, b)
    decreases SelectorRank(g.graph, es), es
  {
    if Starts(g, es.head, b) {
      UnitStarts(g, es.head, b);
    } else {
      UnitStartsAny(g, es.tail, b);
    }
  }

  lemma UnitMappable(g: Grammar, r: Rec, target: Rec)
    requires WellFormed(g.graph) && (r == Pointer(target) || r == Alias(target)) && Placed(g.graph, r)
    requires Placed(g.graph, target) && Unit(g.graph, target) && Mappable(g, target)
    ensures Mappable(g, r)
  {
    forall b: Byte | Starts(g, target, b)
      ensures ProbedAlone(g, target, b)
    {
      UnitStarts(g, target, b);
      UnitParsed(g, map[], "", target, [b, 0], 0);
    }
  }

  /** And so can such a thing repeated, as in 1*DIGIT. */
  lemma RepeatedMappable(g: Grammar, r: Rec, body: Rec, min: int, max: int)
    requires WellFormed(g.graph) && (r == Pointer(Loop(body, min, max)) || r == Alias(Loop(body, min, max)))
    requires Placed(g.graph, r) && Placed(g.graph, body) && min <= 1 && max != 0
    requires Unit(g.graph, body) && Mappable(g, body) && !UnitAccepts(g.graph, body, 0)
    ensures Mappable(g, r)
  {
    var target := Loop(body, min, max);
    assert Ok(g.graph, target, true) || Ok(g.graph, target, false);
    assert LoopOk(g.graph, body, max) && -1 <= max;
    assert Mappable(g, target);
    forall b: Byte | Starts(g, target, b)
      ensures ProbedAlone(g, target, b)
    {
      UnitStarts(g, body, b);
      var s: Bytes := [b, 0];
      LoopUnfolds(g, map[], "", body, min, max, 0, s, 0);
      UnitParsed(g, map[], "", body, s, 0);
      LoopEnds(g, map[], "", body, min, max, 1, s, 1);
      var m := ParseLoop(g, map[], "", body, min, max, 0, s, 0);
      assert m.Match? && m.len == 1;
      assert Ready(g.graph, target, s, 0) && Parse(g, map[], "", target, s, 0) == CloseAnonymous(m);
    }
  }

  // When a placeholder can be trusted, exactly.

  /** The map of `r` contains the first octet of every match. */
  ghost predicate MapSound(g: Grammar, r: Rec)
    requires WellFormed(g.graph) && Placed(g.graph, r)
  {
    forall t, h, s, pos: nat :: Ready(g.graph, r, s, pos) && Consumed(Parse(g, t, h, r, s, pos)) ==>
      Starts(g, r, s[pos])
  }

  /** Some match starts with `b`. */
  ghost predicate CanStart(g: Grammar, r: Rec, b: Byte)
    requires WellFormed(g.graph)
  {
    exists s, pos: nat ::
      Ready(g.graph, r, s, pos) && Consumed(Parse(g, map[], "", r, s, pos)) && s[pos] == b
  }

  /** The map of `r` contains nothing but first octets of matches. */
  ghost predicate MapTight(g: Grammar, r: Rec)
    requires WellFormed(g.graph) && Placed(g.graph, r)
  {
    forall b: Byte :: Starts(g, r, b) ==> CanStart(g, r, b)
  }

  lemma MappableIsSound(g: Grammar, r: Rec)
    requires WellFormed(g.graph) && Placed(g.graph, r) && Mappable(g, r)
    ensures MapSound(g, r)
  {
    forall t, h, s, pos: nat | Ready(g.graph, r, s, pos) && Consumed(Parse(g, t, h, r, s, pos))
      ensures Starts(g, r, s[pos])
    {
      StartsSound(g, t, h, r, s, pos);
    }
  }

  /** The map of a placeholder for something whose own map is exact contains the first octet of
      every match if and only if each octet of that map is a whole match. */
  lemma PlaceholderMapExactly(g: Grammar, r: Rec, target: Rec)
    requires WellFormed(g.graph) && (r == Pointer(target) || r == Alias(target)) && Placed(g.graph, r)
    requires Placed(g.graph, target) && MapSound(g, target) && MapTight(g, target)
    ensures MapSound(g, r) <==> StartsAreMatches(g, target)
  {
    hide WellFormed, Parse, Ok;
    if MapSound(g, r) {
      forall b: Byte | Starts(g, target, b)
        ensures ProbedAlone(g, target, b)
      {
        assert CanStart(g, target, b);
        var s, pos: nat :|
          Ready(g.graph, target, s, pos) && Consumed(Parse(g, map[], "", target, s, pos)) && s[pos] == b;
        PointerReady(g.graph, r, target, s, pos);
        PointerParsed(g, map[], "", r, target, s, pos);
        assert Starts(g, r, s[pos]);
        PointerProbed(g, r, target, b);
      }
    }
    if StartsAreMatches(g, target) {
      forall t, h, s, pos: nat | Ready(g.graph, r, s, pos) && Consumed(Parse(g, t, h, r, s, pos))
        ensures Starts(g, r, s[pos])
      {
        PointerParsed(g, t, h, r, target, s, pos);
        assert Starts(g, target, s[pos]);
        PointerProbed(g, r, target, s[pos]);
      }
    }
  }

  /** Whether a placeholder can be trusted is decided by its target alone. */
  lemma PlaceholderTrustedExactly(g: Grammar, r: Rec, target: Rec)
    requires WellFormed(g.graph) && (r == Pointer(target) || r == Alias(target)) && Placed(g.graph, r)
    requires Placed(g.graph, target) && Mappable(g, target) && Direct(g, target)
    ensures MapSound(g, r) <==> Mappable(g, r)
  {
    MappableIsSound(g, target);
    DirectIsTight(g, target);
    PlaceholderMapExactly(g, r, target);
  }

  lemma PointerReady(g: Graph, r: Rec, target: Rec, s: Bytes, pos: nat)
    requires r == Pointer(target) || r == Alias(target)
    ensures Ready(g, r, s, pos) == Ready(g, target, s, pos)
  {
  }

  /** Recognizers whose map is tight on sight: no sequence hides what follows the first octet, and a
      loop needs its body once at most. */
  ghost predicate Direct(g: Grammar, r: Rec)
    requires WellFormed(g.graph) && Placed(g.graph, r)
    decreases HeadRank(g.graph, r), r
  {
    match r
    case Literal(lit) => lit != [] && forall i :: 0 <= i < |lit| ==> ToLower(lit[i]) == lit[i]
    case Sequence(es) => DirectOnly(g, es)
    case Selector(_, es) => DirectAll(g, es)
    case Loop(body, min, max) => Direct(g, body) && min <= 1 && max != 0 && !Starts(g, body, 0)
    case Named(x) => assert RuleOk(g.graph, x); Direct(g, g.graph.rules[x])
    case _ => true
  }

  ghost predicate DirectAll(g: Grammar, es: Recs)
    requires WellFormed(g.graph) && PlacedAll(g.graph, es)
    decreases SelectorRank(g.graph, es), es
  {
    es.Cons? ==> Direct(g, es.head) && DirectAll(g, es.tail)
  }

  /** A sequence of one element, which is what a numeric value of one octet is compiled to. */
  ghost predicate DirectOnly(g: Grammar, es: Recs)
    requires WellFormed(g.graph) && PlacedSequence(g.graph, es)
    decreases SequenceRank(g.graph, es), es
  {
    es.Cons? && es.tail.Nil? && Direct(g, es.head)
  }

  lemma DirectIsTight(g: Grammar, r: Rec)
    requires WellFormed(g.graph) && Placed(g.graph, r) && Direct(g, r)
    ensures MapTight(g, r)
  {
    forall b: Byte | Starts(g, r, b)
      ensures CanStart(g, r, b)
    {
      var s, pos := StartOf(g, r, b);
      assert Ready(g.graph, r, s, pos);
    }
  }

  /** An input on which a match starts with `b`. */
  lemma {:induction false} StartOf(g: Grammar, r: Rec, b: Byte) returns (s: Bytes, pos: nat)
    requires WellFormed(g.graph) && Placed(g.graph, r) && Direct(g, r) && Starts(g, r, b)
    ensures Ready(g.graph, r, s, pos) && Consumed(Parse(g, map[], "", r, s, pos)) && s[pos] == b
    decreases HeadRank(g.graph, r), r
  {
    match r {
      case Literal(lit) =>
        s, pos := [b] + lit[1..], 0;
        assert LiteralAt(lit, s, 0);
      case Sequence(es) =>
        s, pos := StartOfOnly(g, es, b);
      case Selector(_, es) =>
        s, pos := StartOfAny(g, es, b);
        SomeConsumed(g, es, NoMatch, s, pos);
      case Loop(body, min, max) =>
        s, pos := StartOf(g, body, b);
        LoopStarts(g, body, min, max, s, pos);
      case Named(x) =>
        assert RuleOk(g.graph, x);
        s, pos := StartOf(g, g.graph.rules[x], b);
      case _ =>
        s, pos := [b, 0], 0;
    }
  }

  lemma {:induction false} StartOfOnly(g: Grammar, es: Recs, b: Byte) returns (s: Bytes, pos: nat)
    requires WellFormed(g.graph) && PlacedSequence(g.graph, es) && DirectOnly(g, es) && StartsSequence(g, es, b)
    ensures ReadySequence(g.graph, es, s, pos) && Consumed(ParseSequence(g, map[], "", es, s, pos)) && s[pos] == b
    decreases SequenceRank(g.graph, es), es
  {
    s, pos := StartOf(g, es.head, b);
    SequenceUnfolds(g, map[], "", es, s, pos);
    SequenceEnds(g, map[], "", s, pos + Parse(g, map[], "", es.head, s, pos).len);
  }

  lemma {:induction false} StartOfAny(g: Grammar, es: Recs, b: Byte) returns (s: Bytes, pos: nat)
    requires WellFormed(g.graph) && PlacedAll(g.graph, es) && DirectAll(g, es) && StartsAny(g, es, b)
    ensures ReadyAll(g.graph, es, s, pos) && SomeConsumes(g, es, s, pos) && pos < |s| && s[pos] == b
    decreases SelectorRank(g.graph, es), es
  {
    if Starts(g, es.head, b) {
      s, pos := StartOf(g, es.head, b);
    } else {
      s, pos := StartOfAny(g, es.tail, b);
    }
  }

  predicate SomeConsumes(g: Grammar, es: Recs, s: Bytes, pos: nat)
    requires WellFormed(g.graph) && ReadyAll(g.graph, es, s, pos)
  {
    es.Cons? && (Consumed(Parse(g, map[], "", es.head, s, pos)) || SomeConsumes(g, es.tail, s, pos))
  }

  lemma {:induction false} SomeConsumed(g: Grammar, es: Recs, best: Result, s: Bytes, pos: nat)
    requires WellFormed(g.graph) && ReadyAll(g.graph, es, s, pos)
    ensures SomeConsumes(g, es, s, pos) ==> Consumed(ParseFirst(g, map[], "", es, s, pos))
    ensures SomeConsumes(g, es, s, pos) || Consumed(best) ==> Consumed(ParseBest(g, map[], "", es, best, s, pos))
    decreases es
  {
    if es.Cons? {
      var m := Parse(g, map[], "", es.head, s, pos);
      SelectorUnfolds(g, map[], "", es, best, s, pos);
      SomeConsumed(g, es.tail, if Better(m, best) then m else best, s, pos);
    } else {
      SelectorEnds(g, map[], "", best, s, pos);
    }
  }

  /** A loop that asks for one iteration at most matches where its body does. */
  lemma LoopStarts(g: Grammar, body: Rec, min: int, max: int, s: Bytes, pos: nat)
    requires WellFormed(g.graph) && Placed(g.graph, Loop(body, min, max)) && min <= 1 && max != 0
    requires Ready(g.graph, body, s, pos) && Consumed(Parse(g, map[], "", body, s, pos)) && At(s, pos) != 0
    ensures Ready(g.graph, Loop(body, min, max), s, pos)
    ensures Consumed(Parse(g, map[], "", Loop(body, min, max), s, pos))
  {
    LoopUnfolds(g, map[], "", body, min, max, 0, s, pos);
    LoopMatches(g, body, min, max, 1, s, pos + Parse(g, map[], "", body, s, pos).len);
  }

  /** Once its minimum is met, a loop matches whatever comes. */
  lemma {:induction false} LoopMatches(g: Grammar, body: Rec, min: int, max: int, count: nat, s: Bytes, pos: nat)
    requires WellFormed(g.graph) && pos <= |s| && LoopOk(g.graph, body, max) && min <= count
    ensures ParseLoop(g, map[], "", body, min, max, count, s, pos).Match?
    decreases |s| - pos, if count < max then max - count else 0
  {
    hide WellFormed, Parse, ParseLoop, LoopOk;
    if Continues(max, count, s, pos) {
      LoopUnfolds(g, map[], "", body, min, max, count, s, pos);
      var m := Parse(g, map[], "", body, s, pos);
      if m.Match? {
        LoopMatches(g, body, min, max, count + 1, s, pos + m.len);
        return;
      }
    }
    LoopEnds(g, map[], "", body, min, max, count, s, pos);
  }
}
