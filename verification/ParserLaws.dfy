/** Laws of the reference parser: which alternative a selector keeps, and how little the handlers
    matter to what is matched. */
module ParserLaws {
  import opened Bytes
  import opened Recognizers
  import opened PureParser

  /** What each alternative does on its own. */
  function Tries(g: Grammar, t: Table, h: Name, es: Recs, s: Bytes, pos: nat): (ms: seq<Result>)
    requires WellFormed(g.graph) && ReadyAll(g.graph, es, s, pos)
  {
    if es.Nil? then [] else [Parse(g, t, h, es.head, s, pos)] + Tries(g, t, h, es.tail, s, pos)
  }

  /** `ms[i]` is a match, longer than those before it and at least as long as those after it. */
  predicate FirstLongest(ms: seq<Result>, i: int) {
    && 0 <= i < |ms| && ms[i].Match?
    && (forall j :: 0 <= j < i && ms[j].Match? ==> ms[j].len < ms[i].len)
    && (forall j :: i < j < |ms| && ms[j].Match? ==> ms[j].len <= ms[i].len)
  }

  function Pick(best: Result, ms: seq<Result>): (m: Result)
    decreases |ms|
  {
    if ms == [] then best else Pick(if Better(ms[0], best) then ms[0] else best, ms[1..])
  }

  /** `m` is not beaten by anything, and comes first among its equals. */
  ghost predicate Winner(best: Result, ms: seq<Result>, m: Result) {
    && (best.Match? ==> m.Match? && best.len <= m.len)
    && (forall i :: 0 <= i < |ms| && ms[i].Match? ==> m.Match? && ms[i].len <= m.len)
    && (m == best || exists i :: FirstLongest(ms, i) && ms[i] == m && Better(m, best))
  }

  lemma {:induction false} PickWins(best: Result, ms: seq<Result>)
    ensures Winner(best, ms, Pick(best, ms))
    decreases |ms|
  {
    if ms != [] {
      var best', rest := if Better(ms[0], best) then ms[0] else best, ms[1..];
      PickWins(best', rest);
      var m := Pick(best', rest);
      assert Winner(best', rest, m);
      assert forall i :: 0 < i < |ms| ==> ms[i] == rest[i - 1];
      if m != best' {
        var i :| FirstLongest(rest, i) && rest[i] == m && Better(m, best');
        assert FirstLongest(ms, i + 1) && ms[i + 1] == m;
      } else if m != best {
        assert FirstLongest(ms, 0) && ms[0] == m;
      }
    }
  }

  lemma {:induction false} BestIsPick(g: Grammar, t: Table, h: Name, es: Recs, best: Result, s: Bytes, pos: nat)
    requires WellFormed(g.graph) && ReadyAll(g.graph, es, s, pos)
    ensures ParseBest(g, t, h, es, best, s, pos) == Pick(best, Tries(g, t, h, es, s, pos))
    decreases es
  {
    if es.Cons? {
      var m := Parse(g, t, h, es.head, s, pos);
      assert Tries(g, t, h, es, s, pos)[1..] == Tries(g, t, h, es.tail, s, pos);
      BestIsPick(g, t, h, es.tail, if Better(m, best) then m else best, s, pos);
    }
  }

  /** A plain selector keeps the first alternative among the longest, with the assignments of that
      alternative alone; it fails when all of them do. */
  lemma SelectorKeepsFirstLongest(g: Grammar, t: Table, h: Name, es: Recs, s: Bytes, pos: nat)
    requires WellFormed(g.graph) && ReadyAll(g.graph, es, s, pos)
    ensures var ms, m := Tries(g, t, h, es, s, pos), ParseBest(g, t, h, es, NoMatch, s, pos);
            if m.Match? then exists i :: FirstLongest(ms, i) && ms[i] == m
            else forall i :: 0 <= i < |ms| ==> ms[i].NoMatch?
  {
    BestIsPick(g, t, h, es, NoMatch, s, pos);
    PickWins(NoMatch, Tries(g, t, h, es, s, pos));
  }

  /** An exclusive selector keeps the first alternative that consumes something. */
  lemma {:induction false} ExclusiveKeepsFirst(g: Grammar, t: Table, h: Name, es: Recs, s: Bytes, pos: nat)
    requires WellFormed(g.graph) && ReadyAll(g.graph, es, s, pos)
    ensures var ms, m := Tries(g, t, h, es, s, pos), ParseFirst(g, t, h, es, s, pos);
            if m.Match?
            then exists i :: 0 <= i < |ms| && ms[i] == m && Consumed(m) && forall j :: 0 <= j < i ==> !Consumed(ms[j])
            else forall i :: 0 <= i < |ms| ==> !Consumed(ms[i])
    decreases es
  {
    if es.Cons? {
      var ms, m := Tries(g, t, h, es, s, pos), ParseFirst(g, t, h, es, s, pos);
      if Consumed(Parse(g, t, h, es.head, s, pos)) {
        assert ms[0] == m;
      } else {
        ExclusiveKeepsFirst(g, t, h, es.tail, s, pos);
        var rest := Tries(g, t, h, es.tail, s, pos);
        assert forall j :: 0 < j < |ms| ==> ms[j] == rest[j - 1];
        if m.Match? {
          var i :| 0 <= i < |rest| && rest[i] == m && forall j :: 0 <= j < i ==> !Consumed(rest[j]);
          assert ms[i + 1] == m;
        }
      }
    }
  }

  predicate SameLength(m: Result, m': Result) {
    (m.NoMatch? && m'.NoMatch?) || (m.Match? && m'.Match? && m.len == m'.len)
  }

  // The length matched does not depend on the handlers and collectors: in particular, it is the one
  // found in the context that records nothing, with which the optimizer probes.

  lemma {:induction false} LengthSame(g: Grammar, t: Table, h: Name, t': Table, h': Name, r: Rec, s: Bytes, pos: nat)
    requires WellFormed(g.graph) && Ready(g.graph, r, s, pos)
    ensures SameLength(Parse(g, t, h, r, s, pos), Parse(g, t', h', r, s, pos))
    decreases |s| - pos, HeadRank(g.graph, r), r, 1
  {
    if r.Named? {
      var x := r.name;
      assert RuleOk(g.graph, x);
      LengthSameBody(g, t, if x in t then x else h, t', if x in t' then x else h', g.graph.rules[x], s, pos);
    } else {
      LengthSameBody(g, t, h, t', h', r, s, pos);
    }
  }

  lemma {:induction false} LengthSameBody(g: Grammar, t: Table, h: Name, t': Table, h': Name, r: Rec, s: Bytes,
                                          pos: nat)
    requires WellFormed(g.graph) && Ready(g.graph, r, s, pos) && !r.Named?
    ensures SameLength(ParseBody(g, t, h, r, s, pos), ParseBody(g, t', h', r, s, pos))
    decreases |s| - pos, HeadRank(g.graph, r), r, 0
  {
    hide WellFormed, Parse;
    match r {
      case CharRec(_, _) =>
      case CharRange(_, _) =>
      case Literal(_) =>
      case Sequence(es) => LengthSameSequence(g, t, h, t', h', es, s, pos);
      case Selector(_, es) => LengthSameSelector(g, t, h, t', h', es, NoMatch, NoMatch, s, pos);
      case Loop(body, min, max) => LengthSameLoop(g, t, h, t', h', body, min, max, 0, s, pos);
      case Pointer(target) => LengthSame(g, t, h, t', h', target, s, pos);
      case Alias(target) => LengthSame(g, t, h, t', h', target, s, pos);
    }
  }

  lemma {:induction false} LengthSameSequence(g: Grammar, t: Table, h: Name, t': Table, h': Name, es: Recs, s: Bytes,
                                              pos: nat)
    requires WellFormed(g.graph) && ReadySequence(g.graph, es, s, pos)
    ensures SameLength(ParseSequence(g, t, h, es, s, pos), ParseSequence(g, t', h', es, s, pos))
    decreases |s| - pos, SequenceRank(g.graph, es), es, 0
  {
    hide WellFormed, Parse, ParseSequence, Ok, HeadRank, SequenceRank;
    if es.Cons? {
      SequenceUnfolds(g, t, h, es, s, pos);
      SequenceUnfolds(g, t', h', es, s, pos);
      LengthSame(g, t, h, t', h', es.head, s, pos);
      var m := Parse(g, t, h, es.head, s, pos);
      if m.Match? {
        LengthSameSequence(g, t, h, t', h', es.tail, s, pos + m.len);
      }
    } else {
      SequenceEnds(g, t, h, s, pos);
      SequenceEnds(g, t', h', s, pos);
    }
  }

  lemma {:induction false} LengthSameSelector(g: Grammar, t: Table, h: Name, t': Table, h': Name, es: Recs,
                                              best: Result, best': Result, s: Bytes, pos: nat)
    requires WellFormed(g.graph) && ReadyAll(g.graph, es, s, pos) && SameLength(best, best')
    ensures SameLength(ParseFirst(g, t, h, es, s, pos), ParseFirst(g, t', h', es, s, pos))
    ensures SameLength(ParseBest(g, t, h, es, best, s, pos), ParseBest(g, t', h', es, best', s, pos))
    decreases |s| - pos, SelectorRank(g.graph, es), es, 0
  {
    hide WellFormed, Parse;
    if es.Cons? {
      LengthSame(g, t, h, t', h', es.head, s, pos);
      var m, m' := Parse(g, t, h, es.head, s, pos), Parse(g, t', h', es.head, s, pos);
      LengthSameSelector(g, t, h, t', h', es.tail, if Better(m, best) then m else best,
                         if Better(m', best') then m' else best', s, pos);
    }
  }

  lemma {:induction false} LengthSameLoop(g: Grammar, t: Table, h: Name, t': Table, h': Name, body: Rec, min: int,
                                          max: int,
                                          count: nat, s: Bytes, pos: nat)
    requires WellFormed(g.graph) && pos <= |s| && LoopOk(g.graph, body, max)
    ensures SameLength(ParseLoop(g, t, h, body, min, max, count, s, pos),
            ParseLoop(g, t', h', body, min, max, count, s, pos))
    decreases |s| - pos, HeadRank(g.graph, body), body, 2 + if count < max then max - count else 0
  {
    hide WellFormed, Parse, ParseLoop, LoopOk, HeadRank;
    if Continues(max, count, s, pos) {
      LoopUnfolds(g, t, h, body, min, max, count, s, pos);
      LoopUnfolds(g, t', h', body, min, max, count, s, pos);
      LengthSame(g, t, h, t', h', body, s, pos);
      var m := Parse(g, t, h, body, s, pos);
      if m.Match? {
        LengthSameLoop(g, t, h, t', h', body, min, max, count + 1, s, pos + m.len);
        return;
      }
    }
    LoopEnds(g, t, h, body, min, max, count, s, pos);
    LoopEnds(g, t', h', body, min, max, count, s, pos);
  }
}
