/** What feeding each kind of recognizer returns, said of the octets of the input and of what feeding its
    parts returns, without the functions that compute it. */
module FeedLaws {
  import opened Bytes
  import opened Recognizers
  import opened PureParser
  import opened ParserLaws

  // What may be fed where: nothing but the octet 0 at the end of the input, references without a rule and
  // unbounded loops over something that may be empty stand in the way.

  lemma TerminalsReady(g: Graph, c: int, caseSensitive: bool, lo: int, hi: int, lit: Bytes, s: Bytes, pos: nat)
    ensures Ready(g, CharRec(c, caseSensitive), s, pos) <==> pos <= |s| && (pos < |s| || c != 0)
    ensures Ready(g, CharRange(lo, hi), s, pos) <==> pos <= |s| && (pos < |s| || lo > 0 || hi < 0)
    ensures Ready(g, Literal(lit), s, pos) <==> pos <= |s| && 0 !in lit
  {
    assert 0 !in lit <==> forall i :: 0 <= i < |lit| ==> lit[i] != 0;
  }

  lemma PartsReady(g: Graph, body: Rec, min: int, max: int, x: Name, s: Bytes, pos: nat)
    ensures Ready(g, Named(x), s, pos) <==> pos <= |s| && x in g.rules && (pos < |s| || x in g.atEnd)
    ensures Ready(g, Loop(body, min, max), s, pos) <==>
            pos <= |s| && max >= -1 && Ready(g, body, [1], 0) && (max == -1 ==> !Nullable(g, body))
    ensures Ready(g, Pointer(body), s, pos) <==> Ready(g, body, s, pos)
    ensures Ready(g, Alias(body), s, pos) <==> Ready(g, body, s, pos)
  {
    if Ok(g, body, false) {
      OkInside(g, body);
    }
  }

  /** What may be fed at the end may be fed anywhere. */
  lemma {:induction false} OkInside(g: Graph, r: Rec)
    requires Ok(g, r, false)
    ensures Ok(g, r, true)
  {
    match r {
      case Sequence(es) => OkInsideSequence(g, es);
      case Selector(_, es) => OkInsideAll(g, es);
      case Pointer(target) => OkInside(g, target);
      case Alias(target) => OkInside(g, target);
      case CharRec(_, _) =>
      case CharRange(_, _) =>
      case Literal(_) =>
      case Loop(_, _, _) =>
      case Named(_) =>
    }
  }

  lemma OkInsideSequence(g: Graph, es: Recs)
    requires OkSequence(g, es, false)
    ensures OkSequence(g, es, true)
  {
    if es.Cons? {
      OkInside(g, es.head);
    }
  }

  lemma {:induction false} OkInsideAll(g: Graph, es: Recs)
    requires OkAll(g, es, false)
    ensures OkAll(g, es, true)
  {
    if es.Cons? {
      OkInside(g, es.head);
      OkInsideAll(g, es.tail);
    }
  }

  /** A single character matches the octet it is made for, in either case unless it is case-sensitive. */
  lemma CharFed(g: Grammar, t: Table, h: Name, c: int, caseSensitive: bool, s: Bytes, pos: nat)
    requires WellFormed(g.graph) && Ready(g.graph, CharRec(c, caseSensitive), s, pos)
    ensures Parse(g, t, h, CharRec(c, caseSensitive), s, pos) ==
            if pos < |s| && (s[pos] == c || (!caseSensitive && SameLetter(s[pos], c)))
               && (caseSensitive || !IsCapital(c)) then Match(1, [])
            else NoMatch
  {
    var b := At(s, pos);
    Folds(b, c);
    Folds(c, c);
    SameLetterShifts(b, c);
  }

  lemma RangeFed(g: Grammar, t: Table, h: Name, lo: int, hi: int, s: Bytes, pos: nat)
    requires WellFormed(g.graph) && Ready(g.graph, CharRange(lo, hi), s, pos)
    ensures Parse(g, t, h, CharRange(lo, hi), s, pos) ==
            if pos < |s| && lo <= s[pos] <= hi then Match(1, []) else NoMatch
  {
  }

  /** A literal matches its octets one after the other, in either case. */
  lemma LiteralFed(g: Grammar, t: Table, h: Name, lit: Bytes, s: Bytes, pos: nat)
    requires WellFormed(g.graph) && Ready(g.graph, Literal(lit), s, pos)
    ensures Parse(g, t, h, Literal(lit), s, pos) ==
            if pos + |lit| <= |s|
               && forall i :: 0 <= i < |lit| ==> SameLetter(s[pos + i], lit[i]) && !IsCapital(lit[i])
            then Match(|lit|, []) else NoMatch
  {
    forall i | 0 <= i < |lit| && pos + |lit| <= |s|
      ensures ToLower(s[pos + i]) == lit[i] <==> SameLetter(s[pos + i], lit[i]) && !IsCapital(lit[i])
    {
      Folds(s[pos + i], lit[i]);
      Folds(lit[i], lit[i]);
      SameLetterShifts(s[pos + i], lit[i]);
    }
  }

  // Runs of recognizers one after the other.

  /** Feeding `r` at `p` fails. */
  ghost predicate Fails(g: Grammar, t: Table, h: Name, r: Rec, s: Bytes, p: nat) {
    WellFormed(g.graph) && Ready(g.graph, r, s, p) && Parse(g, t, h, r, s, p).NoMatch?
  }

  /** Feeding `r` at `p` matches up to `q` and commits `out`. */
  ghost predicate Steps(g: Grammar, t: Table, h: Name, r: Rec, s: Bytes, p: nat, q: nat, out: seq<Assignment>) {
    WellFormed(g.graph) && Ready(g.graph, r, s, p) && p <= q && Parse(g, t, h, r, s, p) == Match(q - p, out)
  }

  /** The recognizers `rs` match one after the other, each where the one before stopped: `ps` lists where
      they start, and ends with where the last one stops. */
  ghost predicate Run(g: Grammar, t: Table, h: Name, rs: seq<Rec>, s: Bytes, ps: seq<nat>,
                      outs: seq<seq<Assignment>>)
  {
    && |ps| == |rs| + 1 && |outs| == |rs|
    && forall i :: 0 <= i < |rs| ==> Steps(g, t, h, rs[i], s, ps[i], ps[i + 1], outs[i])
  }

  function Joined(outs: seq<seq<Assignment>>): seq<Assignment> {
    if outs == [] then [] else outs[0] + Joined(outs[1..])
  }

  lemma RunStarts(g: Grammar, t: Table, h: Name, r: Rec, rs: seq<Rec>, s: Bytes, pos: nat, ps: seq<nat>,
                  out: seq<Assignment>, outs: seq<seq<Assignment>>)
    requires Run(g, t, h, rs, s, ps, outs) && Steps(g, t, h, r, s, pos, ps[0], out)
    ensures Run(g, t, h, [r] + rs, s, [pos] + ps, [out] + outs)
    ensures Joined([out] + outs) == out + Joined(outs)
  {
    var rs', ps', outs' := [r] + rs, [pos] + ps, [out] + outs;
    forall i | 0 <= i < |rs'|
      ensures Steps(g, t, h, rs'[i], s, ps'[i], ps'[i + 1], outs'[i])
    {
      if i > 0 {
        assert Steps(g, t, h, rs[i - 1], s, ps[i - 1], ps[i], outs[i - 1]);
      }
    }
    assert outs'[1..] == outs;
  }

  /** Positions never go back, and a run that gets nowhere commits nothing. */
  lemma {:induction false} RunAdvances(g: Grammar, t: Table, h: Name, rs: seq<Rec>, s: Bytes, ps: seq<nat>,
                                       outs: seq<seq<Assignment>>)
    requires Run(g, t, h, rs, s, ps, outs)
    ensures ps[0] <= ps[|rs|] && (ps[0] == ps[|rs|] ==> Joined(outs) == [])
    decreases |rs|
  {
    if rs != [] {
      assert Steps(g, t, h, rs[0], s, ps[0], ps[1], outs[0]);
      var rs', ps', outs' := rs[1..], ps[1..], outs[1..];
      forall i | 0 <= i < |rs'|
        ensures Steps(g, t, h, rs'[i], s, ps'[i], ps'[i + 1], outs'[i])
      {
        assert Steps(g, t, h, rs[i + 1], s, ps[i + 1], ps[i + 2], outs[i + 1]);
      }
      RunAdvances(g, t, h, rs', s, ps', outs');
    }
  }

  /** The elements of a sequence up to the one that fails, or all of them. */
  ghost predicate SequenceRun(g: Grammar, t: Table, h: Name, rs: seq<Rec>, s: Bytes, pos: nat, m: Result, n: nat,
                              ps: seq<nat>, outs: seq<seq<Assignment>>)
  {
    && n <= |rs| && Run(g, t, h, rs[..n], s, ps, outs) && ps[0] == pos
    && if n == |rs| then ps[n] >= pos && m == Match(ps[n] - pos, Joined(outs))
       else m == NoMatch && Fails(g, t, h, rs[n], s, ps[n])
  }

  lemma SequenceGoesOn(g: Grammar, t: Table, h: Name, r: Rec, rest: seq<Rec>, s: Bytes, pos: nat, m: Result,
                       later: Result, n: nat, ps: seq<nat>, outs: seq<seq<Assignment>>)
    requires m.Match? && Steps(g, t, h, r, s, pos, pos + m.len, m.out)
    requires SequenceRun(g, t, h, rest, s, pos + m.len, later, n, ps, outs)
    ensures SequenceRun(g, t, h, [r] + rest, s, pos, Prepend(m.len, m.out, later), n + 1, [pos] + ps, [m.out] + outs)
  {
    hide Run, Steps, Fails, Joined;
    assert ([r] + rest)[..n + 1] == [r] + rest[..n];
    RunLengths(g, t, h, rest[..n], s, ps, outs);
    RunStarts(g, t, h, r, rest[..n], s, pos, ps, m.out, outs);
  }

  lemma SequenceStops(g: Grammar, t: Table, h: Name, rs: seq<Rec>, s: Bytes, pos: nat, m: Result)
    requires if rs == [] then m == Match(0, []) else m == NoMatch && Fails(g, t, h, rs[0], s, pos)
    ensures SequenceRun(g, t, h, rs, s, pos, m, 0, [pos], [])
  {
    hide Run, Fails;
    RunOfNothing(g, t, h, s, pos);
    assert rs[..0] == [];
  }

  lemma {:induction false} ElementsFed(g: Grammar, t: Table, h: Name, es: Recs, s: Bytes, pos: nat)
    returns (n: nat, ps: seq<nat>, outs: seq<seq<Assignment>>)
    requires WellFormed(g.graph) && ReadySequence(g.graph, es, s, pos)
    ensures SequenceRun(g, t, h, Listed(es), s, pos, ParseSequence(g, t, h, es, s, pos), n, ps, outs)
    decreases es
  {
    assert pos <= |s|;
    hide WellFormed, Parse, ParseSequence, Ready, ReadySequence, SequenceRun, HeadRank, SequenceRank;
    n, ps, outs := 0, [pos], [];
    if es.Nil? {
      SequenceEnds(g, t, h, s, pos);
      SequenceStops(g, t, h, [], s, pos, Match(0, []));
    } else {
      SequenceUnfolds(g, t, h, es, s, pos);
      var m := Parse(g, t, h, es.head, s, pos);
      if m.NoMatch? {
        SequenceStops(g, t, h, Listed(es), s, pos, NoMatch);
      } else {
        n, ps, outs := ElementsFed(g, t, h, es.tail, s, pos + m.len);
        SequenceGoesOn(g, t, h, es.head, Listed(es.tail), s, pos, m,
                       ParseSequence(g, t, h, es.tail, s, pos + m.len), n, ps, outs);
        n, ps, outs := n + 1, [pos] + ps, [m.out] + outs;
      }
    }
  }

  lemma RunLengths(g: Grammar, t: Table, h: Name, rs: seq<Rec>, s: Bytes, ps: seq<nat>, outs: seq<seq<Assignment>>)
    requires Run(g, t, h, rs, s, ps, outs)
    ensures |ps| == |rs| + 1 && |outs| == |rs|
  {
  }

  lemma RunOfNothing(g: Grammar, t: Table, h: Name, s: Bytes, pos: nat)
    ensures Run(g, t, h, [], s, [pos], []) && Joined([]) == []
  {
  }

  /** A sequence matches exactly when its elements do, in order and each where the one before stopped; it
      then covers them all and commits what they commit, in order. */
  lemma SequenceFed(g: Grammar, t: Table, h: Name, es: Recs, s: Bytes, pos: nat)
    requires WellFormed(g.graph) && Ready(g.graph, Sequence(es), s, pos)
    ensures exists n: nat, ps: seq<nat>, outs ::
              SequenceRun(g, t, h, Listed(es), s, pos, Parse(g, t, h, Sequence(es), s, pos), n, ps, outs)
  {
    assert ReadySequence(g.graph, es, s, pos);
    var n, ps, outs := ElementsFed(g, t, h, es, s, pos);
    RunAdvances(g, t, h, Listed(es)[..n], s, ps, outs);
    assert SequenceRun(g, t, h, Listed(es), s, pos, Parse(g, t, h, Sequence(es), s, pos), n, ps, outs);
  }

  /** There is an octet other than 0 to go on with. */
  predicate More(s: Bytes, p: nat) {
    p < |s| && s[p] != 0
  }

  /** Iterations of a loop, `count` of them before `pos`: they go on until there are `max`, or until the input
      ends, or until the body fails. */
  ghost predicate LoopRun(g: Grammar, t: Table, h: Name, body: Rec, max: int, count: nat, s: Bytes, pos: nat, n: nat,
                          ps: seq<nat>, outs: seq<seq<Assignment>>)
  {
    && Run(g, t, h, seq(n, _ => body), s, ps, outs) && ps[0] == pos <= ps[n] <= |s|
    && (forall i :: 0 <= i < n ==> More(s, ps[i]) && (max == -1 || count + i < max))
    && ((max != -1 && count + n >= max) || !More(s, ps[n]) || Fails(g, t, h, body, s, ps[n]))
  }

  lemma LoopGoesOn(g: Grammar, t: Table, h: Name, body: Rec, max: int, count: nat, s: Bytes, pos: nat, m: Result,
                   n: nat, ps: seq<nat>, outs: seq<seq<Assignment>>)
    requires m.Match? && Steps(g, t, h, body, s, pos, pos + m.len, m.out) && Continues(max, count, s, pos)
    requires LoopRun(g, t, h, body, max, count + 1, s, pos + m.len, n, ps, outs)
    ensures LoopRun(g, t, h, body, max, count, s, pos, n + 1, [pos] + ps, [m.out] + outs)
    ensures Joined([m.out] + outs) == m.out + Joined(outs) && ([pos] + ps)[n + 1] == ps[n]
  {
    hide Run, Steps, Fails;
    RunLengths(g, t, h, seq(n, _ => body), s, ps, outs);
    assert seq(n + 1, _ => body) == [body] + seq(n, _ => body);
    RunStarts(g, t, h, body, seq(n, _ => body), s, pos, ps, m.out, outs);
    var ps' := [pos] + ps;
    forall i | 0 <= i < n + 1
      ensures More(s, ps'[i]) && (max == -1 || count + i < max)
    {
      if i > 0 {
        assert More(s, ps[i - 1]) && (max == -1 || count + 1 + (i - 1) < max);
      }
    }
  }

  lemma LoopStops(g: Grammar, t: Table, h: Name, body: Rec, max: int, count: nat, s: Bytes, pos: nat)
    requires pos <= |s| && (Continues(max, count, s, pos) ==> Fails(g, t, h, body, s, pos))
    ensures LoopRun(g, t, h, body, max, count, s, pos, 0, [pos], [])
  {
    hide Run, Fails;
    RunOfNothing(g, t, h, s, pos);
    assert seq(0, _ => body) == [];
  }

  lemma {:induction false} IterationsFed(g: Grammar, t: Table, h: Name, body: Rec, min: int, max: int, count: nat,
                                         s: Bytes, pos: nat)
    returns (n: nat, ps: seq<nat>, outs: seq<seq<Assignment>>)
    requires WellFormed(g.graph) && pos <= |s| && LoopOk(g.graph, body, max)
    ensures LoopRun(g, t, h, body, max, count, s, pos, n, ps, outs)
    ensures |ps| == n + 1 && ps[n] >= pos
    ensures ParseLoop(g, t, h, body, min, max, count, s, pos) ==
            if count + n >= min then Match(ps[n] - pos, Joined(outs)) else NoMatch
    decreases |s| - pos, if count < max then max - count else 0
  {
    hide WellFormed, Parse, ParseLoop, Ready, LoopOk, LoopRun, Joined;
    n, ps, outs := 0, [pos], [];
    if Continues(max, count, s, pos) {
      LoopUnfolds(g, t, h, body, min, max, count, s, pos);
      var m := Parse(g, t, h, body, s, pos);
      if m.Match? {
        n, ps, outs := IterationsFed(g, t, h, body, min, max, count + 1, s, pos + m.len);
        LoopGoesOn(g, t, h, body, max, count, s, pos, m, n, ps, outs);
        n, ps, outs := n + 1, [pos] + ps, [m.out] + outs;
        return;
      }
    }
    LoopEnds(g, t, h, body, min, max, count, s, pos);
    LoopStops(g, t, h, body, max, count, s, pos);
    NothingJoined();
  }

  lemma NothingJoined()
    ensures Joined([]) == []
  {
  }

  /** A loop is greedy: it iterates as often as it may, and what that comes to is its only match. It fails
      if there are too few iterations. */
  lemma LoopFed(g: Grammar, t: Table, h: Name, body: Rec, min: int, max: int, s: Bytes, pos: nat)
    requires WellFormed(g.graph) && Ready(g.graph, Loop(body, min, max), s, pos)
    ensures exists n: nat, ps: seq<nat>, outs ::
              && LoopRun(g, t, h, body, max, 0, s, pos, n, ps, outs)
              && Parse(g, t, h, Loop(body, min, max), s, pos) ==
                 if n >= min then Match(ps[n] - pos, Joined(outs)) else NoMatch
  {
    assert pos <= |s| && LoopOk(g.graph, body, max);
    hide WellFormed, ParseLoop, Run;
    var n, ps, outs := IterationsFed(g, t, h, body, min, max, 0, s, pos);
    RunAdvances(g, t, h, seq(n, _ => body), s, ps, outs);
    var m := if n >= min then Match(ps[n] - pos, Joined(outs)) else NoMatch;
    assert ParseLoop(g, t, h, body, min, max, 0, s, pos) == m;
    assert ParseBody(g, t, h, Loop(body, min, max), s, pos) == m;
    assert Parse(g, t, h, Loop(body, min, max), s, pos) == m;
    assert LoopRun(g, t, h, body, max, 0, s, pos, n, ps, outs);
  }

  /** `ms` is what each of the alternatives does on its own at `pos`. */
  ghost predicate Tried(g: Grammar, t: Table, h: Name, rs: seq<Rec>, s: Bytes, pos: nat, ms: seq<Result>) {
    && WellFormed(g.graph) && |ms| == |rs|
    && forall i :: 0 <= i < |rs| ==> Ready(g.graph, rs[i], s, pos) && ms[i] == Parse(g, t, h, rs[i], s, pos)
  }

  lemma {:induction false} AlternativesTried(g: Grammar, t: Table, h: Name, es: Recs, s: Bytes, pos: nat)
    requires WellFormed(g.graph) && ReadyAll(g.graph, es, s, pos)
    ensures Tried(g, t, h, Listed(es), s, pos, Tries(g, t, h, es, s, pos))
    decreases es
  {
    hide WellFormed, Parse;
    if es.Cons? {
      AlternativesTried(g, t, h, es.tail, s, pos);
      var rs, ms := Listed(es), Tries(g, t, h, es, s, pos);
      forall i | 0 <= i < |rs|
        ensures Ready(g.graph, rs[i], s, pos) && ms[i] == Parse(g, t, h, rs[i], s, pos)
      {
        if i > 0 {
          assert rs[i] == Listed(es.tail)[i - 1] && ms[i] == Tries(g, t, h, es.tail, s, pos)[i - 1];
        }
      }
    }
  }

  /** The result of a selector, from those of its alternatives: the first that consumes something if it is
      exclusive, and otherwise the first of the longest. */
  ghost predicate Selected(exclusive: bool, ms: seq<Result>, m: Result) {
    if exclusive then
      if m.Match?
      then exists i :: 0 <= i < |ms| && ms[i] == m && m.len > 0
             && forall j :: 0 <= j < i ==> ms[j].NoMatch? || ms[j].len == 0
      else forall i :: 0 <= i < |ms| ==> ms[i].NoMatch? || ms[i].len == 0
    else
      if m.Match? then exists i :: FirstLongest(ms, i) && ms[i] == m
      else forall i :: 0 <= i < |ms| ==> ms[i].NoMatch?
  }

  lemma SelectorFed(g: Grammar, t: Table, h: Name, sel: nat, es: Recs, s: Bytes, pos: nat)
    requires WellFormed(g.graph) && Ready(g.graph, Selector(sel, es), s, pos)
    ensures exists ms ::
              && Tried(g, t, h, Listed(es), s, pos, ms)
              && Selected(sel in g.exclusive, ms, Parse(g, t, h, Selector(sel, es), s, pos))
  {
    assert ReadyAll(g.graph, es, s, pos);
    hide WellFormed, FirstLongest;
    var ms := Tries(g, t, h, es, s, pos);
    AlternativesTried(g, t, h, es, s, pos);
    var m := if sel in g.exclusive then ParseFirst(g, t, h, es, s, pos) else ParseBest(g, t, h, es, NoMatch, s, pos);
    if sel in g.exclusive {
      ExclusiveKeepsFirst(g, t, h, es, s, pos);
    } else {
      SelectorKeepsFirstLongest(g, t, h, es, s, pos);
      if m.Match? {
        var i :| FirstLongest(ms, i) && ms[i] == m;
        FirstLongestIsOne(ms, i);
        assert ms[i] == Parse(g, t, h, Listed(es)[i], s, pos);
      }
    }
    assert Parse(g, t, h, Selector(sel, es), s, pos) == m;
    assert Selected(sel in g.exclusive, ms, m);
  }

  lemma FirstLongestIsOne(ms: seq<Result>, i: int)
    requires FirstLongest(ms, i)
    ensures 0 <= i < |ms| && ms[i].Match?
  {
  }

  /** A pointer or an alias stands for what it points to. */
  lemma IndirectionFed(g: Grammar, t: Table, h: Name, target: Rec, s: Bytes, pos: nat)
    requires WellFormed(g.graph) && Ready(g.graph, target, s, pos)
    ensures Parse(g, t, h, Pointer(target), s, pos) == Parse(g, t, h, target, s, pos)
    ensures Parse(g, t, h, Alias(target), s, pos) == Parse(g, t, h, target, s, pos)
  {
  }

  /** A rule matches what its recognizer does. If it has a handler, what the recognizer commits goes to an
      element of its own, which the enclosing handler gets if it collects the rule. Otherwise the enclosing
      handler gets all of it, and the text of the rule if it collects that. An empty match leaves nothing. */
  lemma NamedFed(g: Grammar, t: Table, h: Name, x: Name, s: Bytes, pos: nat)
    requires WellFormed(g.graph) && Ready(g.graph, Named(x), s, pos)
    ensures x in g.graph.rules && Ready(g.graph, g.graph.rules[x], s, pos) && !g.graph.rules[x].Named?
    ensures var m := Parse(g, t, if x in t then x else h, g.graph.rules[x], s, pos);
            var collects := h in t && x in t[h];
            Parse(g, t, h, Named(x), s, pos) ==
            if m.NoMatch? then NoMatch
            else if m.len == 0 then Match(0, [])
            else if x in t
            then Match(m.len, if collects then [Child(Collector(h, x), pos, m.len, Node(x, m.out))] else [])
            else Match(m.len, m.out + if collects then [Text(Collector(h, x), pos, m.len)] else [])
  {
    assert RuleOk(g.graph, x);
  }

  /** The outermost rule, fed for its own object, matches and commits what its recognizer does. */
  lemma RuleFed(g: Grammar, t: Table, h: Name, x: Name, s: Bytes, pos: nat)
    requires WellFormed(g.graph) && Ready(g.graph, Named(x), s, pos)
    ensures x in g.graph.rules && Ready(g.graph, g.graph.rules[x], s, pos)
    ensures var m, body := ParseRule(g, t, h, x, s, pos), Parse(g, t, h, g.graph.rules[x], s, pos);
            && (m.Match? <==> body.Match?) && (m.Match? ==> m.len == body.len && (m.len > 0 ==> m.out == body.out))
  {
    assert RuleOk(g.graph, x);
  }
}
