/** The reference parser: what feeding a recognizer returns and which assignments it commits, with
    neither a stack of contexts, nor branches, nor undo. */
module PureParser {
  import opened Bytes
  import opened Recognizers

  /** For each rule with a handler, the rules it has a collector for. */
  type Table = map<Name, set<Name>>

  datatype Collector = Collector(owner: Name, rule: Name)

  datatype Assignment =
    | Text(collector: Collector, begin: nat, count: nat)
    | Child(collector: Collector, begin: nat, count: nat, node: Node)

  /** An element to be created by the handler of `rule`, with its assignments in order. */
  datatype Node = Node(rule: Name, kids: seq<Assignment>)

  /** The outcome of a feed; NoMatch is the source's npos. */
  datatype Result = NoMatch | Match(len: nat, out: seq<Assignment>)

  predicate Collects(t: Table, h: Name, x: Name) {
    h in t && x in t[h]
  }

  predicate Consumed(m: Result) {
    m.Match? && m.len > 0
  }

  /** A recognizer without a handler: nothing is kept of a failure or of an empty match, and a rule
      that matched something is assigned as text. */
  function CloseText(t: Table, h: Name, x: Name, pos: nat, m: Result): Result {
    if m.NoMatch? then NoMatch
    else if m.len == 0 then Match(0, [])
    else Match(m.len, m.out + if Collects(t, h, x) then [Text(Collector(h, x), pos, m.len)] else [])
  }

  /** A rule with a handler: what it collected becomes one element, assigned to the enclosing one. */
  function CloseChild(t: Table, h: Name, x: Name, pos: nat, m: Result): Result {
    if m.NoMatch? then NoMatch
    else if m.len == 0 then Match(0, [])
    else Match(m.len, if Collects(t, h, x) then [Child(Collector(h, x), pos, m.len, Node(x, m.out))] else [])
  }

  function CloseAnonymous(m: Result): Result {
    if m.Match? && m.len == 0 then Match(0, []) else m
  }

  function Prepend(len: nat, out: seq<Assignment>, m: Result): Result {
    if m.NoMatch? then NoMatch else Match(len + m.len, out + m.out)
  }

  lemma PrependNothing(m: Result)
    ensures Prepend(0, [], m) == m
  {
  }

  lemma PrependTwice(len: nat, out: seq<Assignment>, len': nat, out': seq<Assignment>, m: Result)
    ensures Prepend(len, out, Prepend(len', out', m)) == Prepend(len + len', out + out', m)
  {
    if m.Match? {
      assert out + (out' + m.out) == out + out' + m.out;
    }
  }

  lemma PrependLast(len: nat, out: seq<Assignment>, matched: bool)
    ensures Prepend(len, out, if matched then Match(0, []) else NoMatch) == if matched then Match(len, out) else NoMatch
  {
    assert out + [] == out;
  }

  predicate LiteralAt(lit: Bytes, s: Bytes, pos: nat)
    requires pos <= |s|
  {
    pos + |lit| <= |s| && forall i :: 0 <= i < |lit| ==> ToLower(s[pos + i]) == lit[i]
  }

  predicate Better(m: Result, best: Result) {
    m.Match? && (best.NoMatch? || m.len > best.len)
  }

  predicate Fits(m: Result, nullable: bool, s: Bytes, pos: nat) {
    m.Match? ==> pos + m.len <= |s| && (m.len == 0 ==> nullable)
  }

  /** Feeds `r` at `pos`, with the context of handler `h` on top of the stack. */
  function Parse(g: Grammar, t: Table, h: Name, r: Rec, s: Bytes, pos: nat): (m: Result)
    requires WellFormed(g.graph) && Ready(g.graph, r, s, pos)
    ensures Fits(m, Nullable(g.graph, r), s, pos)
    ensures m.Match? && m.len == 0 ==> m.out == []
    decreases |s| - pos, HeadRank(g.graph, r), r, 1
  {
    match r
    case Named(x) =>
      assert RuleOk(g.graph, x);
      if x in t then CloseChild(t, h, x, pos, ParseBody(g, t, x, g.graph.rules[x], s, pos))
      else CloseText(t, h, x, pos, ParseBody(g, t, h, g.graph.rules[x], s, pos))
    case _ => CloseAnonymous(ParseBody(g, t, h, r, s, pos))
  }

  /** The matching of one node, without what is done around it on entry and exit. */
  function ParseBody(g: Grammar, t: Table, h: Name, r: Rec, s: Bytes, pos: nat): (m: Result)
    requires WellFormed(g.graph) && Ready(g.graph, r, s, pos) && !r.Named?
    ensures Fits(m, Nullable(g.graph, r), s, pos)
    decreases |s| - pos, HeadRank(g.graph, r), r, 0
  {
    match r
    case CharRec(c, caseSensitive) =>
      var b := At(s, pos);
      if (if caseSensitive then b else ToLower(b)) == c then Match(1, []) else NoMatch
    case CharRange(lo, hi) => if lo <= At(s, pos) <= hi then Match(1, []) else NoMatch
    case Literal(lit) => if LiteralAt(lit, s, pos) then Match(|lit|, []) else NoMatch
    case Sequence(es) => ParseSequence(g, t, h, es, s, pos)
    case Selector(sel, es) =>
      if sel in g.exclusive then ParseFirst(g, t, h, es, s, pos)
      else ParseBest(g, t, h, es, NoMatch, s, pos)
    case Loop(body, min, max) => ParseLoop(g, t, h, body, min, max, 0, s, pos)
    case Pointer(target) => Parse(g, t, h, target, s, pos)
    case Alias(target) => Parse(g, t, h, target, s, pos)
  }

  /** The rule `x` entered with the context of handler `h`, which is its own if it has one. */
  function ParseRule(g: Grammar, t: Table, h: Name, x: Name, s: Bytes, pos: nat): (m: Result)
    requires WellFormed(g.graph) && Ready(g.graph, Named(x), s, pos)
    ensures Fits(m, true, s, pos)
  {
    assert RuleOk(g.graph, x);
    ParseBody(g, t, h, g.graph.rules[x], s, pos)
  }

  function ParseSequence(g: Grammar, t: Table, h: Name, es: Recs, s: Bytes, pos: nat): (m: Result)
    requires WellFormed(g.graph) && ReadySequence(g.graph, es, s, pos)
    ensures Fits(m, AllNullable(g.graph, es), s, pos)
    decreases |s| - pos, SequenceRank(g.graph, es), es, 0
  {
    match es
    case Nil => Match(0, [])
    case Cons(e, tail) =>
      var m := Parse(g, t, h, e, s, pos);
      if m.NoMatch? then NoMatch
      else Prepend(m.len, m.out, ParseSequence(g, t, h, tail, s, pos + m.len))
  }

  /** An exclusive selector: the first alternative that consumes something. */
  function ParseFirst(g: Grammar, t: Table, h: Name, es: Recs, s: Bytes, pos: nat): (m: Result)
    requires WellFormed(g.graph) && ReadyAll(g.graph, es, s, pos)
    ensures Fits(m, false, s, pos)
    decreases |s| - pos, SelectorRank(g.graph, es), es, 0
  {
    match es
    case Nil => NoMatch
    case Cons(e, tail) =>
      var m := Parse(g, t, h, e, s, pos);
      if Consumed(m) then m else ParseFirst(g, t, h, tail, s, pos)
  }

  /** A plain selector: the first of the longest alternatives, `best` being the best so far. */
  function ParseBest(g: Grammar, t: Table, h: Name, es: Recs, best: Result, s: Bytes, pos: nat): (m: Result)
    requires WellFormed(g.graph) && ReadyAll(g.graph, es, s, pos)
    ensures m == best || Fits(m, AnyNullable(g.graph, es), s, pos)
    decreases |s| - pos, SelectorRank(g.graph, es), es, 0
  {
    match es
    case Nil => best
    case Cons(e, tail) =>
      var m := Parse(g, t, h, e, s, pos);
      ParseBest(g, t, h, tail, if Better(m, best) then m else best, s, pos)
  }

  predicate Continues(max: int, count: nat, s: Bytes, pos: nat)
    requires pos <= |s|
  {
    (max != -1 ==> count < max) && At(s, pos) != 0
  }

  predicate LoopOk(g: Graph, body: Rec, max: int) {
    Ok(g, body, true) && (max == -1 ==> !Nullable(g, body))
  }

  /** The rest of a loop after `count` iterations. */
  function ParseLoop(g: Grammar, t: Table, h: Name, body: Rec, min: int, max: int, count: nat, s: Bytes,
                     pos: nat): (m: Result)
    requires WellFormed(g.graph) && pos <= |s| && LoopOk(g.graph, body, max)
    ensures Fits(m, min <= count || Nullable(g.graph, body), s, pos)
    decreases |s| - pos, HeadRank(g.graph, body), body, 2 + if count < max then max - count else 0
  {
    var m := if Continues(max, count, s, pos) then Parse(g, t, h, body, s, pos) else NoMatch;
    if m.Match? then Prepend(m.len, m.out, ParseLoop(g, t, h, body, min, max, count + 1, s, pos + m.len))
    else if count < min then NoMatch
    else Match(0, [])
  }

  // The equations of sequences and loops, for proofs that need nothing else about them.

  lemma SequenceUnfolds(g: Grammar, t: Table, h: Name, es: Recs, s: Bytes, pos: nat)
    requires WellFormed(g.graph) && ReadySequence(g.graph, es, s, pos) && es.Cons?
    ensures Ready(g.graph, es.head, s, pos) && HeadRank(g.graph, es.head) <= SequenceRank(g.graph, es)
    ensures var m, whole := Parse(g, t, h, es.head, s, pos), ParseSequence(g, t, h, es, s, pos);
            && (m.NoMatch? ==> whole == NoMatch)
            && (m.Match? ==>
                  && ReadySequence(g.graph, es.tail, s, pos + m.len)
                  && (m.len == 0 ==> SequenceRank(g.graph, es.tail) <= SequenceRank(g.graph, es))
                  && whole == Prepend(m.len, m.out, ParseSequence(g, t, h, es.tail, s, pos + m.len)))
  {
  }

  lemma SequenceEnds(g: Grammar, t: Table, h: Name, s: Bytes, pos: nat)
    requires WellFormed(g.graph) && pos <= |s|
    ensures ParseSequence(g, t, h, Nil, s, pos) == Match(0, [])
  {
  }

  lemma LoopUnfolds(g: Grammar, t: Table, h: Name, body: Rec, min: int, max: int, count: nat, s: Bytes, pos: nat)
    requires WellFormed(g.graph) && pos <= |s| && LoopOk(g.graph, body, max) && Continues(max, count, s, pos)
    ensures Ready(g.graph, body, s, pos)
    ensures var m := Parse(g, t, h, body, s, pos);
            && Fits(m, max != -1, s, pos)
            && (m.Match? ==>
                  ParseLoop(g, t, h, body, min, max, count, s, pos) ==
                  Prepend(m.len, m.out, ParseLoop(g, t, h, body, min, max, count + 1, s, pos + m.len)))
  {
  }

  lemma LoopEnds(g: Grammar, t: Table, h: Name, body: Rec, min: int, max: int, count: nat, s: Bytes, pos: nat)
    requires WellFormed(g.graph) && pos <= |s| && LoopOk(g.graph, body, max)
    requires Continues(max, count, s, pos) ==> Parse(g, t, h, body, s, pos).NoMatch?
    ensures ParseLoop(g, t, h, body, min, max, count, s, pos) == if count < min then NoMatch else Match(0, [])
  {
  }

  lemma SelectorUnfolds(g: Grammar, t: Table, h: Name, es: Recs, best: Result, s: Bytes, pos: nat)
    requires WellFormed(g.graph) && ReadyAll(g.graph, es, s, pos) && es.Cons?
    ensures Ready(g.graph, es.head, s, pos) && HeadRank(g.graph, es.head) <= SelectorRank(g.graph, es)
    ensures ReadyAll(g.graph, es.tail, s, pos) && SelectorRank(g.graph, es.tail) <= SelectorRank(g.graph, es)
    ensures var m := Parse(g, t, h, es.head, s, pos);
            && ParseFirst(g, t, h, es, s, pos) == (if Consumed(m) then m else ParseFirst(g, t, h, es.tail, s, pos))
            && ParseBest(g, t, h, es, best, s, pos) ==
               ParseBest(g, t, h, es.tail, if Better(m, best) then m else best, s, pos)
  {
  }

  lemma SelectorEnds(g: Grammar, t: Table, h: Name, best: Result, s: Bytes, pos: nat)
    requires WellFormed(g.graph) && pos <= |s|
    ensures ParseFirst(g, t, h, Nil, s, pos) == NoMatch && ParseBest(g, t, h, Nil, best, s, pos) == best
  {
  }
}
