/** How a repeat is parsed, what its element makes of it, and the loop it is compiled to (sections 3.6 and
    3.7 of RFC 5234), in any grammar with the rules for it. */
module Repeats {
  import opened Bytes
  import opened Recognizers
  import opened PureParser
  import opened Spans
  import R = AbnfRules
  import Grammars
  import Numbers
  import Abnf

  // The handlers and collectors of the grammar builder.

  predicate HasHandler(r: R.Rule) {
    || r.Rulelist? || r.Definition? || r.Alternation? || r.Concatenation? || r.Repetition? || r.Element? || r.Group?
    || r.Optional? || r.NumVal?
  }

  predicate Collected(h: R.Rule, r: R.Rule) {
    || (h.Rulelist? && r.Definition?)
    || (h.Definition? && (r.Rulename? || r.DefinedAs? || r.Alternation?))
    || (h.Alternation? && r.Concatenation?)
    || (h.Concatenation? && r.Repetition?)
    || (h.Repetition? && (r.Repeat? || r.RepeatMin? || r.RepeatMax? || r.RepeatCount? || r.Element?))
    || (h.Element? && (r.Rulename? || r.Group? || r.Optional? || r.CharVal? || r.NumVal? || r.ProseVal?))
    || (h.Group? && r.Alternation?)
    || (h.Optional? && r.Alternation?)
    || (h.NumVal? && (r.BinVal? || r.HexVal? || r.DecVal?))
  }

  ghost function CollectedNames(x: Name): set<Name>
    requires x in R.Names()
  {
    hide R.NameOf;
    set r: R.Rule | Collected(R.RuleNamed(x), r) :: R.NameOf(r)
  }

  ghost function Handlers(): Table {
    hide R.NameOf;
    map x | x in R.Names() && HasHandler(R.RuleNamed(x)) :: CollectedNames(x)
  }

  lemma HandlersSay(h: R.Rule, r: R.Rule)
    ensures R.NameOf(h) in Handlers() <==> HasHandler(h)
    ensures Collects(Handlers(), R.NameOf(h), R.NameOf(r)) <==> HasHandler(h) && Collected(h, r)
  {
    hide R.NameOf, HasHandler, Collected;
    R.NameRead(h);
    if Collects(Handlers(), R.NameOf(h), R.NameOf(r)) {
      var q :| Collected(h, q) && R.NameOf(q) == R.NameOf(r);
      R.Distinct(q, r);
    }
  }

  predicate IsDigit(b: int) {
    Numbers.IsDigit(10, b)
  }

  /** Between `pos` and `pos + n` the input holds digits, and no digit follows. */
  predicate Digits(s: Bytes, pos: nat, n: nat) {
    && pos + n <= |s| && (forall i :: pos <= i < pos + n ==> IsDigit(s[i]))
    && !IsDigit(At(s, pos + n))
  }

  /** `d` is a rule for one digit that leaves no assignment in the context of `h`. */
  ghost predicate DigitRule(g: Grammar, t: Table, h: Name, d: Name) {
    && WellFormed(g.graph) && d in g.graph.rules && g.graph.rules[d] == CharRange(48, 57) && d in g.graph.atEnd
    && d !in g.graph.nullable && d !in t && !Collects(t, h, d)
  }

  lemma DigitFed(g: Grammar, t: Table, h: Name, d: Name, s: Bytes, pos: nat)
    requires DigitRule(g, t, h, d) && pos <= |s|
    ensures Ready(g.graph, Named(d), s, pos)
    ensures Parse(g, t, h, Named(d), s, pos) == if IsDigit(At(s, pos)) then Match(1, []) else NoMatch
  {
    assert RuleOk(g.graph, d);
  }

  lemma {:induction false} RunFed(g: Grammar, t: Table, h: Name, d: Name, min: nat, count: nat, s: Bytes, pos: nat,
                                  n: nat)
    requires DigitRule(g, t, h, d) && Digits(s, pos, n)
    ensures LoopOk(g.graph, Named(d), -1)
    ensures ParseLoop(g, t, h, Named(d), min, -1, count, s, pos) == if count + n < min then NoMatch else Match(n, [])
    decreases n
  {
    hide Parse, ParseLoop, WellFormed;
    DigitFed(g, t, h, d, s, pos);
    if n == 0 {
      LoopEnds(g, t, h, Named(d), min, -1, count, s, pos);
    } else {
      LoopUnfolds(g, t, h, Named(d), min, -1, count, s, pos);
      RunFed(g, t, h, d, min, count + 1, s, pos + 1, n - 1);
    }
  }

  /** A rule for a run of digits leaves the run as text, if it is collected. */
  lemma RunRuleFed(g: Grammar, t: Table, h: Name, x: Name, d: Name, min: nat, s: Bytes, pos: nat, n: nat)
    requires DigitRule(g, t, h, d) && Digits(s, pos, n) && min <= 1
    requires x in g.graph.rules && g.graph.rules[x] == Loop(Named(d), min, -1) && x in g.graph.atEnd && x !in t
    ensures Ready(g.graph, Named(x), s, pos)
    ensures Parse(g, t, h, Named(x), s, pos) ==
            if n < min then NoMatch else if n == 0 then Match(0, [])
            else Match(n, if Collects(t, h, x) then [Text(Collector(h, x), pos, n)] else [])
  {
    hide ParseLoop;
    assert RuleOk(g.graph, x);
    RunFed(g, t, h, d, min, 0, s, pos, n);
  }

  /** The names of the rules a repeat is made of. */
  datatype RepeatNames = RepeatNames(repeat: Name, count: Name, min: Name, max: Name, digit: Name)

  function BoundsOf(ns: RepeatNames): Recs {
    Cons(Named(ns.min), Cons(CharRec(42, true), Cons(Named(ns.max), Nil)))
  }

  function RepeatAlternatives(ns: RepeatNames): Recs {
    Cons(Named(ns.count), Cons(Sequence(BoundsOf(ns)), Nil))
  }

  ghost predicate TextRule(g: Grammar, t: Table, h: Name, x: Name, body: Rec) {
    x in g.graph.rules && g.graph.rules[x] == body && x in g.graph.atEnd && x !in t && Collects(t, h, x)
  }

  ghost predicate RepeatRules(g: Grammar, t: Table, h: Name, ns: RepeatNames) {
    && DigitRule(g, t, h, ns.digit)
    && TextRule(g, t, h, ns.count, Loop(Named(ns.digit), 1, -1))
    && TextRule(g, t, h, ns.min, Loop(Named(ns.digit), 0, -1))
    && TextRule(g, t, h, ns.max, Loop(Named(ns.digit), 0, -1))
    && exists sel ::
         && sel !in g.exclusive
         && TextRule(g, t, h, ns.repeat, Selector(sel, RepeatAlternatives(ns)))
  }

  function TextOf(h: Name, x: Name, pos: nat, n: nat): seq<Assignment> {
    if n == 0 then [] else [Text(Collector(h, x), pos, n)]
  }

  /** `a` digits, an asterisk and `b` digits. */
  predicate BoundsAt(s: Bytes, pos: nat, a: nat, b: nat) {
    Digits(s, pos, a) && pos + a < |s| && s[pos + a] == 42 && Digits(s, pos + a + 1, b)
  }

  /** `n` digits and no asterisk. */
  predicate CountAt(s: Bytes, pos: nat, n: nat) {
    Digits(s, pos, n) && At(s, pos + n) != 42
  }

  /** The forms of a repeat, as texts: digits, an asterisk, digits, and then something else. */
  lemma FormsRead(a: Bytes, b: Bytes, rest: Bytes)
    requires Numbers.AllDigits(10, a) && Numbers.AllDigits(10, b)
    requires rest == [] || !('0' as int <= rest[0] <= '9' as int)
    ensures BoundsAt(a + ['*' as int] + b + rest, 0, |a|, |b|)
    ensures rest == [] || rest[0] != '*' as int ==> CountAt(a + rest, 0, |a|)
  {
    var s := a + [42] + b + rest;
    assert forall i :: 0 <= i < |b| ==> s[|a| + 1 + i] == b[i];
    assert rest != [] ==> s[|a| + 1 + |b|] == rest[0];
    assert Digits(s, 0, |a|) && Digits(s, |a| + 1, |b|);
    var t := a + rest;
    assert rest != [] ==> t[|a|] == rest[0];
  }

  lemma BoundsReady(g: Grammar, t: Table, h: Name, ns: RepeatNames)
    requires RepeatRules(g, t, h, ns)
    ensures OkSequence(g.graph, BoundsOf(ns), false)
  {
    hide WellFormed;
    var last := BoundsOf(ns).tail.tail;
    assert OkSequence(g.graph, last, false);
    assert OkSequence(g.graph, Cons(CharRec(42, true), last), false);
  }

  lemma AsteriskFed(g: Grammar, t: Table, h: Name, s: Bytes, pos: nat)
    requires WellFormed(g.graph) && pos <= |s|
    ensures Ready(g.graph, CharRec(42, true), s, pos)
    ensures Parse(g, t, h, CharRec(42, true), s, pos) == if At(s, pos) == 42 then Match(1, []) else NoMatch
  {
  }

  lemma BoundsFed(g: Grammar, t: Table, h: Name, ns: RepeatNames, s: Bytes, pos: nat, a: nat)
    requires RepeatRules(g, t, h, ns) && Digits(s, pos, a)
    ensures ReadySequence(g.graph, BoundsOf(ns), s, pos)
    ensures CountAt(s, pos, a) ==> ParseSequence(g, t, h, BoundsOf(ns), s, pos) == NoMatch
    ensures forall b | BoundsAt(s, pos, a, b) ::
              ParseSequence(g, t, h, BoundsOf(ns), s, pos) ==
              Match(a + 1 + b, TextOf(h, ns.min, pos, a) + TextOf(h, ns.max, pos + a + 1, b))
  {
    hide WellFormed, Parse, ParseSequence, Digits;
    BoundsReady(g, t, h, ns);
    RunRuleFed(g, t, h, ns.min, ns.digit, 0, s, pos, a);
    AsteriskFed(g, t, h, s, pos + a);
    SequenceUnfolds(g, t, h, BoundsOf(ns), s, pos);
    SequenceUnfolds(g, t, h, BoundsOf(ns).tail, s, pos + a);
    forall b | BoundsAt(s, pos, a, b)
      ensures ParseSequence(g, t, h, BoundsOf(ns), s, pos) ==
              Match(a + 1 + b, TextOf(h, ns.min, pos, a) + TextOf(h, ns.max, pos + a + 1, b))
    {
      RunRuleFed(g, t, h, ns.max, ns.digit, 0, s, pos + a + 1, b);
      SequenceUnfolds(g, t, h, BoundsOf(ns).tail.tail, s, pos + a + 1);
      SequenceEnds(g, t, h, s, pos + a + 1 + b);
    }
  }

  function CountOut(h: Name, ns: RepeatNames, pos: nat, n: nat): seq<Assignment> {
    TextOf(h, ns.count, pos, n) + TextOf(h, ns.repeat, pos, n)
  }

  function BoundsOut(h: Name, ns: RepeatNames, pos: nat, a: nat, b: nat): seq<Assignment> {
    TextOf(h, ns.min, pos, a) + TextOf(h, ns.max, pos + a + 1, b) + TextOf(h, ns.repeat, pos, a + 1 + b)
  }

  /** The longer alternative wins: digits before an asterisk are never left as a count. */
  lemma RepeatFed(g: Grammar, t: Table, h: Name, ns: RepeatNames, s: Bytes, pos: nat, a: nat)
    requires RepeatRules(g, t, h, ns) && Digits(s, pos, a)
    ensures Ready(g.graph, Named(ns.repeat), s, pos)
    ensures CountAt(s, pos, a) ==>
              Parse(g, t, h, Named(ns.repeat), s, pos) == if a == 0 then NoMatch else Match(a, CountOut(h, ns, pos, a))
    ensures forall b | BoundsAt(s, pos, a, b) ::
              Parse(g, t, h, Named(ns.repeat), s, pos) == Match(a + 1 + b, BoundsOut(h, ns, pos, a, b))
  {
    hide ParseSequence, ParseBest, WellFormed, ReadySequence, Ok, ReadyAll;
    var sel :| sel !in g.exclusive && TextRule(g, t, h, ns.repeat, Selector(sel, RepeatAlternatives(ns)));
    var es := RepeatAlternatives(ns);
    RepeatReady(g, t, h, ns, sel, s, pos);
    RunRuleFed(g, t, h, ns.count, ns.digit, 1, s, pos, a);
    BoundsFed(g, t, h, ns, s, pos, a);
    var m := Parse(g, t, h, Named(ns.count), s, pos);
    var m' := Parse(g, t, h, Sequence(BoundsOf(ns)), s, pos);
    SelectorUnfolds(g, t, h, es, NoMatch, s, pos);
    SelectorUnfolds(g, t, h, es.tail, m, s, pos);
    SelectorEnds(g, t, h, m, s, pos);
    SelectorEnds(g, t, h, m', s, pos);
  }

  lemma RepeatReady(g: Grammar, t: Table, h: Name, ns: RepeatNames, sel: nat, s: Bytes, pos: nat)
    requires RepeatRules(g, t, h, ns) && pos <= |s|
    requires TextRule(g, t, h, ns.repeat, Selector(sel, RepeatAlternatives(ns)))
    ensures Ready(g.graph, Named(ns.repeat), s, pos) && ReadyAll(g.graph, RepeatAlternatives(ns), s, pos)
    ensures Ready(g.graph, g.graph.rules[ns.repeat], s, pos)
    ensures Ready(g.graph, Sequence(BoundsOf(ns)), s, pos)
  {
    assert RuleOk(g.graph, ns.repeat);
    BoundsReady(g, t, h, ns);
  }

  function Optionally(r: Rec): Rec {
    Loop(r, 0, 1)
  }

  lemma OptionalUnfolds(g: Grammar, t: Table, h: Name, x: Name, s: Bytes, pos: nat)
    requires WellFormed(g.graph) && pos <= |s| && x in g.graph.rules
    ensures Ready(g.graph, Optionally(Named(x)), s, pos)
    ensures Parse(g, t, h, Optionally(Named(x)), s, pos) ==
            CloseAnonymous(ParseLoop(g, t, h, Named(x), 0, 1, 0, s, pos))
  {
    hide ParseLoop, WellFormed;
    assert LoopOk(g.graph, Named(x), 1);
    assert Ok(g.graph, Optionally(Named(x)), false);
  }

  /** The optional repeat at the head of a repetition. */
  lemma OptionalRepeatFed(g: Grammar, t: Table, h: Name, ns: RepeatNames, s: Bytes, pos: nat, a: nat)
    requires RepeatRules(g, t, h, ns) && Digits(s, pos, a)
    ensures Ready(g.graph, Optionally(Named(ns.repeat)), s, pos)
    ensures CountAt(s, pos, a) ==>
              Parse(g, t, h, Optionally(Named(ns.repeat)), s, pos) == Match(a, CountOut(h, ns, pos, a))
    ensures forall b | BoundsAt(s, pos, a, b) ::
              Parse(g, t, h, Optionally(Named(ns.repeat)), s, pos) == Match(a + 1 + b, BoundsOut(h, ns, pos, a, b))
  {
    var body := Named(ns.repeat);
    RepeatFed(g, t, h, ns, s, pos, a);
    OptionalUnfolds(g, t, h, ns.repeat, s, pos);
    hide ParseLoop, Parse, WellFormed;
    var r := Parse(g, t, h, body, s, pos);
    if Continues(1, 0, s, pos) && r.Match? {
      LoopUnfolds(g, t, h, body, 0, 1, 0, s, pos);
      LoopEnds(g, t, h, body, 0, 1, 1, s, pos + r.len);
    } else {
      LoopEnds(g, t, h, body, 0, 1, 0, s, pos);
    }
  }

  // What the element created for a repetition makes of its assignments.

  /** The number written in decimal. */
  function Decimal(digits: Bytes): nat {
    Numbers.ValueOf(10, digits)
  }

  /** The int a collector is given for a text in digits. */
  function IntOf(digits: Bytes): int {
    Numbers.IntOf(Decimal(digits))
  }

  datatype Bounds = Bounds(repeat: Bytes, min: int, max: int, count: int)

  const INITIAL: Bounds := Bounds([], 0, -1, -1)

  function Assigned(f: Bounds, p: Property): Bounds {
    match p
    case Value(c, text) =>
      if c.rule == R.NameOf(R.Repeat) then f.(repeat := text)
      else if c.rule == R.NameOf(R.RepeatMin) then f.(min := IntOf(text))
      else if c.rule == R.NameOf(R.RepeatMax) then f.(max := IntOf(text))
      else if c.rule == R.NameOf(R.RepeatCount) then f.(count := IntOf(text))
      else f
    case Object(_, _) => f
  }

  function AssignedAll(f: Bounds, ps: seq<Property>): Bounds
    decreases |ps|
  {
    if ps == [] then f else AssignedAll(Assigned(f, ps[0]), ps[1..])
  }

  class ParsedRepetition {
    var repeat: Bytes
    var min: int
    var max: int
    var count: int

    ghost function State(): Bounds
      reads this
    {
      Bounds(repeat, min, max, count)
    }

    constructor ()
      ensures State() == INITIAL
    {
      repeat, min, max, count := [], 0, -1, -1;
    }

    method SetValue(rule: Name, text: Bytes)
      modifies this
      ensures State() == Assigned(old(State()), Value(Collector(R.NameOf(R.Repetition), rule), text))
    {
      if rule == R.NameOf(R.Repeat) {
        repeat := text;
      } else if rule == R.NameOf(R.RepeatMin) {
        min := IntOf(text);
      } else if rule == R.NameOf(R.RepeatMax) {
        max := IntOf(text);
      } else if rule == R.NameOf(R.RepeatCount) {
        count := IntOf(text);
      }
    }

    /** Performs the assignments in order. */
    method Collect(ps: seq<Property>)
      modifies this
      ensures State() == AssignedAll(old(State()), ps)
    {
      var i := 0;
      while i < |ps|
        invariant 0 <= i <= |ps| && AssignedAll(State(), ps[i..]) == AssignedAll(old(State()), ps)
      {
        assert ps[i..][1..] == ps[i + 1..];
        if ps[i].Value? {
          SetValue(ps[i].collector.rule, ps[i].value);
        }
        i := i + 1;
      }
    }
  }

  function Names(): RepeatNames {
    RepeatNames(R.NameOf(R.Repeat), R.NameOf(R.RepeatCount), R.NameOf(R.RepeatMin), R.NameOf(R.RepeatMax),
        R.NameOf(R.Digit))
  }

  function Repetition(): Name { R.NameOf(R.Repetition) }

  lemma PairReady(g: Graph, h: Name, first: Rec, second: Rec, s: Bytes, pos: nat)
    requires WellFormed(g) && pos <= |s| && h in g.atEnd
    requires h in g.rules && g.rules[h] == Sequence(Cons(first, Cons(second, Nil)))
    ensures Ready(g, Named(h), s, pos) && Ready(g, first, s, pos)
    ensures ReadySequence(g, Cons(first, Cons(second, Nil)), s, pos)
  {
    assert RuleOk(g, h);
    assert OkSequence(g, Cons(first, Cons(second, Nil)), false);
  }

  /** A rule that is a sequence of two. */
  lemma PairFed(g: Grammar, t: Table, h: Name, first: Rec, second: Rec, s: Bytes, pos: nat)
    requires WellFormed(g.graph) && pos <= |s| && h in g.graph.atEnd
    requires h in g.graph.rules && g.graph.rules[h] == Sequence(Cons(first, Cons(second, Nil)))
    ensures Ready(g.graph, Named(h), s, pos) && Ready(g.graph, first, s, pos)
    ensures var r := Parse(g, t, h, first, s, pos);
            r.Match? ==>
              && Ready(g.graph, second, s, pos + r.len)
              && ParseRule(g, t, h, h, s, pos) == Prepend(r.len, r.out, Parse(g, t, h, second, s, pos + r.len))
  {
    var es := Cons(first, Cons(second, Nil));
    PairReady(g.graph, h, first, second, s, pos);
    hide WellFormed, Parse, ParseSequence;
    SequenceUnfolds(g, t, h, es, s, pos);
    var r := Parse(g, t, h, first, s, pos);
    if r.Match? {
      SequenceUnfolds(g, t, h, es.tail, s, pos + r.len);
      var e := Parse(g, t, h, second, s, pos + r.len);
      if e.Match? {
        SequenceEnds(g, t, h, s, pos + r.len + e.len);
        assert Prepend(e.len, e.out, Match(0, [])) == e;
      }
    }
  }

  /** What the placeholder `y` of a rule `x` with a handler assigns is one object. */
  lemma ObjectFed(g: Grammar, t: Table, h: Name, y: Name, x: Name, s: Bytes, pos: nat)
    requires WellFormed(g.graph) && Ready(g.graph, Named(y), s, pos)
    requires y in g.graph.rules && g.graph.rules[y] == Pointer(Named(x)) && y !in t && y !in g.graph.nullable
    requires x in t && Collects(t, h, x) && !Collects(t, h, y)
    ensures var e := Parse(g, t, h, Named(y), s, pos);
            e.Match? ==> e.len > 0 && |e.out| == 1 && e.out[0].Child?
  {
    hide ParseBody;
    assert RuleOk(g.graph, y);
    assert Parse(g, t, h, Pointer(Named(x)), s, pos) == CloseAnonymous(ParseBody(g, t, h, Pointer(Named(x)), s, pos));
    PointerFed(g, t, h, x, s, pos);
  }

  lemma PointerFed(g: Grammar, t: Table, h: Name, x: Name, s: Bytes, pos: nat)
    requires WellFormed(g.graph) && Ready(g.graph, Pointer(Named(x)), s, pos)
    ensures ParseBody(g, t, h, Pointer(Named(x)), s, pos) == Parse(g, t, h, Named(x), s, pos)
  {
  }

  function ElementPlaceholder(): Name { Grammars.Deferred(R.NameOf(R.Element)) }

  function AppliedOne(f: Bounds, x: Assignment, s: Bytes): Bounds
    requires End(x) <= |s|
  {
    if x.Text? then Assigned(f, Value(x.collector, s[x.begin..End(x)])) else f
  }

  /** The assignments of texts, in order; an object does not touch the bounds. */
  function Applied(f: Bounds, xs: seq<Assignment>, s: Bytes): Bounds
    requires forall x :: x in xs ==> End(x) <= |s|
    decreases |xs|
  {
    if xs == [] then f else Applied(AppliedOne(f, xs[0], s), xs[1..], s)
  }

  lemma {:induction false} AppliedIsAssigned(f: Bounds, xs: seq<Assignment>, s: Bytes)
    requires forall i :: 0 <= i < |xs| ==> Inside(xs[i], 0, |s|)
    ensures forall x :: x in xs ==> End(x) <= |s|
    ensures AssignedAll(f, RealizedAll(xs, s)) == Applied(f, xs, s)
    decreases |xs|
  {
    hide R.NameOf, IntOf;
    if xs != [] {
      var x := xs[0];
      assert Inside(x, 0, |s|);
      var ps := RealizedAll(xs, s);
      assert ps[0] == RealizedOne(x, s) && ps[1..] == RealizedAll(xs[1..], s);
      assert Assigned(f, ps[0]) == AppliedOne(f, x, s);
      AppliedIsAssigned(AppliedOne(f, x, s), xs[1..], s);
      assert AssignedAll(f, ps) == AssignedAll(Assigned(f, ps[0]), ps[1..]);
    }
  }

  lemma {:induction false} AppliedTwice(f: Bounds, xs: seq<Assignment>, ys: seq<Assignment>, s: Bytes)
    requires forall x :: x in xs + ys ==> End(x) <= |s|
    ensures Applied(f, xs + ys, s) == Applied(Applied(f, xs, s), ys, s)
    decreases |xs|
  {
    hide AppliedOne;
    if xs == [] {
      assert xs + ys == ys;
    } else {
      assert (xs + ys)[1..] == xs[1..] + ys;
      AppliedTwice(AppliedOne(f, xs[0], s), xs[1..], ys, s);
    }
  }

  lemma TextApplied(f: Bounds, x: Name, s: Bytes, pos: nat, n: nat)
    requires pos + n <= |s|
    ensures Applied(f, TextOf(Repetition(), x, pos, n), s) ==
            if n == 0 then f else Assigned(f, Value(Collector(Repetition(), x), s[pos..pos + n]))
  {
    hide Assigned;
  }

  /** What a repetition without bounds, with a count, or with bounds is created with. */
  function CountBounds(s: Bytes, pos: nat, n: nat): Bounds
    requires pos + n <= |s|
  {
    if n == 0 then INITIAL else Bounds(s[pos..pos + n], 0, -1, IntOf(s[pos..pos + n]))
  }

  function RangeBounds(s: Bytes, pos: nat, a: nat, b: nat): Bounds
    requires pos + a + 1 + b <= |s|
  {
    Bounds(s[pos..pos + a + 1 + b],
           if a == 0 then 0 else IntOf(s[pos..pos + a]),
           if b == 0 then -1 else IntOf(s[pos + a + 1..pos + a + 1 + b]),
           -1)
  }

  lemma NamesDistinct()
    ensures var ns := Names();
            && ns.repeat != ns.count && ns.repeat != ns.min && ns.repeat != ns.max
            && ns.count != ns.min && ns.count != ns.max && ns.min != ns.max
  {
  }

  lemma CountApplied(s: Bytes, pos: nat, n: nat)
    requires pos + n <= |s|
    ensures Applied(INITIAL, CountOut(Repetition(), Names(), pos, n), s) == CountBounds(s, pos, n)
  {
    NamesDistinct();
    hide R.NameOf, Applied, TextOf, IntOf;
    var h, ns := Repetition(), Names();
    TextsEnd(h, ns.count, pos, n, s);
    TextsEnd(h, ns.repeat, pos, n, s);
    AppliedTwice(INITIAL, TextOf(h, ns.count, pos, n), TextOf(h, ns.repeat, pos, n), s);
    TextApplied(INITIAL, ns.count, s, pos, n);
    TextApplied(Applied(INITIAL, TextOf(h, ns.count, pos, n), s), ns.repeat, s, pos, n);
  }

  lemma TextsEnd(h: Name, x: Name, pos: nat, n: nat, s: Bytes)
    requires pos + n <= |s|
    ensures forall a :: a in TextOf(h, x, pos, n) ==> End(a) <= |s|
  {
  }

  lemma RangeApplied(s: Bytes, pos: nat, a: nat, b: nat)
    requires pos + a + 1 + b <= |s|
    ensures Applied(INITIAL, BoundsOut(Repetition(), Names(), pos, a, b), s) == RangeBounds(s, pos, a, b)
  {
    NamesDistinct();
    hide R.NameOf, Applied, TextOf, IntOf;
    var h, ns := Repetition(), Names();
    var min, max, all := TextOf(h, ns.min, pos, a), TextOf(h, ns.max, pos + a + 1, b),
        TextOf(h, ns.repeat, pos, a + 1 + b);
    TextsEnd(h, ns.min, pos, a, s);
    TextsEnd(h, ns.max, pos + a + 1, b, s);
    TextsEnd(h, ns.repeat, pos, a + 1 + b, s);
    AppliedTwice(INITIAL, min + max, all, s);
    AppliedTwice(INITIAL, min, max, s);
    TextApplied(INITIAL, ns.min, s, pos, a);
    TextApplied(Applied(INITIAL, min, s), ns.max, s, pos + a + 1, b);
    TextApplied(Applied(INITIAL, min + max, s), ns.repeat, s, pos, a + 1 + b);
  }

  lemma NestedInside(xs: seq<Assignment>, lo: nat, hi: nat, end: nat)
    requires Nested(xs, lo, hi) && hi <= end
    ensures forall i :: 0 <= i < |xs| ==> Inside(xs[i], 0, end)
  {
    forall i | 0 <= i < |xs| ensures Inside(xs[i], 0, end) {
      assert Inside(xs[i], lo, hi);
    }
  }

  /** The rules for a repetition: an optional repeat, then the placeholder of the rule for an element. */
  ghost predicate RepetitionRules(g: Grammar, t: Table) {
    && RepeatRules(g, t, Repetition(), Names())
    && RepetitionRule(g, Repetition(), Optionally(Named(Names().repeat)), Named(ElementPlaceholder()))
    && ElementRules(g, t, Repetition(), ElementPlaceholder(), R.NameOf(R.Element))
  }

  /** The rule `h` is a sequence of two. */
  ghost predicate RepetitionRule(g: Grammar, h: Name, first: Rec, second: Rec) {
    h in g.graph.atEnd && h in g.graph.rules && g.graph.rules[h] == Sequence(Cons(first, Cons(second, Nil)))
  }

  /** `y` is the placeholder of the rule `x`, whose objects are collected by `h`. */
  ghost predicate ElementRules(g: Grammar, t: Table, h: Name, y: Name, x: Name) {
    && y in g.graph.rules && g.graph.rules[y] == Pointer(Named(x)) && y !in t && y !in g.graph.nullable
    && x in t && Collects(t, h, x) && !Collects(t, h, y)
  }

  /** A repetition is its repeat, assigned according to its form, then its element. */
  lemma RepeatThenElement(g: Grammar, t: Table, s: Bytes, pos: nat, a: nat)
    requires RepetitionRules(g, t) && Digits(s, pos, a)
    ensures WellFormed(g.graph) && Ready(g.graph, Named(Repetition()), s, pos)
    ensures CountAt(s, pos, a) ==>
              && Ready(g.graph, Named(ElementPlaceholder()), s, pos + a)
              && ParseRule(g, t, Repetition(), Repetition(), s, pos) ==
                 Prepend(a, CountOut(Repetition(), Names(), pos, a), ElementAt(g, t, s, pos + a))
    ensures forall b | BoundsAt(s, pos, a, b) ::
              && Ready(g.graph, Named(ElementPlaceholder()), s, pos + a + 1 + b)
              && ParseRule(g, t, Repetition(), Repetition(), s, pos) ==
                 Prepend(a + 1 + b, BoundsOut(Repetition(), Names(), pos, a, b), ElementAt(g, t, s, pos + a + 1 + b))
  {
    hide R.NameOf, WellFormed, Parse, ParseRule, Ok, Optionally;
    hide Digits, CountOut, BoundsOut, TextRule, CountAt, BoundsAt;
    OptionalRepeatFed(g, t, Repetition(), Names(), s, pos, a);
    PairFed(g, t, Repetition(), Optionally(Named(Names().repeat)), Named(ElementPlaceholder()), s, pos);
  }

  ghost function ElementAt(g: Grammar, t: Table, s: Bytes, pos: nat): Result
    requires WellFormed(g.graph) && Ready(g.graph, Named(ElementPlaceholder()), s, pos)
  {
    Parse(g, t, Repetition(), Named(ElementPlaceholder()), s, pos)
  }

  /** Whatever follows, a repeat is given the bounds its form calls for: the digits tried as a count
      leave nothing behind when an asterisk comes. */
  lemma RepeatDisambiguated(g: Grammar, t: Table, s: Bytes, pos: nat, a: nat)
    requires RepetitionRules(g, t) && Digits(s, pos, a)
    ensures WellFormed(g.graph) && Ready(g.graph, Named(Repetition()), s, pos)
    ensures var m := ParseRule(g, t, Repetition(), Repetition(), s, pos);
            m.Match? ==>
              && (forall i :: 0 <= i < |m.out| ==> Inside(m.out[i], 0, |s|))
              && (CountAt(s, pos, a) ==> AssignedAll(INITIAL, RealizedAll(m.out, s)) == CountBounds(s, pos, a))
              && (forall b | BoundsAt(s, pos, a, b) ::
                    AssignedAll(INITIAL, RealizedAll(m.out, s)) == RangeBounds(s, pos, a, b))
  {
    hide R.NameOf, RepetitionRules, WellFormed, ParseRule, Ok, CountBounds, RangeBounds, Applied;
    hide Digits, RealizedAll, AssignedAll, CountOut, BoundsOut, Nested, ElementAt;
    RepeatThenElement(g, t, s, pos, a);
    var h, ns := Repetition(), Names();
    var m := ParseRule(g, t, h, h, s, pos);
    RuleSpanned(g, t, h, s, pos);
    if m.Match? {
      NestedInside(m.out, pos, pos + m.len, |s|);
      if CountAt(s, pos, a) {
        BoundsKept(g, t, s, pos + a, CountOut(h, ns, pos, a), m);
        CountApplied(s, pos, a);
      }
      forall b | BoundsAt(s, pos, a, b)
        ensures AssignedAll(INITIAL, RealizedAll(m.out, s)) == RangeBounds(s, pos, a, b)
      {
        BoundsKept(g, t, s, pos + a + 1 + b, BoundsOut(h, ns, pos, a, b), m);
        RangeApplied(s, pos, a, b);
      }
    }
  }

  /** The element after a repeat does not change its bounds. */
  lemma BoundsKept(g: Grammar, t: Table, s: Bytes, pos: nat, out: seq<Assignment>, m: Result)
    requires RepetitionRules(g, t) && WellFormed(g.graph)
    requires Ready(g.graph, Named(ElementPlaceholder()), s, pos) && m.Match?
    requires exists len: nat :: m == Prepend(len, out, ElementAt(g, t, s, pos))
    requires forall i :: 0 <= i < |m.out| ==> Inside(m.out[i], 0, |s|)
    ensures forall x :: x in out ==> End(x) <= |s|
    ensures AssignedAll(INITIAL, RealizedAll(m.out, s)) == Applied(INITIAL, out, s)
  {
    hide R.NameOf, RepeatRules, RepetitionRule, WellFormed, Parse, Ok, RealizedAll, AssignedAll, Assigned, Applied;
    ObjectFed(g, t, Repetition(), ElementPlaceholder(), R.NameOf(R.Element), s, pos);
    var e := ElementAt(g, t, s, pos);
    assert m.out == out + e.out;
    AppliedIsAssigned(INITIAL, m.out, s);
    AppliedTwice(INITIAL, out, e.out, s);
    ObjectApplied(Applied(INITIAL, out, s), e.out, s);
  }

  lemma ObjectApplied(f: Bounds, xs: seq<Assignment>, s: Bytes)
    requires |xs| == 1 && xs[0].Child? && End(xs[0]) <= |s|
    ensures Applied(f, xs, s) == f
  {
  }

  // The loops repeats are compiled to.

  /** `p` has been given the bounds `f`. */
  predicate Carries(p: Abnf.Repetition, f: Bounds) {
    f == Bounds(p.repeat, p.min, p.max, p.count)
  }

  /** A count of n gives the loop (n, n) exactly if n fits in an int. */
  lemma CountLoop(s: Bytes, pos: nat, n: nat, p: Abnf.Repetition, r: Rec)
    requires Digits(s, pos, n) && n > 0 && Carries(p, CountBounds(s, pos, n)) && Abnf.CompiledRepetition(p, r)
    ensures var v := Decimal(s[pos..pos + n]);
            r.Loop? && ((r.min, r.max) == (v, v) <==> v < Numbers.INT_LIMIT)
  {
    hide Numbers.IntOf;
    Numbers.IntOfExact(Decimal(s[pos..pos + n]));
  }

  /** A minimum and a maximum, either of them left out, give the loop they call for exactly if they
      fit in an int: "n*m" gives (n, m), "n*" gives (n, -1), "*m" gives (0, m) and "*" gives (0, -1). */
  lemma RangeLoop(s: Bytes, pos: nat, a: nat, b: nat, p: Abnf.Repetition, r: Rec)
    requires BoundsAt(s, pos, a, b) && Carries(p, RangeBounds(s, pos, a, b)) && Abnf.CompiledRepetition(p, r)
    ensures var min, max := Decimal(s[pos..pos + a]), Decimal(s[pos + a + 1..pos + a + 1 + b]);
            && r.Loop?
            && ((r.min, r.max) == (min, if b == 0 then -1 else max) <==>
                min < Numbers.INT_LIMIT && max < Numbers.INT_LIMIT)
  {
    hide Numbers.IntOf;
    Numbers.IntOfExact(Decimal(s[pos..pos + a]));
    Numbers.IntOfExact(Decimal(s[pos + a + 1..pos + a + 1 + b]));
  }

  /** With a count of n, a repetition allows n occurrences and no other number of them. */
  lemma CountAllows(s: Bytes, pos: nat, n: nat, p: Abnf.Repetition, k: nat)
    requires Digits(s, pos, n) && n > 0 && Carries(p, CountBounds(s, pos, n))
    requires Decimal(s[pos..pos + n]) < Numbers.INT_LIMIT
    ensures Abnf.InBounds(p, k) <==> k == Decimal(s[pos..pos + n])
  {
    hide Numbers.IntOf;
    Numbers.IntOfExact(Decimal(s[pos..pos + n]));
  }

  /** With bounds, it allows the numbers of occurrences between them; a bound left out is none. */
  lemma RangeAllows(s: Bytes, pos: nat, a: nat, b: nat, p: Abnf.Repetition, k: nat)
    requires BoundsAt(s, pos, a, b) && Carries(p, RangeBounds(s, pos, a, b))
    requires Decimal(s[pos..pos + a]) < Numbers.INT_LIMIT
    requires Decimal(s[pos + a + 1..pos + a + 1 + b]) < Numbers.INT_LIMIT
    ensures Abnf.InBounds(p, k) <==>
            Decimal(s[pos..pos + a]) <= k && (b == 0 || k <= Decimal(s[pos + a + 1..pos + a + 1 + b]))
  {
    hide Numbers.IntOf;
    Numbers.IntOfExact(Decimal(s[pos..pos + a]));
    Numbers.IntOfExact(Decimal(s[pos + a + 1..pos + a + 1 + b]));
  }
}
