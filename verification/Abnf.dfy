/** Parsed ABNF rules, the language they denote, and the recognizers they are compiled to. */
module Abnf {
  import opened Bytes
  import opened Recognizers
  import opened Language
  import opened Grammars

  datatype Alternation = Alternation(concatenations: seq<Concatenation>)

  datatype Concatenation = Concatenation(repetitions: seq<Repetition>)

  /** `repeat` is the text of the repeat, empty if there is none; `count` is -1 unless the repeat is
      a single number, and `max` is -1 if there is no upper bound. */
  datatype Repetition = Repetition(repeat: Bytes, min: int, max: int, count: int, element: Element)

  datatype Element =
    | Group(alternation: Alternation)
    | Optional(alternation: Alternation)
    | NumVal(isRange: bool, values: seq<int>)
    | RuleName(name: Name)
    | CharVal(text: Bytes)

  datatype AbnfRule = AbnfRule(name: Name, definedAs: Bytes, alternation: Alternation)

  // What the source takes for granted about a parsed rule: anything else is a fatal error.

  predicate WellBuilt(a: Alternation) {
    forall i :: 0 <= i < |a.concatenations| ==> WellBuiltConcatenation(a.concatenations[i])
  }

  predicate WellBuiltConcatenation(c: Concatenation) {
    c.repetitions != [] && forall i :: 0 <= i < |c.repetitions| ==> WellBuiltElement(c.repetitions[i].element)
  }

  predicate WellBuiltElement(e: Element) {
    match e
    case Group(a) => WellBuilt(a)
    case Optional(a) => WellBuilt(a)
    case NumVal(isRange, values) => isRange ==> |values| >= 2
    case RuleName(x) => IsRuleName(Lower(x))
    case CharVal(text) => text != []
  }

  // The language of ABNF (sections 2.3 and 3 of RFC 5234), for given languages of the rule names.

  ghost predicate AlternationDerives(a: Alternation, env: Lang, w: Bytes)
    decreases a, 0
  {
    exists i :: 0 <= i < |a.concatenations| && ConcatenationDerives(a.concatenations[i].repetitions, env, w)
  }

  ghost predicate ConcatenationDerives(rs: seq<Repetition>, env: Lang, w: Bytes)
    decreases rs, 0
  {
    if rs == [] then w == []
    else exists k ::
      0 <= k <= |w| && RepetitionDerives(rs[0], env, w[..k]) && ConcatenationDerives(rs[1..], env, w[k..])
  }

  ghost predicate RepetitionDerives(r: Repetition, env: Lang, w: Bytes)
    decreases r, 1
  {
    if r.repeat == [] then ElementDerives(r.element, env, w)
    else exists n: nat :: InBounds(r, n) && ElementRepeats(r.element, env, n, w)
  }

  /** Whether a repetition allows `n` occurrences (sections 3.6 and 3.7). */
  predicate InBounds(r: Repetition, n: nat) {
    if r.count != -1 then n == r.count else r.min <= n && (r.max == -1 || n <= r.max)
  }

  ghost predicate ElementRepeats(e: Element, env: Lang, n: nat, w: Bytes)
    decreases e, 1 + n
  {
    if n == 0 then w == []
    else exists k :: 0 <= k <= |w| && ElementDerives(e, env, w[..k]) && ElementRepeats(e, env, n - 1, w[k..])
  }

  ghost predicate ElementDerives(e: Element, env: Lang, w: Bytes)
    decreases e, 0
  {
    match e
    case Group(a) => AlternationDerives(a, env, w)
    case Optional(a) => w == [] || AlternationDerives(a, env, w)
    case NumVal(isRange, values) =>
      if isRange then |w| == 1 && |values| >= 2 && values[0] <= w[0] <= values[1]
      else |w| == |values| && forall i :: 0 <= i < |w| ==> w[i] == values[i]
    case RuleName(x) => env(Lower(x), w)
    case CharVal(text) => |w| == |text| && forall i :: 0 <= i < |w| ==> ToLower(w[i]) == ToLower(text[i])
  }

  // What each construct is compiled to, whatever the placeholders and selector identities.

  /** A character recognizer is case-sensitive if there is no case to ignore. */
  function MakeChar(c: int, caseSensitive: bool): Rec {
    if ToLower(c) == ToUpper(c) then CharRec(c, true)
    else if !caseSensitive then CharRec(ToLower(c), false)
    else CharRec(c, true)
  }

  function LowerBytes(bs: Bytes): (r: Bytes)
    ensures |r| == |bs|
  {
    seq(|bs|, i requires 0 <= i < |bs| => ToLower(bs[i]))
  }

  function Chars(values: seq<int>): Recs {
    if values == [] then Nil else Cons(MakeChar(values[0], true), Chars(values[1..]))
  }

  predicate CompiledAlternation(a: Alternation, r: Rec)
    decreases a, 0
  {
    if |a.concatenations| == 1 then CompiledConcatenation(a.concatenations[0], r)
    else r.Selector? && CompiledAll(a.concatenations, r.es)
  }

  predicate CompiledAll(cs: seq<Concatenation>, es: Recs)
    decreases cs, 1
  {
    if cs == [] then es.Nil? else es.Cons? && CompiledConcatenation(cs[0], es.head) && CompiledAll(cs[1..], es.tail)
  }

  predicate CompiledConcatenation(c: Concatenation, r: Rec)
    decreases c, 0
  {
    if |c.repetitions| == 1 then CompiledRepetition(c.repetitions[0], r)
    else r.Sequence? && CompiledSequence(c.repetitions, r.es)
  }

  predicate CompiledSequence(rs: seq<Repetition>, es: Recs)
    decreases rs, 1
  {
    if rs == [] then es.Nil? else es.Cons? && CompiledRepetition(rs[0], es.head) && CompiledSequence(rs[1..], es.tail)
  }

  predicate CompiledRepetition(p: Repetition, r: Rec)
    decreases p, 1
  {
    if p.repeat == [] then CompiledElement(p.element, r)
    else
      && r.Loop? && CompiledElement(p.element, r.body)
      && r.min == (if p.count != -1 then p.count else p.min)
      && r.max == (if p.count != -1 then p.count else p.max)
  }

  predicate CompiledElement(e: Element, r: Rec)
    decreases e, 0
  {
    match e
    case Group(a) => CompiledAlternation(a, r)
    case Optional(a) => r.Loop? && r.min == 0 && r.max == 1 && CompiledAlternation(a, r.body)
    case NumVal(isRange, values) =>
      if isRange then |values| >= 2 && r == CharRange(values[0], values[1]) else r == Sequence(Chars(values))
    case RuleName(x) => r.Named? && Base(r.name) == Lower(x)
    case CharVal(text) => if |text| == 1 then r == MakeChar(text[0], false) else r == Literal(LowerBytes(text))
  }

  /** References and placeholders derive what the rules they stand for derive. */
  ghost function ThroughBase(env: Lang): Lang {
    (x, w) => env(Base(x), w)
  }

  // Compiling preserves the language.

  lemma {:induction false} AlternationPreserved(a: Alternation, r: Rec, env: Lang, w: Bytes)
    requires WellBuilt(a) && CompiledAlternation(a, r)
    ensures Derives(r, ThroughBase(env), w) <==> AlternationDerives(a, env, w)
    decreases a, 0
  {
    var cs := a.concatenations;
    if |cs| == 1 {
      ConcatenationPreserved(cs[0], r, env, w);
      assert AlternationDerives(a, env, w) <==> ConcatenationDerives(cs[0].repetitions, env, w);
    } else {
      AllPreserved(cs, r.es, env, w);
    }
  }

  lemma {:induction false} AllPreserved(cs: seq<Concatenation>, es: Recs, env: Lang, w: Bytes)
    requires (forall i :: 0 <= i < |cs| ==> WellBuiltConcatenation(cs[i])) && CompiledAll(cs, es)
    ensures DerivesAny(es, ThroughBase(env), w) <==>
            exists i :: 0 <= i < |cs| && ConcatenationDerives(cs[i].repetitions, env, w)
    decreases cs, 1
  {
    if cs != [] {
      ConcatenationPreserved(cs[0], es.head, env, w);
      AllPreserved(cs[1..], es.tail, env, w);
      assert forall i :: 0 < i < |cs| ==> cs[i] == cs[1..][i - 1];
      if DerivesAny(es.tail, ThroughBase(env), w) {
        var i :| 0 <= i < |cs[1..]| && ConcatenationDerives(cs[1..][i].repetitions, env, w);
        assert cs[i + 1] == cs[1..][i];
      }
    }
  }

  lemma {:induction false} ConcatenationPreserved(c: Concatenation, r: Rec, env: Lang, w: Bytes)
    requires WellBuiltConcatenation(c) && CompiledConcatenation(c, r)
    ensures Derives(r, ThroughBase(env), w) <==> ConcatenationDerives(c.repetitions, env, w)
    decreases c, 0
  {
    var rs := c.repetitions;
    if |rs| == 1 {
      RepetitionPreserved(rs[0], r, env, w);
      SingletonConcatenation(rs, env, w);
    } else {
      SequencePreserved(rs, r.es, env, w);
    }
  }

  lemma SingletonConcatenation(rs: seq<Repetition>, env: Lang, w: Bytes)
    requires |rs| == 1
    ensures ConcatenationDerives(rs, env, w) <==> RepetitionDerives(rs[0], env, w)
  {
    assert rs[1..] == [];
    if RepetitionDerives(rs[0], env, w) {
      assert w[..|w|] == w && w[|w|..] == [];
    }
    if ConcatenationDerives(rs, env, w) {
      var k :| 0 <= k <= |w| && RepetitionDerives(rs[0], env, w[..k]) && ConcatenationDerives(rs[1..], env, w[k..]);
      assert w[..k] == w;
    }
  }

  lemma {:induction false} SequencePreserved(rs: seq<Repetition>, es: Recs, env: Lang, w: Bytes)
    requires (forall i :: 0 <= i < |rs| ==> WellBuiltElement(rs[i].element)) && CompiledSequence(rs, es)
    ensures DerivesSequence(es, ThroughBase(env), w) <==> ConcatenationDerives(rs, env, w)
    decreases rs, 1
  {
    if rs != [] {
      forall k | 0 <= k <= |w|
        ensures Derives(es.head, ThroughBase(env), w[..k]) <==> RepetitionDerives(rs[0], env, w[..k])
        ensures DerivesSequence(es.tail, ThroughBase(env), w[k..]) <==> ConcatenationDerives(rs[1..], env, w[k..])
      {
        RepetitionPreserved(rs[0], es.head, env, w[..k]);
        SequencePreserved(rs[1..], es.tail, env, w[k..]);
      }
    }
  }

  lemma {:induction false} RepetitionPreserved(p: Repetition, r: Rec, env: Lang, w: Bytes)
    requires WellBuiltElement(p.element) && CompiledRepetition(p, r)
    ensures Derives(r, ThroughBase(env), w) <==> RepetitionDerives(p, env, w)
    decreases p, 1
  {
    if p.repeat == [] {
      ElementPreserved(p.element, r, env, w);
    } else {
      forall n: nat
        ensures Repeats(r.body, ThroughBase(env), n, w) <==> ElementRepeats(p.element, env, n, w)
      {
        RepeatsPreserved(p.element, r.body, env, n, w);
      }
      assert forall n: nat :: InBounds(p, n) <==> r.min <= n && (r.max != -1 ==> n <= r.max);
    }
  }

  lemma {:induction false} RepeatsPreserved(e: Element, r: Rec, env: Lang, n: nat, w: Bytes)
    requires WellBuiltElement(e) && CompiledElement(e, r)
    ensures Repeats(r, ThroughBase(env), n, w) <==> ElementRepeats(e, env, n, w)
    decreases e, 1 + n
  {
    if n > 0 {
      forall k | 0 <= k <= |w|
        ensures Derives(r, ThroughBase(env), w[..k]) <==> ElementDerives(e, env, w[..k])
        ensures Repeats(r, ThroughBase(env), n - 1, w[k..]) <==> ElementRepeats(e, env, n - 1, w[k..])
      {
        ElementPreserved(e, r, env, w[..k]);
        RepeatsPreserved(e, r, env, n - 1, w[k..]);
      }
    }
  }

  lemma {:induction false} ElementPreserved(e: Element, r: Rec, env: Lang, w: Bytes)
    requires WellBuiltElement(e) && CompiledElement(e, r)
    ensures Derives(r, ThroughBase(env), w) <==> ElementDerives(e, env, w)
    decreases e, 0
  {
    match e {
      case Group(a) => AlternationPreserved(a, r, env, w);
      case Optional(a) =>
        AlternationPreserved(a, r.body, env, w);
        OptionDerives(r.body, ThroughBase(env), w);
      case NumVal(isRange, values) =>
        if !isRange {
          CharsDerive(values, ThroughBase(env), w);
        }
      case RuleName(x) =>
      case CharVal(text) =>
    }
  }

  lemma OptionDerives(r: Rec, env: Lang, w: Bytes)
    ensures Derives(Loop(r, 0, 1), env, w) <==> w == [] || Derives(r, env, w)
  {
    assert Repeats(r, env, 0, w) <==> w == [];
    if Derives(r, env, w) {
      assert w[..|w|] == w && w[|w|..] == [];
      assert Repeats(r, env, 0, w[|w|..]);
      assert Repeats(r, env, 1, w);
    }
    if Repeats(r, env, 1, w) {
      var k :| 0 <= k <= |w| && Derives(r, env, w[..k]) && Repeats(r, env, 0, w[k..]);
      assert w[..k] == w;
    }
  }

  lemma {:induction false} CharsDerive(values: seq<int>, env: Lang, w: Bytes)
    ensures DerivesSequence(Chars(values), env, w) <==>
            |w| == |values| && forall i :: 0 <= i < |w| ==> w[i] == values[i]
    decreases |values|
  {
    if values != [] {
      var c, rest := MakeChar(values[0], true), Chars(values[1..]);
      forall k | 0 <= k <= |w|
        ensures Derives(c, env, w[..k]) <==> k == 1 && w[0] == values[0]
      {
      }
      if |w| > 0 {
        CharsDerive(values[1..], env, w[1..]);
        assert forall i :: 0 < i < |values| ==> values[i] == values[1..][i - 1];
        assert forall i :: 0 < i < |w| ==> w[i] == w[1..][i - 1];
      }
    }
  }
}
