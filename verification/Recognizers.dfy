/** The recognizer graph of a grammar: trees whose cycles are closed by names. */
module Recognizers {
  import opened Bytes

  /** Rule names identify the named recognizers; placeholders are named "@rule". */
  type Name = string

  /** A recognizer. `Named` stands for a shared pointer to the recognizer carrying that name;
      every other constructor is an anonymous node. A selector's `sel` is its object identity:
      its mutable exclusive flag is kept in the grammar. */
  datatype Rec =
    | CharRec(c: int, caseSensitive: bool)
    | CharRange(lo: int, hi: int)
    | Literal(lit: Bytes)
    | Sequence(es: Recs)
    | Selector(sel: nat, es: Recs)
    | Loop(body: Rec, min: int, max: int)
    | Pointer(target: Rec)
    | Alias(target: Rec)
    | Named(name: Name)

  datatype Recs = Nil | Cons(head: Rec, tail: Recs)

  function Count(es: Recs): nat {
    if es.Nil? then 0 else 1 + Count(es.tail)
  }

  /** The elements in order. */
  function Listed(es: Recs): (rs: seq<Rec>) {
    if es.Nil? then [] else [es.head] + Listed(es.tail)
  }

  lemma {:induction false} ListedCount(es: Recs)
    ensures |Listed(es)| == Count(es)
  {
    if es.Cons? {
      ListedCount(es.tail);
    }
  }

  /** The named recognizers, with annotations from which termination and in-bounds reading are
      checked: an over-approximation of the nullable rules, a rank that decreases along head
      references, and the rules that may be fed at the end of the input. `alts` maps a selector to
      its alternatives, so that an identity denotes one object. */
  datatype Graph = Graph(
    rules: map<Name, Rec>,
    nullable: set<Name>,
    rank: map<Name, nat>,
    atEnd: set<Name>,
    alts: map<nat, Recs>)

  /** A graph and the selectors whose exclusive flag is set. */
  datatype Grammar = Grammar(graph: Graph, exclusive: set<nat>)

  /** Whether `r` can match without consuming anything. */
  predicate Nullable(g: Graph, r: Rec)
  {
    match r
    case CharRec(_, _) => false
    case CharRange(_, _) => false
    case Literal(lit) => lit == []
    case Sequence(es) => AllNullable(g, es)
    case Selector(_, es) => AnyNullable(g, es)
    case Loop(body, min, _) => min <= 0 || Nullable(g, body)
    case Pointer(target) => Nullable(g, target)
    case Alias(target) => Nullable(g, target)
    case Named(x) => x in g.nullable
  }

  predicate AllNullable(g: Graph, es: Recs)
  {
    es.Cons? ==> Nullable(g, es.head) && AllNullable(g, es.tail)
  }

  predicate AnyNullable(g: Graph, es: Recs)
  {
    es.Cons? && (Nullable(g, es.head) || AnyNullable(g, es.tail))
  }

  /** One more than the largest rank of a rule that `r` may feed before consuming anything. */
  function HeadRank(g: Graph, r: Rec): nat
  {
    match r
    case CharRec(_, _) => 0
    case CharRange(_, _) => 0
    case Literal(_) => 0
    case Sequence(es) => SequenceRank(g, es)
    case Selector(_, es) => SelectorRank(g, es)
    case Loop(body, _, _) => HeadRank(g, body)
    case Pointer(target) => HeadRank(g, target)
    case Alias(target) => HeadRank(g, target)
    case Named(x) => if x in g.rank then g.rank[x] + 1 else 0
  }

  function SequenceRank(g: Graph, es: Recs): nat
  {
    match es
    case Nil => 0
    case Cons(e, tail) =>
      if Nullable(g, e) then Max(HeadRank(g, e), SequenceRank(g, tail)) else HeadRank(g, e)
  }

  function SelectorRank(g: Graph, es: Recs): nat
  {
    match es
    case Nil => 0
    case Cons(e, tail) => Max(HeadRank(g, e), SelectorRank(g, tail))
  }

  /** The static conditions under which `r` may be fed: its references are defined, no unbounded
      loop has a nullable body, and no terminal can match the terminator past the input. The last
      one is waived for what is fed where an octet is known to remain (`inside`). */
  predicate Ok(g: Graph, r: Rec, inside: bool)
  {
    match r
    case CharRec(c, _) => inside || c != 0
    case CharRange(lo, hi) => inside || !(lo <= 0 <= hi)
    case Literal(lit) => forall i :: 0 <= i < |lit| ==> lit[i] != 0
    case Sequence(es) => OkSequence(g, es, inside)
    case Selector(sel, es) => sel in g.alts && g.alts[sel] == es && OkAll(g, es, inside)
    case Loop(body, _, max) => -1 <= max && Ok(g, body, true) && (max == -1 ==> !Nullable(g, body))
    case Pointer(target) => Ok(g, target, inside)
    case Alias(target) => Ok(g, target, inside)
    case Named(x) => x in g.rules && (inside || x in g.atEnd)
  }

  predicate OkSequence(g: Graph, es: Recs, inside: bool)
  {
    es.Cons? ==> Ok(g, es.head, inside) && OkSequence(g, es.tail, false)
  }

  predicate OkAll(g: Graph, es: Recs, inside: bool)
  {
    es.Cons? ==> Ok(g, es.head, inside) && OkAll(g, es.tail, inside)
  }

  predicate RuleOk(g: Graph, x: Name)
    requires x in g.rules
  {
    var r := g.rules[x];
    && !r.Named?
    && (Nullable(g, r) ==> x in g.nullable)
    && x in g.rank && HeadRank(g, r) <= g.rank[x]
    && Ok(g, r, true)
    && (x in g.atEnd ==> Ok(g, r, false))
  }

  /** No left recursion, no unbounded loop over a nullable body, no undefined reference. */
  predicate WellFormed(g: Graph) {
    forall x {:trigger RuleOk(g, x)} :: x in g.rules ==> RuleOk(g, x)
  }

  /** `r` may be fed at `pos` of `s`. */
  predicate Ready(g: Graph, r: Rec, s: Bytes, pos: nat) {
    pos <= |s| && (Ok(g, r, false) || (pos < |s| && Ok(g, r, true)))
  }

  predicate ReadySequence(g: Graph, es: Recs, s: Bytes, pos: nat) {
    pos <= |s| && (OkSequence(g, es, false) || (pos < |s| && OkSequence(g, es, true)))
  }

  predicate ReadyAll(g: Graph, es: Recs, s: Bytes, pos: nat) {
    pos <= |s| && (OkAll(g, es, false) || (pos < |s| && OkAll(g, es, true)))
  }

  /** Every name `r` refers to satisfies `known`. */
  ghost predicate Refers(r: Rec, known: Name -> bool) {
    match r
    case CharRec(_, _) => true
    case CharRange(_, _) => true
    case Literal(_) => true
    case Sequence(es) => RefersAll(es, known)
    case Selector(_, es) => RefersAll(es, known)
    case Loop(body, _, _) => Refers(body, known)
    case Pointer(target) => Refers(target, known)
    case Alias(target) => Refers(target, known)
    case Named(x) => known(x)
  }

  ghost predicate RefersAll(es: Recs, known: Name -> bool) {
    es.Cons? ==> Refers(es.head, known) && RefersAll(es.tail, known)
  }

  lemma {:induction false} RefersMore(r: Rec, known: Name -> bool, more: Name -> bool)
    requires Refers(r, known) && forall x :: known(x) ==> more(x)
    ensures Refers(r, more)
  {
    match r {
      case CharRec(_, _) =>
      case CharRange(_, _) =>
      case Literal(_) =>
      case Sequence(es) => RefersAllMore(es, known, more);
      case Selector(_, es) => RefersAllMore(es, known, more);
      case Loop(body, _, _) => RefersMore(body, known, more);
      case Pointer(target) => RefersMore(target, known, more);
      case Alias(target) => RefersMore(target, known, more);
      case Named(x) =>
    }
  }

  lemma {:induction false} RefersAllMore(es: Recs, known: Name -> bool, more: Name -> bool)
    requires RefersAll(es, known) && forall x :: known(x) ==> more(x)
    ensures RefersAll(es, more)
  {
    if es.Cons? {
      RefersMore(es.head, known, more);
      RefersAllMore(es.tail, known, more);
    }
  }

  lemma {:induction false} RefersAnything(r: Rec)
    ensures Refers(r, x => true)
  {
    match r {
      case CharRec(_, _) =>
      case CharRange(_, _) =>
      case Literal(_) =>
      case Sequence(es) => RefersAllAnything(es);
      case Selector(_, es) => RefersAllAnything(es);
      case Loop(body, _, _) => RefersAnything(body);
      case Pointer(target) => RefersAnything(target);
      case Alias(target) => RefersAnything(target);
      case Named(x) =>
    }
  }

  lemma {:induction false} RefersAllAnything(es: Recs)
    ensures RefersAll(es, x => true)
  {
    if es.Cons? {
      RefersAnything(es.head);
      RefersAllAnything(es.tail);
    }
  }
}
