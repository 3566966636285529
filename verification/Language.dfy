/** The language an ABNF expression denotes (RFC 5234), and the soundness of the recognizers. */
module Language {
  import opened Bytes
  import opened Recognizers
  import opened PureParser

  /** Which strings each rule name derives. */
  type Lang = (Name, Bytes) -> bool

  /** The strings `r` derives when rule names derive what `env` says (sections 2.3 and 3.1 to 3.8
      of RFC 5234). */
  ghost predicate Derives(r: Rec, env: Lang, w: Bytes)
    decreases r, 0
  {
    match r
    case CharRec(c, caseSensitive) => |w| == 1 && (if caseSensitive then w[0] else ToLower(w[0])) == c
    case CharRange(lo, hi) => |w| == 1 && lo <= w[0] <= hi
    case Literal(lit) => |w| == |lit| && forall i :: 0 <= i < |w| ==> ToLower(w[i]) == lit[i]
    case Sequence(es) => DerivesSequence(es, env, w)
    case Selector(_, es) => DerivesAny(es, env, w)
    case Loop(body, min, max) =>
      exists n: nat :: min <= n && (max != -1 ==> n <= max) && Repeats(body, env, n, w)
    case Pointer(target) => Derives(target, env, w)
    case Alias(target) => Derives(target, env, w)
    case Named(x) => env(x, w)
  }

  ghost predicate DerivesSequence(es: Recs, env: Lang, w: Bytes)
    decreases es, 0
  {
    match es
    case Nil => w == []
    case Cons(e, tail) => exists k :: 0 <= k <= |w| && Derives(e, env, w[..k]) && DerivesSequence(tail, env, w[k..])
  }

  ghost predicate DerivesAny(es: Recs, env: Lang, w: Bytes)
    decreases es, 0
  {
    es.Cons? && (Derives(es.head, env, w) || DerivesAny(es.tail, env, w))
  }

  ghost predicate Repeats(r: Rec, env: Lang, n: nat, w: Bytes)
    decreases r, 1 + n
  {
    if n == 0 then w == []
    else exists k :: 0 <= k <= |w| && Derives(r, env, w[..k]) && Repeats(r, env, n - 1, w[k..])
  }

  /** What the rules of a grammar derive in at most `k` expansions of names. */
  ghost function RuleLang(g: Graph, k: nat): Lang {
    if k == 0 then (x, w) => false
    else (x, w) => x in g.rules && Derives(g.rules[x], RuleLang(g, k - 1), w)
  }

  ghost predicate InLanguage(g: Graph, r: Rec, w: Bytes) {
    exists k :: Derives(r, RuleLang(g, k), w)
  }

  ghost predicate Within(a: Lang, b: Lang) {
    forall x, w :: a(x, w) ==> b(x, w)
  }

  ghost predicate WithinOn(known: Name -> bool, a: Lang, b: Lang) {
    forall x, w :: known(x) && a(x, w) ==> b(x, w)
  }

  // With more strings for the names it refers to, a recognizer derives at least as much.

  lemma {:induction false} DerivesOn(r: Rec, known: Name -> bool, a: Lang, b: Lang, w: Bytes)
    requires Refers(r, known) && WithinOn(known, a, b) && Derives(r, a, w)
    ensures Derives(r, b, w)
    decreases r, 0
  {
    match r {
      case CharRec(_, _) =>
      case CharRange(_, _) =>
      case Literal(_) =>
      case Sequence(es) => DerivesSequenceOn(es, known, a, b, w);
      case Selector(_, es) => DerivesAnyOn(es, known, a, b, w);
      case Loop(body, min, max) =>
        var n: nat :| min <= n && (max != -1 ==> n <= max) && Repeats(body, a, n, w);
        RepeatsOn(body, known, a, b, n, w);
      case Pointer(target) => DerivesOn(target, known, a, b, w);
      case Alias(target) => DerivesOn(target, known, a, b, w);
      case Named(x) =>
    }
  }

  lemma {:induction false} DerivesSequenceOn(es: Recs, known: Name -> bool, a: Lang, b: Lang, w: Bytes)
    requires RefersAll(es, known) && WithinOn(known, a, b) && DerivesSequence(es, a, w)
    ensures DerivesSequence(es, b, w)
    decreases es, 0
  {
    if es.Cons? {
      var k :| 0 <= k <= |w| && Derives(es.head, a, w[..k]) && DerivesSequence(es.tail, a, w[k..]);
      DerivesOn(es.head, known, a, b, w[..k]);
      DerivesSequenceOn(es.tail, known, a, b, w[k..]);
    }
  }

  lemma {:induction false} DerivesAnyOn(es: Recs, known: Name -> bool, a: Lang, b: Lang, w: Bytes)
    requires RefersAll(es, known) && WithinOn(known, a, b) && DerivesAny(es, a, w)
    ensures DerivesAny(es, b, w)
    decreases es, 0
  {
    if Derives(es.head, a, w) {
      DerivesOn(es.head, known, a, b, w);
    } else {
      DerivesAnyOn(es.tail, known, a, b, w);
    }
  }

  lemma {:induction false} RepeatsOn(r: Rec, known: Name -> bool, a: Lang, b: Lang, n: nat, w: Bytes)
    requires Refers(r, known) && WithinOn(known, a, b) && Repeats(r, a, n, w)
    ensures Repeats(r, b, n, w)
    decreases r, 1 + n
  {
    if n > 0 {
      var k :| 0 <= k <= |w| && Derives(r, a, w[..k]) && Repeats(r, a, n - 1, w[k..]);
      DerivesOn(r, known, a, b, w[..k]);
      RepeatsOn(r, known, a, b, n - 1, w[k..]);
    }
  }

  lemma DerivesMore(r: Rec, a: Lang, b: Lang, w: Bytes)
    requires Within(a, b) && Derives(r, a, w)
    ensures Derives(r, b, w)
  {
    RefersAnything(r);
    DerivesOn(r, x => true, a, b, w);
  }

  lemma DerivesSequenceMore(es: Recs, a: Lang, b: Lang, w: Bytes)
    requires Within(a, b) && DerivesSequence(es, a, w)
    ensures DerivesSequence(es, b, w)
  {
    RefersAllAnything(es);
    DerivesSequenceOn(es, x => true, a, b, w);
  }

  lemma RepeatsMore(r: Rec, a: Lang, b: Lang, n: nat, w: Bytes)
    requires Within(a, b) && Repeats(r, a, n, w)
    ensures Repeats(r, b, n, w)
  {
    RefersAnything(r);
    RepeatsOn(r, x => true, a, b, n, w);
  }

  lemma {:induction false} RuleLangGrows(g: Graph, k: nat, k': nat)
    requires k <= k'
    ensures Within(RuleLang(g, k), RuleLang(g, k'))
  {
    if k > 0 {
      RuleLangGrows(g, k - 1, k' - 1);
      forall x, w | RuleLang(g, k)(x, w)
        ensures RuleLang(g, k')(x, w)
      {
        DerivesMore(g.rules[x], RuleLang(g, k - 1), RuleLang(g, k' - 1), w);
      }
    }
  }

  lemma RepeatsOnceMore(g: Graph, r: Rec, s: Bytes, pos: nat, mid: nat, end: nat, k1: nat, n: nat, k2: nat)
    requires pos <= mid <= end <= |s|
    requires Derives(r, RuleLang(g, k1), s[pos..mid]) && Repeats(r, RuleLang(g, k2), n, s[mid..end])
    ensures Repeats(r, RuleLang(g, Max(k1, k2)), n + 1, s[pos..end])
  {
    var k := Max(k1, k2);
    RuleLangGrows(g, k1, k);
    RuleLangGrows(g, k2, k);
    DerivesMore(r, RuleLang(g, k1), RuleLang(g, k), s[pos..mid]);
    RepeatsMore(r, RuleLang(g, k2), RuleLang(g, k), n, s[mid..end]);
    assert s[pos..end][..mid - pos] == s[pos..mid] && s[pos..end][mid - pos..] == s[mid..end];
  }

  /** Whatever a feed matches is derivable from what was fed, with plain and exclusive selectors and
      recursive rules alike. */
  lemma {:induction false} ParseSound(g: Grammar, t: Table, h: Name, r: Rec, s: Bytes, pos: nat) returns (k: nat)
    requires WellFormed(g.graph) && Ready(g.graph, r, s, pos) && Parse(g, t, h, r, s, pos).Match?
    ensures Derives(r, RuleLang(g.graph, k), s[pos..pos + Parse(g, t, h, r, s, pos).len])
    decreases |s| - pos, HeadRank(g.graph, r), r, 1
  {
    match r {
      case Named(x) =>
        assert RuleOk(g.graph, x);
        k := ParseBodySound(g, t, if x in t then x else h, g.graph.rules[x], s, pos);
        k := k + 1;
      case _ => k := ParseBodySound(g, t, h, r, s, pos);
    }
  }

  lemma {:induction false} ParseBodySound(g: Grammar, t: Table, h: Name, r: Rec, s: Bytes, pos: nat) returns (k: nat)
    requires WellFormed(g.graph) && Ready(g.graph, r, s, pos) && !r.Named? && ParseBody(g, t, h, r, s, pos).Match?
    ensures Derives(r, RuleLang(g.graph, k), s[pos..pos + ParseBody(g, t, h, r, s, pos).len])
    decreases |s| - pos, HeadRank(g.graph, r), r, 0
  {
    match r {
      case CharRec(c, caseSensitive) => k := 0;
      case CharRange(lo, hi) => k := 0;
      case Literal(lit) => k := 0;
      case Sequence(es) => k := SequenceSound(g, t, h, es, s, pos);
      case Selector(sel, es) =>
        if sel in g.exclusive {
          k := FirstSound(g, t, h, es, s, pos);
        } else {
          k := BestSound(g, t, h, es, NoMatch, s, pos);
        }
      case Loop(body, min, max) =>
        var n;
        k, n := LoopSound(g, t, h, body, min, max, 0, s, pos);
      case Pointer(target) => k := ParseSound(g, t, h, target, s, pos);
      case Alias(target) => k := ParseSound(g, t, h, target, s, pos);
    }
  }

  lemma {:induction false} SequenceSound(g: Grammar, t: Table, h: Name, es: Recs, s: Bytes, pos: nat) returns (k: nat)
    requires WellFormed(g.graph) && ReadySequence(g.graph, es, s, pos) && ParseSequence(g, t, h, es, s, pos).Match?
    ensures DerivesSequence(es, RuleLang(g.graph, k), s[pos..pos + ParseSequence(g, t, h, es, s, pos).len])
    decreases |s| - pos, SequenceRank(g.graph, es), es, 0
  {
    hide Parse, ParseSequence, RuleLang, Derives, WellFormed, Ok, HeadRank, SequenceRank;
    k := 0;
    if es.Cons? {
      SequenceUnfolds(g, t, h, es, s, pos);
      var m := Parse(g, t, h, es.head, s, pos);
      var k1 := ParseSound(g, t, h, es.head, s, pos);
      var mid := pos + m.len;
      var k2 := SequenceSound(g, t, h, es.tail, s, mid);
      k := Max(k1, k2);
      var end := mid + ParseSequence(g, t, h, es.tail, s, mid).len;
      SequenceFollows(g.graph, es, s, pos, mid, end, k1, k2);
    } else {
      SequenceEnds(g, t, h, s, pos);
    }
  }

  lemma SequenceFollows(g: Graph, es: Recs, s: Bytes, pos: nat, mid: nat, end: nat, k1: nat, k2: nat)
    requires es.Cons? && pos <= mid <= end <= |s|
    requires Derives(es.head, RuleLang(g, k1), s[pos..mid]) && DerivesSequence(es.tail, RuleLang(g, k2), s[mid..end])
    ensures DerivesSequence(es, RuleLang(g, Max(k1, k2)), s[pos..end])
  {
    var k := Max(k1, k2);
    RuleLangGrows(g, k1, k);
    RuleLangGrows(g, k2, k);
    DerivesMore(es.head, RuleLang(g, k1), RuleLang(g, k), s[pos..mid]);
    DerivesSequenceMore(es.tail, RuleLang(g, k2), RuleLang(g, k), s[mid..end]);
    assert s[pos..end][..mid - pos] == s[pos..mid] && s[pos..end][mid - pos..] == s[mid..end];
  }

  lemma {:induction false} FirstSound(g: Grammar, t: Table, h: Name, es: Recs, s: Bytes, pos: nat) returns (k: nat)
    requires WellFormed(g.graph) && ReadyAll(g.graph, es, s, pos) && ParseFirst(g, t, h, es, s, pos).Match?
    ensures DerivesAny(es, RuleLang(g.graph, k), s[pos..pos + ParseFirst(g, t, h, es, s, pos).len])
    decreases |s| - pos, SelectorRank(g.graph, es), es, 0
  {
    if Consumed(Parse(g, t, h, es.head, s, pos)) {
      k := ParseSound(g, t, h, es.head, s, pos);
    } else {
      k := FirstSound(g, t, h, es.tail, s, pos);
    }
  }

  lemma {:induction false} BestSound(g: Grammar, t: Table, h: Name, es: Recs, best: Result, s: Bytes,
                                     pos: nat) returns (k: nat)
    requires WellFormed(g.graph) && ReadyAll(g.graph, es, s, pos)
    requires var m := ParseBest(g, t, h, es, best, s, pos); m.Match? && m != best
    ensures DerivesAny(es, RuleLang(g.graph, k), s[pos..pos + ParseBest(g, t, h, es, best, s, pos).len])
    decreases |s| - pos, SelectorRank(g.graph, es), es, 0
  {
    var m := Parse(g, t, h, es.head, s, pos);
    var best' := if Better(m, best) then m else best;
    if ParseBest(g, t, h, es.tail, best', s, pos) == best' {
      k := ParseSound(g, t, h, es.head, s, pos);
    } else {
      k := BestSound(g, t, h, es.tail, best', s, pos);
    }
  }

  lemma {:induction false} LoopSound(g: Grammar, t: Table, h: Name, body: Rec, min: int, max: int, count: nat,
                                     s: Bytes, pos: nat)
    returns (k: nat, n: nat)
    requires WellFormed(g.graph) && pos <= |s| && LoopOk(g.graph, body, max)
    requires ParseLoop(g, t, h, body, min, max, count, s, pos).Match? && (max != -1 ==> count <= max)
    ensures min <= count + n && (max != -1 ==> count + n <= max)
    ensures Repeats(body, RuleLang(g.graph, k), n, s[pos..pos + ParseLoop(g, t, h, body, min, max, count, s, pos).len])
    decreases |s| - pos, HeadRank(g.graph, body), body, 2 + if count < max then max - count else 0
  {
    hide RuleLang, Derives, WellFormed, LoopOk, HeadRank, Parse, ParseLoop;
    if Continues(max, count, s, pos) {
      LoopUnfolds(g, t, h, body, min, max, count, s, pos);
      var m := Parse(g, t, h, body, s, pos);
      if m.Match? {
        hide Repeats;
        var mid := pos + m.len;
        var end := mid + ParseLoop(g, t, h, body, min, max, count + 1, s, mid).len;
        var k1 := ParseSound(g, t, h, body, s, pos);
        var k2, n2 := LoopSound(g, t, h, body, min, max, count + 1, s, mid);
        RepeatsOnceMore(g.graph, body, s, pos, mid, end, k1, n2, k2);
        return Max(k1, k2), n2 + 1;
      }
    }
    LoopEnds(g, t, h, body, min, max, count, s, pos);
    k, n := 0, 0;
  }

  /** The octets a feed reports as matched are in the language of what was fed. */
  lemma FeedSound(g: Grammar, t: Table, h: Name, r: Rec, s: Bytes, pos: nat)
    requires WellFormed(g.graph) && Ready(g.graph, r, s, pos)
    ensures var m := Parse(g, t, h, r, s, pos);
            m.Match? ==> pos + m.len <= |s| && InLanguage(g.graph, r, s[pos..pos + m.len])
  {
    var m := Parse(g, t, h, r, s, pos);
    if m.Match? {
      var k := ParseSound(g, t, h, r, s, pos);
      assert Derives(r, RuleLang(g.graph, k), s[pos..pos + m.len]);
    }
  }
}
