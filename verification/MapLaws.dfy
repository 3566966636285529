/** The transition map of each kind of recognizer, said of octets and of the maps of its parts. */
module MapLaws {
  import opened Bytes
  import opened Recognizers
  import opened PureParser
  import opened TransitionMaps
  import opened FeedLaws

  lemma CharMap(g: Grammar, c: int, caseSensitive: bool, b: Byte)
    requires WellFormed(g.graph) && Placed(g.graph, CharRec(c, caseSensitive))
    ensures StartsWith(g, CharRec(c, caseSensitive), b) <==>
            (b == c || (!caseSensitive && SameLetter(b, c))) && (caseSensitive || !IsCapital(c))
    ensures Claims(g.graph, CharRec(c, caseSensitive))
  {
    hide WellFormed, Parse, SameLetter;
    CharFed(g, map[], "", c, caseSensitive, [b, 0], 0);
  }

  lemma RangeMap(g: Grammar, lo: int, hi: int, b: Byte)
    requires WellFormed(g.graph) && Placed(g.graph, CharRange(lo, hi))
    ensures StartsWith(g, CharRange(lo, hi), b) <==> lo <= b <= hi
    ensures Claims(g.graph, CharRange(lo, hi))
  {
    hide WellFormed, Parse;
    RangeFed(g, map[], "", lo, hi, [b, 0], 0);
  }

  /** A literal may start with either form of its first letter; the empty one has octet 0 in its map. */
  lemma LiteralMap(g: Grammar, lit: Bytes, b: Byte)
    requires WellFormed(g.graph) && Placed(g.graph, Literal(lit))
    ensures StartsWith(g, Literal(lit), b) <==> if lit == [] then b == 0 else SameLetter(b, lit[0])
    ensures Claims(g.graph, Literal(lit))
  {
    if lit != [] {
      SameLetterShifts(b, lit[0]);
    }
  }

  /** A loop that may be skipped does not claim that its map is complete. */
  lemma LoopMap(g: Grammar, body: Rec, min: int, max: int, b: Byte)
    requires WellFormed(g.graph) && Placed(g.graph, Loop(body, min, max))
    ensures StartsWith(g, Loop(body, min, max), b) <==> StartsWith(g, body, b)
    ensures Claims(g.graph, Loop(body, min, max)) <==> min != 0
  {
    hide WellFormed;
  }

  lemma NamedMap(g: Grammar, x: Name, b: Byte)
    requires WellFormed(g.graph) && Placed(g.graph, Named(x))
    ensures x in g.graph.rules
    ensures StartsWith(g, Named(x), b) <==> StartsWith(g, g.graph.rules[x], b)
    ensures Claims(g.graph, Named(x)) <==> Claims(g.graph, g.graph.rules[x])
  {
    assert RuleOk(g.graph, x);
  }

  /** The map of a placeholder or an alias holds the octets that its target matches alone, before a 0. */
  lemma IndirectionMap(g: Grammar, target: Rec, b: Byte)
    requires WellFormed(g.graph) && Placed(g.graph, target)
    ensures Ready(g.graph, target, [b, 0], 0)
    ensures var alone := exists out :: Parse(g, map[], "", target, [b, 0], 0) == Match(1, out);
            && (StartsWith(g, Pointer(target), b) <==> alone)
            && (StartsWith(g, Alias(target), b) <==> alone)
    ensures Claims(g.graph, Pointer(target)) && Claims(g.graph, Alias(target))
  {
    assert Ready(g.graph, target, [b, 0], 0);
    IndirectionFed(g, map[], "", target, [b, 0], 0);
    hide WellFormed, Parse;
    var m := Parse(g, map[], "", target, [b, 0], 0);
    if m.Match? && m.len == 1 {
      assert m == Match(1, m.out);
    }
  }

  /** The map of a choice is the union of those of its alternatives. */
  lemma {:induction false} ChoiceMap(g: Grammar, es: Recs, b: Byte)
    requires WellFormed(g.graph) && PlacedAll(g.graph, es)
    ensures StartsAny(g, es, b) <==> exists i :: 0 <= i < |Listed(es)| && StartsWith(g, Listed(es)[i], b)
    decreases es
  {
    hide WellFormed, Starts;
    if es.Cons? {
      ChoiceMap(g, es.tail, b);
      var rs, rest := Listed(es), Listed(es.tail);
      assert rs[0] == es.head;
      if StartsAny(g, es.tail, b) {
        var i :| 0 <= i < |rest| && StartsWith(g, rest[i], b);
        assert rs[i + 1] == rest[i];
      }
      if i :| 0 <= i < |rs| && StartsWith(g, rs[i], b) {
        if i > 0 {
          assert rs[i] == rest[i - 1];
        }
      }
    }
  }

  lemma SelectorMap(g: Grammar, sel: nat, es: Recs, b: Byte)
    requires WellFormed(g.graph) && Placed(g.graph, Selector(sel, es))
    ensures StartsWith(g, Selector(sel, es), b) <==>
            exists i :: 0 <= i < |Listed(es)| && StartsWith(g, Listed(es)[i], b)
    ensures Claims(g.graph, Selector(sel, es))
  {
    hide WellFormed;
    ChoiceMap(g, es, b);
  }

  /** None of the first `k` elements claims that its map is complete. */
  ghost predicate NoneClaims(g: Graph, rs: seq<Rec>, k: nat) {
    forall i :: 0 <= i < k && i < |rs| ==> !Claims(g, rs[i])
  }

  lemma NoneClaimsFirst(g: Graph, rs: seq<Rec>)
    ensures NoneClaims(g, rs, 0)
  {
  }

  lemma NoneClaimsNext(g: Graph, r: Rec, rest: seq<Rec>, k: nat)
    requires k <= |rest|
    ensures NoneClaims(g, [r] + rest, k + 1) <==> !Claims(g, r) && NoneClaims(g, rest, k)
  {
    hide Claims;
    var rs := [r] + rest;
    if NoneClaims(g, rs, k + 1) {
      assert !Claims(g, rs[0]);
      forall i | 0 <= i < k && i < |rest|
        ensures !Claims(g, rest[i])
      {
        assert !Claims(g, rs[i + 1]);
      }
    }
  }

  /** `b` is in the map of an element, with none before it that claims to be complete. */
  ghost predicate InSomeMap(g: Grammar, rs: seq<Rec>, b: Byte) {
    exists k :: 0 <= k < |rs| && StartsWith(g, rs[k], b) && NoneClaims(g.graph, rs, k)
  }

  lemma InSomeMapFirst(g: Grammar, r: Rec, rest: seq<Rec>, b: Byte)
    ensures InSomeMap(g, [r] + rest, b) <==> StartsWith(g, r, b) || (!Claims(g.graph, r) && InSomeMap(g, rest, b))
  {
    hide StartsWith, Claims, NoneClaims;
    var rs := [r] + rest;
    if StartsWith(g, r, b) {
      NoneClaimsFirst(g.graph, rs);
      assert StartsWith(g, rs[0], b);
    }
    if !Claims(g.graph, r) && InSomeMap(g, rest, b) {
      var k :| 0 <= k < |rest| && StartsWith(g, rest[k], b) && NoneClaims(g.graph, rest, k);
      NoneClaimsNext(g.graph, r, rest, k);
      assert StartsWith(g, rs[k + 1], b);
    }
    if InSomeMap(g, rs, b) {
      var k :| 0 <= k < |rs| && StartsWith(g, rs[k], b) && NoneClaims(g.graph, rs, k);
      if k > 0 {
        NoneClaimsNext(g.graph, r, rest, k - 1);
        assert StartsWith(g, rest[k - 1], b);
      }
    }
  }

  lemma {:induction false} ElementsMap(g: Grammar, es: Recs, b: Byte)
    requires WellFormed(g.graph) && PlacedSequence(g.graph, es)
    ensures StartsSequence(g, es, b) <==> InSomeMap(g, Listed(es), b)
    ensures !CompleteSequence(g.graph, es) <==> NoneClaims(g.graph, Listed(es), |Listed(es)|)
    decreases es
  {
    hide WellFormed, StartsWith, Claims, NoneClaims, InSomeMap;
    if es.Cons? {
      ElementsMap(g, es.tail, b);
      ElementsUnfold(g, es, b);
      InSomeMapFirst(g, es.head, Listed(es.tail), b);
      NoneClaimsNext(g.graph, es.head, Listed(es.tail), |Listed(es.tail)|);
    } else {
      NothingMapped(g, b);
    }
  }

  lemma NothingMapped(g: Grammar, b: Byte)
    ensures !InSomeMap(g, [], b) && NoneClaims(g.graph, [], 0)
  {
  }

  lemma ElementsUnfold(g: Grammar, es: Recs, b: Byte)
    requires WellFormed(g.graph) && PlacedSequence(g.graph, es) && es.Cons?
    ensures PlacedSequence(g.graph, es.tail)
    ensures StartsSequence(g, es, b) <==>
            StartsWith(g, es.head, b) || (!Claims(g.graph, es.head) && StartsSequence(g, es.tail, b))
    ensures CompleteSequence(g.graph, es) <==> Claims(g.graph, es.head) || CompleteSequence(g.graph, es.tail)
  {
    hide WellFormed;
  }

  /** The map of a sequence is the union of those of its elements, up to the first that claims to be complete. */
  lemma SequenceMap(g: Grammar, es: Recs, b: Byte)
    requires WellFormed(g.graph) && Placed(g.graph, Sequence(es))
    ensures StartsWith(g, Sequence(es), b) <==> InSomeMap(g, Listed(es), b)
    ensures Claims(g.graph, Sequence(es)) <==> !NoneClaims(g.graph, Listed(es), |Listed(es)|)
  {
    hide WellFormed;
    assert PlacedSequence(g.graph, es);
    ElementsMap(g, es, b);
  }
}
