/** Sets of strings put together by cutting a string into parts, and the languages of recognizers in those
    terms: what section 3 of RFC 5234 says of its operators. */
module Words {
  import opened Bytes
  import opened Recognizers
  import opened Language

  type Words = Bytes -> bool

  function Flat(parts: seq<Bytes>): Bytes {
    if parts == [] then [] else parts[0] + Flat(parts[1..])
  }

  /** One octet of a range. */
  function Octets(lo: int, hi: int): Words {
    w => |w| == 1 && lo <= w[0] <= hi
  }

  function Sign(c: int): Words {
    w => |w| == 1 && w[0] == c
  }

  /** One letter, in either case. */
  function Letter(c: int): Words {
    w => |w| == 1 && SameLetter(w[0], c)
  }

  /** A part of each, in that order. */
  ghost function InOrder(ls: seq<Words>): Words {
    w => exists parts :: Flat(parts) == w && Each(ls, parts)
  }

  ghost predicate Each(ls: seq<Words>, parts: seq<Bytes>) {
    |parts| == |ls| && forall i :: 0 <= i < |ls| ==> ls[i](parts[i])
  }

  ghost function OneOf(ls: seq<Words>): Words {
    w => exists i :: 0 <= i < |ls| && ls[i](w)
  }

  /** From `min` to `max` parts, or any number from `min` on if `max` is -1. */
  ghost function Many(l: Words, min: int, max: int): Words {
    w => exists parts :: Flat(parts) == w && min <= |parts| && (max == -1 || |parts| <= max) && All(l, parts)
  }

  ghost predicate All(l: Words, parts: seq<Bytes>) {
    forall i :: 0 <= i < |parts| ==> l(parts[i])
  }

  /** Nothing, or one of them. */
  ghost function Perhaps(l: Words): Words {
    w => w == [] || l(w)
  }

  ghost predicate Alike(l: Words, l': Words) {
    forall w :: l(w) <==> l'(w)
  }

  // How the combinations unfold.

  lemma FlatFirst(part: Bytes, parts: seq<Bytes>)
    ensures Flat([part] + parts) == part + Flat(parts)
    ensures (part + Flat(parts))[..|part|] == part && (part + Flat(parts))[|part|..] == Flat(parts)
  {
    assert ([part] + parts)[1..] == parts;
  }

  lemma InOrderNothing(w: Bytes)
    ensures InOrder([])(w) <==> w == []
  {
    if w == [] {
      assert Flat([]) == w;
    }
  }

  lemma EachFirst(l: Words, ls: seq<Words>, part: Bytes, parts: seq<Bytes>)
    ensures Each([l] + ls, [part] + parts) <==> l(part) && Each(ls, parts)
  {
    var all, more := [l] + ls, [part] + parts;
    assert forall i :: 0 <= i < |ls| ==> all[i + 1] == ls[i];
    assert forall i :: 0 <= i < |parts| ==> more[i + 1] == parts[i];
    if Each(all, more) {
      assert all[0](more[0]);
      forall i | 0 <= i < |ls|
        ensures ls[i](parts[i])
      {
        assert all[i + 1](more[i + 1]);
      }
    }
  }

  lemma AllFirst(l: Words, part: Bytes, parts: seq<Bytes>)
    ensures All(l, [part] + parts) <==> l(part) && All(l, parts)
  {
    var more := [part] + parts;
    assert forall i :: 0 <= i < |parts| ==> more[i + 1] == parts[i];
    if All(l, more) {
      assert l(more[0]);
      forall i | 0 <= i < |parts|
        ensures l(parts[i])
      {
        assert l(more[i + 1]);
      }
    }
  }

  lemma InOrderFirst(l: Words, ls: seq<Words>, w: Bytes)
    ensures InOrder([l] + ls)(w) <==> exists k :: 0 <= k <= |w| && l(w[..k]) && InOrder(ls)(w[k..])
  {
    hide Each, Flat;
    if InOrder([l] + ls)(w) {
      var parts :| Flat(parts) == w && Each([l] + ls, parts);
      EachLength([l] + ls, parts);
      var part, rest := parts[0], parts[1..];
      assert [part] + rest == parts;
      FlatFirst(part, rest);
      EachFirst(l, ls, part, rest);
      assert w[..|part|] == part && w[|part|..] == Flat(rest);
      assert InOrder(ls)(w[|part|..]);
    }
    if k :| 0 <= k <= |w| && l(w[..k]) && InOrder(ls)(w[k..]) {
      var rest :| Flat(rest) == w[k..] && Each(ls, rest);
      FlatFirst(w[..k], rest);
      EachFirst(l, ls, w[..k], rest);
      assert w == w[..k] + w[k..];
      assert Flat([w[..k]] + rest) == w;
    }
  }

  lemma EachLength(ls: seq<Words>, parts: seq<Bytes>)
    requires Each(ls, parts)
    ensures |parts| == |ls|
  {
  }

  /** As many parts as `n`. */
  ghost predicate Times(l: Words, n: nat, w: Bytes) {
    exists parts :: Flat(parts) == w && |parts| == n && All(l, parts)
  }

  lemma TimesNone(l: Words, w: Bytes)
    ensures Times(l, 0, w) <==> w == []
  {
    if w == [] {
      assert Flat([]) == w;
    }
  }

  lemma TimesFirst(l: Words, n: nat, w: Bytes)
    ensures Times(l, n + 1, w) <==> exists k :: 0 <= k <= |w| && l(w[..k]) && Times(l, n, w[k..])
  {
    hide All, Flat;
    if Times(l, n + 1, w) {
      var parts :| Flat(parts) == w && |parts| == n + 1 && All(l, parts);
      var part, rest := parts[0], parts[1..];
      assert [part] + rest == parts;
      FlatFirst(part, rest);
      AllFirst(l, part, rest);
      assert w[..|part|] == part && w[|part|..] == Flat(rest);
      assert Times(l, n, w[|part|..]);
    }
    if k :| 0 <= k <= |w| && l(w[..k]) && Times(l, n, w[k..]) {
      var rest :| Flat(rest) == w[k..] && |rest| == n && All(l, rest);
      FlatFirst(w[..k], rest);
      AllFirst(l, w[..k], rest);
      assert w == w[..k] + w[k..];
      assert Flat([w[..k]] + rest) == w;
    }
  }

  lemma ManyTimes(l: Words, min: int, max: int, w: Bytes)
    ensures Many(l, min, max)(w) <==> exists n: nat :: min <= n && (max == -1 || n <= max) && Times(l, n, w)
  {
    if Many(l, min, max)(w) {
      var parts :| Flat(parts) == w && min <= |parts| && (max == -1 || |parts| <= max) && All(l, parts);
      assert Times(l, |parts|, w);
    }
    if n: nat :| min <= n && (max == -1 || n <= max) && Times(l, n, w) {
      var parts :| Flat(parts) == w && |parts| == n && All(l, parts);
    }
  }

  // Parts that are alike can be put in place of each other.

  lemma InOrderAlike(ls: seq<Words>, ls': seq<Words>)
    requires |ls| == |ls'| && forall i :: 0 <= i < |ls| ==> Alike(ls[i], ls'[i])
    ensures Alike(InOrder(ls), InOrder(ls'))
  {
  }

  lemma OneOfAlike(ls: seq<Words>, ls': seq<Words>)
    requires |ls| == |ls'| && forall i :: 0 <= i < |ls| ==> Alike(ls[i], ls'[i])
    ensures Alike(OneOf(ls), OneOf(ls'))
  {
  }

  lemma ManyAlike(l: Words, l': Words, min: int, max: int)
    requires Alike(l, l')
    ensures Alike(Many(l, min, max), Many(l', min, max))
  {
    forall parts
      ensures All(l, parts) <==> All(l', parts)
    {
    }
  }

  /** An option is a repetition of one at most. */
  lemma PerhapsIsMany(l: Words)
    ensures Alike(Perhaps(l), Many(l, 0, 1))
  {
    forall w
      ensures Perhaps(l)(w) <==> Many(l, 0, 1)(w)
    {
      ManyTimes(l, 0, 1, w);
      TimesNone(l, w);
      TimesFirst(l, 0, w);
      forall k | 0 <= k <= |w|
        ensures Times(l, 0, w[k..]) <==> k == |w|
      {
        TimesNone(l, w[k..]);
      }
      assert w[..|w|] == w;
    }
  }

  lemma AlikeTwice(a: Words, b: Words, c: Words)
    requires Alike(a, b) && Alike(b, c)
    ensures Alike(a, c)
  {
  }

  lemma OneOfTwo(l: Words, l': Words, w: Bytes)
    ensures OneOf([l, l'])(w) <==> l(w) || l'(w)
  {
    assert [l, l'][0] == l && [l, l'][1] == l';
  }

  lemma OneOfFirst(l: Words, ls: seq<Words>, w: Bytes)
    ensures OneOf([l] + ls)(w) <==> l(w) || OneOf(ls)(w)
  {
    var all := [l] + ls;
    assert all[0] == l;
    if OneOf(ls)(w) {
      var i :| 0 <= i < |ls| && ls[i](w);
      assert all[i + 1] == ls[i];
    }
  }

  lemma OneOfSix(a: Words, b: Words, c: Words, d: Words, e: Words, f: Words, w: Bytes)
    ensures OneOf([a, b, c, d, e, f])(w) <==> a(w) || b(w) || c(w) || d(w) || e(w) || f(w)
  {
    var ls := [a, b, c, d, e, f];
    assert ls[0] == a && ls[1] == b && ls[2] == c && ls[3] == d && ls[4] == e && ls[5] == f;
  }

  lemma PairInOrder(l: Words, l': Words, w: Bytes)
    ensures InOrder([l, l'])(w) <==> exists k :: 0 <= k <= |w| && l(w[..k]) && l'(w[k..])
  {
    hide InOrder;
    assert [l] + [l'] == [l, l'] && [l'] + [] == [l'];
    InOrderFirst(l, [l'], w);
    forall k | 0 <= k <= |w|
      ensures InOrder([l'])(w[k..]) <==> l'(w[k..])
    {
      var v := w[k..];
      InOrderFirst(l', [], v);
      forall n | 0 <= n <= |v|
        ensures InOrder([])(v[n..]) <==> n == |v|
      {
        InOrderNothing(v[n..]);
      }
      assert v[..|v|] == v;
    }
  }

  lemma PerhapsAny(l: Words, l': Words)
    ensures Alike(Many(OneOf([Many(l, 0, -1), l']), 0, 1), Perhaps(OneOf([Many(l, 1, -1), l'])))
  {
    hide Many, OneOf;
    PerhapsIsMany(OneOf([Many(l, 0, -1), l']));
    forall w
      ensures Perhaps(OneOf([Many(l, 0, -1), l']))(w) <==> Perhaps(OneOf([Many(l, 1, -1), l']))(w)
    {
      OneOfTwo(Many(l, 0, -1), l', w);
      OneOfTwo(Many(l, 1, -1), l', w);
      NoneOrSome(l, w);
    }
  }

  lemma NoneOrSome(l: Words, w: Bytes)
    ensures Many(l, 0, -1)(w) <==> w == [] || Many(l, 1, -1)(w)
  {
    if w == [] {
      assert Flat([]) == w && All(l, []);
    }
  }

  lemma LastAlike(a: Words, b: Words, c: Words, c': Words)
    requires Alike(c, c')
    ensures Alike(InOrder([a, b, c]), InOrder([a, b, c']))
  {
    hide InOrder;
    InOrderAlike([a, b, c], [a, b, c']);
  }

  lemma FirstAlike(a: Words, a': Words, b: Words)
    requires Alike(a', a)
    ensures Alike(InOrder([a, b]), InOrder([a', b]))
  {
    hide InOrder;
    InOrderAlike([a, b], [a', b]);
  }

  lemma BoundsAlike(a: Words, a': Words, b: Words, c: Words)
    requires Alike(a, a') && Alike(c, a')
    ensures Alike(InOrder([a, b, c]), InOrder([a', b, a']))
  {
    hide InOrder;
    assert Alike(b, b);
    InOrderAlike([a, b, c], [a', b, a']);
  }

  lemma PairAlike(a: Words, a': Words, b: Words, b': Words)
    requires Alike(a, a') && Alike(b, b')
    ensures Alike(OneOf([a, b]), OneOf([a', b']))
  {
    hide OneOf;
    OneOfAlike([a, b], [a', b']);
  }

  // The languages of recognizers.

  /** The strings that `r` derives. */
  ghost function Of(r: Rec, env: Lang): Words {
    w => Derives(r, env, w)
  }

  ghost function OfEach(rs: seq<Rec>, env: Lang): seq<Words> {
    seq(|rs|, i requires 0 <= i < |rs| => Of(rs[i], env))
  }

  lemma TerminalWords(env: Lang, c: int, lo: int, hi: int)
    ensures Alike(Of(CharRec(c, true), env), Sign(c)) && Alike(Of(CharRange(lo, hi), env), Octets(lo, hi))
    ensures !IsCapital(c) ==> Alike(Of(CharRec(c, false), env), Letter(c))
  {
    forall w: Bytes | |w| == 1
      ensures !IsCapital(c) ==> (ToLower(w[0]) == c <==> SameLetter(w[0], c))
    {
      Folds(w[0], c);
      SameLetterShifts(w[0], c);
    }
  }

  /** The letters of a string in either case, one after the other. */
  ghost function Letters(lit: Bytes): Words {
    w => |w| == |lit| && forall i :: 0 <= i < |w| ==> SameLetter(w[i], lit[i])
  }

  lemma LiteralWords(env: Lang, lit: Bytes)
    requires forall i :: 0 <= i < |lit| ==> !IsCapital(lit[i])
    ensures Alike(Of(Literal(lit), env), Letters(lit))
  {
    forall w: Bytes, i | |w| == |lit| && 0 <= i < |w|
      ensures ToLower(w[i]) == lit[i] <==> SameLetter(w[i], lit[i])
    {
      Folds(w[i], lit[i]);
      SameLetterShifts(w[i], lit[i]);
    }
  }

  lemma {:induction false} ElementsWords(es: Recs, env: Lang, w: Bytes)
    ensures DerivesSequence(es, env, w) <==> InOrder(OfEach(Listed(es), env))(w)
    decreases es
  {
    hide InOrder, Derives;
    if es.Nil? {
      InOrderNothing(w);
      assert OfEach(Listed(es), env) == [];
    } else {
      var ls := OfEach(Listed(es.tail), env);
      assert OfEach(Listed(es), env) == [Of(es.head, env)] + ls;
      InOrderFirst(Of(es.head, env), ls, w);
      forall k | 0 <= k <= |w|
        ensures DerivesSequence(es.tail, env, w[k..]) <==> InOrder(ls)(w[k..])
      {
        ElementsWords(es.tail, env, w[k..]);
      }
    }
  }

  /** A sequence derives a string of each element, in order. */
  lemma SequenceWords(es: Recs, env: Lang)
    ensures Alike(Of(Sequence(es), env), InOrder(OfEach(Listed(es), env)))
  {
    hide InOrder;
    forall w
      ensures Of(Sequence(es), env)(w) <==> InOrder(OfEach(Listed(es), env))(w)
    {
      ElementsWords(es, env, w);
    }
  }

  lemma {:induction false} AlternativesWords(es: Recs, env: Lang, w: Bytes)
    ensures DerivesAny(es, env, w) <==> OneOf(OfEach(Listed(es), env))(w)
    decreases es
  {
    hide Derives;
    if es.Cons? {
      AlternativesWords(es.tail, env, w);
      var ls, rest := OfEach(Listed(es), env), OfEach(Listed(es.tail), env);
      assert ls == [Of(es.head, env)] + rest;
      assert ls[0] == Of(es.head, env);
      if i :| 0 <= i < |rest| && rest[i](w) {
        assert ls[i + 1] == rest[i];
      }
    }
  }

  /** A selector derives what any of its alternatives does. */
  lemma SelectorWords(sel: nat, es: Recs, env: Lang)
    ensures Alike(Of(Selector(sel, es), env), OneOf(OfEach(Listed(es), env)))
  {
    hide OneOf;
    forall w
      ensures Of(Selector(sel, es), env)(w) <==> OneOf(OfEach(Listed(es), env))(w)
    {
      AlternativesWords(es, env, w);
    }
  }

  lemma {:induction false} RepeatsWords(r: Rec, env: Lang, n: nat, w: Bytes)
    ensures Repeats(r, env, n, w) <==> Times(Of(r, env), n, w)
    decreases n
  {
    hide Times, Derives;
    if n == 0 {
      TimesNone(Of(r, env), w);
    } else {
      TimesFirst(Of(r, env), n - 1, w);
      forall k | 0 <= k <= |w|
        ensures Repeats(r, env, n - 1, w[k..]) <==> Times(Of(r, env), n - 1, w[k..])
      {
        RepeatsWords(r, env, n - 1, w[k..]);
      }
    }
  }

  /** A loop derives from `min` to `max` strings of its body, one after the other. */
  lemma LoopWords(body: Rec, min: int, max: int, env: Lang)
    ensures Alike(Of(Loop(body, min, max), env), Many(Of(body, env), min, max))
  {
    hide Many, Times, Derives;
    forall w
      ensures Of(Loop(body, min, max), env)(w) <==> Many(Of(body, env), min, max)(w)
    {
      ManyTimes(Of(body, env), min, max, w);
      LoopDerives(body, min, max, env, w);
      if Derives(Loop(body, min, max), env, w) {
        var n: nat :| min <= n && (max == -1 || n <= max) && Repeats(body, env, n, w);
        RepeatsWords(body, env, n, w);
      }
      if Many(Of(body, env), min, max)(w) {
        var n: nat :| min <= n && (max == -1 || n <= max) && Times(Of(body, env), n, w);
        RepeatsWords(body, env, n, w);
      }
    }
  }

  lemma LoopDerives(body: Rec, min: int, max: int, env: Lang, w: Bytes)
    ensures Derives(Loop(body, min, max), env, w) <==>
            exists n: nat :: min <= n && (max == -1 || n <= max) && Repeats(body, env, n, w)
  {
    var r := Loop(body, min, max);
    assert Derives(r, env, w) <==> exists n: nat :: min <= n && (max != -1 ==> n <= max) && Repeats(body, env, n, w);
    if Derives(r, env, w) {
      var n: nat :| min <= n && (max != -1 ==> n <= max) && Repeats(body, env, n, w);
      assert (max == -1 || n <= max) && Repeats(body, env, n, w);
    }
    if n: nat :| min <= n && (max == -1 || n <= max) && Repeats(body, env, n, w) {
      assert (max != -1 ==> n <= max) && Repeats(body, env, n, w);
    }
  }

  lemma IndirectionWords(target: Rec, env: Lang)
    ensures Alike(Of(Pointer(target), env), Of(target, env)) && Alike(Of(Alias(target), env), Of(target, env))
  {
  }

  // The rules of a graph derive what their recognizers do, references included.

  ghost function LanguageOf(g: Graph): Lang {
    (x, w) => InLanguage(g, Named(x), w)
  }

  /** The strings of the rule `x`. */
  ghost function Strings(g: Graph, x: Name): Words {
    w => InLanguage(g, Named(x), w)
  }

  lemma LevelWithin(g: Graph, k: nat)
    ensures Within(RuleLang(g, k), LanguageOf(g))
  {
    hide RuleLang;
    forall x, w | RuleLang(g, k)(x, w)
      ensures InLanguage(g, Named(x), w)
    {
      assert Derives(Named(x), RuleLang(g, k), w);
    }
  }

  /** A string is derived within some number of expansions. */
  lemma {:induction false} DerivedAtLevel(g: Graph, r: Rec, w: Bytes) returns (k: nat)
    requires Derives(r, LanguageOf(g), w)
    ensures Derives(r, RuleLang(g, k), w)
    decreases r, 0
  {
    hide RuleLang;
    match r {
      case CharRec(_, _) => k := 0;
      case CharRange(_, _) => k := 0;
      case Literal(_) => k := 0;
      case Sequence(es) => k := SequenceAtLevel(g, es, w);
      case Selector(_, es) => k := AnyAtLevel(g, es, w);
      case Loop(body, min, max) =>
        var n: nat :| min <= n && (max != -1 ==> n <= max) && Repeats(body, LanguageOf(g), n, w);
        k := RepeatsAtLevel(g, body, n, w);
      case Pointer(target) => k := DerivedAtLevel(g, target, w);
      case Alias(target) => k := DerivedAtLevel(g, target, w);
      case Named(x) => k :| Derives(Named(x), RuleLang(g, k), w);
    }
  }

  lemma {:induction false} SequenceAtLevel(g: Graph, es: Recs, w: Bytes) returns (k: nat)
    requires DerivesSequence(es, LanguageOf(g), w)
    ensures DerivesSequence(es, RuleLang(g, k), w)
    decreases es, 0
  {
    hide RuleLang, Derives;
    k := 0;
    if es.Cons? {
      var env := LanguageOf(g);
      var m :| 0 <= m <= |w| && Derives(es.head, env, w[..m]) && DerivesSequence(es.tail, env, w[m..]);
      var k1 := DerivedAtLevel(g, es.head, w[..m]);
      var k2 := SequenceAtLevel(g, es.tail, w[m..]);
      k := Max(k1, k2);
      RuleLangGrows(g, k1, k);
      RuleLangGrows(g, k2, k);
      DerivesMore(es.head, RuleLang(g, k1), RuleLang(g, k), w[..m]);
      DerivesSequenceMore(es.tail, RuleLang(g, k2), RuleLang(g, k), w[m..]);
    }
  }

  lemma {:induction false} AnyAtLevel(g: Graph, es: Recs, w: Bytes) returns (k: nat)
    requires DerivesAny(es, LanguageOf(g), w)
    ensures DerivesAny(es, RuleLang(g, k), w)
    decreases es, 0
  {
    hide RuleLang, Derives;
    if Derives(es.head, LanguageOf(g), w) {
      k := DerivedAtLevel(g, es.head, w);
    } else {
      k := AnyAtLevel(g, es.tail, w);
    }
  }

  lemma {:induction false} RepeatsAtLevel(g: Graph, r: Rec, n: nat, w: Bytes) returns (k: nat)
    requires Repeats(r, LanguageOf(g), n, w)
    ensures Repeats(r, RuleLang(g, k), n, w)
    decreases r, 1 + n
  {
    hide RuleLang, Derives;
    k := 0;
    if n > 0 {
      var m :| 0 <= m <= |w| && Derives(r, LanguageOf(g), w[..m]) && Repeats(r, LanguageOf(g), n - 1, w[m..]);
      var k1 := DerivedAtLevel(g, r, w[..m]);
      var k2 := RepeatsAtLevel(g, r, n - 1, w[m..]);
      k := Max(k1, k2);
      RuleLangGrows(g, k1, k);
      RuleLangGrows(g, k2, k);
      DerivesMore(r, RuleLang(g, k1), RuleLang(g, k), w[..m]);
      RepeatsMore(r, RuleLang(g, k2), RuleLang(g, k), n - 1, w[m..]);
    }
  }

  /** Counting expansions makes no difference: a recognizer derives what it does when each name stands for
      the whole language of its rule. */
  lemma InLanguageExactly(g: Graph, r: Rec, w: Bytes)
    ensures InLanguage(g, r, w) <==> Derives(r, LanguageOf(g), w)
  {
    hide RuleLang, Derives;
    if InLanguage(g, r, w) {
      var k :| Derives(r, RuleLang(g, k), w);
      LevelWithin(g, k);
      DerivesMore(r, RuleLang(g, k), LanguageOf(g), w);
    }
    if Derives(r, LanguageOf(g), w) {
      var k := DerivedAtLevel(g, r, w);
    }
  }

  /** The language of a rule is that of its recognizer. */
  lemma RuleWords(g: Graph, x: Name)
    requires x in g.rules
    ensures Alike(Strings(g, x), Of(g.rules[x], LanguageOf(g)))
  {
    hide Derives, RuleLang;
    forall w
      ensures InLanguage(g, Named(x), w) <==> Derives(g.rules[x], LanguageOf(g), w)
    {
      InLanguageExactly(g, g.rules[x], w);
      if InLanguage(g, Named(x), w) {
        var k :| Derives(Named(x), RuleLang(g, k), w);
        NamedAtLevel(g, x, k, w);
        assert InLanguage(g, g.rules[x], w);
      }
      if InLanguage(g, g.rules[x], w) {
        var k: nat :| Derives(g.rules[x], RuleLang(g, k), w);
        NamedAtLevel(g, x, k + 1, w);
        assert InLanguage(g, Named(x), w);
      }
    }
  }

  /** A placeholder has the strings of its rule. */
  lemma PlaceholderWords(g: Graph, x: Name, y: Name)
    requires x in g.rules && g.rules[x] == Pointer(Named(y))
    ensures Alike(Strings(g, x), Strings(g, y))
  {
    hide InLanguage;
    RuleWords(g, x);
    assert forall w :: Derives(Pointer(Named(y)), LanguageOf(g), w) <==> Derives(Named(y), LanguageOf(g), w);
    assert forall w :: Derives(Named(y), LanguageOf(g), w) <==> InLanguage(g, Named(y), w);
  }

  lemma NamedAtLevel(g: Graph, x: Name, k: nat, w: Bytes)
    requires x in g.rules
    ensures Derives(Named(x), RuleLang(g, k), w) <==> k > 0 && Derives(g.rules[x], RuleLang(g, k - 1), w)
  {
  }
}
