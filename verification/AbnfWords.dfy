/** The languages of the recognizers that belr writes for the rules of ABNF, put together from the strings of the
    rules they refer to. */
module AbnfWords {
  import opened Bytes
  import opened Recognizers
  import opened Grammars
  import opened Language
  import opened Words
  import opened AbnfRules
  import F = AbnfForms
  import G = AbnfGrammar
  import AbnfTables

  /** The strings of the rule named `x` in the grammar of ABNF. */
  ghost function The(x: Name): Words {
    Strings(G.AbnfGraph(), x)
  }

  // From the written forms to the combinations of strings.

  ghost function Never(): Words {
    w => false
  }

  ghost function WordsOf(f: F.Form): Words {
    match f
    case Chr(c, caseSensitive) => if caseSensitive then Sign(c) else if IsCapital(c) then Never() else Letter(c)
    case Range(lo, hi) => Octets(lo, hi)
    case Word(lit) => if forall i :: 0 <= i < |lit| ==> !IsCapital(lit[i]) then Letters(lit) else Never()
    case Ref(r) => The(NameOf(r))
    case Seq(fs) => InOrder(WordsOfAll(fs))
    case Sel(_, fs) => OneOf(WordsOfAll(fs))
    case Rep(body, min, max) => Many(WordsOf(body), min, max)
  }

  ghost function WordsOfAll(fs: F.Forms): seq<Words> {
    if fs.End? then [] else [WordsOf(fs.head)] + WordsOfAll(fs.tail)
  }

  ghost function Env(): Lang {
    LanguageOf(G.AbnfGraph())
  }

  /** What a form mentions is in the graph, as a rule or as its placeholder. */
  ghost predicate Timely(rules: set<Rule>, at: nat) {
    forall r :: r in rules ==> Order(r) < at || G.Early(r, RULES)
  }

  lemma TerminalForm(f: F.Form, at: nat)
    requires f.Chr? || f.Range? || f.Word?
    ensures Alike(Of(G.ToRec(f, at), Env()), WordsOf(f))
  {
    hide G.AbnfGraph, Alike;
    match f {
      case Chr(c, caseSensitive) =>
        TerminalWords(Env(), c, 0, 0);
        if IsCapital(c) {
          CapitalNever(Env(), c);
        }
      case Range(lo, hi) => TerminalWords(Env(), 0, lo, hi);
      case Word(lit) =>
        if forall i :: 0 <= i < |lit| ==> !IsCapital(lit[i]) {
          LiteralWords(Env(), lit);
        } else {
          CapitalsNever(Env(), lit);
        }
    }
  }

  /** Nothing folds to a capital. */
  lemma CapitalNever(env: Lang, c: int)
    requires IsCapital(c)
    ensures Alike(Of(CharRec(c, false), env), Never())
  {
  }

  lemma CapitalsNever(env: Lang, lit: Bytes)
    requires exists i :: 0 <= i < |lit| && IsCapital(lit[i])
    ensures Alike(Of(Literal(lit), env), Never())
  {
  }

  lemma ReferenceForm(r: Rule, at: nat)
    requires Timely({r}, at)
    ensures Alike(Of(G.ToRec(F.Ref(r), at), Env()), WordsOf(F.Ref(r)))
  {
    hide G.AbnfGraph, NameOf, Order, G.Early, InLanguage, Deferred, Alike, Strings, Of;
    NamedWords(G.AbnfGraph(), AbnfTables.Reference(r, at));
    if Order(r) >= at {
      assert r in {r};
      G.PlaceholderRecorded(r);
      PlaceholderWords(G.AbnfGraph(), Deferred(NameOf(r)), NameOf(r));
      AlikeTwice(Of(G.ToRec(F.Ref(r), at), Env()), The(Deferred(NameOf(r))), The(NameOf(r)));
    }
  }

  lemma NamedWords(g: Graph, x: Name)
    ensures Alike(Of(Named(x), LanguageOf(g)), Strings(g, x))
  {
    hide InLanguage;
  }

  lemma {:induction false} FormWords(f: F.Form, at: nat)
    requires Timely(F.Mentions(f), at)
    ensures Alike(Of(G.ToRec(f, at), Env()), WordsOf(f))
  {
    hide G.AbnfGraph, NameOf, Order, Timely, Alike, Of;
    match f {
      case Ref(r) => ReferenceForm(r, at);
      case Seq(fs) =>
        var es := G.ToRecs(fs, at);
        FormsWords(fs, at);
        SequenceWords(es, Env());
        InOrderAlike(OfEach(Listed(es), Env()), WordsOfAll(fs));
        AlikeTwice(Of(Sequence(es), Env()), InOrder(OfEach(Listed(es), Env())), WordsOf(f));
      case Sel(_, fs) =>
        var es := G.ToRecs(fs, at);
        FormsWords(fs, at);
        SelectorWords(at, es, Env());
        OneOfAlike(OfEach(Listed(es), Env()), WordsOfAll(fs));
        AlikeTwice(Of(Selector(at, es), Env()), OneOf(OfEach(Listed(es), Env())), WordsOf(f));
      case Rep(body, min, max) =>
        var r := G.ToRec(body, at);
        FormWords(body, at);
        LoopWords(r, min, max, Env());
        ManyAlike(Of(r, Env()), WordsOf(body), min, max);
        AlikeTwice(Of(Loop(r, min, max), Env()), Many(Of(r, Env()), min, max), WordsOf(f));
      case Chr(_, _) => TerminalForm(f, at);
      case Range(_, _) => TerminalForm(f, at);
      case Word(_) => TerminalForm(f, at);
    }
  }

  lemma {:induction false} FormsWords(fs: F.Forms, at: nat)
    requires Timely(F.MentionsAll(fs), at)
    ensures var ls, ls' := OfEach(Listed(G.ToRecs(fs, at)), Env()), WordsOfAll(fs);
            |ls| == |ls'| && forall i :: 0 <= i < |ls| ==> Alike(ls[i], ls'[i])
  {
    hide G.AbnfGraph, NameOf, Order, Alike, Of, G.Early, WordsOf;
    if fs.And? {
      FormWords(fs.head, at);
      FormsWords(fs.tail, at);
      var ls, ls' := OfEach(Listed(G.ToRecs(fs, at)), Env()), WordsOfAll(fs);
      var rest, rest' := OfEach(Listed(G.ToRecs(fs.tail, at)), Env()), WordsOfAll(fs.tail);
      assert ls == [Of(G.ToRec(fs.head, at), Env())] + rest;
      forall i | 0 <= i < |ls|
        ensures Alike(ls[i], ls'[i])
      {
        if i > 0 {
          assert ls[i] == rest[i - 1] && ls'[i] == rest'[i - 1];
        }
      }
    }
  }

  /** The strings of a rule are those of the recognizer that belr writes for it. */
  lemma RuleForm(r: Rule)
    ensures Alike(The(NameOf(r)), WordsOf(G.Body(r)))
  {
    hide G.AbnfGraph, NameOf, Order, Alike, Of, G.Early, WordsOf, G.Body, F.Mentions, F.Fits, Strings;
    G.RuleRecorded(r);
    OrderRead(r);
    forall q | q in F.Mentions(G.Body(r))
      ensures Order(q) < Order(r) || G.Early(q, RULES)
    {
      G.MentionIsTimely(q, r);
    }
    FormWords(G.Body(r), Order(r));
    RuleWords(G.AbnfGraph(), NameOf(r));
    AlikeTwice(The(NameOf(r)), Of(G.Written(r), Env()), WordsOf(G.Body(r)));
  }

  lemma RuleAtWord(r: Rule, w: Bytes)
    ensures The(NameOf(r))(w) <==> WordsOf(G.Body(r))(w)
  {
    hide The, NameOf, G.Body, WordsOf;
    RuleForm(r);
  }

  // Lists of a few forms, and the shapes they are used in.

  lemma ListedWords(a: F.Form, b: F.Form, fs: F.Forms)
    ensures WordsOfAll(F.One(a)) == [WordsOf(a)]
    ensures WordsOfAll(F.Two(a, b)) == [WordsOf(a), WordsOf(b)]
    ensures WordsOfAll(F.And(a, fs)) == [WordsOf(a)] + WordsOfAll(fs)
  {
    hide WordsOf;
  }

  lemma ThreeWords(a: F.Form, b: F.Form, c: F.Form)
    ensures WordsOfAll(F.Three(a, b, c)) == [WordsOf(a), WordsOf(b), WordsOf(c)]
  {
    hide WordsOf;
    ListedWords(b, c, F.End);
    ListedWords(a, b, F.Two(b, c));
  }

  lemma FourWords(a: F.Form, b: F.Form, c: F.Form, d: F.Form)
    ensures WordsOfAll(F.Four(a, b, c, d)) == [WordsOf(a), WordsOf(b), WordsOf(c), WordsOf(d)]
  {
    hide WordsOf;
    ThreeWords(b, c, d);
    ListedWords(a, b, F.Three(b, c, d));
  }

  lemma {:induction false} SixWords(a: F.Form, b: F.Form, c: F.Form, d: F.Form, e: F.Form, f: F.Form)
    ensures WordsOfAll(F.And(a, F.And(b, F.Four(c, d, e, f)))) ==
            [WordsOf(a), WordsOf(b), WordsOf(c), WordsOf(d), WordsOf(e), WordsOf(f)]
  {
    hide WordsOf;
    FourWords(c, d, e, f);
    ListedWords(b, b, F.Four(c, d, e, f));
    ListedWords(a, a, F.And(b, F.Four(c, d, e, f)));
  }

  lemma SignWords(c: int)
    ensures WordsOf(F.Sign(c)) == Sign(c)
    ensures !IsCapital(c) ==> WordsOf(F.Letter(c)) == Letter(c)
  {
  }

  lemma RangeWords(lo: int, hi: int)
    ensures WordsOf(F.Range(lo, hi)) == Octets(lo, hi)
  {
  }

  lemma SlashWords()
    ensures WordsOf(F.Word([61, 47])) == Letters([61, 47])
  {
  }

  lemma ManyWords(f: F.Form)
    ensures WordsOf(F.Star(f)) == Many(WordsOf(f), 0, -1) && WordsOf(F.Plus(f)) == Many(WordsOf(f), 1, -1)
    ensures WordsOf(F.Opt(f)) == Many(WordsOf(f), 0, 1)
  {
  }

  lemma SequenceForm(fs: F.Forms)
    ensures WordsOf(F.Seq(fs)) == InOrder(WordsOfAll(fs))
  {
  }

  lemma TwoInOrder(a: F.Form, b: F.Form)
    ensures WordsOf(F.Seq(F.Two(a, b))) == InOrder([WordsOf(a), WordsOf(b)])
  {
    ListedWords(a, b, F.End);
  }

  lemma ThreeInOrder(a: F.Form, b: F.Form, c: F.Form)
    ensures WordsOf(F.Seq(F.Three(a, b, c))) == InOrder([WordsOf(a), WordsOf(b), WordsOf(c)])
  {
    ThreeWords(a, b, c);
  }

  lemma FourInOrder(a: F.Form, b: F.Form, c: F.Form, d: F.Form)
    ensures WordsOf(F.Seq(F.Four(a, b, c, d))) == InOrder([WordsOf(a), WordsOf(b), WordsOf(c), WordsOf(d)])
  {
    FourWords(a, b, c, d);
  }

  lemma OneOfPair(a: F.Form, b: F.Form)
    ensures WordsOf(F.Exclusive(F.Two(a, b))) == OneOf([WordsOf(a), WordsOf(b)])
    ensures WordsOf(F.Longest(F.Two(a, b))) == OneOf([WordsOf(a), WordsOf(b)])
  {
    ListedWords(a, b, F.End);
  }

  lemma OneOfThree(a: F.Form, b: F.Form, c: F.Form)
    ensures WordsOf(F.Exclusive(F.Three(a, b, c))) == OneOf([WordsOf(a), WordsOf(b), WordsOf(c)])
  {
    ThreeWords(a, b, c);
  }

  lemma ReferenceWords(r: Rule)
    ensures WordsOf(F.Ref(r)) == The(NameOf(r))
  {
  }
}
