/** The rules of ABNF (section 4 and appendix B.1 of RFC 5234) as belr writes them, and the conditions
    under which they can be parsed with. */
module AbnfForms {
  import opened Bytes
  import opened AbnfRules

  /** Recognizers as the grammar writes them; `Ref` is what getRule is called for. */
  datatype Form =
    | Chr(c: int, caseSensitive: bool)
    | Range(lo: int, hi: int)
    | Word(lit: Bytes)
    | Ref(rule: Rule)
    | Seq(fs: Forms)
    | Sel(exclusive: bool, fs: Forms)
    | Rep(f: Form, min: nat, max: int)

  datatype Forms = End | And(head: Form, tail: Forms)

  function One(a: Form): Forms { And(a, End) }
  function Two(a: Form, b: Form): Forms { And(a, One(b)) }
  function Three(a: Form, b: Form, c: Form): Forms { And(a, Two(b, c)) }
  function Four(a: Form, b: Form, c: Form, d: Form): Forms { And(a, Three(b, c, d)) }
  function Exclusive(fs: Forms): Form { Sel(true, fs) }
  function Longest(fs: Forms): Form { Sel(false, fs) }
  function Star(f: Form): Form { Rep(f, 0, -1) }
  function Plus(f: Form): Form { Rep(f, 1, -1) }
  function Opt(f: Form): Form { Rep(f, 0, 1) }
  function Sign(c: int): Form { Chr(c, true) }
  function Letter(c: int): Form { Chr(c, false) }

  /** The rules a form refers to. */
  function Mentions(f: Form): set<Rule> {
    match f
    case Ref(r) => {r}
    case Seq(fs) => MentionsAll(fs)
    case Sel(_, fs) => MentionsAll(fs)
    case Rep(body, _, _) => Mentions(body)
    case _ => {}
  }

  function MentionsAll(fs: Forms): set<Rule> {
    if fs.End? then {} else Mentions(fs.head) + MentionsAll(fs.tail)
  }

  // What is claimed of the rules.

  /** A rank that decreases from each rule to those it may feed before consuming anything, by two at
      least, so that a placeholder fits in between. */
  function Rank(r: Rule): nat {
    if r.Crlf? || r.Hexdig? || r.Wsp? || r.CharVal? || r.Rulename? then 2
    else if r.RepeatCount? || r.RepeatMax? || r.RepeatMin? then 2
    else if r.Lwsp? || r.CrlfOrLf? || r.Repeat? || r.Element? || r.Definition? then 4
    else if r.CNl? || r.Repetition? then 6
    else if r.CWsp? || r.Concatenation? then 8
    else if r.DefinedAs? || r.Alternation? || r.Rulelist? then 10
    else if r.Elements? then 12
    else 0
  }

  predicate CanBeEmpty(r: Rule) {
    r.Lwsp? || r.RepeatMax? || r.RepeatMin?
  }

  predicate AcceptsZero(r: Rule) {
    r.Ctl? || r.Octet?
  }

  /** What there is to know of a form: whether it can match nothing, a bound on the ranks of what it may
      feed before consuming anything, whether it can match the octet 0 that ends the input, whether its
      parts meet the conditions of a well-formed graph, and how many selectors it has. */
  datatype Facts = Facts(empty: bool, head: nat, zero: bool, sound: bool, selectors: nat)

  function FactsOf(f: Form): Facts {
    match f
    case Chr(c, _) => Facts(false, 0, c == 0, true, 0)
    case Range(lo, hi) => Facts(false, 0, lo <= 0 <= hi, true, 0)
    case Word(lit) => Facts(lit == [], 0, false, forall i :: 0 <= i < |lit| ==> lit[i] != 0, 0)
    case Ref(r) => Facts(CanBeEmpty(r), Rank(r) + 2, AcceptsZero(r), true, 0)
    case Seq(fs) => SequenceFacts(fs)
    case Sel(_, fs) => var a := SelectorFacts(fs); a.(selectors := a.selectors + 1)
    case Rep(body, min, max) =>
      var b := FactsOf(body);
      Facts(min == 0 || b.empty, b.head, false, b.sound && -1 <= max && (max == -1 ==> !b.empty), b.selectors)
  }

  function SequenceFacts(fs: Forms): Facts {
    match fs
    case End => Facts(true, 0, false, true, 0)
    case And(f, tail) =>
      var a, b := FactsOf(f), SequenceFacts(tail);
      Facts(a.empty && b.empty, if a.empty then Max(a.head, b.head) else a.head, a.zero,
            a.sound && b.sound && !b.zero, a.selectors + b.selectors)
  }

  function SelectorFacts(fs: Forms): Facts {
    match fs
    case End => Facts(false, 0, false, true, 0)
    case And(f, tail) =>
      var a, b := FactsOf(f), SelectorFacts(tail);
      Facts(a.empty || b.empty, Max(a.head, b.head), a.zero || b.zero, a.sound && b.sound, a.selectors + b.selectors)
  }

  predicate Fits(r: Rule, f: Form) {
    var a := FactsOf(f);
    && a.sound && a.selectors <= 1 && a.head <= Rank(r) && !f.Ref?
    && (a.empty ==> CanBeEmpty(r)) && (a.zero ==> AcceptsZero(r))
  }

  // The recognizers of the rules.

  function AlphaForm(): Form { Exclusive(Two(Range(97, 122), Range(65, 90))) }

  function BitForm(): Form { Exclusive(Two(Sign(48), Sign(49))) }

  function CharForm(): Form { Range(1, 127) }

  function CrForm(): Form { Sign(13) }

  function LfForm(): Form { Sign(10) }

  function CrlfForm(): Form { Seq(Two(Ref(Cr), Ref(Lf))) }

  function CtlForm(): Form { Exclusive(Two(Range(0, 31), Sign(127))) }

  function DigitForm(): Form { Range(48, 57) }

  function HexLetters(): Forms {
    And(Letter(97), And(Letter(98), Four(Letter(99), Letter(100), Letter(101), Letter(102))))
  }

  function HexdigForm(): Form { Exclusive(And(Ref(Digit), HexLetters())) }

  function DquoteForm(): Form { Sign(34) }

  function HtabForm(): Form { Sign(9) }

  function OctetForm(): Form { Range(0, 255) }

  function SpForm(): Form { Sign(32) }

  function VcharForm(): Form { Range(33, 126) }

  function WspForm(): Form { Exclusive(Two(Ref(Sp), Ref(Htab))) }

  function LwspForm(): Form { Star(Exclusive(Two(Ref(Wsp), Seq(Two(Ref(Crlf), Ref(Wsp)))))) }

  function CharValForm(): Form {
    Seq(Three(Ref(Dquote), Star(Exclusive(Two(Range(32, 33), Range(35, 126)))), Ref(Dquote)))
  }

  /** What follows the first digits of a numeric value: more values, or the end of a range. */
  function Values(digit: Rule): Form {
    Longest(Two(Star(Seq(Two(Sign(46), Plus(Ref(digit))))), Seq(Two(Sign(45), Plus(Ref(digit))))))
  }

  function ValueForm(prefix: int, digit: Rule): Form {
    Seq(Three(Letter(prefix), Plus(Ref(digit)), Opt(Values(digit))))
  }

  function BinValForm(): Form { ValueForm(98, Bit) }

  function DecValForm(): Form { ValueForm(100, Digit) }

  function HexValForm(): Form { ValueForm(120, Hexdig) }

  function NumValForm(): Form { Seq(Two(Sign(37), Exclusive(Three(Ref(BinVal), Ref(DecVal), Ref(HexVal))))) }

  function ProseValForm(): Form { Seq(Three(Sign(60), Star(Exclusive(Two(Range(32, 61), Range(63, 126)))), Sign(62))) }

  function CommentForm(): Form { Seq(Three(Sign(59), Star(Exclusive(Two(Ref(Wsp), Ref(Vchar)))), Ref(CrlfOrLf))) }

  function CNlForm(): Form { Longest(Two(Ref(Comment), Ref(CrlfOrLf))) }

  function CWspForm(): Form { Longest(Two(Ref(Wsp), Seq(Two(Ref(CNl), Ref(Wsp))))) }

  function RulenameForm(): Form { Seq(Two(Ref(Alpha), Star(Exclusive(Three(Ref(Alpha), Ref(Digit), Sign(45)))))) }

  function RepeatCountForm(): Form { Plus(Ref(Digit)) }

  function RepeatMaxForm(): Form { Star(Ref(Digit)) }

  function RepeatMinForm(): Form { Star(Ref(Digit)) }

  function RepeatForm(): Form { Longest(Two(Ref(RepeatCount), Seq(Three(Ref(RepeatMin), Sign(42), Ref(RepeatMax))))) }

  function DefinedAsForm(): Form {
    Seq(Three(Star(Ref(CWsp)), Longest(Two(Sign(61), Word([61, 47]))), Star(Ref(CWsp))))
  }

  function RulelistForm(): Form { Plus(Longest(Two(Ref(Definition), Seq(Two(Star(Ref(CWsp)), Ref(CNl)))))) }

  function DefinitionForm(): Form { Seq(Four(Ref(Rulename), Ref(DefinedAs), Ref(Elements), Ref(CNl))) }

  function ElementsForm(): Form { Seq(Two(Ref(Alternation), Star(Ref(CWsp)))) }

  function AlternationForm(): Form {
    Seq(Two(Ref(Concatenation), Star(Seq(Four(Star(Ref(CWsp)), Sign(47), Star(Ref(CWsp)), Ref(Concatenation))))))
  }

  function ConcatenationForm(): Form { Seq(Two(Ref(Repetition), Star(Seq(Two(Plus(Ref(CWsp)), Ref(Repetition)))))) }

  function RepetitionForm(): Form { Seq(Two(Opt(Ref(Repeat)), Ref(Element))) }

  function ValueRules(): Forms { Three(Ref(CharVal), Ref(NumVal), Ref(ProseVal)) }

  function ElementForm(): Form { Longest(And(Ref(Rulename), And(Ref(Group), And(Ref(Optional), ValueRules())))) }

  function BracketForm(open: int, close: int): Form {
    Seq(And(Sign(open), Four(Star(Ref(CWsp)), Ref(Alternation), Star(Ref(CWsp)), Sign(close))))
  }

  function GroupForm(): Form { BracketForm(40, 41) }

  function OptionalForm(): Form { BracketForm(91, 93) }

  function CrlfOrLfForm(): Form { Longest(Two(Ref(Crlf), Ref(Lf))) }

  // The rules one by one.

  lemma OctetsFit()
    ensures Fits(Char, CharForm())
    ensures Fits(Cr, CrForm())
    ensures Fits(Lf, LfForm())
    ensures Fits(Digit, DigitForm())
    ensures Fits(Dquote, DquoteForm())
    ensures Fits(Htab, HtabForm())
    ensures Fits(Octet, OctetForm())
    ensures Fits(Sp, SpForm())
    ensures Fits(Vchar, VcharForm())
  {
    hide Order, RuleAt, NameOf, RuleNamed;
  }

  lemma ClassesFit()
    ensures Fits(Alpha, AlphaForm())
    ensures Fits(Bit, BitForm())
    ensures Fits(Ctl, CtlForm())
  {
    hide Order, RuleAt, NameOf, RuleNamed;
  }

  lemma DigitRunsFit()
    ensures Fits(RepeatCount, RepeatCountForm())
    ensures Fits(RepeatMax, RepeatMaxForm())
    ensures Fits(RepeatMin, RepeatMinForm())
  {
    hide Order, RuleAt, NameOf, RuleNamed;
  }

  lemma CrlfFits()
    ensures Fits(Crlf, CrlfForm())
  {
    hide Order, RuleAt, NameOf, RuleNamed;
  }

  lemma HexLettersFit()
    ensures SelectorFacts(HexLetters()) == Facts(false, 0, false, true, 0)
  {
    hide Order, RuleAt, NameOf, RuleNamed;
  }

  lemma HexdigFits()
    ensures Fits(Hexdig, HexdigForm())
  {
    hide Order, RuleAt, NameOf, RuleNamed;
    hide HexLetters;
    HexLettersFit();
  }

  lemma WspFits()
    ensures Fits(Wsp, WspForm())
  {
    hide Order, RuleAt, NameOf, RuleNamed;
  }

  lemma LwspFits()
    ensures Fits(Lwsp, LwspForm())
  {
    hide Order, RuleAt, NameOf, RuleNamed;
  }

  lemma CharValFits()
    ensures Fits(CharVal, CharValForm())
  {
    hide Order, RuleAt, NameOf, RuleNamed;
  }

  lemma BinValFits()
    ensures Fits(BinVal, BinValForm())
  {
    hide Order, RuleAt, NameOf, RuleNamed;
  }

  lemma DecValFits()
    ensures Fits(DecVal, DecValForm())
  {
    hide Order, RuleAt, NameOf, RuleNamed;
  }

  lemma HexValFits()
    ensures Fits(HexVal, HexValForm())
  {
    hide Order, RuleAt, NameOf, RuleNamed;
  }

  lemma NumValFits()
    ensures Fits(NumVal, NumValForm())
  {
    hide Order, RuleAt, NameOf, RuleNamed;
  }

  lemma ProseValFits()
    ensures Fits(ProseVal, ProseValForm())
  {
    hide Order, RuleAt, NameOf, RuleNamed;
  }

  lemma CommentFits()
    ensures Fits(Comment, CommentForm())
  {
    hide Order, RuleAt, NameOf, RuleNamed;
  }

  lemma CNlFits()
    ensures Fits(CNl, CNlForm())
  {
    hide Order, RuleAt, NameOf, RuleNamed;
  }

  lemma CWspFits()
    ensures Fits(CWsp, CWspForm())
  {
    hide Order, RuleAt, NameOf, RuleNamed;
  }

  lemma RulenameFits()
    ensures Fits(Rulename, RulenameForm())
  {
    hide Order, RuleAt, NameOf, RuleNamed;
  }

  lemma RepeatFits()
    ensures Fits(Repeat, RepeatForm())
  {
    hide Order, RuleAt, NameOf, RuleNamed;
  }

  lemma DefinedAsFits()
    ensures Fits(DefinedAs, DefinedAsForm())
  {
    hide Order, RuleAt, NameOf, RuleNamed;
  }

  lemma RulelistFits()
    ensures Fits(Rulelist, RulelistForm())
  {
    hide Order, RuleAt, NameOf, RuleNamed;
  }

  lemma DefinitionFits()
    ensures Fits(Definition, DefinitionForm())
  {
    hide Order, RuleAt, NameOf, RuleNamed;
  }

  lemma ElementsFits()
    ensures Fits(Elements, ElementsForm())
  {
    hide Order, RuleAt, NameOf, RuleNamed;
  }

  lemma AlternationFits()
    ensures Fits(Alternation, AlternationForm())
  {
    hide Order, RuleAt, NameOf, RuleNamed;
  }

  lemma ConcatenationFits()
    ensures Fits(Concatenation, ConcatenationForm())
  {
    hide Order, RuleAt, NameOf, RuleNamed;
  }

  lemma RepetitionFits()
    ensures Fits(Repetition, RepetitionForm())
  {
    hide Order, RuleAt, NameOf, RuleNamed;
  }

  lemma ReferenceFits(r: Rule, fs: Forms)
    ensures SelectorFacts(And(Ref(r), fs)) ==
            var a := SelectorFacts(fs);
            Facts(CanBeEmpty(r) || a.empty, Max(Rank(r) + 2, a.head), AcceptsZero(r) || a.zero, a.sound, a.selectors)
  {
    hide Rank, CanBeEmpty, AcceptsZero;
  }

  lemma ValueRulesFit()
    ensures SelectorFacts(ValueRules()) == Facts(false, 4, false, true, 0)
  {
    hide Order, RuleAt, NameOf, RuleNamed;
  }

  lemma ElementFits()
    ensures Fits(Element, ElementForm())
  {
    hide Order, RuleAt, NameOf, RuleNamed;
    hide ValueRules, SelectorFacts;
    ValueRulesFit();
    var brackets := And(Ref(Optional), ValueRules());
    ReferenceFits(Optional, ValueRules());
    ReferenceFits(Group, brackets);
    ReferenceFits(Rulename, And(Ref(Group), brackets));
  }

  lemma GroupFits()
    ensures Fits(Group, GroupForm())
  {
    hide Order, RuleAt, NameOf, RuleNamed;
  }

  lemma OptionalFits()
    ensures Fits(Optional, OptionalForm())
  {
    hide Order, RuleAt, NameOf, RuleNamed;
  }

  lemma CrlfOrLfFits()
    ensures Fits(CrlfOrLf, CrlfOrLfForm())
  {
    hide Order, RuleAt, NameOf, RuleNamed;
  }

  // What the core rules refer to.

  lemma TerminalMentions()
    ensures Mentions(AlphaForm()) == {}
    ensures Mentions(BitForm()) == {}
    ensures Mentions(CharForm()) == {}
    ensures Mentions(CrForm()) == {}
    ensures Mentions(LfForm()) == {}
    ensures Mentions(CtlForm()) == {}
    ensures Mentions(DigitForm()) == {}
    ensures Mentions(DquoteForm()) == {}
    ensures Mentions(HtabForm()) == {}
    ensures Mentions(OctetForm()) == {}
    ensures Mentions(SpForm()) == {}
    ensures Mentions(VcharForm()) == {}
  {
    hide Order, RuleAt, NameOf, RuleNamed;
  }

  lemma BlankMentions()
    ensures Mentions(CrlfForm()) == {Cr, Lf}
    ensures Mentions(HexdigForm()) == {Digit}
    ensures Mentions(WspForm()) == {Sp, Htab}
    ensures Mentions(LwspForm()) == {Wsp, Crlf}
  {
    hide Order, RuleAt, NameOf, RuleNamed;
  }
}
