/** The grammar of ABNF itself, as the constructor of belr's ABNFGrammar builds it. */
module AbnfGrammar {
  import opened Bytes
  import opened Recognizers
  import opened Grammars
  import opened Identities
  import opened AbnfRules
  import opened AbnfForms
  import opened AbnfTables

  /** The recognizer of each rule; it meets the conditions of a well-formed graph, given what is claimed of
      the rules it refers to. */
  function Body(r: Rule): (f: Form)
    ensures Fits(r, f)
  {
    match r
    case Alpha => ClassesFit(); AlphaForm()
    case Bit => ClassesFit(); BitForm()
    case Char => OctetsFit(); CharForm()
    case Cr => OctetsFit(); CrForm()
    case Lf => OctetsFit(); LfForm()
    case Crlf => CrlfFits(); CrlfForm()
    case Ctl => ClassesFit(); CtlForm()
    case Digit => OctetsFit(); DigitForm()
    case Hexdig => HexdigFits(); HexdigForm()
    case Dquote => OctetsFit(); DquoteForm()
    case Htab => OctetsFit(); HtabForm()
    case Octet => OctetsFit(); OctetForm()
    case Sp => OctetsFit(); SpForm()
    case Vchar => OctetsFit(); VcharForm()
    case Wsp => WspFits(); WspForm()
    case Lwsp => LwspFits(); LwspForm()
    case CharVal => CharValFits(); CharValForm()
    case BinVal => BinValFits(); BinValForm()
    case DecVal => DecValFits(); DecValForm()
    case HexVal => HexValFits(); HexValForm()
    case NumVal => NumValFits(); NumValForm()
    case ProseVal => ProseValFits(); ProseValForm()
    case Comment => CommentFits(); CommentForm()
    case CNl => CNlFits(); CNlForm()
    case CWsp => CWspFits(); CWspForm()
    case Rulename => RulenameFits(); RulenameForm()
    case RepeatCount => DigitRunsFit(); RepeatCountForm()
    case RepeatMax => DigitRunsFit(); RepeatMaxForm()
    case RepeatMin => DigitRunsFit(); RepeatMinForm()
    case Repeat => RepeatFits(); RepeatForm()
    case DefinedAs => DefinedAsFits(); DefinedAsForm()
    case Rulelist => RulelistFits(); RulelistForm()
    case Definition => DefinitionFits(); DefinitionForm()
    case Elements => ElementsFits(); ElementsForm()
    case Alternation => AlternationFits(); AlternationForm()
    case Concatenation => ConcatenationFits(); ConcatenationForm()
    case Repetition => RepetitionFits(); RepetitionForm()
    case Element => ElementFits(); ElementForm()
    case Group => GroupFits(); GroupForm()
    case Optional => OptionalFits(); OptionalForm()
    case CrlfOrLf => CrlfOrLfFits(); CrlfOrLfForm()
  }

  lemma CharacterBodies()
    ensures Body(Alpha) == AlphaForm() && Body(Bit) == BitForm()
    ensures Body(Char) == CharForm() && Body(Cr) == CrForm()
    ensures Body(Lf) == LfForm() && Body(Crlf) == CrlfForm()
    ensures Body(Ctl) == CtlForm() && Body(Digit) == DigitForm()
  {
    hide NameOf, Order, Fits, AlphaForm, BitForm, CharForm, CrForm, LfForm, CrlfForm, CtlForm;
    hide DigitForm;
  }

  lemma BlankBodies()
    ensures Body(Hexdig) == HexdigForm() && Body(Dquote) == DquoteForm()
    ensures Body(Htab) == HtabForm() && Body(Octet) == OctetForm()
    ensures Body(Sp) == SpForm() && Body(Vchar) == VcharForm()
    ensures Body(Wsp) == WspForm() && Body(Lwsp) == LwspForm()
  {
    hide NameOf, Order, Fits, HexdigForm, DquoteForm, HtabForm, OctetForm, SpForm, VcharForm;
    hide WspForm, LwspForm;
  }

  lemma ValueBodies()
    ensures Body(CharVal) == CharValForm() && Body(BinVal) == BinValForm()
    ensures Body(DecVal) == DecValForm() && Body(HexVal) == HexValForm()
    ensures Body(NumVal) == NumValForm() && Body(ProseVal) == ProseValForm()
  {
    hide NameOf, Order, Fits, CharValForm, BinValForm, DecValForm, HexValForm, NumValForm;
    hide ProseValForm;
  }

  lemma LineBodies()
    ensures Body(Comment) == CommentForm() && Body(CNl) == CNlForm()
    ensures Body(CWsp) == CWspForm() && Body(Rulename) == RulenameForm()
  {
    hide NameOf, Order, Fits, CommentForm, CNlForm, CWspForm, RulenameForm;
  }

  lemma RepeatBodies()
    ensures Body(RepeatCount) == RepeatCountForm() && Body(RepeatMax) == RepeatMaxForm()
    ensures Body(RepeatMin) == RepeatMinForm() && Body(Repeat) == RepeatForm()
  {
    hide NameOf, Order, Fits, RepeatCountForm, RepeatMaxForm, RepeatMinForm, RepeatForm;
  }

  lemma DefinitionBodies()
    ensures Body(DefinedAs) == DefinedAsForm() && Body(Rulelist) == RulelistForm()
    ensures Body(Definition) == DefinitionForm() && Body(Elements) == ElementsForm()
  {
    hide NameOf, Order, Fits, DefinedAsForm, RulelistForm, DefinitionForm, ElementsForm;
  }

  lemma SeriesBodies()
    ensures Body(Alternation) == AlternationForm() && Body(Concatenation) == ConcatenationForm()
    ensures Body(Repetition) == RepetitionForm()
  {
    hide NameOf, Order, Fits, AlternationForm, ConcatenationForm, RepetitionForm;
  }

  lemma ElementBodies()
    ensures Body(Element) == ElementForm() && Body(Group) == GroupForm()
  {
    hide NameOf, Order, Fits, ElementForm, GroupForm;
  }

  lemma LastBodies()
    ensures Body(Optional) == OptionalForm() && Body(CrlfOrLf) == CrlfOrLfForm()
  {
    hide NameOf, Order, Fits, OptionalForm, CrlfOrLfForm;
  }

  // The recognizers of the rules as the constructor of the grammar builds them.

  /** The recognizer of a form in the rule added at place `at`. A rule has one selector at most, so the
      place of the rule serves as the identity of its selector. */
  function ToRec(f: Form, at: nat): Rec {
    match f
    case Chr(c, caseSensitive) => CharRec(c, caseSensitive)
    case Range(lo, hi) => CharRange(lo, hi)
    case Word(lit) => Literal(lit)
    case Ref(r) => Named(Reference(r, at))
    case Seq(fs) => Sequence(ToRecs(fs, at))
    case Sel(_, fs) => Selector(at, ToRecs(fs, at))
    case Rep(f, min, max) => Loop(ToRec(f, at), min, max)
  }

  function ToRecs(fs: Forms, at: nat): Recs {
    match fs
    case End => Nil
    case And(f, tail) => Cons(ToRec(f, at), ToRecs(tail, at))
  }

  function Written(r: Rule): Rec {
    ToRec(Body(r), Order(r))
  }

  /** The one selector of a form. */
  function SelectorIn(f: Form): (s: Form)
    requires FactsOf(f).selectors > 0
    ensures s.Sel?
  {
    match f
    case Seq(fs) => SequenceFactsCount(fs); SelectorAmong(fs)
    case Sel(_, _) => f
    case Rep(body, _, _) => SelectorIn(body)
  }

  function SelectorAmong(fs: Forms): (s: Form)
    requires Count(fs) > 0
    ensures s.Sel?
  {
    if FactsOf(fs.head).selectors > 0 then SelectorIn(fs.head) else SelectorAmong(fs.tail)
  }

  function Count(fs: Forms): nat {
    if fs.End? then 0 else FactsOf(fs.head).selectors + Count(fs.tail)
  }

  lemma {:induction false} SequenceFactsCount(fs: Forms)
    ensures SequenceFacts(fs).selectors == SelectorFacts(fs).selectors == Count(fs)
  {
    if fs.And? {
      SequenceFactsCount(fs.tail);
    }
  }

  predicate HasSelector(i: nat)
    requires i < RULES
  {
    FactsOf(Body(RuleAt(i))).selectors > 0
  }

  /** The selectors of the first `n` rules. */
  function Selectors(n: nat): map<nat, Recs>
    requires n <= RULES
  {
    map i: nat | i < n && HasSelector(i) :: ToRecs(SelectorIn(Body(RuleAt(i))).fs, i)
  }

  function Homes(n: nat): map<nat, Name>
    requires n <= RULES
  {
    map i: nat | i < n && HasSelector(i) :: NameOf(RuleAt(i))
  }

  /** The selectors built as exclusive. */
  function ExclusiveSelectors(): set<nat> {
    set i: nat | i < RULES && HasSelector(i) && SelectorIn(Body(RuleAt(i))).exclusive
  }

  lemma {:induction false} FormOwned(f: Form, at: nat, alts: map<nat, Recs>, known: nat -> bool)
    requires FactsOf(f).selectors <= 1
    requires FactsOf(f).selectors == 1 ==> at in alts && alts[at] == ToRecs(SelectorIn(f).fs, at) && known(at)
    ensures Owned(alts, ToRec(f, at)) && Uses(ToRec(f, at), known)
  {
    hide Reference, Deferred, Rank, CanBeEmpty, AcceptsZero;
    match f {
      case Seq(fs) =>
        SequenceFactsCount(fs);
        FormsOwned(fs, at, alts, known);
      case Sel(_, fs) =>
        SequenceFactsCount(fs);
        FormsOwned(fs, at, alts, known);
      case Rep(body, _, _) => FormOwned(body, at, alts, known);
      case Chr(_, _) =>
      case Range(_, _) =>
      case Word(_) =>
      case Ref(_) =>
    }
  }

  lemma {:induction false} FormsOwned(fs: Forms, at: nat, alts: map<nat, Recs>, known: nat -> bool)
    requires Count(fs) <= 1
    requires Count(fs) == 1 ==> at in alts && alts[at] == ToRecs(SelectorAmong(fs).fs, at) && known(at)
    ensures OwnedAll(alts, ToRecs(fs, at)) && UsesAll(ToRecs(fs, at), known)
  {
    hide FactsOf;
    if fs.And? {
      FormOwned(fs.head, at, alts, known);
      FormsOwned(fs.tail, at, alts, known);
    }
  }

  /** Each rule owns its selector. */
  lemma WrittenOwned(r: Rule, n: nat)
    requires Order(r) < n <= RULES
    ensures Owned(Selectors(n), Written(r)) && Uses(Written(r), HomeIs(Homes(n), NameOf(r)))
  {
    hide Body, NameOf, RuleNamed, ToRec, FactsOf, SelectorIn, RuleAt, Order;
    OrderRead(r);
    assert Fits(r, Body(r));
    assert HasSelector(Order(r)) <==> FactsOf(Body(r)).selectors > 0;
    FormOwned(Body(r), Order(r), Selectors(n), HomeIs(Homes(n), NameOf(r)));
  }

  // The references of the rules, and the placeholders they call for.

  /** When `q` is added it refers to `r`, which has not been added before. */
  predicate AsksEarly(q: Rule, r: Rule) {
    Order(q) <= Order(r) && r in Mentions(Body(q))
  }

  /** The rule is referred to before it has been added, by one of the first `n` rules. */
  ghost predicate Early(r: Rule, n: nat) {
    exists q :: Order(q) < n && AsksEarly(q, r)
  }

  ghost function Placeholders(): set<Name> {
    set r: Rule | Early(r, RULES) :: Deferred(NameOf(r))
  }

  lemma NamesApart(r: Rule)
    ensures NameOf(r) in Names() && NameOf(r) !in Placeholders() && Deferred(NameOf(r)) !in Names()
    ensures Deferred(NameOf(r)) in Placeholders() <==> Early(r, RULES)
    ensures Base(NameOf(r)) == NameOf(r) && Base(Deferred(NameOf(r))) == NameOf(r) && RuleNamed(NameOf(r)) == r
  {
    hide NameOf, Early, RuleNamed;
    NameRead(r);
    if Deferred(NameOf(r)) in Placeholders() {
      var q :| Early(q, RULES) && Deferred(NameOf(q)) == Deferred(NameOf(r));
      assert Deferred(NameOf(q))[1..] == NameOf(q) && Deferred(NameOf(r))[1..] == NameOf(r);
      Distinct(q, r);
    }
  }

  /** The grammar after its constructor, with the annotations that show it can be parsed with. */
  ghost function AbnfGraph(): Graph {
    var names := Names() + Placeholders();
    Graph(
      (map x | x in names :: if IsRuleName(x) then Written(RuleNamed(x)) else Pointer(Named(Base(x)))),
      (set x | x in names && CanBeEmpty(RuleNamed(Base(x)))),
      (map x | x in names :: if IsRuleName(x) then Rank(RuleNamed(x)) else Rank(RuleNamed(Base(x))) + 1),
      (set x | x in names && !AcceptsZero(RuleNamed(Base(x)))),
      Selectors(RULES))
  }

  lemma RuleRecorded(r: Rule)
    ensures var g, x := AbnfGraph(), NameOf(r);
            && x in g.rules && g.rules[x] == Written(r) && x in g.rank && g.rank[x] == Rank(r)
            && (x in g.nullable <==> CanBeEmpty(r)) && (x in g.atEnd <==> !AcceptsZero(r))
  {
    hide NameOf, RuleNamed, Written, Selectors, Early, Rank, CanBeEmpty, AcceptsZero;
    NamesApart(r);
  }

  lemma PlaceholderRecorded(r: Rule)
    requires Early(r, RULES)
    ensures var g, x := AbnfGraph(), Deferred(NameOf(r));
            && x in g.rules && g.rules[x] == Pointer(Named(NameOf(r))) && x in g.rank && g.rank[x] == Rank(r) + 1
            && (x in g.nullable <==> CanBeEmpty(r)) && (x in g.atEnd <==> !AcceptsZero(r))
  {
    hide NameOf, RuleNamed, Written, Selectors, Early, Rank, CanBeEmpty, AcceptsZero;
    NamesApart(r);
  }

  lemma ReferenceRecorded(r: Rule, at: nat)
    requires Order(r) < at || Early(r, RULES)
    ensures var g, x := AbnfGraph(), Reference(r, at);
            && x in g.rules && x in g.rank && g.rank[x] <= Rank(r) + 1
            && (x in g.nullable <==> CanBeEmpty(r)) && (x in g.atEnd <==> !AcceptsZero(r))
  {
    hide AbnfGraph, NameOf, Early, Rank, CanBeEmpty, AcceptsZero;
    if Order(r) < at {
      RuleRecorded(r);
    } else {
      PlaceholderRecorded(r);
    }
  }

  /** The facts `a` are those of the recognizer `x` in the graph. */
  ghost predicate Reflected(x: Rec, a: Facts) {
    var g := AbnfGraph();
    && Nullable(g, x) == a.empty && HeadRank(g, x) <= a.head
    && (a.sound ==> Steady(g, x, true)) && (a.sound && !a.zero ==> Steady(g, x, false))
  }

  ghost predicate SequenceReflected(xs: Recs, a: Facts) {
    var g := AbnfGraph();
    && AllNullable(g, xs) == a.empty && SequenceRank(g, xs) <= a.head
    && (a.sound ==> SteadySequence(g, xs, true)) && (a.sound && !a.zero ==> SteadySequence(g, xs, false))
  }

  ghost predicate SelectorReflected(xs: Recs, a: Facts) {
    var g := AbnfGraph();
    && AnyNullable(g, xs) == a.empty && SelectorRank(g, xs) <= a.head
    && (a.sound ==> SteadyAll(g, xs, true)) && (a.sound && !a.zero ==> SteadyAll(g, xs, false))
  }

  lemma TerminalReflects(f: Form, at: nat)
    requires f.Chr? || f.Range? || f.Word?
    ensures Reflected(ToRec(f, at), FactsOf(f))
  {
    hide AbnfGraph, Reference, Rank, CanBeEmpty, AcceptsZero;
  }

  lemma ReferenceReflects(r: Rule, at: nat)
    requires Order(r) < at || Early(r, RULES)
    ensures Reflected(ToRec(Ref(r), at), FactsOf(Ref(r)))
  {
    hide AbnfGraph, Reference, Rank, CanBeEmpty, AcceptsZero, Order, Early, Nullable, HeadRank, Steady;
    ReferenceRecorded(r, at);
    NamedFacts(AbnfGraph(), Reference(r, at));
  }

  lemma NamedFacts(g: Graph, x: Name)
    ensures Nullable(g, Named(x)) <==> x in g.nullable
    ensures HeadRank(g, Named(x)) == if x in g.rank then g.rank[x] + 1 else 0
    ensures Steady(g, Named(x), true) <==> x in g.rules
    ensures Steady(g, Named(x), false) <==> x in g.rules && x in g.atEnd
  {
  }

  lemma LoopReflects(body: Form, min: nat, max: int, at: nat)
    requires Reflected(ToRec(body, at), FactsOf(body))
    ensures Reflected(ToRec(Rep(body, min, max), at), FactsOf(Rep(body, min, max)))
  {
    hide AbnfGraph, Reference, Rank, CanBeEmpty, AcceptsZero;
  }

  /** What is computed of a form holds of its recognizer in the graph. */
  lemma {:induction false} FormReflects(f: Form, at: nat)
    requires forall r :: r in Mentions(f) ==> Order(r) < at || Early(r, RULES)
    ensures Reflected(ToRec(f, at), FactsOf(f))
  {
    hide AbnfGraph, Reference, Order, Early, Reflected;
    match f {
      case Ref(r) => ReferenceReflects(r, at);
      case Seq(fs) =>
        SequenceReflects(fs, at);
        SeriesReflects(fs, at);
      case Sel(exclusive, fs) =>
        SelectorReflects(fs, at);
        ChoiceReflects(exclusive, fs, at);
      case Rep(body, min, max) =>
        FormReflects(body, at);
        LoopReflects(body, min, max, at);
      case Chr(_, _) => TerminalReflects(f, at);
      case Range(_, _) => TerminalReflects(f, at);
      case Word(_) => TerminalReflects(f, at);
    }
  }

  lemma SeriesReflects(fs: Forms, at: nat)
    requires SequenceReflected(ToRecs(fs, at), SequenceFacts(fs))
    ensures Reflected(ToRec(Seq(fs), at), FactsOf(Seq(fs)))
  {
    hide AbnfGraph, ToRecs, SequenceFacts;
  }

  lemma ChoiceReflects(exclusive: bool, fs: Forms, at: nat)
    requires SelectorReflected(ToRecs(fs, at), SelectorFacts(fs))
    ensures Reflected(ToRec(Sel(exclusive, fs), at), FactsOf(Sel(exclusive, fs)))
  {
    hide AbnfGraph, ToRecs, SelectorFacts;
  }

  lemma {:induction false} SequenceReflects(fs: Forms, at: nat)
    requires forall r :: r in MentionsAll(fs) ==> Order(r) < at || Early(r, RULES)
    ensures SequenceReflected(ToRecs(fs, at), SequenceFacts(fs))
  {
    hide AbnfGraph, Order, Early, FactsOf, ToRec, Nullable, HeadRank, Steady;
    if fs.And? {
      FormReflects(fs.head, at);
      SequenceReflects(fs.tail, at);
    }
  }

  lemma {:induction false} SelectorReflects(fs: Forms, at: nat)
    requires forall r :: r in MentionsAll(fs) ==> Order(r) < at || Early(r, RULES)
    ensures SelectorReflected(ToRecs(fs, at), SelectorFacts(fs))
  {
    hide AbnfGraph, Order, Early, FactsOf, ToRec, Nullable, HeadRank, Steady;
    if fs.And? {
      FormReflects(fs.head, at);
      SelectorReflects(fs.tail, at);
    }
  }

  lemma NamedRuleSteady(r: Rule)
    ensures NameOf(r) in AbnfGraph().rules && SteadyRule(AbnfGraph(), NameOf(r))
  {
    hide AbnfGraph, NameOf, Order, Rank, CanBeEmpty, AcceptsZero, FactsOf, Nullable, HeadRank, Steady, Early, Mentions;
    hide Body;
    RuleRecorded(r);
    OrderRead(r);
    forall q | q in Mentions(Body(r))
      ensures Order(q) < Order(r) || Early(q, RULES)
    {
      MentionIsTimely(q, r);
    }
    FormReflects(Body(r), Order(r));
    assert Fits(r, Body(r));
    assert !Written(r).Named?;
  }

  /** A reference to a rule is to one added before, or one that gets a placeholder. */
  lemma MentionIsTimely(r: Rule, q: Rule)
    requires r in Mentions(Body(q)) && Order(q) < RULES
    ensures Order(r) < Order(q) || Early(r, RULES)
  {
    hide Mentions, Body, Order;
    assert Order(r) < Order(q) || AsksEarly(q, r);
  }

  lemma PlaceholderSteady(r: Rule)
    requires Early(r, RULES)
    ensures Deferred(NameOf(r)) in AbnfGraph().rules && SteadyRule(AbnfGraph(), Deferred(NameOf(r)))
  {
    hide AbnfGraph, NameOf, Rank, CanBeEmpty, AcceptsZero, Early;
    RuleRecorded(r);
    PlaceholderRecorded(r);
    PointerFacts(AbnfGraph(), NameOf(r));
  }

  lemma PointerFacts(g: Graph, x: Name)
    ensures Nullable(g, Pointer(Named(x))) <==> x in g.nullable
    ensures HeadRank(g, Pointer(Named(x))) == if x in g.rank then g.rank[x] + 1 else 0
    ensures Steady(g, Pointer(Named(x)), true) <==> x in g.rules
    ensures Steady(g, Pointer(Named(x)), false) <==> x in g.rules && x in g.atEnd
  {
  }

  /** The grammar of ABNF has no left recursion, no unbounded loop over something empty and no
      unresolved placeholder: feeding any of its rules terminates, on any input. */
  lemma AbnfWellFormed()
    ensures WellFormed(AbnfGraph())
  {
    hide NameOf, Body, Rank, WellFormed, SteadyRule, Early, Selectors, Written, RuleNamed, CanBeEmpty;
    hide AcceptsZero, Owned;
    var g := AbnfGraph();
    forall x | x in g.rules
      ensures SteadyRule(g, x) && Owned(g.alts, g.rules[x])
    {
      if x in Names() {
        var r :| NameOf(r) == x;
        NamedRuleSteady(r);
        RuleRecorded(r);
        OrderRead(r);
        WrittenOwned(r, RULES);
      } else {
        var r :| Early(r, RULES) && Deferred(NameOf(r)) == x;
        PlaceholderSteady(r);
        PlaceholderRecorded(r);
        PointerOwned(g.alts, NameOf(r));
      }
    }
    SteadyIsWellFormed(g);
  }

  lemma PointerOwned(alts: map<nat, Recs>, x: Name)
    ensures Owned(alts, Pointer(Named(x)))
  {
  }

  /** Any rule that cannot match the terminator may be fed anywhere in any input: parsing with it,
      and with "rulelist" in particular, always ends. */
  lemma AbnfReady(r: Rule, s: Bytes, pos: nat)
    requires pos <= |s| && (AcceptsZero(r) ==> pos < |s|)
    ensures WellFormed(AbnfGraph()) && Ready(AbnfGraph(), Named(NameOf(r)), s, pos)
  {
    hide AbnfGraph, NameOf, WellFormed, Body, Rank, Written, CanBeEmpty, AcceptsZero, Ok;
    AbnfWellFormed();
    RuleRecorded(r);
    NamedOk(AbnfGraph(), NameOf(r));
  }

  lemma NamedOk(g: Graph, x: Name)
    requires x in g.rules
    ensures Ok(g, Named(x), true) && (Ok(g, Named(x), false) <==> x in g.atEnd)
  {
  }

  // The constructor of the grammar, rule by rule.

  /** The rules asked for too early by the first `n` rules. */
  ghost function AskedFor(n: nat): set<Rule> {
    set r: Rule | Early(r, n)
  }

  /** The first `n` rules have been added, and nothing else. */
  ghost predicate Built(table: RuleTable, n: nat)
    reads table, table.pointers
  {
    table.Valid() && Holds(Written, table.rules, PointerNames(table), n, AskedFor(n))
  }

  /** Builds a recognizer, asking for the rules it refers to. */
  method Write(table: RuleTable, f: Form, at: nat, ghost asked: set<Rule>) returns (r: Rec)
    requires table.Valid() && Holds(Written, table.rules, PointerNames(table), at, asked)
    modifies table
    ensures table.Valid() && Holds(Written, table.rules, PointerNames(table), at, asked + NotBefore(Mentions(f), at))
    ensures fresh(table.PointerSet() - old(table.PointerSet()))
    ensures r == ToRec(f, at)
    ensures Refers(r, table.Handed()) && forall x :: old(table.Handed())(x) ==> table.Handed()(x)
    decreases f
  {
    hide RuleTable.Valid, Holds, Order, RuleTable.Handed;
    assert asked + NotBefore({}, at) == asked;
    match f {
      case Chr(c, caseSensitive) => r := CharRec(c, caseSensitive);
      case Range(lo, hi) => r := CharRange(lo, hi);
      case Word(lit) => r := Literal(lit);
      case Ref(q) => r := Ask(Written, table, q, at, asked);
      case Seq(fs) =>
        var es := WriteAll(table, fs, at, asked);
        r := Sequence(es);
      case Sel(_, fs) =>
        var es := WriteAll(table, fs, at, asked);
        r := Selector(at, es);
      case Rep(f, min, max) =>
        var body := Write(table, f, at, asked);
        r := Loop(body, min, max);
    }
  }

  method WriteAll(table: RuleTable, fs: Forms, at: nat, ghost asked: set<Rule>) returns (es: Recs)
    requires table.Valid() && Holds(Written, table.rules, PointerNames(table), at, asked)
    modifies table
    ensures table.Valid()
    ensures Holds(Written, table.rules, PointerNames(table), at, asked + NotBefore(MentionsAll(fs), at))
    ensures fresh(table.PointerSet() - old(table.PointerSet()))
    ensures es == ToRecs(fs, at)
    ensures RefersAll(es, table.Handed()) && forall x :: old(table.Handed())(x) ==> table.Handed()(x)
    decreases fs
  {
    hide RuleTable.Valid, Holds, Order, RuleTable.Handed, Mentions, ToRec;
    match fs {
      case End =>
        assert asked + NotBefore({}, at) == asked;
        es := Nil;
      case And(f, tail) =>
        var e := Write(table, f, at, asked);
        ghost var handed, more := table.Handed(), asked + NotBefore(Mentions(f), at);
        es := WriteAll(table, tail, at, more);
        RefersMore(e, handed, table.Handed());
        assert more + NotBefore(MentionsAll(tail), at) == asked + NotBefore(MentionsAll(fs), at);
        es := Cons(e, es);
    }
  }

  lemma EarlyNext(r: Rule, q: Rule)
    ensures Early(q, Order(r) + 1) <==> Early(q, Order(r)) || AsksEarly(r, q)
  {
    hide Order, AsksEarly;
    if AsksEarly(r, q) {
      assert Order(r) < Order(r) + 1;
    }
    if Early(q, Order(r)) {
      var p :| Order(p) < Order(r) && AsksEarly(p, q);
      assert Order(p) < Order(r) + 1;
    }
    if Early(q, Order(r) + 1) && !AsksEarly(r, q) {
      var p :| Order(p) < Order(r) + 1 && AsksEarly(p, q);
      RulesApart(p, r);
    }
  }

  lemma AskedForNext(r: Rule)
    ensures AskedFor(Order(r) + 1) == AskedFor(Order(r)) + NotBefore(Mentions(Body(r)), Order(r))
  {
    hide Order, Mentions, Body, Early, Fits, FactsOf;
    forall q
      ensures q in AskedFor(Order(r) + 1) <==> q in AskedFor(Order(r)) + NotBefore(Mentions(Body(r)), Order(r))
    {
      EarlyNext(r, q);
    }
  }

  /** Adds a rule to those before it. */
  method Add(table: RuleTable, r: Rule)
    requires Built(table, Order(r))
    modifies table, set p | p in table.pointers
    ensures Built(table, Order(r) + 1)
    ensures forall p :: p in table.pointers ==> p in old(table.pointers) || fresh(p)
  {
    hide NameOf, Order, Lower, Body, Mentions, AskedFor, FactsOf, Holds, RuleTable.Valid, Refers, ToRec;
    var rec := Write(table, Body(r), Order(r), AskedFor(Order(r)));
    AskedForNext(r);
    NotAddedYet(Written, table.rules, PointerNames(table), AskedFor(Order(r) + 1), r);
    AddedNext(Written, table.rules, PointerNames(table), AskedFor(Order(r) + 1), r);
    NameKept(r);
    WrittenNotNamed(r);
    table.AddRule(NameOf(r), rec);
  }

  lemma WrittenNotNamed(r: Rule)
    ensures !Written(r).Named?
  {
    hide Body, Order;
    assert Fits(r, Body(r));
  }

  lemma NothingBuilt(table: RuleTable)
    requires table.Valid() && table.rules == map[] && table.pointers == []
    ensures Built(table, 0)
  {
    hide Order, NameOf, Body, AsksEarly;
  }

  method AddCharacters(table: RuleTable)
    requires Built(table, Order(Alpha))
    modifies table, set p | p in table.pointers
    ensures Built(table, Order(Digit) + 1)
    ensures forall p :: p in table.pointers ==> p in old(table.pointers) || fresh(p)
  {
    hide *;
    CharacterOrders();
    Add(table, Alpha);
    Add(table, Bit);
    Add(table, Char);
    Add(table, Cr);
    Add(table, Lf);
    Add(table, Crlf);
    Add(table, Ctl);
    Add(table, Digit);
  }

  method AddBlanks(table: RuleTable)
    requires Built(table, Order(Hexdig))
    modifies table, set p | p in table.pointers
    ensures Built(table, Order(Lwsp) + 1)
    ensures forall p :: p in table.pointers ==> p in old(table.pointers) || fresh(p)
  {
    hide *;
    BlankOrders();
    Add(table, Hexdig);
    Add(table, Dquote);
    Add(table, Htab);
    Add(table, Octet);
    Add(table, Sp);
    Add(table, Vchar);
    Add(table, Wsp);
    Add(table, Lwsp);
  }

  method AddValues(table: RuleTable)
    requires Built(table, Order(CharVal))
    modifies table, set p | p in table.pointers
    ensures Built(table, Order(Rulename) + 1)
    ensures forall p :: p in table.pointers ==> p in old(table.pointers) || fresh(p)
  {
    hide *;
    ValueOrders();
    Add(table, CharVal);
    Add(table, BinVal);
    Add(table, DecVal);
    Add(table, HexVal);
    Add(table, NumVal);
    Add(table, ProseVal);
    Add(table, Comment);
    Add(table, CNl);
    Add(table, CWsp);
    Add(table, Rulename);
  }

  method AddRepeats(table: RuleTable)
    requires Built(table, Order(RepeatCount))
    modifies table, set p | p in table.pointers
    ensures Built(table, Order(Elements) + 1)
    ensures forall p :: p in table.pointers ==> p in old(table.pointers) || fresh(p)
  {
    hide *;
    RepeatOrders();
    Add(table, RepeatCount);
    Add(table, RepeatMax);
    Add(table, RepeatMin);
    Add(table, Repeat);
    Add(table, DefinedAs);
    Add(table, Rulelist);
    Add(table, Definition);
    Add(table, Elements);
  }

  method AddElements(table: RuleTable)
    requires Built(table, Order(Alternation))
    modifies table, set p | p in table.pointers
    ensures Built(table, Order(CrlfOrLf) + 1)
    ensures forall p :: p in table.pointers ==> p in old(table.pointers) || fresh(p)
  {
    hide *;
    ElementOrders();
    Add(table, Alternation);
    Add(table, Concatenation);
    Add(table, Repetition);
    Add(table, Element);
    Add(table, Group);
    Add(table, Optional);
    Add(table, CrlfOrLf);
  }

  /** The constructor of the core rules. */
  method CoreRules() returns (table: RuleTable)
    ensures fresh(table) && Built(table, CORE_RULES) && forall p :: p in table.pointers ==> fresh(p)
  {
    hide *;
    table := new RuleTable();
    NothingBuilt(table);
    CharacterOrders();
    BlankOrders();
    AddCharacters(table);
    AddBlanks(table);
  }

  /** The constructor of the grammar of ABNF, which starts from the core rules. */
  method ABNFGrammar() returns (table: RuleTable)
    ensures fresh(table) && Built(table, RULES) && forall p :: p in table.pointers ==> fresh(p)
  {
    hide *;
    ValueOrders();
    RepeatOrders();
    ElementOrders();
    table := CoreRules();
    AddValues(table);
    AddRepeats(table);
    AddElements(table);
  }

  /** Each rule that has been added owns its selector. */
  lemma HoldsHomed(rules: map<Name, Entry>, placeholders: set<Name>, n: nat, asked: set<Rule>)
    requires Holds(Written, rules, placeholders, n, asked) && n <= RULES
    ensures Homed(rules, Selectors(n), Homes(n))
  {
    hide NameOf, Order, Written, Owned, Uses, HomeIs, Selectors, Homes;
    forall x | x in rules && rules[x].Rule?
      ensures Owned(Selectors(n), rules[x].body) && Uses(rules[x].body, HomeIs(Homes(n), x))
    {
      var r :| NameOf(r) == x;
      assert n <= Order(r) ==> r in asked;
      WrittenOwned(r, n);
    }
  }

  lemma TerminalAsksNothing(q: Rule, r: Rule)
    requires IsTerminal(q)
    ensures !AsksEarly(q, r)
  {
    hide Mentions, Fits, Order, AlphaForm, BitForm, CharForm, CrForm, LfForm, CtlForm, DigitForm, DquoteForm;
    hide HtabForm, OctetForm, SpForm, VcharForm;
    TerminalMentions();
  }

  lemma BlankAsksNothing(q: Rule, r: Rule)
    requires q.Crlf? || q.Hexdig? || q.Wsp? || q.Lwsp?
    ensures !AsksEarly(q, r)
  {
    hide Mentions, Fits, Order;
    BlankMentions();
    CharacterOrders();
    BlankOrders();
  }

  /** No core rule is used before it is added. */
  lemma CoreAsksNothing(q: Rule, r: Rule)
    requires Order(q) < CORE_RULES
    ensures !AsksEarly(q, r)
  {
    hide AsksEarly, Order;
    CoreRuleKinds(q);
    if IsTerminal(q) {
      TerminalAsksNothing(q, r);
    } else {
      BlankAsksNothing(q, r);
    }
  }

  lemma CoreIsResolved(table: RuleTable)
    requires Built(table, CORE_RULES)
    ensures table.Valid() && forall x :: x in table.rules ==> table.rules[x].Rule?
  {
    hide Holds, AsksEarly, Order, Body, RuleTable.Valid;
    forall r
      ensures r !in AskedFor(CORE_RULES)
    {
      if r in AskedFor(CORE_RULES) {
        var q :| Order(q) < CORE_RULES && AsksEarly(q, r);
        CoreAsksNothing(q, r);
        assert false;
      }
    }
    NothingLeft(Written, table.rules, PointerNames(table), CORE_RULES, AskedFor(CORE_RULES));
  }

  lemma RuleNode(table: RuleTable, r: Rule)
    requires Built(table, RULES)
    ensures NameOf(r) in Nodes(table) && Nodes(table)[NameOf(r)] == Written(r)
  {
    hide NameOf, Order, Written, RuleTable.Valid;
    OrderRead(r);
    assert table.rules[NameOf(r)] == Entry.Rule(Written(r));
  }

  lemma PlaceholderNode(table: RuleTable, r: Rule)
    requires Built(table, RULES) && Early(r, RULES)
    ensures var x := Deferred(NameOf(r)); x in Nodes(table) && Nodes(table)[x] == Pointer(Named(NameOf(r)))
  {
    hide NameOf, Order, Written, RuleTable.Valid, Early;
    assert r in AskedFor(RULES);
    assert NameOf(r) in PointerNames(table);
    var p :| p in table.pointers && p.name == NameOf(r);
    NotDeferred(table, NameOf(r));
  }

  lemma NotDeferred(table: RuleTable, x: Name)
    requires table.Valid()
    ensures Deferred(x) !in table.rules && Base(Deferred(x)) == x
  {
  }

  lemma NodeIsRecorded(table: RuleTable, x: Name)
    requires Built(table, RULES) && x in Nodes(table)
    ensures x in Names() + Placeholders()
  {
    hide NameOf, Order, Written, RuleTable.Valid, Early;
    if x !in table.rules {
      var p :| p in table.pointers && x == Deferred(p.name);
      assert p.name in PointerNames(table) && p.name in table.rules by { PointerHeld(table, p); }
      var r :| NameOf(r) == p.name;
      assert r in AskedFor(RULES);
    }
  }

  lemma PointerHeld(table: RuleTable, p: RecognizerPointer)
    requires table.Valid() && p in table.pointers
    ensures p.name in table.rules
  {
  }

  lemma BuiltIsResolved(table: RuleTable)
    requires Built(table, RULES)
    ensures table.Valid() && forall x :: x in table.rules ==> table.rules[x].Rule?
  {
    hide Holds, Early, Order, Body, RuleTable.Valid;
    forall r | r in AskedFor(RULES)
      ensures Order(r) < RULES
    {
      OrderRead(r);
    }
    NothingLeft(Written, table.rules, PointerNames(table), RULES, AskedFor(RULES));
  }

  /** The constructor of the grammar leaves no placeholder unresolved, and builds the graph above. */
  lemma BuiltIsAbnf(table: RuleTable)
    requires Built(table, RULES)
    ensures forall x :: x in table.rules ==> table.rules[x].Rule?
    ensures Nodes(table) == AbnfGraph().rules
  {
    hide NameOf, Order, Written, Built, Nodes, Early, RuleNamed, Rank, CanBeEmpty, AcceptsZero, Selectors;
    BuiltIsResolved(table);
    var rules := AbnfGraph().rules;
    forall x | x in rules
      ensures x in Nodes(table) && Nodes(table)[x] == rules[x]
    {
      if x in Names() {
        var r :| NameOf(r) == x;
        RuleNode(table, r);
        RuleRecorded(r);
      } else {
        var r :| Early(r, RULES) && Deferred(NameOf(r)) == x;
        PlaceholderNode(table, r);
        PlaceholderRecorded(r);
      }
    }
    forall x | x in Nodes(table)
      ensures x in rules
    {
      NodeIsRecorded(table, x);
    }
  }
}
