/** The names of the rules of ABNF and the order in which belr adds them to their grammar. */
module AbnfRules {
  import opened Recognizers
  import opened Grammars

  /** The core rules come first. */
  datatype Rule =
    | Alpha | Bit | Char | Cr | Lf | Crlf | Ctl | Digit | Hexdig | Dquote | Htab | Octet | Sp | Vchar | Wsp | Lwsp
    | CharVal | BinVal | DecVal | HexVal | NumVal | ProseVal | Comment | CNl | CWsp | Rulename
    | RepeatCount | RepeatMax | RepeatMin | Repeat | DefinedAs | Rulelist | Definition | Elements
    | Alternation | Concatenation | Repetition | Element | Group | Optional | CrlfOrLf

  const CORE_RULES: nat := 16
  const RULES: nat := 41

  function Order(r: Rule): nat {
    match r
    case Alpha => 0
    case Bit => 1
    case Char => 2
    case Cr => 3
    case Lf => 4
    case Crlf => 5
    case Ctl => 6
    case Digit => 7
    case Hexdig => 8
    case Dquote => 9
    case Htab => 10
    case Octet => 11
    case Sp => 12
    case Vchar => 13
    case Wsp => 14
    case Lwsp => 15
    case CharVal => 16
    case BinVal => 17
    case DecVal => 18
    case HexVal => 19
    case NumVal => 20
    case ProseVal => 21
    case Comment => 22
    case CNl => 23
    case CWsp => 24
    case Rulename => 25
    case RepeatCount => 26
    case RepeatMax => 27
    case RepeatMin => 28
    case Repeat => 29
    case DefinedAs => 30
    case Rulelist => 31
    case Definition => 32
    case Elements => 33
    case Alternation => 34
    case Concatenation => 35
    case Repetition => 36
    case Element => 37
    case Group => 38
    case Optional => 39
    case CrlfOrLf => 40
  }

  function RuleAt(i: nat): Rule
    requires i < RULES
  {
    match i
    case 0 => Alpha
    case 1 => Bit
    case 2 => Char
    case 3 => Cr
    case 4 => Lf
    case 5 => Crlf
    case 6 => Ctl
    case 7 => Digit
    case 8 => Hexdig
    case 9 => Dquote
    case 10 => Htab
    case 11 => Octet
    case 12 => Sp
    case 13 => Vchar
    case 14 => Wsp
    case 15 => Lwsp
    case 16 => CharVal
    case 17 => BinVal
    case 18 => DecVal
    case 19 => HexVal
    case 20 => NumVal
    case 21 => ProseVal
    case 22 => Comment
    case 23 => CNl
    case 24 => CWsp
    case 25 => Rulename
    case 26 => RepeatCount
    case 27 => RepeatMax
    case 28 => RepeatMin
    case 29 => Repeat
    case 30 => DefinedAs
    case 31 => Rulelist
    case 32 => Definition
    case 33 => Elements
    case 34 => Alternation
    case 35 => Concatenation
    case 36 => Repetition
    case 37 => Element
    case 38 => Group
    case 39 => Optional
    case _ => CrlfOrLf
  }

  lemma OrderRead(r: Rule)
    ensures Order(r) < RULES && RuleAt(Order(r)) == r
  {
  }

  function NameOf(r: Rule): (x: Name)
    ensures IsRuleName(x)
  {
    match r
    case Alpha => "alpha"
    case Bit => "bit"
    case Char => "char"
    case Cr => "cr"
    case Lf => "lf"
    case Crlf => "crlf"
    case Ctl => "ctl"
    case Digit => "digit"
    case Hexdig => "hexdig"
    case Dquote => "dquote"
    case Htab => "htab"
    case Octet => "octet"
    case Sp => "sp"
    case Vchar => "vchar"
    case Wsp => "wsp"
    case Lwsp => "lwsp"
    case CharVal => "char-val"
    case BinVal => "bin-val"
    case DecVal => "dec-val"
    case HexVal => "hex-val"
    case NumVal => "num-val"
    case ProseVal => "prose-val"
    case Comment => "comment"
    case CNl => "c-nl"
    case CWsp => "c-wsp"
    case Rulename => "rulename"
    case RepeatCount => "repeat-count"
    case RepeatMax => "repeat-max"
    case RepeatMin => "repeat-min"
    case Repeat => "repeat"
    case DefinedAs => "defined-as"
    case Rulelist => "rulelist"
    case Definition => "rule"
    case Elements => "elements"
    case Alternation => "alternation"
    case Concatenation => "concatenation"
    case Repetition => "repetition"
    case Element => "element"
    case Group => "group"
    case Optional => "option"
    case CrlfOrLf => "crlf-or-lf"
  }

  /** The rule of a name, told by the length of the name and a few of its letters. */
  function RuleNamed(x: Name): Rule {
    if |x| < 2 then Alpha else LongNamed(|x|, x[0], x[|x| - 2], x[|x| - 1])
  }

  function LongNamed(length: nat, first: char, before: char, last: char): Rule {
    match length
    case 2 => if first == 'c' then Cr else if first == 'l' then Lf else Sp
    case 3 => if first == 'b' then Bit else if first == 'c' then Ctl else Wsp
    case 4 =>
      if first == 'h' then Htab else if first == 'l' then Lwsp else if first == 'r' then Definition
      else if last == 'r' then Char else if last == 'f' then Crlf else CNl
    case 5 =>
      if first == 'a' then Alpha else if first == 'd' then Digit else if first == 'o' then Octet
      else if first == 'v' then Vchar else if first == 'c' then CWsp else Group
    case 6 => 
      if first == 'h' then Hexdig else if first == 'd' then Dquote else if first == 'o' then Optional else Repeat
    case 7 =>
      if first == 'b' then BinVal else if first == 'd' then DecVal else if first == 'h' then HexVal
      else if first == 'n' then NumVal else if first == 'c' then Comment else Element
    case 8 =>
      if first == 'c' then CharVal else if first == 'e' then Elements else if last == 'e' then Rulename else Rulelist
    case 9 => ProseVal
    case 10 =>
      if first == 'd' then DefinedAs else if first == 'c' then CrlfOrLf else if last == 'x' then RepeatMax
      else if before == 'i' then RepeatMin else Repetition
    case 11 => Alternation
    case 12 => RepeatCount
    case _ => Concatenation
  }

  lemma ShortNameRead(r: Rule)
    requires |NameOf(r)| < 7
    ensures RuleNamed(NameOf(r)) == r
  {
  }

  lemma LongNameRead(r: Rule)
    requires |NameOf(r)| >= 7
    ensures RuleNamed(NameOf(r)) == r
  {
  }

  lemma NameRead(r: Rule)
    ensures RuleNamed(NameOf(r)) == r
  {
    hide NameOf, RuleNamed;
    if |NameOf(r)| < 7 {
      ShortNameRead(r);
    } else {
      LongNameRead(r);
    }
  }

  /** No two rules share a name. */
  lemma Distinct(a: Rule, b: Rule)
    requires NameOf(a) == NameOf(b)
    ensures a == b
  {
    hide NameOf, RuleNamed;
    NameRead(a);
    NameRead(b);
  }

  ghost function Names(): set<Name> {
    set r: Rule :: NameOf(r)
  }

  lemma ShortLowerCase(r: Rule)
    requires |NameOf(r)| < 7
    ensures LowerCase(NameOf(r))
  {
  }

  lemma MediumLowerCase(r: Rule)
    requires 7 <= |NameOf(r)| < 10
    ensures LowerCase(NameOf(r))
  {
  }

  lemma LongLowerCase(r: Rule)
    requires 10 <= |NameOf(r)|
    ensures LowerCase(NameOf(r))
  {
  }

  lemma NameKept(r: Rule)
    ensures Lower(NameOf(r)) == NameOf(r)
  {
    hide NameOf;
    if |NameOf(r)| < 7 {
      ShortLowerCase(r);
    } else if |NameOf(r)| < 10 {
      MediumLowerCase(r);
    } else {
      LongLowerCase(r);
    }
  }

  lemma CharacterOrders()
    ensures Order(Alpha) == 0 && Order(Bit) == 1 && Order(Char) == 2 && Order(Cr) == 3 && Order(Lf) == 4
    ensures Order(Crlf) == 5 && Order(Ctl) == 6 && Order(Digit) == 7
  {
  }

  lemma BlankOrders()
    ensures Order(Hexdig) == 8 && Order(Dquote) == 9 && Order(Htab) == 10 && Order(Octet) == 11
    ensures Order(Sp) == 12 && Order(Vchar) == 13 && Order(Wsp) == 14 && Order(Lwsp) == 15 && CORE_RULES == 16
  {
  }

  lemma ValueOrders()
    ensures Order(CharVal) == CORE_RULES && Order(BinVal) == 17 && Order(DecVal) == 18 && Order(HexVal) == 19
    ensures Order(NumVal) == 20 && Order(ProseVal) == 21 && Order(Comment) == 22 && Order(CNl) == 23
    ensures Order(CWsp) == 24 && Order(Rulename) == 25 && CORE_RULES == 16
  {
  }

  lemma RepeatOrders()
    ensures Order(RepeatCount) == 26 && Order(RepeatMax) == 27 && Order(RepeatMin) == 28 && Order(Repeat) == 29
    ensures Order(DefinedAs) == 30 && Order(Rulelist) == 31 && Order(Definition) == 32 && Order(Elements) == 33
  {
  }

  lemma ElementOrders()
    ensures Order(Alternation) == 34 && Order(Concatenation) == 35 && Order(Repetition) == 36
    ensures Order(Element) == 37 && Order(Group) == 38 && Order(Optional) == 39 && Order(CrlfOrLf) == 40
    ensures RULES == 41
  {
  }

  // The names as section 4 and appendix B.1 of RFC 5234 give them, in lower case.

  lemma CharacterNames()
    ensures NameOf(Alpha) == "alpha" && NameOf(Bit) == "bit"
    ensures NameOf(Char) == "char" && NameOf(Cr) == "cr"
    ensures NameOf(Lf) == "lf" && NameOf(Crlf) == "crlf"
    ensures NameOf(Ctl) == "ctl" && NameOf(Digit) == "digit"
  {
  }

  lemma BlankNames()
    ensures NameOf(Hexdig) == "hexdig" && NameOf(Dquote) == "dquote"
    ensures NameOf(Htab) == "htab" && NameOf(Octet) == "octet"
    ensures NameOf(Sp) == "sp" && NameOf(Vchar) == "vchar"
    ensures NameOf(Wsp) == "wsp" && NameOf(Lwsp) == "lwsp"
  {
  }

  lemma ValueNames()
    ensures NameOf(CharVal) == "char-val" && NameOf(BinVal) == "bin-val"
    ensures NameOf(DecVal) == "dec-val" && NameOf(HexVal) == "hex-val"
    ensures NameOf(NumVal) == "num-val" && NameOf(ProseVal) == "prose-val"
  {
  }

  lemma LineNames()
    ensures NameOf(Comment) == "comment" && NameOf(CNl) == "c-nl"
    ensures NameOf(CWsp) == "c-wsp" && NameOf(Rulename) == "rulename"
  {
  }

  lemma RepeatRuleNames()
    ensures NameOf(RepeatCount) == "repeat-count" && NameOf(RepeatMax) == "repeat-max"
    ensures NameOf(RepeatMin) == "repeat-min" && NameOf(Repeat) == "repeat"
  {
  }

  lemma DefinitionNames()
    ensures NameOf(DefinedAs) == "defined-as" && NameOf(Rulelist) == "rulelist"
    ensures NameOf(Definition) == "rule" && NameOf(Elements) == "elements"
  {
  }

  lemma SeriesNames()
    ensures NameOf(Alternation) == "alternation" && NameOf(Concatenation) == "concatenation"
    ensures NameOf(Repetition) == "repetition"
  {
  }

  lemma ElementNames()
    ensures NameOf(Element) == "element" && NameOf(Group) == "group"
    ensures NameOf(Optional) == "option" && NameOf(CrlfOrLf) == "crlf-or-lf"
  {
  }

  predicate IsTerminal(r: Rule) {
    || r.Alpha? || r.Bit? || r.Char? || r.Cr? || r.Lf? || r.Ctl? || r.Digit? || r.Dquote? || r.Htab? || r.Octet?
    || r.Sp? || r.Vchar?
  }

  lemma CoreRuleKinds(r: Rule)
    requires Order(r) < CORE_RULES
    ensures IsTerminal(r) || r.Crlf? || r.Hexdig? || r.Wsp? || r.Lwsp?
  {
  }
}
