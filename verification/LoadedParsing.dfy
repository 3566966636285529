/** Parsing with a grammar that has been saved and loaded. */
module LoadedParsing {
  import opened Bytes
  import opened Recognizers
  import opened PureParser
  import opened Similarity
  import opened SaveLoad
  import Engine

  /** The parser returns the same length and the same object with the loaded grammar as with the one that
      was saved. */
  lemma LoadedParsesSame(a: Grammar, b: Grammar, t: Table, rule: Name, s: Bytes, fullMatch: bool)
    requires WellFormed(a.graph) && LoadedFrom(a, b) && ForRules(t) && rule in t
    requires Ready(a.graph, Named(rule), s, 0)
    ensures WellFormed(b.graph) && Ready(b.graph, Named(rule), s, 0)
    ensures Engine.Parsed(b, t, rule, s, fullMatch) == Engine.Parsed(a, t, rule, s, fullMatch)
  {
    hide WellFormed, LoadedFrom, ParseRule;
    LoadedMatchesSame(a, b, t, rule, rule, s, 0);
  }
}
