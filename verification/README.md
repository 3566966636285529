# A verified model of belr

belr compiles ABNF (RFC 5234) into a graph of recognizers and runs that graph over a string with a
backtracking engine that builds a tree of assignments. This project models the engine with its
mutable contexts, the optimizer, the ABNF compiler, the table of rules with its placeholders, the
binary save and load, the shared cache of contexts and the grammar of ABNF itself, and proves what
they promise.

The main results, each for every grammar, table of handlers, input and position unless a condition
is named:

- **The engine refines a pure parser.** `Parser.ParseInput` works on a stack of heap objects that it
  pushes, branches, merges, erases and recycles. It returns exactly what a recursive function without
  stack, branch or undo returns: the matched length and the object tree. Every feed restores the
  stack, leaves what is below its top alone and appends to the top exactly the assignments of the
  reference parser. A recycled context is never one that is still in use. No fatal error of the
  context is reachable. What the pure parser returns is said without it, kind by kind: a loop is
  greedy, a selector keeps the first or the first of the longest, a rule is assigned exactly its span.
- **Objects are what they claim to be.** An object is returned exactly if something was matched, and
  all of the input where that is asked for. Its text is exactly what was matched; the text of every
  object below it, and every value, is exactly its own span, is a string of the rule it was assigned
  for, and was given to a collector for that rule.
- **Parsing ends and stays in bounds.** A measure on remaining input, rule rank and structure
  decreases through rule cycles for every well-formed graph; no read goes past the terminator, and
  every span of the tree is within the input. The ABNF grammar that the repository builds, through its
  own calls of `addRule` and `getRule`, is complete and well-formed.
- **The grammar of ABNF is that of RFC 5234.** In the graph that is built, each of the 41 rules derives
  exactly the strings of its production in section 4 or appendix B.1, down to the octets. Where belr
  differs, by ending lines with LF alone too, the production says so.
- **Names have no case.** A rule is found, extended, and its placeholder resolved, under every name
  that differs from its own in case alone.
- **Matches are sound.** What a recognizer matches is derivable in the sense of RFC 5234. The compiler
  gives every selector it builds an identity of its own, on top of those the grammar holds already, so
  the grammar it builds is complete as soon as every name is defined, and then derives exactly what the
  ABNF rules derive; what one of its rules matches is a string of the ABNF definition.
- **The optimizer.** When the transition maps of the alternatives are disjoint and can be trusted, making
  the selector exclusive changes what no recognizer of the graph matches, the selector itself included,
  if and only if no alternative is nullable, which can be checked before optimizing. For the rules, which
  are all that parsing feeds, the same holds of every selector that a rule hinges on; an enclosing option
  can hide the difference. The map of a placeholder contains the first octet of every match if and only
  if every octet that starts its target is a whole match by itself. The code checks neither condition: two
  concrete grammars show what goes wrong. With maps that can be trusted and no nullable alternative,
  optimizing all rules changes nothing, and the flags set are those of the selectors that occur in the
  rules with no octet in the maps of two alternatives, in whatever order the rules are taken.
- **Save and load.** A saved grammar loads without error, completely, with the same rules, and parsing
  with it returns the same lengths and the same objects. The file is described octet by octet.
- **Repeats and numbers.** The forms `n`, `n*m`, `n*`, `*m` and `*` give the loops they should, and
  printed numeric values are read back, exactly when the numbers fit in an int. Every text that the
  grammar takes for a numeric value is read as the numbers it spells.
- **The shared cache.** Whatever the interleaving of any number of parses, a context that is handed
  out is empty and belongs to one parse only, no parse writes to one it does not hold, and nobody
  ever waits.

## Files

| file | content |
|---|---|
| Bytes, Recognizers | octets; recognizers, the graph of rules and what makes it well-formed |
| PureParser, ParserLaws, FeedLaws | the reference parser, and what feeding each kind of recognizer does |
| Spans, Objects | where assignments lie, the objects made of them, and what they are strings of |
| Contexts, Engine | handlers, contexts and the parser, as classes, proved against the reference parser |
| Language, Words | the language of a recognizer and soundness; languages put together from parts of strings |
| TransitionMaps, MapLaws, Emptiness, Optimizer, OptimizerLimits | transition maps and their laws, what can match nothing, the optimizer, and where it goes wrong |
| Grammars, Identities, Similarity | the table of rules and placeholders; the identities of selectors; grammars that differ only in those |
| BinaryStreams, Codec, FileFormat, SaveLoad, LoadedParsing | the binary format, octet by octet, and parsing with what has been loaded |
| Abnf, AbnfCompiler, AbnfLanguage, AbnfMeaning | parsed ABNF, its compiler, the language of the result, and what the constructs mean |
| AbnfRules, AbnfForms, AbnfTables, AbnfGrammar | the grammar of ABNF: its rules, their recognizers, and how its constructor adds them |
| AbnfWords, AbnfProductions, AbnfSelectors | the language of each of its rules, and which of its selectors are exclusive |
| CoreGrammars | grammars built on the core rules |
| Repeats, AbnfRepeats, HandlerNames | how repeats are told apart, that the grammar of ABNF does so, and the handlers of the grammar builder |
| Numbers, NumVals, NumValTexts | digits and numeric values, and the texts of them that the grammar takes |
| HandlerCache | the cache of one handler shared by concurrent parses |

## How to read the model

A recognizer is a value in which `Named(x)` stands for a shared pointer to the recognizer named `x`;
a placeholder for rule `x` is the recognizer named `@x`. A selector carries an identity, and the
grammar holds the set of selectors whose exclusive flag is set. A `Graph` also carries annotations
(nullable rules, ranks, rules that may be fed at the end of the input); `WellFormed` checks them, so
they stand for "no left recursion, no unbounded loop over something that can be empty, no unresolved
reference, nothing that matches the octet 0 where the input may end". `Option` and `Result` values
stand for `npos`. Collectors and handlers are names, and the application's objects are the trees
`Spans.Element`.

## Model

| member | source | states |
|---|---|---|
| PureParser.Parse | src/belr.cpp:200-221 | for every well-formed graph, feeding terminates across rule cycles, stays within the input, matches nothing only if the recognizer is nullable, and then assigns nothing |
| PureParser.ParseLoop | src/belr.cpp:469-482 | a loop ends within the input, and reports an empty match only if its minimum is met or its body is nullable |
| ParserLaws.SelectorKeepsFirstLongest | src/belr.cpp:317-341 | a plain selector keeps the first alternative among the longest, with the assignments of that one alone, and fails only if all of them do |
| ParserLaws.ExclusiveKeepsFirst | src/belr.cpp:305-315 | an exclusive selector keeps the first alternative that consumes something |
| ParserLaws.LengthSame | src/belr.cpp:44-61 | the matched length does not depend on handlers or collectors, so probing with the dummy context tells the truth |
| FeedLaws.CharFed | src/belr.cpp:256-272 | a character recognizer matches one octet of the input: the one it is made for, or the other form of the same letter unless it is case-sensitive; it fails at the end |
| FeedLaws.RangeFed | src/belr.cpp:509-513 | a range matches one octet between its bounds, both included, and fails at the end |
| FeedLaws.LiteralFed | src/belr.cpp:550-559 | a literal matches as many octets as it has, each the same letter in either case, and fails otherwise |
| FeedLaws.SequenceFed | src/belr.cpp:423-436 | a sequence matches exactly when its elements do in order, each where the one before stopped; it covers them all and commits what they commit, in order; otherwise it fails with the first that does |
| FeedLaws.LoopFed | src/belr.cpp:469-482 | a loop is greedy: there are positions, each a match of the body from the one before, on which an octet other than 0 remains and fewer than `max` iterations were made; the last one is where there are `max`, or the input or an octet 0 ends it, or the body fails; the result covers them all, in order, if there are `min`, and is a failure otherwise |
| FeedLaws.SelectorFed | src/belr.cpp:305-341 | what the alternatives do at the position decides: with the flag, the first that consumes something; without it, the first of the longest; with the assignments of that one alone |
| FeedLaws.IndirectionFed | src/belr.cpp:591-598 | a placeholder or an alias does what its target does |
| FeedLaws.NamedFed | include/belr/parser.h:621-668 | a rule matches what its recognizer does; with a handler, one child over exactly that span goes to the enclosing handler, if it collects the rule; without one, what the parts left and then the text of exactly that span, if collected; nothing for an empty match |
| FeedLaws.TerminalsReady | src/belr.cpp:266-272 | terminals may be fed anywhere, except those that match the octet 0 at the end of the input, and literals that contain it |
| FeedLaws.PartsReady | src/belr.cpp:469-482 | loops with any bounds may be fed, except unbounded ones over something nullable; a reference needs its rule |
| Spans.ParseSpanned | include/belr/parser.h:637-668 | the assignments of a match are non-empty spans inside it, in post-order, nested or disjoint, and those of a child lie inside the span of the child |
| Spans.RuleSpanned | include/belr/parser.h:474-481 | so every piece of input taken when the objects are created is in bounds |
| Spans.RealizedBuilds | include/belr/parser.h:502-509 | the object of a node has the rule of the node and exactly the octets of its span as text, and for each assignment at the same index the octets of its span or the object built from them, recursively |
| Objects.ParseGenuine | include/belr/parser.h:637-668 | every assignment a feed commits goes to a collector of the handler it is made to, its span is a string of the collected rule, and it is an element of that rule exactly if the rule has a handler, recursively |
| Objects.RootDerived | include/belr/parser.h:766-793 | so every object an application gets, at any depth, has a string of its rule as text, and was given to a collector for that rule |
| Contexts.Handler.CreateContext | include/belr/parser.h:580-601 | the context is empty and belongs to this handler; it is the cached one, which leaves the cache, exactly if there is one and the lock is free, and a new one otherwise |
| Contexts.Handler.ReleaseContext | include/belr/parser.h:568-578 | the cache then holds the released context, or what it held if the lock is taken |
| Contexts.HandlerContext.SetChild | include/belr/parser.h:491-500 | one assignment is appended exactly if the handler collects the rule |
| Contexts.HandlerContext.Merge | include/belr/parser.h:516-521 | the assignments of the other context are appended in order |
| Contexts.HandlerContext.UndoAssignments | include/belr/parser.h:528-531 | what was assigned since the saved position is dropped, and nothing else |
| Contexts.HandlerContext.Recycle | include/belr/parser.h:533-537 | the context is emptied and offered to its own handler |
| Contexts.CommittedTwice | src/belr.cpp:427-434 | two feeds in a row append to the top context what each of them commits, in order, with the assignments of the first unharmed by the second |
| Contexts.BranchMerged | src/belr.cpp:337-340 | after the merge of the best branch, the context below has gained exactly the assignments of the best alternative |
| Contexts.BranchesFailed | src/belr.cpp:332-335 | when every alternative fails, the stack and the contexts on it are as before |
| Contexts.ElementCommitted | include/belr/parser.h:642-649 | a rule with a handler that matched leaves one assignment of one object in the context below, if that collects it |
| Contexts.ElementAbandoned | include/belr/parser.h:655-658 | a rule with a handler that failed or matched nothing leaves no trace |
| Contexts.TextCommitted | include/belr/parser.h:660-663 | a rule without a handler leaves its own text after what its parts left |
| Contexts.TextUndone | include/belr/parser.h:664-666 | a recognizer that failed or matched nothing leaves the context as it found it |
| Engine.ParserContext.Push | include/belr/parser.h:626-630 | the context pushed is empty, of the right handler, and neither on the stack, nor the root, nor a child of any live assignment |
| Engine.ParserContext.BeginParse | include/belr/parser.h:621-635 | pushes a context exactly for a rule with a handler, and saves the position of the top context; its fatal case cannot occur |
| Engine.ParserContext.EndParse | include/belr/parser.h:637-668 | leaves the stack as before the feed began; the context below gains what the reference parser commits, or the root is set |
| Engine.ParserContext.Branch | include/belr/parser.h:675-683 | pushes an empty context with the handler of the top one |
| Engine.ParserContext.Merge | include/belr/parser.h:685-693 | the branch on top is taken off and its assignments move to the context below |
| Engine.ParserContext.RemoveBranch | include/belr/parser.h:695-706 | the branch is erased wherever it is in the stack, and nothing else changes |
| Engine.ParserContext.FeedSequence | src/belr.cpp:423-436 | the loop over the elements commits what the reference parser commits |
| Engine.ParserContext.FeedExclusive | src/belr.cpp:305-315 | the loop over the alternatives commits the first that consumes something |
| Engine.ParserContext.FeedSelector | src/belr.cpp:317-341 | branching, removing losers and merging the winner commits the first longest alternative |
| Engine.ParserContext.FeedLoop | src/belr.cpp:469-482 | the loop commits what the reference parser commits (FeedLaws.LoopFed says what that is) |
| Engine.ParserContext.Feed | src/belr.cpp:200-221 | the stack is restored, what is below its top untouched, and the top gains exactly the assignments of the reference parser; the outermost rule sets the root; every cached context is again empty, its handler's own and referred to by nothing |
| Engine.ParserContext.Realize | include/belr/parser.h:502-509 | the object of a context is the one its node denotes, with its assignments run in order, and each of them is given exactly its own span of the input |
| Engine.Parser.ParseInput | include/belr/parser.h:766-790 | the matched length and the object tree are those of the reference parser, for the first input and for any later one; an object is returned exactly if something was matched and, for a full match, all of the input; it is of the rule asked for, with exactly the matched octets, and so is each object in it |
| Engine.ParsedMeans | include/belr/parser.h:786-793 | when an object is returned and which one, without the function that computes it |
| Engine.FeedLiteral | src/belr.cpp:553-559 | the comparison loop accepts exactly the literal in either case, and never reads past the terminator |
| Language.FeedSound | src/belr.cpp:200-221 | the octets reported as matched are derivable from the recognizer, through plain and exclusive selectors and recursive rules |
| TransitionMaps.UnitParsed | src/belr.cpp:236-245 | a recognizer for single octets matches one octet or fails, wherever it is fed and whatever is recorded |
| TransitionMaps.StartsSound | src/belr.cpp:298-303 | a transition map that can be trusted contains the first octet of every match |
| TransitionMaps.StartsSequenceSound | src/belr.cpp:412-421 | and so does the map of a sequence with optional heads |
| TransitionMaps.PlaceholderMapExactly | src/belr.cpp:236-245 | the default map of a placeholder or alias contains the first octet of every match if and only if each octet that can start its target is a whole match of it, when the map of the target is exact |
| TransitionMaps.PlaceholderTrustedExactly | src/belr.cpp:236-245 | so, for a target made of characters, literals, choices and loops over them, the map of a placeholder is sound exactly if it is trusted |
| TransitionMaps.UnitMappable | src/belr.cpp:236-245 | a placeholder for single octets can be trusted |
| TransitionMaps.RepeatedMappable | src/belr.cpp:236-245 | and so can one for single octets repeated, as in `1*DIGIT` |
| MapLaws.CharMap | src/belr.cpp:236-245 | the map of a character holds the octets it matches |
| MapLaws.RangeMap | src/belr.cpp:236-245 | and that of a range the octets between its bounds |
| MapLaws.LiteralMap | src/belr.cpp:573-577 | the map of a literal holds both forms of its first letter, and the octet 0 if it is empty |
| MapLaws.LoopMap | src/belr.cpp:484-488 | the map of a loop is that of its body, and is complete unless the loop may be skipped |
| MapLaws.SelectorMap | src/belr.cpp:298-303 | the map of a selector is the union of those of its alternatives |
| MapLaws.SequenceMap | src/belr.cpp:412-421 | the map of a sequence is the union of those of its elements up to the first that claims to be complete, and claims so exactly if one does |
| MapLaws.IndirectionMap | src/belr.cpp:236-245 | the map of a placeholder or an alias holds the octets its target matches alone, before a 0 |
| MapLaws.NamedMap | src/belr.cpp:223-234 | the map of a rule is that of its recognizer |
| Emptiness.ParsedAtEnd | src/belr.cpp:200-221 | where no input remains, a recognizer matches nothing or fails according to a condition on the grammar and its exclusive flags alone |
| Emptiness.NeverEmptyExactly | src/belr.cpp:310-313 | a plain selector matches nothing on some input if and only if one of its alternatives is nullable, in a grammar whose annotations are not larger than they need be |
| Optimizer.FirstIsBest | src/belr.cpp:305-341 | with disjoint maps that can be trusted, an exclusive selector does what the plain one does, except that an empty match becomes a failure |
| Optimizer.FlipKeeps | src/belr.cpp:389-391 | setting the flag of a selector whose alternatives agree changes no match and no assignment anywhere in the grammar |
| Optimizer.FlipExactly | src/belr.cpp:389-391 | with disjoint maps that can be trusted, setting the flag preserves every match and assignment of every recognizer of the graph, the flipped selector itself included, if and only if no alternative is nullable |
| Optimizer.FlipKeepsRuleExactly | src/belr.cpp:389-391 | with such maps it preserves a rule that hinges on the selector, on every input and for all handlers, if and only if no alternative is nullable |
| Optimizer.SelectorRuleExactly | src/belr.cpp:389-391 | in particular a rule that is the selector |
| Optimizer.OptionHides | src/belr.cpp:389-391 | but a rule that is an option of the selector is preserved whether or not an alternative is nullable |
| Optimizer.StartsSame | src/belr.cpp:223-245 | grammars that behave the same have the same transition maps |
| Optimizer.DisjointSame | src/belr.cpp:371-388 | and so the search for an intersection has the same result in both |
| Optimizer.VisitsOccur | src/belr.cpp:251-254 | optimizing a recognizer comes to exactly the selectors that occur in it through sequences, loops and the alternatives a selector was defined with, and not through names, placeholders or aliases |
| Optimizer.DisjointIsApart | src/belr.cpp:375-388 | the search finds no intersection exactly if no octet is in the maps of two alternatives |
| Optimizer.OptimizedRuns | src/belr.cpp:371-391 | whatever the maps are worth, optimizing comes to the selectors that occur in the rules, one after the other, and sets the flag of each exactly if no octet is in the maps of two of its alternatives at that point |
| Optimizer.OptimizedFlags | src/belr.cpp:371-391 | with maps that can be trusted, a selector is exclusive afterwards exactly if it was before, or occurs in a rule with no octet in the maps of two of its alternatives |
| Optimizer.OptimizedRulesKeep | src/belr.cpp:744-748 | optimizing every rule, in any order, preserves lengths and assignments for every rule, input and position, if the selectors it flips have maps that can be trusted and no nullable alternative |
| Optimizer.OrderIrrelevant | src/belr.cpp:744-748 | and the order of the rules makes no difference to the flags that are set |
| Optimizer.OptimizedRulesExactly | src/belr.cpp:744-748 | given the trust, optimizing preserves every recognizer of the graph, the flipped selectors themselves included, if and only if none of those has a nullable alternative |
| Optimizer.OptimizedRulesKeptExactly | src/belr.cpp:744-748 | given the trust and a rule that hinges on each flipped selector, it preserves every rule if and only if none of those has a nullable alternative |
| Optimizer.Intersects | src/belr.cpp:70-75 | true exactly if the maps have an octet in common |
| Optimizer.MergeInto | src/belr.cpp:87-91 | the map becomes the union |
| Optimizer.OptimizedGrammar.ProbeAll | src/belr.cpp:236-245 | adds exactly the octets that are matched alone |
| Optimizer.OptimizedGrammar.GetTransitionMap | src/belr.cpp:223-245 | adds exactly the transition map to the array and says whether it claims to be complete |
| Optimizer.OptimizedGrammar.SequenceMap | src/belr.cpp:412-421 | adds the maps of the elements up to the first that claims to be complete |
| Optimizer.OptimizedGrammar.IntersectionFound | src/belr.cpp:375-388 | an intersection is found exactly if the maps of the alternatives are not pairwise disjoint |
| Optimizer.OptimizedGrammar.Optimize | src/belr.cpp:744-748 | the selectors that occur in the rules, alternatives added by extensions left out, are visited one after the other, and the flag of each is set exactly if no octet is in the maps of two of its alternatives at that point; with maps that can be trusted it is the maps to begin with that count, no recognizer of the graph changes, the flipped selectors themselves included, exactly if none of those has a nullable alternative, and no rule changes exactly then if one hinges on each of them |
| OptimizerLimits.NullableAlternativeLost | src/belr.cpp:389-391 | without that condition: with the rule `["a"] / "b"` and the octet `c`, optimizing the grammar makes a failure of an empty match |
| OptimizerLimits.OptionSharp | src/belr.cpp:389-391 | the exact conditions apply to that grammar: its annotations are no larger than they need be |
| OptimizerLimits.OptionHidesDifference | src/belr.cpp:389-391 | with the rule `[["a"] / "b"]` the flag is set as well, and no rule changes |
| OptimizerLimits.PlaceholderHidesLongest | src/belr.cpp:236-245 | an alternative behind the placeholder of a rule that matches two octets has an empty map, so after optimizing the grammar that shorter match wins over a literal of three octets |
| Grammars.RuleTable.AddRule | src/belr.cpp:657-671 | the rule is held under the one name that differs from the given one in case at most, its placeholder alone, made under whatever capitals, is resolved to it, and every reference handed out stays good |
| Grammars.RuleTable.GetRule | src/belr.cpp:698-720 | a rule whose name differs from the given one in case at most is returned itself, if it is defined; any other name gets its one placeholder, made the first time, whatever its capitals then and later |
| Grammars.RuleTable.ExtendRule | src/belr.cpp:673-687 | the alternatives of a rule defined as a selector, under a name that differs in case at most, gain one at the end |
| Grammars.RuleTable.IsComplete | src/belr.cpp:732-742 | true exactly if every placeholder ever handed out is resolved, and exactly if every name has a rule |
| Grammars.LowerFolds | src/belr.cpp:823-827 | a name is folded to the one that differs from it in case at most and has no capital letter |
| Grammars.LowerExactly | src/belr.cpp:823-827 | two names are folded alike, and so find the same rule or placeholder, if and only if they have the same length and each character is the same letter in either case (section 2.1 of RFC 5234) |
| Bytes.Folds | src/belr.cpp:266-272 | the same of octets: folding changes the case of letters and nothing else |
| Grammars.NodesResolved | src/belr.cpp:657-671 | in a complete table every placeholder points to the rule of its name and no reference dangles |
| Similarity.ReferenceResolved | src/belr.cpp:591-598 | a reference through a resolved placeholder matches and assigns what the rule does |
| Similarity.SimilarParsed | src/belr.cpp:115-122 | recognizers that differ only in placeholders and identities match and assign the same on every input |
| BinaryStreams.IntRoundTrip | src/binarystream.cpp:36-40 | the four octets of a 32-bit integer, negative ones included, give it back |
| BinaryStreams.IntFormat | src/binarystream.cpp:66-69 | the four octets are those of the integer in two's complement, the most significant one first |
| BinaryStreams.StringRoundTrip | src/binarystream.cpp:48-57 | a string without NUL, followed by NUL and anything else, is read back whole and no further |
| BinaryStreams.BinaryOutputStream.WriteInt | src/binarystream.cpp:66-69 | the stream gains the four octets |
| BinaryStreams.BinaryInputStream.ReadInt | src/binarystream.cpp:36-40 | reads back the integer that was written at the position, and moves past it |
| BinaryStreams.BinaryInputStream.ReadString | src/binarystream.cpp:48-57 | reads back the string that was written at the position, and moves past its NUL |
| Codec.Serialize | src/belr.cpp:100-137 | appends the encoding of the recognizer, following placeholders and writing other rules by name; characters are truncated to octets |
| Codec.SerializePayload | src/belr.cpp:343-350 | and the part of each type after the name |
| FileFormat.TerminalFormat | include/belr/belr.h:93-104 | in the file, 1 is a character, followed by the name, the octet and its case sensitivity; 6 a range with its bounds; 7 a literal with its octets and a 0 |
| FileFormat.SequenceFormat | include/belr/belr.h:93-104 | 4 is a sequence: the name, the number of elements and then each of them, in order |
| FileFormat.SelectorFormat | include/belr/belr.h:93-104 | 2 or 3 is a selector, by its class: the name, the flag, the number of alternatives and then each of them, in order |
| FileFormat.LoopFormat | include/belr/belr.h:93-104 | 5 is a loop: the name, the minimum, the maximum and then the body |
| FileFormat.AliasFormat | include/belr/belr.h:93-104 | 9 is an alias: the name and the target |
| FileFormat.ReferenceFormat | src/belr.cpp:131-136 | 10 is a reference: the name of the rule, that of a placeholder included |
| FileFormat.TerminalsEncodable | src/belr.cpp:277-282 | what is written without loss: octets, ranges of octets, literals without NUL, references to rules named without capitals or NUL |
| FileFormat.PartsEncodable | src/belr.cpp:343-350 | and loops, sequences, selectors and aliases of these, with 32-bit integers for bounds and counts |
| Codec.BinaryGrammarBuilder.Build | src/belr.cpp:146-194 | on an encoding followed by anything, gives back a recognizer equal up to placeholders and identities, and consumes exactly the encoding |
| Codec.BinaryGrammarBuilder.BuildSelector | src/belr.cpp:352-364 | the same for the alternatives and the flag of a selector |
| Codec.BinaryGrammarBuilder.BuildTerminal | src/belr.cpp:526-532 | the same for terminals |
| SaveLoad.Save | src/belr.cpp:754-772 | the file is the magic string, the seven octets 35, 33, 98, 101, 108, 114 and 0, then the name and the rules in order |
| SaveLoad.Load | src/belr.cpp:774-821 | on a saved file it succeeds, holds the same rules and no unresolved placeholder; on another magic string it fails |
| SaveLoad.MagicIs | src/belr.cpp:785-792 | the magic string is these octets and no others |
| SaveLoad.AnnotationsTransfer | src/belr.cpp:146-194 | what made the saved grammar terminate makes the loaded one terminate |
| SaveLoad.ReadIsLoaded | src/belr.cpp:795-819 | once all rules are read, the table is complete and similar to what was saved |
| SaveLoad.LoadedMatchesSame | src/belr.cpp:774-821 | every rule of the loaded grammar matches the same length and makes the same assignments on every input, for any handlers of rules |
| LoadedParsing.LoadedParsesSame | include/belr/parser.h:766-790 | so the parser returns the same length and the same object tree with the loaded grammar |
| Abnf.AlternationPreserved | src/grammarbuilder.cpp:273-284 | an alternation and its recognizer derive the same strings, also when one alternative is not wrapped |
| Abnf.ConcatenationPreserved | src/grammarbuilder.cpp:233-247 | the same for a concatenation, also of one repetition |
| Abnf.RepetitionPreserved | src/grammarbuilder.cpp:213-220 | the same for a repetition: its loop allows exactly the counts of the repeat |
| Abnf.ElementPreserved | src/grammarbuilder.cpp:138-147 | the same for groups, options, values, strings and rule names |
| AbnfMeaning.CharValMeaning | src/grammarbuilder.cpp:138-147 | a quoted string stands for its letters in either case (section 2.3 of RFC 5234) |
| AbnfMeaning.NumValMeaning | src/grammarbuilder.cpp:41-50 | a numeric value stands for its octets, or for one octet of its range (section 3.4) |
| AbnfMeaning.RuleNameMeaning | src/grammarbuilder.cpp:138-147 | a rule name stands for what its rule derives, whatever its capitals (section 2.1) |
| AbnfMeaning.BracketMeaning | src/grammarbuilder.cpp:100-125 | a group stands for its alternation, and an option for that or nothing (sections 3.5 and 3.8) |
| AbnfMeaning.RepetitionMeaning | src/grammarbuilder.cpp:213-220 | a repetition stands for its element once without a repeat, for as many strings of it as the count, or for a number of them between the bounds (sections 3.6 and 3.7) |
| AbnfMeaning.ConcatenationMeaning | src/grammarbuilder.cpp:233-247 | a concatenation stands for a string of each repetition, in order (section 3.1) |
| AbnfMeaning.AlternationMeaning | src/grammarbuilder.cpp:273-284 | an alternation stands for the strings of each alternative (section 3.2) |
| AbnfMeaning.CompiledInOrder | src/grammarbuilder.cpp:233-284 | several alternatives become one selector and several repetitions one sequence, part by part in order; a single one is not wrapped |
| AbnfCompiler.Compiler.BuildElement | src/grammarbuilder.cpp:138-147 | the recognizer built is the compiled form of the element; it refers only to handed-out references and is made of new selectors, and nothing that was in the grammar changes |
| AbnfCompiler.Compiler.BuildRepetition | src/grammarbuilder.cpp:213-220 | the same for a repetition |
| AbnfCompiler.Compiler.BuildConcatenation | src/grammarbuilder.cpp:233-247 | the same for a concatenation |
| AbnfCompiler.Compiler.BuildAlternation | src/grammarbuilder.cpp:273-284 | the same for an alternation |
| AbnfCompiler.Compiler.BuildRule | src/grammarbuilder.cpp:343-361 | the recognizer of a definition is added under its name, or an alias for a lone reference, and that of an extension as the last alternative of the selector that is there; every name keeps deriving exactly what its definitions so far derive, and every selector stays the one object of one rule |
| AbnfCompiler.Compiler.BuildRules | src/grammarbuilder.cpp:340-363 | after the whole list every name derives exactly what its definitions and extensions derive |
| AbnfMeaning.AcceptableExactly | src/grammarbuilder.cpp:340-363 | the lists of rules that can be built: an extension has a choice to extend and is no lone reference, and a definition has a name that nothing has, compared in any case |
| AbnfMeaning.ExtensionAdds | src/grammarbuilder.cpp:340-363 | `sign = "+" / "-"` and `SIGN =/ "~"` is one of them, and both definitions count |
| AbnfCompiler.CompiledDefined | src/grammarbuilder.cpp:351-357 | adding a definition, or the alias that stands for `rule2 = rule1`, makes the name derive what the definition says and leaves the others alone |
| AbnfCompiler.HomedExtended | src/belr.cpp:673-687 | an alternative added to a selector in place reaches the rule it belongs to and no other |
| AbnfCompiler.ExtendedMeans | src/belr.cpp:673-687 | an extended rule derives what it derived and what the extension derives |
| AbnfLanguage.CompiledLanguage | src/grammarbuilder.cpp:340-363 | a complete compiled grammar derives a string for a rule if and only if the ABNF rules do, recursion included |
| AbnfMeaning.AbnfEquations | src/grammarbuilder.cpp:340-363 | in those rules a name stands for what one of its definitions derives when all names stand for what they do, core rules included |
| AbnfLanguage.MatchesAreAbnf | src/belr.cpp:200-221 | what a rule of a compiled grammar matches is a string of its ABNF definition |
| AbnfLanguage.BuiltIsWellFormed | src/grammarbuilder.cpp:408-440 | the graph built from a list of rules is complete once every name has a rule, and is well-formed exactly if its annotations on ranks, loops and the octet 0 are right: the identities of its selectors never stand in the way |
| AbnfLanguage.CreateFromAbnf | src/grammarbuilder.cpp:408-440 | building from a list of rules and asking whether the grammar is complete gives such a graph when the answer is yes |
| AbnfLanguage.BuiltMatchesAreAbnf | src/belr.cpp:200-221 | so what a rule of a grammar built from a list of rules matches is a string of that rule |
| CoreGrammars.BuildOnCore | src/abnf.cpp:30-47 | and a list of rules can be built on the core rules, whose selectors keep their identities |
| Identities.SteadyIsWellFormed | src/belr.cpp:305-341 | in a graph whose rules own their selectors, being well-formed does not depend on identities |
| AbnfRules.Distinct | src/abnf.cpp:139-166 | no two rules of the grammar share a name |
| AbnfGrammar.Body | src/abnf.cpp:49-436 | the recognizer of each rule has no unbounded loop over something empty, feeds only rules of lower rank before it consumes something, and matches the octet 0 only where claimed, given the same of the rules it refers to |
| AbnfGrammar.FormReflects | src/abnf.cpp:49-436 | what is computed on the written form of a rule holds of its recognizer in the graph |
| AbnfGrammar.WrittenOwned | src/abnf.cpp:49-436 | each rule has one selector at most, which no other rule shares |
| AbnfTables.Ask | src/belr.cpp:698-720 | a call of `getRule` returns the rule if it has been added, and otherwise its placeholder, made by the first such call |
| AbnfGrammar.Write | src/abnf.cpp:49-436 | building a rule performs those calls for each rule it refers to and yields the recognizer written down for it |
| AbnfGrammar.Add | src/belr.cpp:657-671 | adding a rule after those before it leaves the table with exactly one rule more, and with the placeholders its recognizer asked for too early |
| AbnfGrammar.CoreRules | src/abnf.cpp:30-47 | the constructor of the core rules builds them, in order |
| AbnfGrammar.CoreAsksNothing | src/abnf.cpp:32-137 | no core rule is used before it is added |
| AbnfGrammar.ABNFGrammar | src/abnf.cpp:139-166 | the constructor of the grammar adds its rules to those |
| AbnfProductions.OctetProductions | src/abnf.cpp:65-120 | in the graph that is built, CHAR, CR, LF, DIGIT, DQUOTE, HTAB, OCTET, SP and VCHAR are exactly the octets that appendix B.1 of RFC 5234 gives |
| AbnfProductions.ClassProductions | src/abnf.cpp:49-85 | and so are ALPHA, BIT and CTL |
| AbnfProductions.HexdigProduction | src/abnf.cpp:95-104 | HEXDIG is a digit or one of the letters A to F in either case |
| AbnfProductions.CrlfProduction | src/abnf.cpp:77-79 | CRLF is a string of CR, then one of LF |
| AbnfProductions.LineEnds | src/abnf.cpp:168-170 | that is the octets 13 and 10; belr ends lines with 10 alone too, in a rule of its own |
| AbnfProductions.WspProduction | src/abnf.cpp:122-124 | WSP is SP or HTAB |
| AbnfProductions.LwspProduction | src/abnf.cpp:126-133 | LWSP is any number of WSP, each perhaps after CRLF |
| AbnfProductions.RulelistProduction | src/abnf.cpp:239-248 | a string is a rulelist exactly if it is rules and lines of blanks and comments, one at least (section 4 of RFC 5234, like the following) |
| AbnfProductions.DefinitionProduction | src/abnf.cpp:250-257 | a rule exactly if it is a rulename, a defined-as, elements and the end of the line |
| AbnfProductions.RulenameProduction | src/abnf.cpp:196-205 | a rulename exactly if it is a letter, then letters, digits and the octet 45 |
| AbnfProductions.DefinedAsProduction | src/abnf.cpp:229-237 | a defined-as exactly if it is the octet 61, or 61 and 47, between blanks |
| AbnfProductions.ElementsProduction | src/abnf.cpp:259-264 | elements exactly if it is an alternation and blanks |
| AbnfProductions.AlternationProduction | src/abnf.cpp:266-279 | an alternation exactly if it is concatenations with the octet 47 between them, and blanks around it |
| AbnfProductions.ConcatenationProduction | src/abnf.cpp:281-289 | a concatenation exactly if it is repetitions with blanks between them |
| AbnfProductions.RepetitionProduction | src/abnf.cpp:291-296 | a repetition exactly if it is an element, perhaps after a repeat |
| AbnfProductions.RepeatProduction | src/abnf.cpp:207-227 | a repeat exactly if it is digits, or the octet 42 with digits or nothing on either side; belr gives the parts rules of their own |
| AbnfProductions.ElementProduction | src/abnf.cpp:298-310 | an element exactly if it is a rulename, a group, an option, a char-val, a num-val or a prose-val |
| AbnfProductions.BracketProductions | src/abnf.cpp:312-334 | a group or an option exactly if it is an alternation between the octets 40 and 41, or 91 and 93, with blanks inside |
| AbnfProductions.CharValProduction | src/abnf.cpp:336-347 | a char-val exactly if it is printable octets other than 34 between two of those |
| AbnfProductions.ProseValProduction | src/abnf.cpp:361-372 | a prose-val exactly if it is printable octets other than 62 between 60 and 62 |
| AbnfProductions.NumValProduction | src/abnf.cpp:349-359 | a num-val exactly if it is the octet 37 and a bin-val, dec-val or hex-val |
| AbnfProductions.NumberProductions | src/abnf.cpp:374-441 | those exactly if they are "b", "d" or "x" in either case and digits, then one or more times 46 and digits, or 45 and digits, or nothing; belr writes any number of times within the option, which is the same |
| AbnfProductions.CommentProduction | src/abnf.cpp:172-180 | a comment exactly if it is the octet 59, blanks and visible octets, and the end of the line as belr has it |
| AbnfProductions.CNlProduction | src/abnf.cpp:182-187 | a c-nl exactly if it is a comment or the end of a line, again as belr has it |
| AbnfProductions.CWspProduction | src/abnf.cpp:189-194 | a c-wsp exactly if it is WSP, perhaps after a c-nl |
| AbnfSelectors.ExclusiveExactly | src/abnf.cpp:49-436 | which selectors of the grammar keep the first match; in all others, that of `=` and `=/` included, the longest one counts |
| AbnfGrammar.BuiltIsAbnf | src/abnf.cpp:139-166 | what it builds has no unresolved placeholder, and is the graph below |
| AbnfGrammar.AbnfWellFormed | src/abnf.cpp:139-166 | the graph of the grammar of ABNF is well-formed |
| AbnfGrammar.AbnfReady | src/abnf.cpp:229-238 | so parsing with any of its rules, `rulelist` in particular, ends on any input |
| Repeats.HandlersSay | src/grammarbuilder.cpp:372-404 | which rules have handlers, and what each of them collects |
| HandlerNames.HandlersListed | src/grammarbuilder.cpp:371-406 | by name: the nine rules with handlers, and all that each of them collects |
| HandlerNames.NoOtherHandler | src/grammarbuilder.cpp:371-406 | and no other rule has one |
| Repeats.FormsRead | src/abnf.cpp:207-227 | the forms of a repeat that are told apart below are digits, and digits around an asterisk, followed by anything that does not continue them |
| Repeats.RepeatFed | src/abnf.cpp:219-227 | digits before an asterisk are never left as a count: the longer alternative wins and the assignment of the shorter one is gone |
| Repeats.RepeatThenElement | src/abnf.cpp:292-296 | in any grammar with the rules for repetitions, a repetition is its repeat, assigned according to its form, then its element |
| Repeats.ParsedRepetition.Collect | src/grammarbuilder.cpp:192-211 | the setters run in order leave the state the assignments call for |
| Repeats.RepeatDisambiguated | src/abnf.cpp:207-227 | the object of a repetition is given the count, or the minimum and maximum, of its repeat, and no other |
| AbnfRepeats.AbnfRepetition | src/grammarbuilder.cpp:384-390 | the grammar of ABNF, with the handlers of the grammar builder, has those rules |
| Repeats.CountLoop | src/grammarbuilder.cpp:213-220 | a repetition given the count `n` is compiled to the loop (n, n) if and only if n is below 2^31 |
| Repeats.RangeLoop | src/grammarbuilder.cpp:213-220 | given `n*m`, `n*`, `*m` or `*` it is compiled to (n, m), (n, -1), (0, m) or (0, -1) if and only if the numbers are below 2^31 |
| Repeats.CountAllows | src/grammarbuilder.cpp:213-220 | a count below 2^31 allows exactly that number of occurrences (section 3.7 of RFC 5234) |
| Repeats.RangeAllows | src/grammarbuilder.cpp:213-220 | bounds below 2^31 allow exactly the numbers between them, and a bound left out is no bound (section 3.6 of RFC 5234) |
| NumVals.ABNFNumval.ParseValues | src/grammarbuilder.cpp:52-75 | the scanning loop ends, sets the range flag exactly if there is a dash, and appends the values the text means |
| NumVals.ABNFNumval.SetBinVal | src/grammarbuilder.cpp:85-87 | reads in base 2 |
| NumVals.ABNFNumval.SetDecVal | src/grammarbuilder.cpp:77-79 | reads in base 10 |
| NumVals.ABNFNumval.SetHexVal | src/grammarbuilder.cpp:81-83 | reads in base 16 |
| NumVals.MeaningExactly | src/grammarbuilder.cpp:52-75 | on any text: a range exactly if there is a dash, of what is read before and after the first one; otherwise the numbers read one after the other |
| NumVals.ScannedRun | src/grammarbuilder.cpp:60-74 | a scan goes on past each number and a dot after it, until nothing can be read or nothing is left |
| NumValTexts.ValueTextsRead | src/abnf.cpp:374-441 | every text that the grammar of ABNF takes for a bin-val, dec-val or hex-val is read as exactly the numbers it spells, in order, and as a range exactly if it has the form of one |
| NumVals.DottedMeans | src/grammarbuilder.cpp:60-74 | values separated by dots, with leading zeros or not, are read in order |
| NumVals.RangeMeans | src/grammarbuilder.cpp:53-59 | two values separated by a dash are read as a range |
| NumVals.ListRoundTrip | src/grammarbuilder.cpp:60-74 | a printed list is read back as itself if and only if every value is below 2^31 |
| NumVals.RangeRoundTrip | src/grammarbuilder.cpp:53-59 | and so is a printed range |
| Numbers.StrtolReads | src/grammarbuilder.cpp:66-70 | on digits followed by a dot or the end, strtol reads all of them and no more |
| Numbers.StrtolExactly | src/grammarbuilder.cpp:66-70 | on any text, strtol takes blanks, a sign, the prefix of base 16 and digits, each as long as it can be, and reads nothing without a digit |
| Numbers.DigitTable | src/grammarbuilder.cpp:66-70 | the sixteen digits have their values, the letters in either case |
| Numbers.PlaceValue | src/grammarbuilder.cpp:66-70 | and each counts as much as its place says |
| Numbers.ToIntExactly | src/grammarbuilder.cpp:65-72 | a number that does not fit in an int becomes the one int that equals it up to a multiple of 2 to the 32 |
| HandlerCache.InvStep | include/belr/parser.h:568-601 | at every step of every parse, one parse at most is past the lock, no context is held twice, and the cached one is empty |
| HandlerCache.ObtainedIsExclusive | include/belr/parser.h:580-592 | in every run, a context that is created is empty, held by no other parse and no longer cached |
| HandlerCache.HandedOutOnce | include/belr/parser.h:568-592 | a context handed out twice was recycled by its first owner in between |
| HandlerCache.WritesOwn | include/belr/parser.h:533-537 | no step of any parse writes to a context that another parse holds or that is in the cache |
| HandlerCache.FillAddsOne | include/belr/parser.h:491-500 | filling a context adds one assignment to it, and nothing else changes |
| HandlerCache.IdleMay | include/belr/parser.h:580-592 | a parse that is not at it may create a context, and fill or recycle its own, at any time |
| HandlerCache.CreateAlone | include/belr/parser.h:580-592 | the steps of a parse that is alone amount to the sequential operation: the cached context if there is one, a new one otherwise |
| HandlerCache.RecycleAlone | include/belr/parser.h:533-578 | and recycling alone clears the context and leaves it in the cache |
| HandlerCache.LockedOutAllocates | include/belr/parser.h:584-591 | a parse that finds the lock taken gets a context that did not exist before |
| HandlerCache.LockedOutDrops | include/belr/parser.h:568-575 | and one that finds it taken when it gives a context back drops it: no parse holds it any more, and neither does the cache |
| HandlerCache.NobodyWaits | include/belr/parser.h:568-601 | taking or giving back a context ends within five steps of the parse itself, whatever the others do |

## Left out

- Recognizer objects are values: adding an alternative, setting a pointer or a name in place, and two pointers to one object, are modelled by names and selector identities in the grammar instead of aliasing.
- Shared-pointer lifetime and the destructor of `Grammar` are not modelled.
- `include` is modelled only as starting from the included rules (as `ABNFGrammar` does); including after a placeholder was handed out would leave that placeholder unresolved (src/belr.cpp:728).
- Grammars.RuleTable.ExtendRule: requires that the extension is not a bare reference to another rule, because the code clears the name of what it is given, which would rename that rule (src/belr.cpp:675).
- `ExclusiveSelector` and a `Selector` whose flag is set differ only in the type octet of the file; the set `kinds` carries that difference.
- Recognizing every derivable string is not claimed; the repository's README disclaims it for a greedy matcher.
- Graphs that can match the octet 0 at the end of the input are outside `WellFormed` or `Ready`: there the code reads the terminator as input. Static nullability over-approximates, so some graphs that would terminate are not well-formed.
- Emptiness.NeverEmptyExactly: where an exclusive selector has a nullable alternative, or a loop asks for something nullable at least once, being nullable is wider than being able to match nothing, so such grammars are excluded (Emptiness.SharpRules), and so are alternatives that match the octet 0 (`OkAll`, in Optimizer.SharpFlips for the flipped selectors); there, having no nullable alternative is still sufficient (Optimizer.OptimizedRulesKeep).
- Optimizer.OptimizedRulesKeptExactly: asks that some rule hinges on each selector made exclusive (Optimizer.NoneHidden). Without that, having no nullable alternative is sufficient but not necessary: an enclosing loop or sequence can hide the difference from the rule (Optimizer.OptionHides). Optimizer.FlipExactly and Optimizer.OptimizedRulesExactly avoid the question by counting the bare selector among what is preserved.
- Optimizer.OptimizedRuns: does not say in which order the selectors are visited; Optimizer.Visits does (inner ones first), and with maps that can be trusted it makes no difference (Optimizer.OptimizedFlags).
- TransitionMaps.PlaceholderTrustedExactly: is for targets whose map is exact on sight (TransitionMaps.Direct); the map of a longer sequence may contain octets that no match starts with, and then the trust is sufficient but not necessary.
- Truncated or damaged files, and files opened by name; only octets that `save` wrote, or another magic string, are considered.
- Codec.BinaryGrammarBuilder.Build: gives back what was written only if the characters are octets and the literals have no NUL; the code truncates anything else when it writes it (Codec.WideCharacterLost).
- Handlers and collectors are given when the parser is created; installing them one by one, replacing them, and the cases of missing rules are left out. The application's callbacks are represented by the tree they are given.
- Every fatal error is a precondition or proved unreachable: redefinition of a rule, extension of what is not a selector, empty elements, `prose-val`.
- The C locale is fixed to ASCII; the comparison of signed characters in literals above 127, and memory ordering weaker than sequential consistency, are not modelled. `atoll` and `strtol` are taken to clamp to 64 bits.
- AbnfGrammar.CoreRules: the sixteen calls of the constructor are made in two groups, and those of AbnfGrammar.ABNFGrammar in three; which selector gets which identity is fixed by the place of the rule, where the code has addresses.
- AbnfLanguage.CreateFromAbnf: stops before the call of `optimize` for a complete grammar (src/grammarbuilder.cpp:434); Optimizer.OptimizedGrammar.Optimize is that call, with the number of alternatives each selector had before extensions as a parameter. AbnfLanguage.BuiltMatchesAreAbnf holds for any exclusive flags, so also after it.
- How the other objects of the ABNF builder are filled from assignments, beyond repetitions and numeric values, only routes children to setters.
- `GrammarLoader`, the tools, `describe`, `DebugElement` and logging.
