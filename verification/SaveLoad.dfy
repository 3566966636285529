/** Saving a grammar to a binary file and loading it again. */
module SaveLoad {
  import opened Bytes
  import opened Recognizers
  import opened PureParser
  import opened BinaryStreams
  import opened Grammars
  import opened Similarity
  import opened Identities
  import opened Codec

  const MAGIC := "#!belr"

  // A grammar similar to a well-formed one is well-formed: the annotations of one give those of the
  // other, where every placeholder ranks just above its rule.

  function LoadedGraph(a: Graph, rules: map<Name, Rec>, alts: map<nat, Recs>): Graph {
    Graph(
      rules,
      (set x | x in rules && Base(x) in a.nullable),
      (map x | x in rules && Base(x) in a.rank ::
         if IsRuleName(x) then 2 * a.rank[Base(x)] else 2 * a.rank[Base(x)] + 1),
      (set x | x in rules && Base(x) in a.atEnd),
      alts)
  }

  /** The rules and placeholders of `b` are those of `a`, as far as the annotations go. */
  ghost predicate Annotated(a: Grammar, b: Grammar) {
    && Resolved(a.graph)
    && b.graph == LoadedGraph(a.graph, b.graph.rules, b.graph.alts)
  }

  /** A reference and the rule it stands for: a placeholder ranks above, and is as nullable. */
  lemma ReferenceAnnotated(a: Graph, x: Name)
    requires WellFormed(a) && Resolved(a) && x in a.rules
    ensures Base(x) in a.rules && Base(x) in a.rank && x in a.rank
    ensures Base(x) in a.nullable ==> x in a.nullable
    ensures if IsRuleName(x) then Base(x) == x else a.rank[Base(x)] < a.rank[x]
    ensures x in a.atEnd ==> Base(x) in a.atEnd
  {
    assert RuleOk(a, x);
    if !IsRuleName(x) {
      var target := Named(Base(x));
      assert a.rules[x] == Pointer(target);
      assert Ok(a, target, true) && (x in a.atEnd ==> Ok(a, target, false));
      assert HeadRank(a, Pointer(target)) == HeadRank(a, target);
      assert Nullable(a, Pointer(target)) == Nullable(a, target);
      assert RuleOk(a, Base(x));
    }
  }

  ghost predicate Transfers(a: Grammar, r: Rec, b: Grammar, r': Rec, inside: bool) {
    && (Nullable(b.graph, r') ==> Nullable(a.graph, r))
    && HeadRank(b.graph, r') <= 2 * HeadRank(a.graph, r)
    && Ok(b.graph, r', inside)
  }

  lemma {:induction false} AnnotationsTransfer(a: Grammar, r: Rec, b: Grammar, r': Rec, inside: bool)
    requires WellFormed(a.graph) && Ok(a.graph, r, inside) && Annotated(a, b)
    requires Similar(a, r, b, r') && Owned(b.graph.alts, r') && Refers(r', x => x in b.graph.rules)
    ensures Transfers(a, r, b, r', inside)
    decreases r
  {
    match r {
      case CharRec(_, _) =>
      case CharRange(_, _) =>
      case Literal(_) =>
      case Sequence(es) => SequenceTransfers(a, es, b, r'.es, inside);
      case Selector(_, es) => SelectorTransfers(a, es, b, r'.es, inside);
      case Loop(body, _, _) => AnnotationsTransfer(a, body, b, r'.body, true);
      case Alias(target) => AnnotationsTransfer(a, target, b, r'.target, inside);
      case Named(x) =>
        ReferenceAnnotated(a.graph, x);
    }
  }

  lemma {:induction false} SequenceTransfers(a: Grammar, es: Recs, b: Grammar, es': Recs, inside: bool)
    requires WellFormed(a.graph) && OkSequence(a.graph, es, inside) && Annotated(a, b)
    requires SimilarAll(a, es, b, es') && OwnedAll(b.graph.alts, es') && RefersAll(es', x => x in b.graph.rules)
    ensures AllNullable(b.graph, es') ==> AllNullable(a.graph, es)
    ensures SequenceRank(b.graph, es') <= 2 * SequenceRank(a.graph, es)
    ensures OkSequence(b.graph, es', inside)
    decreases es
  {
    if es.Cons? {
      AnnotationsTransfer(a, es.head, b, es'.head, inside);
      SequenceTransfers(a, es.tail, b, es'.tail, false);
    }
  }

  lemma {:induction false} SelectorTransfers(a: Grammar, es: Recs, b: Grammar, es': Recs, inside: bool)
    requires WellFormed(a.graph) && OkAll(a.graph, es, inside) && Annotated(a, b)
    requires SimilarAll(a, es, b, es') && OwnedAll(b.graph.alts, es') && RefersAll(es', x => x in b.graph.rules)
    ensures AnyNullable(b.graph, es') ==> AnyNullable(a.graph, es)
    ensures SelectorRank(b.graph, es') <= 2 * SelectorRank(a.graph, es)
    ensures OkAll(b.graph, es', inside)
    decreases es
  {
    if es.Cons? {
      AnnotationsTransfer(a, es.head, b, es'.head, inside);
      SelectorTransfers(a, es.tail, b, es'.tail, inside);
    }
  }

  /** `b` holds the rules of `a` and placeholders for some of them, and nothing else. */
  ghost predicate LoadedFrom(a: Grammar, b: Grammar) {
    && Annotated(a, b) && SimilarGrammars(a, b)
    && (forall x :: x in b.graph.rules && IsRuleName(x) ==>
          && x in a.graph.rules && !b.graph.rules[x].Named?
          && Owned(b.graph.alts, b.graph.rules[x]) && Refers(b.graph.rules[x], y => y in b.graph.rules))
    && (forall x :: x in b.graph.rules && !IsRuleName(x) ==> Base(x) in b.graph.rules)
  }

  lemma LoadedWellFormed(a: Grammar, b: Grammar)
    requires WellFormed(a.graph) && LoadedFrom(a, b)
    ensures WellFormed(b.graph)
  {
    forall x | x in b.graph.rules
      ensures RuleOk(b.graph, x)
    {
      var base := Base(x);
      assert base in b.graph.rules && IsRuleName(base);
      assert RuleOk(a.graph, base);
      if IsRuleName(x) {
        var r, r' := a.graph.rules[x], b.graph.rules[x];
        AnnotationsTransfer(a, r, b, r', true);
        if x in b.graph.atEnd {
          AnnotationsTransfer(a, r, b, r', false);
        }
      } else {
        assert b.graph.rules[x] == Pointer(Named(base));
        assert Ok(b.graph, Named(base), true) && (base in b.graph.atEnd ==> Ok(b.graph, Named(base), false));
        assert Nullable(b.graph, Pointer(Named(base))) == Nullable(b.graph, Named(base));
        assert HeadRank(b.graph, Pointer(Named(base))) == HeadRank(b.graph, Named(base));
      }
    }
  }

  /** Every rule matches and assigns the same after loading, on every input and whatever the handlers. */
  lemma LoadedMatchesSame(a: Grammar, b: Grammar, t: Table, h: Name, x: Name, s: Bytes, pos: nat)
    requires WellFormed(a.graph) && LoadedFrom(a, b) && ForRules(t)
    requires IsRuleName(x) && Ready(a.graph, Named(x), s, pos)
    ensures WellFormed(b.graph) && Ready(b.graph, Named(x), s, pos)
    ensures Parse(b, t, h, Named(x), s, pos) == Parse(a, t, h, Named(x), s, pos)
    ensures ParseRule(b, t, h, x, s, pos) == ParseRule(a, t, h, x, s, pos)
  {
    LoadedWellFormed(a, b);
    SimilarParsed(a, b, t, h, Named(x), Named(x), s, pos);
    ReferenceResolved(a, t, h, x, s, pos);
    ReferenceResolved(b, t, h, x, s, pos);
    SimilarBody(a, b, t, h, a.graph.rules[x], b.graph.rules[x], s, pos);
  }

  /** What `save` can write without loss: the rules of `order`, each under its own name, closed under
      references, with octets and 32-bit integers where those are written. */
  ghost predicate Saveable(a: Grammar, kinds: set<nat>, order: seq<Name>) {
    && WellFormed(a.graph) && Resolved(a.graph) && kinds <= a.exclusive
    && (forall i, j :: 0 <= i < j < |order| ==> order[i] != order[j])
    && (forall x :: x in order ==> IsFileName(x) && x in a.graph.rules && SaveableRule(a.graph.rules[x], order))
    && (forall x :: x in a.graph.rules && IsRuleName(x) ==> x in order)
  }

  ghost predicate SaveableRule(r: Rec, order: seq<Name>) {
    Encodable(r) && !r.Named? && InNames(r, set x | x in order)
  }

  predicate WritableRules(a: Grammar, order: seq<Name>) {
    forall x :: x in order ==> x in a.graph.rules && Writable(a.graph.rules[x]) && IsFileName(x)
  }

  function EncodeRules(a: Grammar, kinds: set<nat>, order: seq<Name>): (bs: Bytes)
    requires WritableRules(a, order)
    decreases |order|
  {
    if order == [] then []
    else
      var x := order[0];
      assert x in order && IsFileName(x);
      Encode(a, kinds, a.graph.rules[x], x) + EncodeRules(a, kinds, order[1..])
  }

  /** "#!belr" */
  lemma MagicOctets()
    ensures Octets(MAGIC) + [0] == [35, 33, 98, 101, 108, 114, 0]
  {
  }

  method Save(a: Grammar, kinds: set<nat>, name: Name, order: seq<Name>) returns (data: Bytes)
    requires WritableRules(a, order) && IsCString(name)
    ensures data == (Octets(MAGIC) + [0]) + ((Octets(name) + [0]) + EncodeRules(a, kinds, order))
    ensures |data| >= 7 && data[..7] == [35, 33, 98, 101, 108, 114, 0]
  {
    MagicOctets();
    hide Octets, Encode;
    var out := new BinaryOutputStream();
    out.WriteString(Octets(MAGIC));
    out.WriteString(Octets(name));
    ghost var header := (Octets(MAGIC) + [0]) + (Octets(name) + [0]);
    assert out.data == header;
    var i := 0;
    assert order[0..] == order;
    while i < |order|
      invariant 0 <= i <= |order|
      invariant out.data + EncodeRules(a, kinds, order[i..]) == header + EncodeRules(a, kinds, order)
    {
      ghost var before, head, tail := out.data, Encode(a, kinds, a.graph.rules[order[i]], order[i]),
          EncodeRules(a, kinds, order[i + 1..]);
      assert order[i..][1..] == order[i + 1..] && order[i..][0] == order[i];
      assert before + (head + tail) == before + head + tail;
      Serialize(out, a, kinds, a.graph.rules[order[i]], order[i]);
      i := i + 1;
    }
    data := out.data;
    ghost var rules := EncodeRules(a, kinds, order);
    assert header + rules == (Octets(MAGIC) + [0]) + ((Octets(name) + [0]) + rules);
  }

  ghost function Loaded(a: Grammar, b: BinaryGrammarBuilder): Grammar
    requires b.Valid()
    reads b, b.table, b.table.pointers
  {
    Grammar(LoadedGraph(a.graph, Nodes(b.table), b.alts), b.exclusive)
  }

  /** The first `i` rules of `order` have been read. */
  ghost predicate Read(a: Grammar, order: seq<Name>, now: Snapshot, i: int) {
    && 0 <= i <= |order|
    && (forall x :: x in order[..i] ==> x in a.graph.rules && x in now.rules && now.rules[x].Rule? && ReadAs(a, x, now))
    && (forall x :: x in now.rules ==> x in order && (now.rules[x].Rule? ==> x in order[..i]))
  }

  ghost predicate ReadAs(a: Grammar, x: Name, now: Snapshot)
    requires x in a.graph.rules && x in now.rules && now.rules[x].Rule?
  {
    Similar(a, a.graph.rules[x], now.built, now.rules[x].body) && Owned(now.built.graph.alts, now.rules[x].body)
  }

  lemma ReadStill(a: Grammar, order: seq<Name>, now: Snapshot, later: Snapshot, i: int, names: set<Name>)
    requires Read(a, order, now, i) && Extends(now, later, names) && forall x :: x in names ==> x in order
    ensures Read(a, order, later, i)
  {
    forall x | x in order[..i]
      ensures ReadAs(a, x, later)
    {
      assert ReadAs(a, x, now);
      SimilarLater(a, a.graph.rules[x], now.built, now.rules[x].body, later.built);
    }
  }

  lemma ReadNext(a: Grammar, order: seq<Name>, now: Snapshot, later: Snapshot, i: int, r: Rec)
    requires Read(a, order, now, i) && i < |order| && order[i] in a.graph.rules
    requires later.built == now.built && later.rules == now.rules[order[i] := Rule(r)]
    requires Similar(a, a.graph.rules[order[i]], now.built, r) && Owned(now.built.graph.alts, r)
    ensures Read(a, order, later, i + 1)
  {
    assert order[..i + 1] == order[..i] + [order[i]];
    forall x | x in order[..i + 1]
      ensures x in a.graph.rules && x in later.rules && later.rules[x].Rule? && ReadAs(a, x, later)
    {
      if x != order[i] {
        assert x in order[..i] && ReadAs(a, x, now);
      }
    }
  }

  /** Once everything has been read, the grammar is complete and like the one saved. */
  lemma ReadIsLoaded(a: Grammar, kinds: set<nat>, order: seq<Name>, b: BinaryGrammarBuilder)
    requires Saveable(a, kinds, order) && b.Valid() && Read(a, order, b.Now(), |order|)
    ensures forall x :: x in b.table.rules ==> b.table.rules[x].Rule?
    ensures LoadedFrom(a, Loaded(a, b))
    ensures forall x :: IsRuleName(x) ==> (x in a.graph.rules <==> x in Loaded(a, b).graph.rules)
  {
    hide BinaryGrammarBuilder.Valid, RuleTable.Valid, Nodes, WellFormed, Refers, Similar, Owned, Read, IsFileName;
    hide IsRuleName, Base, SaveableRule;
    ReadComplete(a, order, b.Now());
    BuilderTable(b);
    NodesResolved(b.table);
    var l, nodes := Loaded(a, b), Nodes(b.table);
    forall x | x in order
      ensures Similar(a, a.graph.rules[x], l, nodes[x]) && Owned(l.graph.alts, nodes[x])
    {
      assert ReadAs(a, x, b.Now());
      SimilarLater(a, a.graph.rules[x], b.Built(), nodes[x], l);
    }
  }

  lemma ReadComplete(a: Grammar, order: seq<Name>, now: Snapshot)
    requires Read(a, order, now, |order|)
    ensures forall x :: x in now.rules <==> x in order
    ensures forall x :: x in order ==> x in a.graph.rules && now.rules[x].Rule? && ReadAs(a, x, now)
  {
    assert order[..|order|] == order;
  }

  lemma BuilderTable(b: BinaryGrammarBuilder)
    requires b.Valid()
    ensures b.table.Valid()
  {
  }

  lemma EncodeRulesOk(a: Grammar, kinds: set<nat>, order: seq<Name>)
    requires Saveable(a, kinds, order)
    ensures WritableRules(a, order)
  {
  }

  lemma NothingRead(a: Grammar, order: seq<Name>, b: BinaryGrammarBuilder)
    requires b.table.rules == map[]
    ensures Read(a, order, b.Now(), 0)
  {
  }

  lemma NotReadYet(a: Grammar, order: seq<Name>, now: Snapshot, i: int)
    requires Read(a, order, now, i) && i < |order| && order[i] !in order[..i]
    ensures order[i] in now.rules ==> now.rules[order[i]].Placeholder?
  {
  }

  lemma Distinct(a: Grammar, kinds: set<nat>, order: seq<Name>, i: int)
    requires Saveable(a, kinds, order) && 0 <= i < |order|
    ensures order[i] !in order[..i] && order[i] in a.graph.rules && kinds <= a.exclusive
    ensures IsFileName(order[i]) && SaveableRule(a.graph.rules[order[i]], order)
  {
    assert order[i] in order;
  }

  method AddRead(b: BinaryGrammarBuilder, ghost a: Grammar, ghost order: seq<Name>, ghost i: nat, rule: Rec, name: Name)
    requires b.Valid() && Read(a, order, b.Now(), i) && i < |order| && order[i] !in order[..i] && name == order[i]
    requires IsFileName(name) && name in a.graph.rules && b.BuiltAs(a, a.graph.rules[name], rule) && !rule.Named?
    modifies b.table, b.table.PointerSet()
    ensures b.Valid() && Read(a, order, b.Now(), i + 1) && b.table.PointerSet() == old(b.table.PointerSet())
  {
    hide Read, Similar, Owned, Writable, Lossless;
    ghost var now := b.Now();
    NotReadYet(a, order, now, i);
    b.table.AddRule(name, rule);
    ReadNext(a, order, now, b.Now(), i, rule);
  }

  /** Reads one top-level rule and adds it to the grammar under its name. */
  method LoadRule(b: BinaryGrammarBuilder, ghost a: Grammar, ghost kinds: set<nat>, ghost order: seq<Name>,
                  ghost i: nat)
    requires b.Valid() && Saveable(a, kinds, order) && Read(a, order, b.Now(), i) && i <= |order|
    requires Holds(b.input.data, b.input.pos, EncodeRules(a, kinds, order[i..]))
    requires b.input.pos < |b.input.data| == b.input.pos + |EncodeRules(a, kinds, order[i..])|
    modifies b, b.input, b.table, b.table.PointerSet()
    ensures b.Valid() && i < |order| && Read(a, order, b.Now(), i + 1)
    ensures Holds(b.input.data, b.input.pos, EncodeRules(a, kinds, order[i + 1..]))
    ensures |b.input.data| == b.input.pos + |EncodeRules(a, kinds, order[i + 1..])|
    ensures fresh(b.table.PointerSet() - old(b.table.PointerSet()))
  {
    hide Octets, Encode, Holds, Read, Extends, Similar, Owned, Writable, Lossless, Saveable, WellFormed;
    ghost var before := b.Now();
    assert order[i..] != [];
    Distinct(a, kinds, order, i);
    EncodeRulesOk(a, kinds, order);
    ghost var names, x := (set y | y in order), order[i];
    assert order[i..][0] == x && order[i..][1..] == order[i + 1..];
    assert x in order && IsFileName(x) && SaveableRule(a.graph.rules[x], order);
    HoldsBoth(b.input.data, b.input.pos, Encode(a, kinds, a.graph.rules[x], x), EncodeRules(a, kinds, order[i + 1..]));
    var rule, name := b.Build(a, kinds, names, a.graph.rules[x], x);
    if name == [] {
      assert false;
    }
    ReadStill(a, order, before, b.Now(), i, names);
    AddRead(b, a, order, i, rule, name);
  }

  /** A file is taken for a grammar exactly if it starts with these octets. */
  lemma MagicIs(x: Name)
    requires IsCString(x)
    ensures x == MAGIC <==> Octets(x) == [35, 33, 98, 101, 108, 114]
  {
    var bs := Octets(x);
    if bs == [35, 33, 98, 101, 108, 114] {
      assert forall i :: 0 <= i < 6 ==> x[i] == bs[i] as char;
    }
  }

  /** Reads a binary grammar file: fails unless it starts with the magic string. */
  method Load(data: Bytes, ghost magic: Name, ghost name: Name, ghost a: Grammar, ghost kinds: set<nat>,
              ghost order: seq<Name>)
    returns (err: int, b: BinaryGrammarBuilder)
    requires IsCString(magic) && IsCString(name) && Saveable(a, kinds, order)
    requires if magic == MAGIC
             then data == (Octets(magic) + [0]) + ((Octets(name) + [0]) + EncodeRules(a, kinds, order))
             else Octets(magic) + [0] <= data
    ensures fresh(b) && b.Valid() && err == if magic == MAGIC then 0 else -1
    ensures err == 0 ==> LoadedFrom(a, Loaded(a, b)) && forall p :: p in b.table.pointers ==> p.pointed == Some(p.name)
    ensures err == 0 ==> forall x :: IsRuleName(x) ==> (x in a.graph.rules <==> x in Loaded(a, b).graph.rules)
  {
    hide Octets, Encode, Saveable, Read, LoadedFrom, Nodes, IsRuleName, Loaded;
    EncodeRulesOk(a, kinds, order);
    b := new BinaryGrammarBuilder(data);
    assert Read(a, order, b.Now(), 0) by {
      NothingRead(a, order, b);
    }
    assert Holds(data, 0, Octets(magic) + [0]) by {
      assert data[0..|magic| + 1] == Octets(magic) + [0];
    }
    var read := b.ReadName(magic);
    if ToName(read) != MAGIC {
      return -1, b;
    }
    var gramName := b.ReadName(name);
    ghost var i := 0;
    assert order[0..] == order;
    while b.input.pos < |data|
      invariant b.Valid() && fresh(b) && fresh(b.input) && fresh(b.table) && b.input.data == data
      invariant fresh(b.table.PointerSet())
      invariant 0 <= i <= |order| && Read(a, order, b.Now(), i)
      invariant Holds(data, b.input.pos, EncodeRules(a, kinds, order[i..]))
      invariant b.input.pos + |EncodeRules(a, kinds, order[i..])| == |data|
      decreases |order| - i
    {
      LoadRule(b, a, kinds, order, i);
      i := i + 1;
    }
    assert i == |order|;
    ReadIsLoaded(a, kinds, order, b);
    var complete := b.table.IsComplete();
    err := if complete then 0 else -1;
  }
}