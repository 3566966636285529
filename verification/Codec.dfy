/** The binary form of recognizers: what is written for each kind, and how it is read back. */
module Codec {
  import opened Bytes
  import opened Recognizers
  import opened BinaryStreams
  import opened Grammars
  import opened Identities
  import opened Similarity

  const CHAR_RECOGNIZER_ID: Byte := 1
  const SELECTOR_ID: Byte := 2
  const EXCLUSIVE_SELECTOR_ID: Byte := 3
  const SEQUENCE_ID: Byte := 4
  const LOOP_ID: Byte := 5
  const CHAR_RANGE_ID: Byte := 6
  const LITERAL_ID: Byte := 7
  const ALIAS_ID: Byte := 9
  const RULE_REF_ID: Byte := 10

  /** A rule name that can be written, and that looking it up again leaves alone. */
  predicate IsFileName(x: Name) {
    IsCString(x) && IsRuleName(x) && Lower(x) == x
  }

  /** What can be written: 32-bit integers where those are written, and names without NUL. Placeholders
      are not written: what they point to is. */
  predicate Writable(r: Rec) {
    match r
    case CharRec(_, _) => true
    case CharRange(_, _) => true
    case Literal(_) => true
    case Sequence(es) => Count(es) < TWO_TO_THE_31 && WritableAll(es)
    case Selector(_, es) => Count(es) < TWO_TO_THE_31 && WritableAll(es)
    case Loop(body, min, max) => IsInt32(min) && IsInt32(max) && Writable(body)
    case Pointer(_) => false
    case Alias(target) => Writable(target)
    case Named(x) => IsFileName(Base(x))
  }

  predicate WritableAll(es: Recs) {
    es.Cons? ==> Writable(es.head) && WritableAll(es.tail)
  }

  /** What is written without loss: characters that are octets, and literals without NUL. */
  predicate Lossless(r: Rec) {
    match r
    case CharRec(c, _) => 0 <= c < 256
    case CharRange(lo, hi) => 0 <= lo < 256 && 0 <= hi < 256
    case Literal(lit) => forall i :: 0 <= i < |lit| ==> lit[i] != 0
    case Sequence(es) => LosslessAll(es)
    case Selector(_, es) => LosslessAll(es)
    case Loop(body, _, _) => Lossless(body)
    case Pointer(target) => Lossless(target)
    case Alias(target) => Lossless(target)
    case Named(_) => true
  }

  predicate LosslessAll(es: Recs) {
    es.Cons? ==> Lossless(es.head) && LosslessAll(es.tail)
  }

  predicate Encodable(r: Rec) {
    Writable(r) && Lossless(r)
  }

  predicate EncodableAll(es: Recs) {
    WritableAll(es) && LosslessAll(es)
  }

  /** A character is written as an unsigned char. */
  function Truncated(c: int): Byte {
    c % 256
  }

  function BoolByte(b: bool): Byte {
    if b then 1 else 0
  }

  function TypeId(subclass: set<nat>, r: Rec): Byte
    requires Writable(r)
  {
    match r
    case CharRec(_, _) => CHAR_RECOGNIZER_ID
    case CharRange(_, _) => CHAR_RANGE_ID
    case Literal(_) => LITERAL_ID
    case Sequence(_) => SEQUENCE_ID
    case Selector(sel, _) => if sel in subclass then EXCLUSIVE_SELECTOR_ID else SELECTOR_ID
    case Loop(_, _, _) => LOOP_ID
    case Alias(_) => ALIAS_ID
    case Named(_) => RULE_REF_ID
  }

  /** What the file holds for `r`, under the name it carries if it is a rule of its own. `g` tells
      which selectors are flagged exclusive, `subclass` which are of the class that always is. */
  function Encode(g: Grammar, subclass: set<nat>, r: Rec, name: Name): (bs: Bytes)
    requires Writable(r) && IsCString(name)
    ensures |bs| > 0
    decreases r, 1
  {
    if r.Named? then [RULE_REF_ID] + (Octets(Base(r.name)) + [0])
    else [TypeId(subclass, r)] + ((Octets(name) + [0]) + Payload(g, subclass, r))
  }

  function Payload(g: Grammar, subclass: set<nat>, r: Rec): (bs: Bytes)
    requires Writable(r) && !r.Named?
    decreases r, 0
  {
    match r
    case CharRec(c, caseSensitive) => [Truncated(c)] + [BoolByte(caseSensitive)]
    case CharRange(lo, hi) => [Truncated(lo)] + [Truncated(hi)]
    case Literal(lit) => lit + [0]
    case Sequence(es) => IntBytes(Count(es)) + EncodeAll(g, subclass, es)
    case Selector(sel, es) => [BoolByte(sel in g.exclusive)] + (IntBytes(Count(es)) + EncodeAll(g, subclass, es))
    case Loop(body, min, max) => IntBytes(min) + (IntBytes(max) + Encode(g, subclass, body, ""))
    case Alias(target) => Encode(g, subclass, target, "")
  }

  function EncodeAll(g: Grammar, subclass: set<nat>, es: Recs): (bs: Bytes)
    requires WritableAll(es)
    decreases es, 0
  {
    if es.Nil? then [] else Encode(g, subclass, es.head, "") + EncodeAll(g, subclass, es.tail)
  }

  lemma NodeEncoded(before: Bytes, g: Grammar, subclass: set<nat>, r: Rec, name: Name)
    requires Writable(r) && IsCString(name) && !r.Named?
    ensures before + [TypeId(subclass, r)] + (Octets(name) + [0]) + Payload(g, subclass, r) ==
            before + Encode(g, subclass, r, name)
  {
    hide Payload, TypeId, Octets;
    var id, text, payload := [TypeId(subclass, r)], Octets(name) + [0], Payload(g, subclass, r);
    assert before + id + text + payload == before + (id + (text + payload));
  }

  /** Characters that are equal as unsigned chars are written alike, so none but octets are read back. */
  lemma WideCharacterLost(g: Grammar, subclass: set<nat>, c: int, caseSensitive: bool, name: Name)
    requires IsCString(name)
    ensures Encode(g, subclass, CharRec(c, caseSensitive), name) ==
            Encode(g, subclass, CharRec(c % 256, caseSensitive), name)
    ensures Lossless(CharRec(c, caseSensitive)) <==> c == c % 256
  {
  }

  method Serialize(out: BinaryOutputStream, g: Grammar, subclass: set<nat>, r: Rec, name: Name)
    requires Writable(r) && IsCString(name)
    modifies out
    ensures out.data == old(out.data) + Encode(g, subclass, r, name)
    decreases r, 1
  {
    if r.Named? {
      out.WriteUChar(RULE_REF_ID);
      out.WriteString(Octets(Base(r.name)));
    } else {
      hide Payload, Encode, TypeId, Octets;
      NodeEncoded(out.data, g, subclass, r, name);
      out.WriteUChar(TypeId(subclass, r));
      out.WriteString(Octets(name));
      SerializePayload(out, g, subclass, r);
    }
  }

  method SerializePayload(out: BinaryOutputStream, g: Grammar, subclass: set<nat>, r: Rec)
    requires Writable(r) && !r.Named?
    modifies out
    ensures out.data == old(out.data) + Payload(g, subclass, r)
    decreases r, 0
  {
    hide IntBytes, Encode, EncodeAll;
    match r {
      case CharRec(c, caseSensitive) =>
        out.WriteUChar(Truncated(c));
        out.WriteUChar(BoolByte(caseSensitive));
      case CharRange(lo, hi) =>
        out.WriteUChar(Truncated(lo));
        out.WriteUChar(Truncated(hi));
      case Literal(lit) =>
        out.WriteString(lit);
      case Sequence(es) =>
        out.WriteInt(Count(es));
        SerializeAll(out, g, subclass, es);
      case Selector(sel, es) =>
        out.WriteUChar(BoolByte(sel in g.exclusive));
        out.WriteInt(Count(es));
        SerializeAll(out, g, subclass, es);
      case Loop(body, min, max) =>
        out.WriteInt(min);
        out.WriteInt(max);
        Serialize(out, g, subclass, body, "");
      case Alias(target) =>
        Serialize(out, g, subclass, target, "");
    }
  }

  method SerializeAll(out: BinaryOutputStream, g: Grammar, subclass: set<nat>, es: Recs)
    requires WritableAll(es)
    modifies out
    ensures out.data == old(out.data) + EncodeAll(g, subclass, es)
    decreases es, 0
  {
    var it := es;
    while it.Cons?
      invariant WritableAll(it) && (it == es || it < es)
      invariant out.data + EncodeAll(g, subclass, it) == old(out.data) + EncodeAll(g, subclass, es)
      decreases it
    {
      ghost var head, tail := Encode(g, subclass, it.head, ""), EncodeAll(g, subclass, it.tail);
      assert out.data + (head + tail) == out.data + head + tail;
      Serialize(out, g, subclass, it.head, "");
      it := it.tail;
    }
  }

  function ToName(bs: Bytes): (x: Name) {
    seq(|bs|, i requires 0 <= i < |bs| => bs[i] as char)
  }

  /** `b'` is `b` with more selectors. */
  ghost predicate MoreSelectors(b: Grammar, b': Grammar) {
    && (forall sel :: sel in b.graph.alts ==> sel in b'.graph.alts && b'.graph.alts[sel] == b.graph.alts[sel])
    && (forall sel :: sel in b.graph.alts ==> (sel in b'.exclusive <==> sel in b.exclusive))
  }

  lemma {:induction false} SimilarLater(a: Grammar, r: Rec, b: Grammar, r': Rec, b': Grammar)
    requires Similar(a, r, b, r') && Owned(b.graph.alts, r') && MoreSelectors(b, b')
    ensures Similar(a, r, b', r') && Owned(b'.graph.alts, r')
    decreases r
  {
    match r {
      case CharRec(_, _) =>
      case CharRange(_, _) =>
      case Literal(_) =>
      case Sequence(es) => SimilarAllLater(a, es, b, r'.es, b');
      case Selector(_, es) => SimilarAllLater(a, es, b, r'.es, b');
      case Loop(body, _, _) => SimilarLater(a, body, b, r'.body, b');
      case Alias(target) => SimilarLater(a, target, b, r'.target, b');
      case Named(_) =>
    }
  }

  lemma {:induction false} SimilarAllLater(a: Grammar, es: Recs, b: Grammar, es': Recs, b': Grammar)
    requires SimilarAll(a, es, b, es') && OwnedAll(b.graph.alts, es') && MoreSelectors(b, b')
    ensures SimilarAll(a, es, b', es') && OwnedAll(b'.graph.alts, es')
    decreases es
  {
    if es.Cons? {
      SimilarLater(a, es.head, b, es'.head, b');
      SimilarAllLater(a, es.tail, b, es'.tail, b');
    }
  }

  lemma {:induction false} SimilarAppended(a: Grammar, es: Recs, e: Rec, b: Grammar, es': Recs, e': Rec)
    requires SimilarAll(a, es, b, es') && OwnedAll(b.graph.alts, es') && Similar(a, e, b, e') && Owned(b.graph.alts, e')
    ensures SimilarAll(a, Append(es, e), b, Append(es', e')) && OwnedAll(b.graph.alts, Append(es', e'))
    decreases es
  {
    if es.Cons? {
      SimilarAppended(a, es.tail, e, b, es'.tail, e');
    }
  }

  function Concat(es: Recs, fs: Recs): Recs {
    if es.Nil? then fs else Cons(es.head, Concat(es.tail, fs))
  }

  lemma {:induction false} ConcatAppended(es: Recs, e: Rec, fs: Recs)
    ensures Concat(Append(es, e), fs) == Concat(es, Cons(e, fs)) && Concat(es, Nil) == es
  {
    if es.Cons? {
      ConcatAppended(es.tail, e, fs);
    }
  }

  /** What has been built and handed out at some point. */
  datatype Snapshot = Snapshot(built: Grammar, rules: map<Name, Entry>, pointers: seq<RecognizerPointer>)

  /** Selectors and placeholders have been added, the latter for names in `names` only. */
  ghost predicate Extends(a: Snapshot, b: Snapshot, names: set<Name>) {
    && MoreSelectors(a.built, b.built) && a.pointers <= b.pointers
    && (forall x :: x in a.rules ==> x in b.rules && b.rules[x] == a.rules[x])
    && (forall x :: x in b.rules && x !in a.rules ==> x in names && b.rules[x].Placeholder?)
  }

  lemma ExtendedBySelector(a: Snapshot, b: Snapshot, names: set<Name>)
    requires MoreSelectors(a.built, b.built) && b.rules == a.rules && b.pointers == a.pointers
    ensures Extends(a, b, names)
  {
  }

  lemma ExtendsTwice(a: Snapshot, b: Snapshot, c: Snapshot, names: set<Name>)
    requires Extends(a, b, names) && Extends(b, c, names)
    ensures Extends(a, c, names)
  {
  }

  /** Builds recognizers from a stream, looking rules up in the grammar being loaded. */
  class BinaryGrammarBuilder {
    const input: BinaryInputStream
    const table: RuleTable
    var alts: map<nat, Recs>
    var exclusive: set<nat>
    var subclass: set<nat>
    var next: nat

    ghost predicate Valid()
      reads this, table, table.pointers
    {
      table.Valid() && exclusive <= alts.Keys && subclass <= exclusive && forall sel :: sel in alts ==> sel < next
    }

    ghost function Built(): Grammar
      reads this
    {
      Grammar(Graph(map[], {}, map[], {}, alts), exclusive)
    }

    constructor (data: Bytes)
      ensures Valid() && fresh(input) && fresh(table) && input.data == data && input.pos == 0
      ensures table.rules == map[] && table.pointers == [] && alts == map[]
    {
      input := new BinaryInputStream(data);
      table := new RuleTable();
      alts, exclusive, subclass, next := map[], {}, {}, 0;
    }

    ghost function Now(): Snapshot
      reads this, table
    {
      Snapshot(Built(), table.rules, table.pointers)
    }

    method NewSelector(es: Recs, isExclusive: bool, isSubclass: bool) returns (r: Rec)
      requires Valid()
      modifies this`alts, this`exclusive, this`subclass, this`next
      ensures Valid() && MoreSelectors(old(Built()), Built())
      ensures r.Selector? && r.es == es && r.sel in alts && alts[r.sel] == es
      ensures r.sel in exclusive <==> isExclusive || isSubclass
    {
      var sel := next;
      next := next + 1;
      alts := alts[sel := es];
      if isExclusive || isSubclass {
        exclusive := exclusive + {sel};
      }
      if isSubclass {
        subclass := subclass + {sel};
      }
      r := Selector(sel, es);
    }

    /** `r'` is what `r` was written as, made of what has been built and handed out so far. */
    ghost predicate BuiltAs(a: Grammar, r: Rec, r': Rec)
      reads this, table, table.pointers
    {
      Similar(a, r, Built(), r') && Owned(alts, r') && Refers(r', table.Handed())
    }

    ghost predicate BuiltAllAs(a: Grammar, es: Recs, es': Recs)
      reads this, table, table.pointers
    {
      SimilarAll(a, es, Built(), es') && OwnedAll(alts, es') && RefersAll(es', table.Handed())
    }

    /** Reads back one recognizer, of which `r` was written under `name`, and nothing more. */
    method Build(ghost a: Grammar, ghost kinds: set<nat>, ghost names: set<Name>, ghost r: Rec, ghost name: Name)
      returns (r': Rec, name': Name)
      requires Valid() && kinds <= a.exclusive && Encodable(r) && IsCString(name) && InNames(r, names)
      requires Holds(input.data, input.pos, Encode(a, kinds, r, name))
      modifies this`alts, this`exclusive, this`subclass, this`next, input, table
      ensures Valid() && Extends(old(Now()), Now(), names) && fresh(table.PointerSet() - old(table.PointerSet()))
      ensures BuiltAs(a, r, r')
      ensures input.pos == old(input.pos) + |Encode(a, kinds, r, name)|
      ensures !r.Named? ==> !r'.Named? && name' == name
      decreases r, 2
    {
      hide Encode, Holds, Valid, Extends, Now, BuiltAs, TypeId;
      ghost var start := input.pos;
      if r.Named? {
        EncodedReference(input.data, start, a, kinds, r, name);
      } else {
        EncodedNode(input.data, start, a, kinds, r, name);
      }
      var id := input.ReadUChar();
      if id == RULE_REF_ID {
        r' := BuildReference(a, names, r);
        name' := "";
      } else {
        var bs := ReadName(name);
        name' := ToName(bs);
        r' := BuildPayload(id, a, kinds, names, r);
      }
    }

    /** A reference to a rule, which may not have been loaded yet. */
    method BuildReference(ghost a: Grammar, ghost names: set<Name>, ghost r: Rec) returns (r': Rec)
      requires Valid() && r.Named? && Encodable(r) && InNames(r, names)
      requires Holds(input.data, input.pos, Octets(Base(r.name)) + [0])
      modifies input, table
      ensures Valid() && Extends(old(Now()), Now(), names) && fresh(table.PointerSet() - old(table.PointerSet()))
      ensures BuiltAs(a, r, r')
      ensures input.pos == old(input.pos) + |Base(r.name)| + 1
    {
      var bs := ReadName(Base(r.name));
      r' := LookUp(ToName(bs), a, names, r);
    }

    method LookUp(x: Name, ghost a: Grammar, ghost names: set<Name>, ghost r: Rec) returns (r': Rec)
      requires Valid() && r.Named? && x == Base(r.name) && IsFileName(x) && InNames(r, names)
      modifies table
      ensures Valid() && Extends(old(Now()), Now(), names) && fresh(table.PointerSet() - old(table.PointerSet()))
      ensures BuiltAs(a, r, r')
    {
      r' := table.GetRule(x);
      assert Base(Deferred(x)) == x;
    }

    method BuildPayload(id: Byte, ghost a: Grammar, ghost kinds: set<nat>, ghost names: set<Name>,
                        ghost r: Rec) returns (r': Rec)
      requires Valid() && kinds <= a.exclusive && Encodable(r) && InNames(r, names) && !r.Named? &&
              id == TypeId(kinds, r)
      requires Holds(input.data, input.pos, Payload(a, kinds, r))
      modifies this`alts, this`exclusive, this`subclass, this`next, input, table
      ensures Valid() && Extends(old(Now()), Now(), names) && fresh(table.PointerSet() - old(table.PointerSet()))
      ensures BuiltAs(a, r, r')
      ensures input.pos == old(input.pos) + |Payload(a, kinds, r)|
      ensures !r'.Named?
      decreases r, 1
    {
      hide IntBytes, Encode, EncodeAll, Holds, Extends, Now, Valid;
      ghost var data, start := input.data, input.pos;
      NothingBuilt(a, names);
      if id == CHAR_RECOGNIZER_ID || id == CHAR_RANGE_ID || id == LITERAL_ID {
        r' := BuildTerminal(id, a, kinds, r);
      } else if id == SEQUENCE_ID {
        HoldsBoth(data, start, IntBytes(Count(r.es)), EncodeAll(a, kinds, r.es));
        var count := ReadInt(Count(r.es));
        var es := BuildAll(count, a, kinds, names, r.es);
        r' := Sequence(es);
      } else if id == SELECTOR_ID || id == EXCLUSIVE_SELECTOR_ID {
        r' := BuildSelector(id == EXCLUSIVE_SELECTOR_ID, a, kinds, names, r);
      } else if id == LOOP_ID {
        HoldsBoth(data, start, IntBytes(r.min), IntBytes(r.max) + Encode(a, kinds, r.body, ""));
        HoldsBoth(data, start + 4, IntBytes(r.max), Encode(a, kinds, r.body, ""));
        var min := ReadInt(r.min);
        var max := ReadInt(r.max);
        var body, _ := Build(a, kinds, names, r.body, "");
        r' := Loop(body, min, max);
      } else {
        var target, _ := Build(a, kinds, names, r.target, "");
        r' := Alias(target);
      }
    }

    method BuildTerminal(id: Byte, ghost a: Grammar, ghost kinds: set<nat>, ghost r: Rec) returns (r': Rec)
      requires Encodable(r) && !r.Named? && id == TypeId(kinds, r) &&
              id in {CHAR_RECOGNIZER_ID, CHAR_RANGE_ID, LITERAL_ID}
      requires Holds(input.data, input.pos, Payload(a, kinds, r))
      modifies input
      ensures r' == r && (r.CharRec? || r.CharRange? || r.Literal?)
      ensures input.pos == old(input.pos) + |Payload(a, kinds, r)|
    {
      ghost var data, start := input.data, input.pos;
      if id == CHAR_RECOGNIZER_ID {
        HoldsBoth(data, start, [r.c], [BoolByte(r.caseSensitive)]);
        var c := ReadUChar(r.c);
        var tmp := ReadUChar(BoolByte(r.caseSensitive));
        r' := CharRec(c, tmp != 0);
      } else if id == CHAR_RANGE_ID {
        HoldsBoth(data, start, [r.lo], [r.hi]);
        var lo := ReadUChar(r.lo);
        var hi := ReadUChar(r.hi);
        r' := CharRange(lo, hi);
      } else {
        var lit := ReadOctets(r.lit);
        r' := Literal(lit);
      }
    }

    method BuildSelector(isSubclass: bool, ghost a: Grammar, ghost kinds: set<nat>, ghost names: set<Name>,
                         ghost r: Rec)
      returns (r': Rec)
      requires Valid() && kinds <= a.exclusive && Encodable(r) && InNames(r, names)
      requires r.Selector? && isSubclass == (r.sel in kinds)
      requires Holds(input.data, input.pos, Payload(a, kinds, r))
      modifies this`alts, this`exclusive, this`subclass, this`next, input, table
      ensures Valid() && Extends(old(Now()), Now(), names) && fresh(table.PointerSet() - old(table.PointerSet()))
      ensures BuiltAs(a, r, r')
      ensures input.pos == old(input.pos) + |Payload(a, kinds, r)|
      ensures !r'.Named?
      decreases r, 0
    {
      hide IntBytes, EncodeAll, Holds, Extends, MoreSelectors;
      ghost var data, start, before := input.data, input.pos, Now();
      ghost var flag: Byte := BoolByte(r.sel in a.exclusive);
      HoldsBoth(data, start, [flag], IntBytes(Count(r.es)) + EncodeAll(a, kinds, r.es));
      HoldsBoth(data, start + 1, IntBytes(Count(r.es)), EncodeAll(a, kinds, r.es));
      var tmp := ReadUChar(flag);
      var count := ReadInt(Count(r.es));
      var es := BuildAll(count, a, kinds, names, r.es);
      ghost var mid := Now();
      r' := NewSelector(es, tmp != 0, isSubclass);
      SimilarAllLater(a, r.es, mid.built, es, Built());
      ExtendedBySelector(mid, Now(), names);
      ExtendsTwice(before, mid, Now(), names);
    }

    /** Builds one more element after those of `es'`, which stay what they are. */
    method BuildElement(ghost a: Grammar, ghost kinds: set<nat>, ghost names: set<Name>, ghost r: Rec,
                        ghost es: Recs, ghost es': Recs)
      returns (r': Rec)
      requires Valid() && kinds <= a.exclusive && Encodable(r) && InNames(r, names) && BuiltAllAs(a, es, es')
      requires Holds(input.data, input.pos, Encode(a, kinds, r, ""))
      modifies this`alts, this`exclusive, this`subclass, this`next, input, table
      ensures Valid() && Extends(old(Now()), Now(), names) && fresh(table.PointerSet() - old(table.PointerSet()))
      ensures BuiltAllAs(a, Append(es, r), Append(es', r'))
      ensures input.pos == old(input.pos) + |Encode(a, kinds, r, "")|
      decreases r, 3
    {
      ghost var before, handed := Built(), table.Handed();
      var name;
      r', name := Build(a, kinds, names, r, "");
      SimilarAllLater(a, es, before, es', Built());
      SimilarAppended(a, es, r, Built(), es', r');
      HandedKept(names);
      RefersAllMore(es', handed, table.Handed());
      AppendRefers(es', r', table.Handed());
    }

    lemma NothingBuilt(a: Grammar, names: set<Name>)
      ensures BuiltAllAs(a, Nil, Nil) && Extends(Now(), Now(), names)
    {
    }

    twostate lemma HandedKept(names: set<Name>)
      requires old(Valid()) && Valid() && Extends(old(Now()), Now(), names)
      ensures forall x :: old(table.Handed())(x) ==> table.Handed()(x)
    {
    }

    method BuildAll(count: int, ghost a: Grammar, ghost kinds: set<nat>, ghost names: set<Name>, ghost es: Recs)
      returns (es': Recs)
      requires Valid() && kinds <= a.exclusive && EncodableAll(es) && AllInNames(es, names) && count == Count(es)
      requires Holds(input.data, input.pos, EncodeAll(a, kinds, es))
      modifies this`alts, this`exclusive, this`subclass, this`next, input, table
      ensures Valid() && Extends(old(Now()), Now(), names) && fresh(table.PointerSet() - old(table.PointerSet()))
      ensures BuiltAllAs(a, es, es')
      ensures input.pos == old(input.pos) + |EncodeAll(a, kinds, es)|
      decreases es, 0
    {
      hide Encode, Holds, Encodable, Extends, Now, Valid, BuiltAllAs;
      ghost var it, done, before := es, Nil, Now();
      NothingBuilt(a, names);
      var i := 0;
      es' := Nil;
      while i < count
        invariant i <= count && count - i == Count(it) && Concat(done, it) == es && (it == es || it < es)
        invariant EncodableAll(it) && AllInNames(it, names) && Holds(input.data, input.pos, EncodeAll(a, kinds, it))
        invariant input.pos + |EncodeAll(a, kinds, it)| == old(input.pos) + |EncodeAll(a, kinds, es)|
        invariant Valid() && Extends(before, Now(), names) && fresh(table.PointerSet() - old(table.PointerSet()))
        invariant BuiltAllAs(a, done, es')
      {
        HoldsBoth(input.data, input.pos, Encode(a, kinds, it.head, ""), EncodeAll(a, kinds, it.tail));
        ghost var mid := Now();
        var r := BuildElement(a, kinds, names, it.head, done, es');
        ExtendsTwice(before, mid, Now(), names);
        es' := Append(es', r);
        ConcatAppended(done, it.head, it.tail);
        done, it := Append(done, it.head), it.tail;
        i := i + 1;
      }
      ConcatAppended(done, CharRec(0, true), Nil);
    }

    method ReadUChar(ghost b: Byte) returns (r: Byte)
      requires Holds(input.data, input.pos, [b])
      modifies input
      ensures r == b && input.pos == old(input.pos) + 1
    {
      HoldsAt(input.data, input.pos, [b], 0);
      r := input.ReadUChar();
    }

    method ReadInt(ghost v: int) returns (r: int)
      requires IsInt32(v) && Holds(input.data, input.pos, IntBytes(v))
      modifies input
      ensures r == v && input.pos == old(input.pos) + 4
    {
      IntRoundTrip(v);
      r := input.ReadInt();
    }

    method ReadOctets(ghost bs: Bytes) returns (r: Bytes)
      requires Holds(input.data, input.pos, bs + [0]) && forall i :: 0 <= i < |bs| ==> bs[i] != 0
      modifies input
      ensures r == bs && input.pos == old(input.pos) + |bs| + 1
    {
      HoldsAt(input.data, input.pos, bs + [0], |bs|);
      assert input.data[input.pos + |bs|] in input.data[input.pos..] by {
        assert input.data[input.pos..][|bs|] == 0;
      }
      ghost var start := input.pos;
      r := input.ReadString();
      StringRoundTrip(input.data, start, bs, r);
    }

    method ReadName(ghost x: Name) returns (bs: Bytes)
      requires IsCString(x) && Holds(input.data, input.pos, Octets(x) + [0])
      modifies input
      ensures bs == Octets(x) && ToName(bs) == x && input.pos == old(input.pos) + |x| + 1
    {
      bs := ReadOctets(Octets(x));
    }
  }

  lemma EncodedReference(data: Bytes, pos: nat, a: Grammar, kinds: set<nat>, r: Rec, name: Name)
    requires Encodable(r) && IsCString(name) && r.Named? && Holds(data, pos, Encode(a, kinds, r, name))
    ensures pos < |data| && data[pos] == RULE_REF_ID && Holds(data, pos + 1, Octets(Base(r.name)) + [0])
    ensures |Encode(a, kinds, r, name)| == |Base(r.name)| + 2
  {
    HoldsBoth(data, pos, [RULE_REF_ID], Octets(Base(r.name)) + [0]);
    HoldsAt(data, pos, [RULE_REF_ID], 0);
  }

  lemma EncodedNode(data: Bytes, pos: nat, a: Grammar, kinds: set<nat>, r: Rec, name: Name)
    requires Encodable(r) && IsCString(name) && !r.Named? && Holds(data, pos, Encode(a, kinds, r, name))
    ensures pos < |data| && data[pos] == TypeId(kinds, r) && data[pos] != RULE_REF_ID
    ensures Holds(data, pos + 1, Octets(name) + [0]) && Holds(data, pos + |name| + 2, Payload(a, kinds, r))
    ensures |Encode(a, kinds, r, name)| == |name| + 2 + |Payload(a, kinds, r)|
  {
    hide Payload;
    HoldsBoth(data, pos, [TypeId(kinds, r)], (Octets(name) + [0]) + Payload(a, kinds, r));
    HoldsAt(data, pos, [TypeId(kinds, r)], 0);
    HoldsBoth(data, pos + 1, Octets(name) + [0], Payload(a, kinds, r));
  }

  ghost predicate InNames(r: Rec, names: set<Name>) {
    Refers(r, x => Base(x) in names)
  }

  ghost predicate AllInNames(es: Recs, names: set<Name>) {
    RefersAll(es, x => Base(x) in names)
  }
}