/** The binary form of grammars, octet by octet: the numbers of the kinds of recognizers, and what follows them. */
module FileFormat {
  import opened Bytes
  import opened Recognizers
  import opened BinaryStreams
  import opened Grammars
  import opened Codec
  import Words

  /** A name as it is written: its characters, one octet each, and a 0. */
  ghost predicate IsText(x: Name, bs: Bytes) {
    |bs| == |x| + 1 && bs[|x|] == 0 && forall i :: 0 <= i < |x| ==> bs[i] as int == x[i] as int
  }

  lemma NameText(x: Name)
    requires IsCString(x)
    ensures IsText(x, Octets(x) + [0])
  {
  }

  /** A reference: 10 and the name of the rule, without the sign of a placeholder. */
  lemma ReferenceFormat(g: Grammar, kinds: set<nat>, x: Name, name: Name) returns (text: Bytes)
    requires Writable(Named(x)) && IsCString(name)
    ensures IsText(if x[0] == '@' then x[1..] else x, text)
    ensures Encode(g, kinds, Named(x), name) == [10] + text
  {
    text := Octets(Base(x)) + [0];
    NameText(Base(x));
  }

  /** The other terminals: 1 for a character, with its case sensitivity, 6 for a range and 7 for a literal. */
  lemma TerminalFormat(g: Grammar, kinds: set<nat>, c: int, sensitive: bool, lo: int, hi: int, lit: Bytes, name: Name)
    returns (text: Bytes)
    requires IsCString(name)
    ensures IsText(name, text)
    ensures Encode(g, kinds, CharRec(c, sensitive), name) == [1] + text + [c % 256, if sensitive then 1 else 0]
    ensures Encode(g, kinds, CharRange(lo, hi), name) == [6] + text + [lo % 256, hi % 256]
    ensures Encode(g, kinds, Literal(lit), name) == [7] + text + lit + [0]
  {
    text := Octets(name) + [0];
    NameText(name);
  }

  /** What is written for each of a list of recognizers, in order. */
  ghost predicate AreWritten(g: Grammar, kinds: set<nat>, rs: seq<Rec>, parts: seq<Bytes>) {
    |parts| == |rs| && forall i :: 0 <= i < |rs| ==> Writable(rs[i]) && parts[i] == Encode(g, kinds, rs[i], "")
  }

  lemma {:induction false} ListWritten(g: Grammar, kinds: set<nat>, es: Recs) returns (parts: seq<Bytes>)
    requires WritableAll(es)
    ensures AreWritten(g, kinds, Listed(es), parts) && EncodeAll(g, kinds, es) == Words.Flat(parts)
    ensures Count(es) == |parts|
    decreases es
  {
    hide Encode, Writable;
    parts := [];
    if es.Cons? {
      var rest := ListWritten(g, kinds, es.tail);
      parts := [Encode(g, kinds, es.head, "")] + rest;
      Words.FlatFirst(Encode(g, kinds, es.head, ""), rest);
      forall i | 0 <= i < |parts|
        ensures Writable(Listed(es)[i]) && parts[i] == Encode(g, kinds, Listed(es)[i], "")
      {
        if i > 0 {
          assert Listed(es)[i] == Listed(es.tail)[i - 1] && parts[i] == rest[i - 1];
        }
      }
    }
  }

  /** 4 for a sequence, with the number of its elements before them. */
  lemma SequenceFormat(g: Grammar, kinds: set<nat>, es: Recs, name: Name)
    returns (text: Bytes, count: Bytes, parts: seq<Bytes>)
    requires Writable(Sequence(es)) && IsCString(name)
    ensures IsText(name, text) && IsBigEndian(|Listed(es)|, count) && AreWritten(g, kinds, Listed(es), parts)
    ensures Encode(g, kinds, Sequence(es), name) == [4] + text + count + Words.Flat(parts)
  {
    hide IsText, IsBigEndian, AreWritten, IntBytes, Octets, EncodeAll;
    text, count := Octets(name) + [0], IntBytes(Count(es));
    NameText(name);
    IntFormat(Count(es));
    parts := ListWritten(g, kinds, es);
    ListedCount(es);
    var id: Byte := 4;
    assert Payload(g, kinds, Sequence(es)) == count + Words.Flat(parts);
    assert [id] + (text + (count + Words.Flat(parts))) == [id] + text + count + Words.Flat(parts);
  }

  lemma Regrouped(a: Bytes, b: Bytes, c: Bytes, d: Bytes, e: Bytes)
    ensures a + (b + (c + (d + e))) == a + b + c + d + e
  {
  }

  /** 3 for a selector of the class that is always exclusive and 2 for others, with the flag before the rest. */
  lemma SelectorFormat(g: Grammar, kinds: set<nat>, sel: nat, es: Recs, name: Name)
    returns (text: Bytes, count: Bytes, parts: seq<Bytes>)
    requires Writable(Selector(sel, es)) && IsCString(name)
    ensures IsText(name, text) && IsBigEndian(|Listed(es)|, count) && AreWritten(g, kinds, Listed(es), parts)
    ensures Encode(g, kinds, Selector(sel, es), name) ==
            [if sel in kinds then 3 else 2] + text + [if sel in g.exclusive then 1 else 0] + count + Words.Flat(parts)
  {
    hide IsText, IsBigEndian, AreWritten, IntBytes, Octets, EncodeAll;
    text, count := Octets(name) + [0], IntBytes(Count(es));
    NameText(name);
    IntFormat(Count(es));
    parts := ListWritten(g, kinds, es);
    ListedCount(es);
    var id: Byte, flag: Byte := if sel in kinds then 3 else 2, if sel in g.exclusive then 1 else 0;
    assert Payload(g, kinds, Selector(sel, es)) == [flag] + (count + Words.Flat(parts));
    Regrouped([id], text, [flag], count, Words.Flat(parts));
  }

  /** 5 for a loop, with its bounds before its body, which is written without a name of its own. */
  lemma LoopFormat(g: Grammar, kinds: set<nat>, body: Rec, min: int, max: int, name: Name)
    returns (text: Bytes, low: Bytes, high: Bytes)
    requires Writable(Loop(body, min, max)) && IsCString(name)
    ensures IsText(name, text) && IsBigEndian(min, low) && IsBigEndian(max, high)
    ensures Encode(g, kinds, Loop(body, min, max), name) == [5] + text + low + high + Encode(g, kinds, body, "")
  {
    text, low, high := Octets(name) + [0], IntBytes(min), IntBytes(max);
    NameText(name);
    IntFormat(min);
    IntFormat(max);
  }

  /** 9 for an alias, before its target. */
  lemma AliasFormat(g: Grammar, kinds: set<nat>, target: Rec, name: Name) returns (text: Bytes)
    requires Writable(Alias(target)) && IsCString(name)
    ensures IsText(name, text)
    ensures Encode(g, kinds, Alias(target), name) == [9] + text + Encode(g, kinds, target, "")
  {
    text := Octets(name) + [0];
    NameText(name);
  }

  /** What can be written, and what is written without loss. */
  lemma TerminalsEncodable(c: int, sensitive: bool, lo: int, hi: int, lit: Bytes, x: Name)
    ensures Encodable(CharRec(c, sensitive)) <==> 0 <= c <= 255
    ensures Encodable(CharRange(lo, hi)) <==> 0 <= lo <= 255 && 0 <= hi <= 255
    ensures Encodable(Literal(lit)) <==> 0 !in lit
    ensures Encodable(Named(x)) <==> IsFileName(if x != [] && x[0] == '@' then x[1..] else x)
    ensures IsFileName(x) <==>
            x != [] && x[0] != '@' && LowerCase(x) && forall i :: 0 <= i < |x| ==> 0 < x[i] as int <= 255
  {
    assert 0 !in lit <==> forall i :: 0 <= i < |lit| ==> lit[i] != 0;
    LowerFolds(x);
    if LowerCase(x) {
      assert Lower(x) == x;
    }
  }

  lemma PartsEncodable(body: Rec, min: int, max: int, sel: nat, es: Recs)
    ensures Encodable(Loop(body, min, max)) <==>
            -0x8000_0000 <= min < 0x8000_0000 && -0x8000_0000 <= max < 0x8000_0000 && Encodable(body)
    ensures Encodable(Sequence(es)) <==> |Listed(es)| < 0x8000_0000 && AllEncodable(Listed(es))
    ensures Encodable(Selector(sel, es)) <==> |Listed(es)| < 0x8000_0000 && AllEncodable(Listed(es))
    ensures Encodable(Alias(body)) <==> Encodable(body)
    ensures !Encodable(Pointer(body))
  {
    ListedCount(es);
    ListEncodable(es);
  }

  ghost predicate AllEncodable(rs: seq<Rec>) {
    forall i :: 0 <= i < |rs| ==> Encodable(rs[i])
  }

  lemma {:induction false} ListEncodable(es: Recs)
    ensures EncodableAll(es) <==> AllEncodable(Listed(es))
  {
    hide Encodable;
    if es.Cons? {
      ListEncodable(es.tail);
      EncodableFirst(es);
      AllEncodableFirst(es.head, Listed(es.tail));
    }
  }

  lemma EncodableFirst(es: Recs)
    requires es.Cons?
    ensures EncodableAll(es) <==> Encodable(es.head) && EncodableAll(es.tail)
  {
  }

  lemma AllEncodableFirst(r: Rec, rest: seq<Rec>)
    ensures AllEncodable([r] + rest) <==> Encodable(r) && AllEncodable(rest)
  {
    hide Encodable;
    var rs := [r] + rest;
    if AllEncodable(rs) {
      assert Encodable(rs[0]);
      forall i | 0 <= i < |rest|
        ensures Encodable(rest[i])
      {
        assert Encodable(rs[i + 1]);
      }
    }
  }
}
