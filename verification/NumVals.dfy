/** Numeric values of ABNF (section 3.4 of RFC 5234), as the grammar builder reads them. */
module NumVals {
  import opened Bytes
  import opened Numbers

  function IndexOf(s: Bytes, b: Byte): (i: nat)
    ensures i <= |s| && (i < |s| ==> s[i] == b) && forall k :: 0 <= k < i ==> s[k] != b
  {
    if s == [] || s[0] == b then 0 else
      var i := IndexOf(s[1..], b);
      assert forall k :: 0 < k < i + 1 ==> s[k] == s[1..][k - 1];
      i + 1
  }

  /** What `digits` are read as from the start. */
  function Number(base: nat, s: Bytes): int {
    ToInt(Strtol(base, s, 0).0)
  }

  /** The values read from `pos` on, a dot being skipped after each of them. */
  function Scanned(base: nat, s: Bytes, pos: nat): seq<int>
    requires pos <= |s|
    decreases |s| - pos
  {
    var (v, end) := Strtol(base, s, pos);
    if v == 0 && end == pos then [] else
      var next := if At(s, end) == 46 then end + 1 else end;
      [ToInt(v)] + if At(s, next) == 0 then [] else Scanned(base, s, next)
  }

  lemma ScannedUnfolds(base: nat, s: Bytes, pos: nat, values: seq<int>)
    requires pos <= |s|
    ensures var (v, end) := Strtol(base, s, pos);
            if v == 0 && end == pos then values + Scanned(base, s, pos) == values
            else
              var next := if At(s, end) == 46 then end + 1 else end;
              values + Scanned(base, s, pos) ==
              values + [ToInt(v)] + (if At(s, next) == 0 then [] else Scanned(base, s, next))
  {
    hide Strtol, ToInt;
  }

  /** What the text of a value means: whether it is a range, and the values. */
  function Meaning(base: nat, text: Bytes): (bool, seq<int>)
    requires text != []
  {
    var dash := IndexOf(text, 45);
    if dash < |text| then
      (true, [Number(base, if dash == 0 then text[1..] else text[1..dash]), Number(base, text[dash + 1..])])
    else (false, Scanned(base, text[1..], 0))
  }

  class ABNFNumval {
    var isRange: bool
    var values: seq<int>

    constructor ()
      ensures !isRange && values == []
    {
      isRange, values := false, [];
    }

    /** The first octet is the letter of the base. */
    method ParseValues(text: Bytes, base: nat)
      requires text != []
      modifies this
      ensures (isRange, values) == (Meaning(base, text).0, old(values) + Meaning(base, text).1)
    {
      hide Strtol, ToInt, Scanned;
      var dash := IndexOf(text, 45);
      if dash < |text| {
        isRange := true;
        var first := if dash == 0 then text[1..] else text[1..dash];
        var last := text[dash + 1..];
        values := values + [ToInt(Strtol(base, first, 0).0)];
        values := values + [ToInt(Strtol(base, last, 0).0)];
        assert values == old(values) + [Number(base, first), Number(base, last)];
      } else {
        isRange := false;
        var s := text[1..];
        var pos := 0;
        var more := true;
        while more
          invariant pos <= |s| && !isRange
          invariant old(values) + Scanned(base, s, 0) == values + (if more then Scanned(base, s, pos) else [])
          decreases |s| - pos, more
        {
          var (v, end) := Strtol(base, s, pos);
          ScannedUnfolds(base, s, pos, values);
          if v == 0 && end == pos {
            break;
          }
          pos := if At(s, end) == 46 then end + 1 else end;
          values := values + [ToInt(v)];
          more := At(s, pos) != 0;
        }
        assert values + [] == values;
      }
    }

    method SetBinVal(text: Bytes)
      requires text != []
      modifies this
      ensures (isRange, values) == (Meaning(2, text).0, old(values) + Meaning(2, text).1)
    {
      ParseValues(text, 2);
    }

    method SetDecVal(text: Bytes)
      requires text != []
      modifies this
      ensures (isRange, values) == (Meaning(10, text).0, old(values) + Meaning(10, text).1)
    {
      ParseValues(text, 10);
    }

    method SetHexVal(text: Bytes)
      requires text != []
      modifies this
      ensures (isRange, values) == (Meaning(16, text).0, old(values) + Meaning(16, text).1)
    {
      ParseValues(text, 16);
    }
  }

  // The scan of any text, well-formed or not.

  /** A number is read at `p`; the scan goes on at `q`, past a dot if there is one. */
  ghost predicate ReadAt(base: nat, s: Bytes, p: nat, q: nat, value: int) {
    && p <= |s|
    && var (v, end) := Strtol(base, s, p);
    end > p && value == ToInt(v) && q == if end < |s| && s[end] == '.' as int then end + 1 else end
  }

  /** Numbers are read one after the other, until there is none to read or nothing is left. */
  ghost predicate ScanRun(base: nat, s: Bytes, ps: seq<nat>, values: seq<int>) {
    && |ps| == |values| + 1
    && (forall i :: 0 <= i < |values| ==> ReadAt(base, s, ps[i], ps[i + 1], values[i]))
    && (forall i :: 0 < i < |values| ==> ps[i] < |s| && s[ps[i]] != 0)
    && var last := ps[|values|];
    last <= |s| && (Strtol(base, s, last).1 == last || (values != [] && (last == |s| || s[last] == 0)))
  }

  lemma ScanGoesOn(base: nat, s: Bytes, pos: nat, next: nat, value: int, ps: seq<nat>, values: seq<int>)
    requires ReadAt(base, s, pos, next, value) && next < |s| && s[next] != 0
    requires ScanRun(base, s, ps, values) && ps[0] == next
    requires values == [] ==> Strtol(base, s, next).1 == next
    ensures ScanRun(base, s, [pos] + ps, [value] + values)
  {
    hide ReadAt, Strtol;
    var ps', values' := [pos] + ps, [value] + values;
    forall i | 0 <= i < |values'|
      ensures ReadAt(base, s, ps'[i], ps'[i + 1], values'[i])
    {
      if i > 0 {
        assert ReadAt(base, s, ps[i - 1], ps[i], values[i - 1]);
      }
    }
    forall i | 0 < i < |values'|
      ensures ps'[i] < |s| && s[ps'[i]] != 0
    {
      assert i > 1 ==> ps[i - 1] < |s| && s[ps[i - 1]] != 0;
    }
  }

  lemma {:induction false} ScannedRun(base: nat, s: Bytes, pos: nat) returns (ps: seq<nat>)
    requires pos <= |s|
    ensures ScanRun(base, s, ps, Scanned(base, s, pos)) && ps[0] == pos
    decreases |s| - pos
  {
    hide Strtol, ToInt;
    var (v, end) := Strtol(base, s, pos);
    if end == pos {
      ps := [pos];
    } else {
      var next := if At(s, end) == 46 then end + 1 else end;
      assert ReadAt(base, s, pos, next, ToInt(v));
      if At(s, next) == 0 {
        ps := [pos, next];
      } else {
        var rest := ScannedRun(base, s, next);
        ScanGoesOn(base, s, pos, next, ToInt(v), rest, Scanned(base, s, next));
        ps := [pos] + rest;
      }
    }
  }

  /** On any text: a dash anywhere makes a range of what is read before and after the first of them. */
  lemma MeaningExactly(base: nat, text: Bytes)
    requires text != []
    ensures Meaning(base, text).0 <==> 45 in text
    ensures 45 in text ==>
              exists dash :: 0 <= dash < |text| && text[dash] == 45 && 45 !in text[..dash] &&
                Meaning(base, text).1 ==
                [ToInt(Strtol(base, if dash == 0 then text[1..] else text[1..dash], 0).0),
                 ToInt(Strtol(base, text[dash + 1..], 0).0)]
    ensures 45 !in text ==> exists ps :: ScanRun(base, text[1..], ps, Meaning(base, text).1) && ps[0] == 0
  {
    hide Strtol, ToInt, ScanRun, Scanned;
    var dash := IndexOf(text, 45);
    if dash < |text| {
      assert text[dash] in text;
    } else {
      var ps := ScannedRun(base, text[1..], 0);
    }
  }

  // Printing, and reading back.

  predicate IsNumber(base: nat, digits: Bytes) {
    digits != [] && AllDigits(base, digits)
  }

  predicate AreNumbers(base: nat, ds: seq<Bytes>) {
    forall i :: 0 <= i < |ds| ==> IsNumber(base, ds[i])
  }

  function Dotted(ds: seq<Bytes>): Bytes
    requires ds != []
  {
    if |ds| == 1 then ds[0] else ds[0] + [46] + Dotted(ds[1..])
  }

  function Ints(base: nat, ds: seq<Bytes>): seq<int> {
    seq(|ds|, i requires 0 <= i < |ds| => IntOf(ValueOf(base, ds[i])))
  }

  /** One number, at the end or before a dot and a digit. */
  lemma NumberScanned(base: nat, d: Bytes, s: Bytes, pos: nat)
    requires 2 <= base <= 16 && IsNumber(base, d)
    requires pos + |d| <= |s| && s[pos..pos + |d|] == d
    requires pos + |d| < |s| ==> s[pos + |d|] == 46 && pos + |d| + 1 < |s| && s[pos + |d| + 1] != 0
    ensures var rest := if pos + |d| < |s| then Scanned(base, s, pos + |d| + 1) else [];
            Scanned(base, s, pos) == [IntOf(ValueOf(base, d))] + rest
  {
    hide Strtol, ToInt, Clamped, ValueOf, AllDigits;
    StrtolReads(base, d, s, pos);
    var next := if pos + |d| < |s| then pos + |d| + 1 else pos + |d|;
    assert pos + |d| < |s| ==> At(s, pos + |d|) == 46;
    assert At(s, next) == 0 <==> pos + |d| == |s|;
  }

  lemma {:induction false} DottedScanned(base: nat, ds: seq<Bytes>, s: Bytes, pos: nat)
    requires 2 <= base <= 16 && ds != [] && AreNumbers(base, ds)
    requires pos <= |s| && s[pos..] == Dotted(ds)
    ensures Scanned(base, s, pos) == Ints(base, ds)
    decreases |ds|
  {
    hide Scanned, IntOf, ValueOf, AllDigits;
    var d := ds[0];
    assert IsNumber(base, d);
    assert s[pos..pos + |d|] == s[pos..][..|d|] == d;
    if |ds| > 1 {
      var next := pos + |d| + 1;
      assert s[next - 1] == s[pos..][|d|] == 46;
      assert s[next..] == s[pos..][|d| + 1..] == Dotted(ds[1..]);
      DottedStartsWithDigit(base, ds[1..]);
      assert s[next] == s[next..][0] != 0;
      DottedScanned(base, ds[1..], s, next);
    }
    NumberScanned(base, d, s, pos);
    assert Ints(base, ds) == [IntOf(ValueOf(base, d))] + Ints(base, ds[1..]);
  }

  lemma DottedStartsWithDigit(base: nat, ds: seq<Bytes>)
    requires base <= 16 && ds != [] && AreNumbers(base, ds)
    ensures Dotted(ds) != [] && IsDigit(base, Dotted(ds)[0])
  {
    assert IsNumber(base, ds[0]);
  }

  lemma {:induction false} DottedHasNoDash(base: nat, ds: seq<Bytes>)
    requires base <= 16 && ds != [] && AreNumbers(base, ds)
    ensures 45 !in Dotted(ds)
    decreases |ds|
  {
    assert IsNumber(base, ds[0]);
    assert forall i :: 0 <= i < |ds[0]| ==> IsDigit(base, ds[0][i]);
    if |ds| > 1 {
      DottedHasNoDash(base, ds[1..]);
    }
  }

  /** Values separated by dots, leading zeros or not, are read back in order, each as an int. */
  lemma DottedMeans(base: nat, letter: Byte, ds: seq<Bytes>)
    requires 2 <= base <= 16 && letter != 45 && ds != [] && AreNumbers(base, ds)
    ensures Meaning(base, [letter] + Dotted(ds)) == (false, Ints(base, ds))
  {
    var text := [letter] + Dotted(ds);
    assert text[1..] == Dotted(ds) == Dotted(ds)[0..];
    DottedHasNoDash(base, ds);
    DottedScanned(base, ds, text[1..], 0);
  }

  lemma NumberRead(base: nat, d: Bytes)
    requires 2 <= base <= 16 && IsNumber(base, d)
    ensures Number(base, d) == IntOf(ValueOf(base, d))
  {
    assert d[0..|d|] == d;
    StrtolReads(base, d, d, 0);
  }

  /** Two values separated by a dash are read back as a range. */
  lemma RangeMeans(base: nat, letter: Byte, first: Bytes, last: Bytes)
    requires 2 <= base <= 16 && letter != 45 && IsNumber(base, first) && IsNumber(base, last)
    ensures Meaning(base, [letter] + first + [45] + last) == (true, Ints(base, [first, last]))
  {
    hide Strtol, ToInt, Clamped, ValueOf, Number;
    var text := [letter] + first + [45] + last;
    var dash := IndexOf(text, 45);
    assert text[|first| + 1] == 45;
    assert forall i :: 0 <= i < |first| ==> text[i + 1] == first[i] && IsDigit(base, first[i]);
    assert dash == |first| + 1;
    assert text[1..dash] == first && text[dash + 1..] == last;
    NumberRead(base, first);
    NumberRead(base, last);
    assert Ints(base, [first, last]) == [IntOf(ValueOf(base, first)), IntOf(ValueOf(base, last))];
  }

  function Printed(base: nat, vs: seq<nat>): (ds: seq<Bytes>)
    requires 2 <= base <= 16
    ensures |ds| == |vs|
  {
    seq(|vs|, i requires 0 <= i < |vs| => Digits(base, vs[i]))
  }

  lemma PrintedNumbers(base: nat, vs: seq<nat>)
    requires 2 <= base <= 16
    ensures AreNumbers(base, Printed(base, vs))
    ensures Ints(base, Printed(base, vs)) == vs <==> forall v :: v in vs ==> v < INT_LIMIT
  {
    var ds := Printed(base, vs);
    forall i | 0 <= i < |vs|
      ensures IsNumber(base, ds[i]) && (Ints(base, ds)[i] == vs[i] <==> vs[i] < INT_LIMIT)
    {
      DigitsRoundTrip(base, vs[i]);
      IntOfExact(vs[i]);
    }
    if v :| v in vs && v >= INT_LIMIT {
      var i :| 0 <= i < |vs| && vs[i] == v;
      assert Ints(base, ds)[i] != vs[i];
    } else {
      assert forall i :: 0 <= i < |vs| ==> vs[i] in vs && Ints(base, ds)[i] == vs[i];
    }
  }

  /** A printed list of values is read back as it was exactly if each of them fits in an int. */
  lemma ListRoundTrip(base: nat, letter: Byte, vs: seq<nat>)
    requires 2 <= base <= 16 && letter != 45 && vs != []
    ensures Meaning(base, [letter] + Dotted(Printed(base, vs))) == (false, vs) <==> forall v :: v in vs ==>
            v < INT_LIMIT
  {
    PrintedNumbers(base, vs);
    DottedMeans(base, letter, Printed(base, vs));
  }

  /** And so is a printed range. */
  lemma RangeRoundTrip(base: nat, letter: Byte, lo: nat, hi: nat)
    requires 2 <= base <= 16 && letter != 45
    ensures Meaning(base, [letter] + Digits(base, lo) + [45] + Digits(base, hi)) == (true, [lo, hi])
            <==> lo < INT_LIMIT && hi < INT_LIMIT
  {
    PrintedNumbers(base, [lo, hi]);
    assert Printed(base, [lo, hi]) == [Digits(base, lo), Digits(base, hi)];
    assert IsNumber(base, Printed(base, [lo, hi])[0]) && IsNumber(base, Printed(base, [lo, hi])[1]);
    RangeMeans(base, letter, Digits(base, lo), Digits(base, hi));
    assert forall v :: v in [lo, hi] <==> v == lo || v == hi;
  }
}
