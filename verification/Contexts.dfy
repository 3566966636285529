/** Handlers with their caches, the contexts that collect assignments, and how the content of the
    contexts relates to the assignments of the reference parser. */
module Contexts {
  import opened Bytes
  import opened Recognizers
  import opened PureParser

  /** An assignment as a context stores it: `child` is shared with the context of the element. */
  datatype Assigned = Assigned(collector: Collector, begin: nat, count: nat, child: HandlerContext?)

  /** What the child contexts that have been assigned denote; nothing may modify those any more. */
  type Frozen = map<HandlerContext, Node>

  ghost predicate DenotesOne(a: Assigned, o: Assignment, frozen: Frozen) {
    && a.collector == o.collector && a.begin == o.begin && a.count == o.count
    && (a.child == null <==> o.Text?)
    && (a.child != null ==> a.child in frozen && o.node == frozen[a.child])
  }

  ghost predicate Denotes(xs: seq<Assigned>, out: seq<Assignment>, frozen: Frozen) {
    |xs| == |out| && forall i :: 0 <= i < |xs| ==> DenotesOne(xs[i], out[i], frozen)
  }

  ghost predicate Live(xs: seq<Assigned>, frozen: Frozen) {
    forall i :: 0 <= i < |xs| && xs[i].child != null ==> xs[i].child in frozen
  }

  lemma DenotesAppended(a: seq<Assigned>, b: seq<Assigned>, c: seq<Assigned>,
                        out: seq<Assignment>, more: seq<Assignment>, frozen: Frozen, later: Frozen)
    requires a <= b <= c
    requires Denotes(b[|a|..], out, frozen) && Denotes(c[|b|..], more, later)
    requires forall k :: k in frozen ==> k in later && later[k] == frozen[k]
    ensures Denotes(c[|a|..], out + more, later)
  {
    forall i | 0 <= i < |c| - |a|
      ensures DenotesOne(c[|a|..][i], (out + more)[i], later)
    {
      if i < |out| {
        assert DenotesOne(b[|a|..][i], out[i], frozen);
      } else {
        assert DenotesOne(c[|b|..][i - |out|], more[i - |out|], later);
      }
    }
  }

  /** The application's handler for one rule, with its one-slot cache of recycled contexts. */
  class Handler {
    const rule: Name
    const collectors: set<Name>
    var cached: HandlerContext?
    var cacheLocked: bool

    constructor (rule: Name, collectors: set<Name>)
      ensures this.rule == rule && this.collectors == collectors && cached == null
    {
      this.rule, this.collectors, cached, cacheLocked := rule, collectors, null, false;
    }

    function GetCollector(x: Name): (c: Option<Collector>) {
      if x in collectors then Some(Collector(rule, x)) else None
    }

    /** Takes the cached context if the lock can be had, and makes a new one otherwise. */
    method CreateContext() returns (c: HandlerContext)
      requires cached != null ==> cached.handler == this && cached.assignments == []
      modifies this
      ensures c.handler == this && c.assignments == [] && cacheLocked == old(cacheLocked)
      ensures if old(cached) != null && !cacheLocked then c == old(cached) && cached == null
              else fresh(c) && cached == old(cached)
    {
      var ret: HandlerContext? := null;
      if !cacheLocked {
        cacheLocked := true;
        if cached != null {
          ret := cached;
          cached := null;
        }
        cacheLocked := false;
      }
      if ret == null {
        ret := new HandlerContext(this);
      }
      c := ret;
    }

    method ReleaseContext(c: HandlerContext)
      modifies this
      ensures cacheLocked == old(cacheLocked) && cached == if cacheLocked then old(cached) else c
    {
      if !cacheLocked {
        cacheLocked := true;
        cached := c;
        cacheLocked := false;
      }
    }
  }

  /** What assigning a child to a context of `h` appends. */
  function Emitted(h: Handler, x: Name, begin: nat, count: nat, child: HandlerContext?): seq<Assigned> {
    if x in h.collectors then [Assigned(Collector(h.rule, x), begin, count, child)] else []
  }

  /** The element under construction for a handler, as the list of its assignments so far. */
  class HandlerContext {
    const handler: Handler
    var assignments: seq<Assigned>

    constructor (handler: Handler)
      ensures this.handler == handler && assignments == []
    {
      this.handler, assignments := handler, [];
    }

    method SetChild(x: Name, begin: nat, count: nat, child: HandlerContext?)
      modifies this
      ensures assignments == old(assignments) + Emitted(handler, x, begin, count, child)
    {
      var collector := handler.GetCollector(x);
      if collector.Some? {
        assignments := assignments + [Assigned(collector.value, begin, count, child)];
      }
    }

    method Merge(other: HandlerContext)
      requires other != this
      modifies this
      ensures assignments == old(assignments) + other.assignments
    {
      var i := 0;
      while i < |other.assignments|
        invariant 0 <= i <= |other.assignments|
        invariant assignments == old(assignments) + other.assignments[..i]
      {
        assignments := assignments + [other.assignments[i]];
        i := i + 1;
      }
    }

    function GetLastIterator(): nat
      reads this
    {
      |assignments|
    }

    method UndoAssignments(pos: nat)
      requires pos <= |assignments|
      modifies this
      ensures assignments == old(assignments)[..pos]
    {
      assignments := assignments[..pos];
    }

    /** Empties the context and offers it to its handler's cache. */
    method Recycle()
      modifies this, handler
      ensures assignments == []
      ensures handler.cacheLocked == old(handler.cacheLocked)
      ensures handler.cached == if handler.cacheLocked then old(handler.cached) else this
    {
      assignments := [];
      handler.ReleaseContext(this);
    }
  }

  /** What can be observed of a parser context between two steps. */
  datatype View = View(
    stack: seq<HandlerContext>, root: HandlerContext?, frozen: Frozen,
    content: map<HandlerContext, seq<Assigned>>)

  /** The contexts of the stack are known, distinct, and not assigned to anything yet. */
  ghost predicate Sound(v: View) {
    && (forall c :: c in v.stack ==> c in v.content && c !in v.frozen)
    && (forall c :: c in v.frozen ==> c in v.content)
    && (forall i, j :: 0 <= i < j < |v.stack| ==> v.stack[i] != v.stack[j])
  }

  /** Nothing is forgotten, and what has been assigned never changes. */
  ghost predicate Extends(a: View, b: View) {
    && a.content.Keys <= b.content.Keys
    && (forall c :: c in a.frozen ==> c in b.frozen && b.frozen[c] == a.frozen[c])
    && (forall c :: c in a.frozen ==> c in a.content && b.content[c] == a.content[c])
  }

  ghost predicate Same(a: View, b: View, c: HandlerContext) {
    c in a.content && c in b.content && b.content[c] == a.content[c]
  }

  /** The contexts below the top are untouched; the top one has only been appended to. */
  ghost predicate Grown(a: View, b: View) {
    && a.stack != [] && b.stack == a.stack && b.root == a.root && Extends(a, b)
    && (forall c :: c in a.stack[..|a.stack| - 1] ==> Same(a, b, c))
    && var top := a.stack[|a.stack| - 1];
    && top in a.content && top in b.content && a.content[top] <= b.content[top]
  }

  /** What has been appended to the top context. */
  ghost function Gained(a: View, b: View): seq<Assigned>
    requires Grown(a, b)
  {
    var top := a.stack[|a.stack| - 1];
    b.content[top][|a.content[top]|..]
  }

  /** What has been appended to the top context denotes `out`. */
  ghost predicate Committed(a: View, b: View, out: seq<Assignment>) {
    Grown(a, b) && Denotes(Gained(a, b), out, b.frozen)
  }

  /** Like Committed, but what a failure leaves in the top context is not specified. */
  ghost predicate Attempted(a: View, b: View, m: Result) {
    Grown(a, b) && (m.Match? ==> Denotes(Gained(a, b), m.out, b.frozen))
  }

  lemma ExtendsTwice(a: View, b: View, c: View)
    requires Extends(a, b) && Extends(b, c)
    ensures Extends(a, c)
  {
    forall d | d in a.frozen
      ensures d in a.content && c.content[d] == a.content[d]
    {
      assert d in b.frozen;
    }
  }

  lemma CommittedTwice(a: View, b: View, c: View, out: seq<Assignment>, more: seq<Assignment>)
    requires Committed(a, b, out) && Committed(b, c, more)
    ensures Committed(a, c, out + more)
  {
    ExtendsTwice(a, b, c);
    forall d | d in a.stack[..|a.stack| - 1]
      ensures Same(a, c, d)
    {
      assert Same(a, b, d) && Same(b, c, d);
    }
    var top := a.stack[|a.stack| - 1];
    DenotesAppended(a.content[top], b.content[top], c.content[top], out, more, b.frozen, c.frozen);
  }

  lemma CommittedAttempt(a: View, b: View, out: seq<Assignment>, m: Result)
    requires Committed(a, b, out) && (m.Match? ==> m.out == out)
    ensures Attempted(a, b, m)
  {
  }

  lemma AttemptedPrefix(a: View, b: View, m: Result)
    requires Attempted(a, b, m)
    ensures var top := a.stack[|a.stack| - 1];
            top in a.content && top in b.content && a.content[top] <= b.content[top]
  {
  }

  lemma CommittedNothing(v: View)
    requires Sound(v) && v.stack != []
    ensures Committed(v, v, [])
  {
  }

  /** An empty context `c`, of which nothing known refers to, has been pushed. */
  ghost predicate Pushed(a: View, b: View, c: HandlerContext) {
    && c !in a.stack && b.stack == a.stack + [c] && b.root == a.root && b.frozen == a.frozen && Extends(a, b)
    && (forall d :: d in a.stack ==> Same(a, b, d))
    && c in b.content && b.content[c] == []
  }

  /** `cs` without the last occurrence of `c`. */
  function Without<T(==)>(cs: seq<T>, c: T): seq<T>
    requires c in cs
  {
    var n := |cs| - 1;
    if cs[n] == c then cs[..n] else Without(cs[..n], c) + [cs[n]]
  }

  lemma {:induction false} WithoutIsErased<T>(cs: seq<T>, c: T, i: nat)
    requires i < |cs| && cs[i] == c && forall j :: i < j < |cs| ==> cs[j] != c
    ensures Without(cs, c) == cs[..i] + cs[i + 1..]
  {
    var n := |cs| - 1;
    if i < n {
      assert cs[i + 1..][n - i - 1] == cs[n];
      var init := cs[..n];
      WithoutIsErased(init, c, i);
      assert init[..i] + init[i + 1..] + [cs[n]] == cs[..i] + cs[i + 1..];
    }
  }

  /** `c` has been erased from the stack; only its own content is lost. */
  ghost predicate Removed(a: View, b: View, c: HandlerContext) {
    && c in a.stack && b.stack == Without(a.stack, c) && b.root == a.root && b.frozen == a.frozen
    && b.content.Keys == a.content.Keys
    && (forall d :: d in a.content && d != c ==> b.content[d] == a.content[d])
  }

  /** The top context has been popped after its assignments were moved to the one below. */
  ghost predicate Merged(a: View, b: View) {
    && |a.stack| >= 2 && b.stack == a.stack[..|a.stack| - 1] && b.root == a.root && b.frozen == a.frozen
    && b.content.Keys == a.content.Keys
    && var top, below := a.stack[|a.stack| - 1], a.stack[|a.stack| - 2];
    && top in a.content && below in a.content && b.content[below] == a.content[below] + a.content[top]
    && (forall d :: d in a.content && d != top && d != below ==> b.content[d] == a.content[d])
  }

  /** The top context has been popped and now denotes a node, which became the root or an assignment
      of the context below. */
  ghost predicate Ended(a: View, b: View, begin: nat, count: nat, out: seq<Assignment>) {
    && a.stack != [] && b.stack == a.stack[..|a.stack| - 1] && b.content.Keys == a.content.Keys
    && var top := a.stack[|a.stack| - 1];
    && b.frozen == a.frozen[top := Node(top.handler.rule, out)]
    && if b.stack == [] then
         b.root == top && forall d :: d in a.content ==> b.content[d] == a.content[d]
       else
         var below := b.stack[|b.stack| - 1];
         && b.root == a.root && below in a.content
         && b.content[below] == a.content[below] + Emitted(below.handler, top.handler.rule, begin, count, top)
         && forall d :: d in a.content && d != below ==> b.content[d] == a.content[d]
  }

  /** The content of the top context has become `xs`. */
  ghost predicate Rewritten(a: View, b: View, xs: seq<Assigned>) {
    && a.stack != [] && a.stack[|a.stack| - 1] in a.content
    && b.stack == a.stack && b.root == a.root && b.frozen == a.frozen && b.content.Keys == a.content.Keys
    && b.content[a.stack[|a.stack| - 1]] == xs
    && (forall d :: d in a.content && d != a.stack[|a.stack| - 1] ==> b.content[d] == a.content[d])
  }

  /** What is remembered between entering and leaving a recognizer. */
  datatype LocalContext = LocalContext(ctx: HandlerContext?, pos: nat)

  /** While a selector tries its alternatives: the stack is that of `a`, untouched, with at most the
      best branch so far on top, which holds the assignments of the best match. */
  ghost predicate Branched(a: View, b: View, best: HandlerContext?, m: Result) {
    && a.stack != [] && b.stack == a.stack + (if best == null then [] else [best])
    && b.root == a.root && Extends(a, b)
    && (forall c :: c in a.stack ==> Same(a, b, c))
    && (best == null <==> m.NoMatch?)
    && (best != null ==> best in b.content && Denotes(b.content[best], m.out, b.frozen))
  }

  lemma BranchedEnds(a: View, b: View, best: HandlerContext?, m: Result)
    requires Branched(a, b, best, m)
    ensures best == null <==> m.NoMatch?
  {
  }

  lemma NothingBranched(v: View)
    requires Sound(v) && v.stack != []
    ensures Branched(v, v, null, NoMatch)
  {
    assert v.stack + [] == v.stack;
  }

  /** While an alternative is tried: its branch `br` is on top and holds what it assigned. */
  ghost predicate Tried(a: View, b: View, best: HandlerContext?, m: Result, br: HandlerContext, out: seq<Assignment>) {
    && a.stack != [] && b.stack == a.stack + (if best == null then [] else [best]) + [br]
    && b.root == a.root && Extends(a, b)
    && (forall c :: c in a.stack ==> Same(a, b, c))
    && (best == null <==> m.NoMatch?)
    && (best != null ==> best in b.content && Denotes(b.content[best], m.out, b.frozen))
    && br in b.content && Denotes(b.content[br], out, b.frozen)
  }

  lemma DenotesLater(xs: seq<Assigned>, out: seq<Assignment>, frozen: Frozen, later: Frozen)
    requires Denotes(xs, out, frozen)
    requires forall k :: k in frozen ==> k in later && later[k] == frozen[k]
    ensures Denotes(xs, out, later)
  {
    forall i | 0 <= i < |xs|
      ensures DenotesOne(xs[i], out[i], later)
    {
      assert DenotesOne(xs[i], out[i], frozen);
    }
  }

  lemma BranchTried(a: View, b: View, best: HandlerContext?, m: Result,
                    pushed: View, br: HandlerContext, fed: View, out: seq<Assignment>)
    requires Branched(a, b, best, m) && Pushed(b, pushed, br) && Committed(pushed, fed, out)
    ensures Tried(a, fed, best, m, br, out)
  {
    ExtendsTwice(a, b, pushed);
    ExtendsTwice(a, pushed, fed);
    assert pushed.stack[..|pushed.stack| - 1] == b.stack;
    forall c | c in a.stack
      ensures Same(a, fed, c)
    {
      assert c in b.stack;
      assert Same(a, b, c) && Same(b, pushed, c) && Same(pushed, fed, c);
    }
    assert pushed.stack[|pushed.stack| - 1] == br;
    assert fed.content[br][0..] == fed.content[br];
    if best != null {
      assert b.stack[|b.stack| - 1] == best;
      assert best in b.stack;
      assert Same(pushed, fed, best);
      DenotesLater(b.content[best], m.out, b.frozen, fed.frozen);
    }
  }

  lemma DistinctPrefix(v: View, n: nat, k: nat)
    requires Sound(v) && n <= k < |v.stack|
    ensures v.stack[k] !in v.stack[..n]
  {
  }

  /** The alternative tried was not better: its branch is removed. */
  lemma BranchLost(a: View, b: View, best: HandlerContext?, m: Result, br: HandlerContext, out: seq<Assignment>,
                   c: View)
    requires Sound(b) && Tried(a, b, best, m, br, out) && Removed(b, c, br)
    ensures Branched(a, c, best, m) && c.stack == a.stack + if best == null then [] else [best]
  {
    var n, k := |b.stack| - 1, |a.stack|;
    assert b.stack[n] == br && b.stack[..k] == a.stack;
    assert b.stack[..n] == a.stack + (if best == null then [] else [best]);
    DistinctPrefix(b, k, n);
    forall d | d in a.stack
      ensures Same(a, c, d)
    {
      assert Same(a, b, d) && d != br;
    }
    if best != null {
      assert b.stack[n - 1] == best;
    }
  }

  /** The alternative tried is the new best: the branch of the former one is removed. */
  lemma BranchWon(a: View, b: View, best: HandlerContext, m: Result, br: HandlerContext, m': Result, c: View)
    requires Sound(b) && m'.Match? && Tried(a, b, best, m, br, m'.out) && Removed(b, c, best)
    ensures Branched(a, c, br, m') && c.stack == a.stack + [br]
  {
    var k := |a.stack|;
    assert b.stack[k + 1] == br && b.stack[k] == best && b.stack[..k] == a.stack;
    assert b.stack[..k + 1][..k] == a.stack && b.stack[..k + 1][k] == best;
    assert br != best;
    assert Without(b.stack, best) == a.stack + [br];
    DistinctPrefix(b, k, k);
    forall d | d in a.stack
      ensures Same(a, c, d)
    {
      assert Same(a, b, d) && d != best;
    }
  }

  lemma BranchFirst(a: View, b: View, br: HandlerContext, m: Result)
    requires m.Match? && Tried(a, b, null, NoMatch, br, m.out)
    ensures Branched(a, b, br, m)
  {
    assert a.stack + [] == a.stack;
  }

  lemma BranchMerged(a: View, b: View, best: HandlerContext, m: Result, c: View)
    requires Sound(b) && Branched(a, b, best, m) && Merged(b, c)
    ensures Committed(a, c, m.out)
  {
    var k := |a.stack|;
    assert b.stack[k] == best && b.stack[..k] == a.stack;
    var top := a.stack[k - 1];
    assert b.stack[k - 1] == top;
    assert b.stack[..k - 1] == a.stack[..k - 1];
    DistinctPrefix(b, k - 1, k);
    DistinctPrefix(b, k - 1, k - 1);
    forall d | d in a.stack[..k - 1]
      ensures Same(a, c, d)
    {
      assert d in a.stack;
      assert Same(a, b, d);
    }
    assert top in a.stack;
    assert Same(a, b, top);
    assert c.content[top][|a.content[top]|..] == b.content[best];
  }

  lemma BranchesFailed(a: View, b: View, m: Result)
    requires m.NoMatch? && Branched(a, b, null, m)
    ensures Committed(a, b, [])
  {
    assert a.stack[|a.stack| - 1] in a.stack;
    forall d | d in a.stack[..|a.stack| - 1]
      ensures Same(a, b, d)
    {
      assert d in a.stack;
    }
  }

  lemma PushedTop(a: View, b: View, ctx: HandlerContext)
    requires Pushed(a, b, ctx)
    ensures b.stack[|b.stack| - 1] == ctx && b.stack[..|b.stack| - 1] == a.stack
  {
  }

  /** What was assigned in a context that was pushed empty. */
  lemma PushedGain(a: View, b: View, ctx: HandlerContext, c: View, m: Result)
    requires Pushed(a, b, ctx) && Attempted(b, c, m) && m.Match?
    ensures c.stack == b.stack && ctx in c.content && Denotes(c.content[ctx], m.out, c.frozen)
  {
    PushedTop(a, b, ctx);
    assert c.content[ctx][0..] == c.content[ctx];
  }

  /** The contexts already on the stack are as they were before the push. */
  lemma PushedKept(a: View, b: View, ctx: HandlerContext, c: View, m: Result)
    requires Pushed(a, b, ctx) && Attempted(b, c, m)
    ensures Extends(a, c) && c.root == a.root && forall d :: d in a.stack ==> Same(a, c, d)
  {
    PushedTop(a, b, ctx);
    ExtendsTwice(a, b, c);
    forall d | d in a.stack
      ensures Same(a, c, d)
    {
      assert Same(a, b, d) && Same(b, c, d);
    }
  }

  /** A rule with a handler matched `len` octets while another element is under construction. */
  lemma ElementCommitted(a: View, b: View, ctx: HandlerContext, c: View, m: Result, begin: nat, d: View)
    requires Sound(a) && Sound(c) && a.stack != [] && Pushed(a, b, ctx) && Attempted(b, c, m) && m.Match?
    requires Ended(c, d, begin, m.len, m.out)
    ensures var top := a.stack[|a.stack| - 1];
            Committed(a, d, if ctx.handler.rule in top.handler.collectors
                            then [Child(Collector(top.handler.rule, ctx.handler.rule), begin, m.len,
                                Node(ctx.handler.rule, m.out))]
                            else [])
  {
    PushedTop(a, b, ctx);
    PushedKept(a, b, ctx, c, m);
    assert ctx in c.stack && ctx !in c.frozen;
    assert d.stack == a.stack;
    var top := a.stack[|a.stack| - 1];
    assert top in a.stack && Same(a, c, top);
    DistinctPrefix(a, |a.stack| - 1, |a.stack| - 1);
    forall e | e in a.stack[..|a.stack| - 1]
      ensures Same(a, d, e)
    {
      assert e in a.stack && Same(a, c, e) && e != top;
    }
    forall e | e in a.frozen
      ensures e in a.content && d.content[e] == a.content[e] && e in d.frozen && d.frozen[e] == a.frozen[e]
    {
      assert e in c.frozen && e != top && e != ctx;
    }
    assert Gained(a, d) == Emitted(top.handler, ctx.handler.rule, begin, m.len, ctx);
  }

  lemma ElementAbandoned(a: View, b: View, ctx: HandlerContext, c: View, m: Result, d: View)
    requires Sound(a) && Sound(c) && a.stack != [] && Pushed(a, b, ctx) && Attempted(b, c, m)
    requires Removed(c, d, ctx)
    ensures Committed(a, d, [])
  {
    PushedTop(a, b, ctx);
    PushedKept(a, b, ctx, c, m);
    assert ctx in c.stack && ctx !in c.frozen;
    assert d.stack == a.stack;
    forall e | e in a.stack
      ensures Same(a, d, e)
    {
      assert Same(a, c, e);
    }
    assert a.stack[|a.stack| - 1] in a.stack;
    assert forall e :: e in a.stack[..|a.stack| - 1] ==> e in a.stack;
  }

  /** A recognizer without a handler matched: the rule it carries, if any, is assigned as text. */
  lemma TextCommitted(a: View, c: View, m: Result, rule: Option<Name>, begin: nat, d: View)
    requires Sound(a) && Sound(c) && Attempted(a, c, m) && m.Match?
    requires var top := a.stack[|a.stack| - 1];
             Rewritten(c, d, c.content[top] +
                 if rule.Some? then Emitted(top.handler, rule.value, begin, m.len, null) else [])
    ensures var top := a.stack[|a.stack| - 1];
            Committed(a, d, m.out + if rule.Some? && rule.value in top.handler.collectors
                                    then [Text(Collector(top.handler.rule, rule.value), begin, m.len)] else [])
  {
    var top := a.stack[|a.stack| - 1];
    var more := if rule.Some? then Emitted(top.handler, rule.value, begin, m.len, null) else [];
    DistinctPrefix(a, |a.stack| - 1, |a.stack| - 1);
    assert top in c.stack;
    forall e | e in a.stack[..|a.stack| - 1]
      ensures Same(a, d, e)
    {
      assert Same(a, c, e) && e != top;
    }
    assert Gained(a, d) == Gained(a, c) + more;
  }

  lemma TextUndone(a: View, c: View, m: Result, d: View)
    requires Sound(a) && Sound(c) && Attempted(a, c, m)
    requires var top := a.stack[|a.stack| - 1];
             top in a.content && Rewritten(c, d, c.content[top][..|a.content[top]|])
    ensures Committed(a, d, [])
  {
    var top := a.stack[|a.stack| - 1];
    DistinctPrefix(a, |a.stack| - 1, |a.stack| - 1);
    assert top in c.stack;
    forall e | e in a.stack[..|a.stack| - 1]
      ensures Same(a, d, e)
    {
      assert Same(a, c, e) && e != top;
    }
    assert d.content[top] == a.content[top];
  }

  /** What feeding the outermost rule leaves as the root. */
  ghost predicate Rooted(a: View, b: View, x: Name, m: Result) {
    if Consumed(m) then b.root != null && b.root in b.frozen && b.frozen[b.root] == Node(x, m.out)
    else b.root == a.root
  }

  lemma OutermostEnded(a: View, b: View, ctx: HandlerContext, c: View, m: Result, begin: nat, d: View)
    requires a.stack == [] && Pushed(a, b, ctx) && Attempted(b, c, m)
    requires if Consumed(m) then Ended(c, d, begin, m.len, m.out) else Removed(c, d, ctx)
    ensures Rooted(a, d, ctx.handler.rule, m)
  {
    PushedTop(a, b, ctx);
  }
}
