/** The parser context: a stack of handler contexts filled in place while recognizers are fed, with
    branches for the alternatives of a selector, undo of failed matches and recycled contexts. */
module Engine {
  import opened Bytes
  import opened Recognizers
  import opened PureParser
  import opened Contexts
  import opened Spans
  import opened Objects

  function Length(m: Result): Option<nat> {
    if m.Match? then Some(m.len) else None
  }

  function Output(m: Result): seq<Assignment> {
    if m.Match? then m.out else []
  }

  /** What leaving a recognizer assigns to a context of handler `h`. */
  ghost function Closed(h: Handler, rule: Option<Name>, ctx: HandlerContext?, begin: nat, m: Result): seq<Assignment> {
    if !Consumed(m) then []
    else if ctx != null then
      if ctx.handler.rule in h.collectors
      then [Child(Collector(h.rule, ctx.handler.rule), begin, m.len, Node(ctx.handler.rule, m.out))] else []
    else
      m.out + if rule.Some? && rule.value in h.collectors
              then [Text(Collector(h.rule, rule.value), begin, m.len)] else []
  }

  lemma ElementClosed(a: View, b: View, ctx: HandlerContext, c: View, m: Result, begin: nat, d: View)
    requires Sound(a) && Sound(c) && a.stack != [] && Pushed(a, b, ctx) && Attempted(b, c, m)
    requires if Consumed(m) then Ended(c, d, begin, m.len, m.out) else Removed(c, d, ctx)
    ensures Committed(a, d, Closed(a.stack[|a.stack| - 1].handler, Some(ctx.handler.rule), ctx, begin, m))
  {
    hide Sound, Committed, Attempted, Pushed, Removed, Ended;
    if Consumed(m) {
      ElementCommitted(a, b, ctx, c, m, begin, d);
    } else {
      ElementAbandoned(a, b, ctx, c, m, d);
    }
  }

  /** A rule that may be fed has a recognizer that may, of lower rank. */
  lemma RuleEntered(g: Graph, x: Name, s: Bytes, pos: nat)
    requires WellFormed(g) && Ready(g, Named(x), s, pos)
    ensures x in g.rules && !g.rules[x].Named? && Ready(g, g.rules[x], s, pos)
    ensures HeadRank(g, g.rules[x]) < HeadRank(g, Named(x))
  {
    assert RuleOk(g, x);
  }

  lemma ClosedIsParsed(g: Grammar, t: Table, h: Handler, r: Rec, rule: Option<Name>, body: Rec, ctx: HandlerContext?,
                       s: Bytes, pos: nat, m: Result)
    requires WellFormed(g.graph) && Ready(g.graph, r, s, pos) && h.rule in t && t[h.rule] == h.collectors
    requires if r.Named? then rule == Some(r.name) && body == g.graph.rules[r.name] else rule == None && body == r
    requires Ready(g.graph, body, s, pos) && !body.Named?
    requires ctx != null <==> rule.Some? && rule.value in t
    requires ctx != null ==> ctx.handler.rule == rule.value
    requires m == ParseBody(g, t, if ctx == null then h.rule else ctx.handler.rule, body, s, pos)
    ensures Output(Parse(g, t, h.rule, r, s, pos)) == Closed(h, rule, ctx, pos, m)
    ensures Length(Parse(g, t, h.rule, r, s, pos)) == Length(m)
  {
  }

  /** Compares a literal octet by octet; no octet past the first difference is read. */
  method FeedLiteral(lit: Bytes, s: Bytes, pos: nat) returns (n: Option<nat>)
    requires pos <= |s| && forall i :: 0 <= i < |lit| ==> lit[i] != 0
    ensures n == if LiteralAt(lit, s, pos) then Some(|lit|) else None
  {
    var i := 0;
    while i < |lit|
      invariant 0 <= i <= |lit| && pos + i <= |s|
      invariant forall k :: 0 <= k < i ==> ToLower(s[pos + k]) == lit[k]
    {
      if ToLower(At(s, pos + i)) != lit[i] {
        return None;
      }
      i := i + 1;
    }
    n := Some(|lit|);
  }

  class ParserContext {
    const handlers: map<Name, Handler>
    var stack: seq<HandlerContext>
    var root: HandlerContext?
    /** Every context that may be touched: on the stack, cached, or assigned. */
    ghost var contexts: set<HandlerContext>
    ghost var frozen: Frozen

    ghost function HandlerTable(): Table {
      map x | x in handlers :: handlers[x].collectors
    }

    ghost function Top(): (c: HandlerContext)
      requires stack != []
      reads this
    {
      stack[|stack| - 1]
    }

    ghost function Now(): (v: View)
      reads this, contexts
    {
      View(stack, root, frozen, map c | c in contexts :: c.assignments)
    }

    ghost predicate CacheOk(h: Handler)
      reads this, contexts, h
    {
      h.cached != null ==>
        && h.cached in contexts && h.cached.handler == h && h.cached.assignments == []
        && h.cached !in stack && h.cached !in frozen
    }

    ghost predicate StackOk()
      reads this, contexts
    {
      && (forall i, j :: 0 <= i < j < |stack| ==> stack[i] != stack[j])
      && (forall i :: 0 <= i < |stack| ==>
            && stack[i] in contexts && stack[i] !in frozen
            && stack[i].handler.rule in handlers && handlers[stack[i].handler.rule] == stack[i].handler
            && Live(stack[i].assignments, frozen))
    }

    ghost predicate FrozenOk()
      reads this, contexts
    {
      && frozen.Keys <= contexts
      && (forall c :: c in frozen ==>
            c.handler.rule == frozen[c].rule && Denotes(c.assignments, frozen[c].kids, frozen))
      && (root != null ==> root in frozen)
    }

    /** Contexts of the stack are distinct and not yet assigned; assigned ones denote what `frozen`
        says; a cached context is empty, belongs to its handler, and is neither on the stack, nor
        the root, nor the child of anything assigned. */
    ghost predicate Valid()
      reads this, contexts, handlers.Values
    {
      && StackOk() && FrozenOk()
      && forall x :: x in handlers ==> handlers[x].rule == x && CacheOk(handlers[x])
    }

    lemma ValidIsSound()
      requires Valid()
      ensures Sound(Now()) && Now().stack == stack
      ensures Now().frozen == frozen && Now().root == root
      ensures stack != [] ==>
                && Top().handler.rule in handlers && handlers[Top().handler.rule] == Top().handler
                && Top() in contexts && Top() in Now().content && Now().content[Top()] == Top().assignments
    {
    }

    constructor (handlers: map<Name, Handler>)
      requires forall x :: x in handlers ==>
                 && handlers[x].rule == x
                 && var c := handlers[x].cached; c != null ==> c.handler == handlers[x] && c.assignments == []
      ensures Valid() && this.handlers == handlers && stack == [] && root == null && frozen == map[]
      ensures contexts == set x | x in handlers && handlers[x].cached != null :: handlers[x].cached
    {
      this.handlers, stack, root := handlers, [], null;
      frozen := map[];
      contexts := set x | x in handlers && handlers[x].cached != null :: handlers[x].cached;
    }

    /** Nothing known refers to `c`. */
    ghost predicate Unknown(c: HandlerContext)
      reads this, handlers.Values
    {
      c !in stack && c !in frozen && forall x :: x in handlers ==> handlers[x].cached != c
    }

    /** A context of handler `h` that is not in use. */
    method Obtain(h: Handler) returns (c: HandlerContext)
      requires Valid() && h.rule in handlers && handlers[h.rule] == h
      modifies h
      ensures Valid() && Unknown(c) && c.handler == h && c.assignments == [] && (c in contexts || fresh(c))
    {
      c := h.CreateContext();
    }

    /** Pushes an empty context of handler `h`. */
    method Push(h: Handler) returns (c: HandlerContext)
      requires Valid() && h.rule in handlers && handlers[h.rule] == h
      modifies this`stack, this`contexts, h
      ensures Valid() && fresh(contexts - old(contexts)) && stack == old(stack) + [c]
      ensures Pushed(old(Now()), Now(), c) && c.handler == h && c.assignments == []
    {
      c := Obtain(h);
      Enter(c);
    }

    method Enter(c: HandlerContext)
      requires Valid() && Unknown(c) && c.assignments == []
      requires c.handler.rule in handlers && handlers[c.handler.rule] == c.handler
      modifies this`stack, this`contexts
      ensures Valid() && contexts == old(contexts) + {c} && stack == old(stack) + [c]
      ensures Pushed(old(Now()), Now(), c)
    {
      contexts := contexts + {c};
      stack := stack + [c];
    }

    method BeginParse(rule: Option<Name>) returns (lc: LocalContext)
      requires Valid()
      requires stack == [] ==> rule.Some? && rule.value in handlers
      modifies this`stack, this`contexts, handlers.Values
      ensures Valid() && fresh(contexts - old(contexts))
      ensures rule.Some? && rule.value in handlers ==>
                && lc.ctx != null && Pushed(old(Now()), Now(), lc.ctx) && stack == old(stack) + [lc.ctx]
                && lc.ctx.handler == handlers[rule.value]
      ensures !(rule.Some? && rule.value in handlers) ==>
                lc.ctx == null && Now() == old(Now()) && contexts == old(contexts) && stack == old(stack)
      ensures stack != [] && lc.pos == |Top().assignments|
    {
      var ctx: HandlerContext? := null;
      if rule.Some? && rule.value in handlers {
        ctx := Push(handlers[rule.value]);
      }
      lc := LocalContext(ctx, stack[|stack| - 1].GetLastIterator());
    }

    /** Takes a complete element off the stack; from now on its context denotes a node. */
    method PopElement(ghost out: seq<Assignment>) returns (ctx: HandlerContext)
      requires Valid() && stack != [] && Denotes(Top().assignments, out, frozen)
      modifies this`stack, this`frozen
      ensures Valid() && ctx == old(Top()) && stack == old(stack)[..|old(stack)| - 1]
      ensures frozen == old(frozen)[ctx := Node(ctx.handler.rule, out)]
      ensures Now().content == old(Now()).content
    {
      ctx := stack[|stack| - 1];
      stack := stack[..|stack| - 1];
      frozen := frozen[ctx := Node(ctx.handler.rule, out)];
    }

    method SetChildOfTop(rule: Name, begin: nat, count: nat, child: HandlerContext?)
      requires Valid() && stack != [] && (child != null ==> child in frozen)
      modifies Top()
      ensures Valid() && contexts == old(contexts) && stack == old(stack)
      ensures Rewritten(old(Now()), Now(),
                old(Top().assignments) + Emitted(Top().handler, rule, begin, count, child))
    {
      stack[|stack| - 1].SetChild(rule, begin, count, child);
    }

    /** Leaves a rule with a handler that matched: its element becomes the root, or an assignment of
        the context below. */
    method EndElement(begin: nat, count: nat, ghost out: seq<Assignment>)
      requires Valid() && stack != [] && Denotes(Top().assignments, out, frozen)
      modifies this`stack, this`root, this`frozen, contexts
      ensures Valid() && contexts == old(contexts) && stack == old(stack)[..|old(stack)| - 1]
      ensures Ended(old(Now()), Now(), begin, count, out)
    {
      var ctx := PopElement(out);
      if stack != [] {
        SetChildOfTop(ctx.handler.rule, begin, count, ctx);
      } else {
        root := ctx;
      }
    }

    /** Recycles a context that nothing refers to any more. */
    method GiveBack(c: HandlerContext)
      requires Valid() && c in contexts && c !in stack && c !in frozen
      requires c.handler.rule in handlers && handlers[c.handler.rule] == c.handler
      modifies c, handlers.Values
      ensures Valid() && c.assignments == []
    {
      c.Recycle();
    }

    /** Leaves a rule with a handler that did not match: its context is recycled. */
    method AbandonElement()
      requires Valid() && stack != []
      modifies this`stack, contexts, handlers.Values
      ensures Valid() && contexts == old(contexts) && Removed(old(Now()), Now(), old(Top()))
      ensures stack == old(stack)[..|old(stack)| - 1]
    {
      var ctx := stack[|stack| - 1];
      stack := stack[..|stack| - 1];
      ctx.Recycle();
    }

    /** Leaves a recognizer without a handler. */
    method EndText(rule: Option<Name>, pos: nat, begin: nat, count: Option<nat>)
      requires Valid() && stack != [] && pos <= |Top().assignments|
      modifies Top()
      ensures Valid() && contexts == old(contexts) && stack == old(stack)
      ensures Rewritten(old(Now()), Now(),
                if count.Some? && count.value > 0
                then old(Top().assignments) +
                     (if rule.Some? then Emitted(Top().handler, rule.value, begin, count.value, null) else [])
                else old(Top().assignments)[..pos])
    {
      if count.Some? && count.value > 0 {
        if rule.Some? {
          SetChildOfTop(rule.value, begin, count.value, null);
        }
      } else {
        stack[|stack| - 1].UndoAssignments(pos);
      }
    }

    /** A context for one alternative: same handler as the top one, empty, pushed on the stack. */
    method Branch() returns (c: HandlerContext)
      requires Valid() && stack != []
      modifies this`stack, this`contexts, handlers.Values
      ensures Valid() && fresh(contexts - old(contexts)) && stack == old(stack) + [c]
      ensures Pushed(old(Now()), Now(), c) && c.handler == old(Top()).handler
    {
      c := Push(stack[|stack| - 1].handler);
    }

    /** Moves the assignments of the top context, which must be `other`, to the one below it. */
    method Merge(other: HandlerContext)
      requires Valid() && |stack| >= 2 && Top() == other
      modifies this`stack, contexts, handlers.Values
      ensures Valid() && stack == old(stack)[..|old(stack)| - 1] && Merged(old(Now()), Now())
    {
      stack := stack[..|stack| - 1];
      MoveTo(stack[|stack| - 1], other);
      GiveBack(other);
    }

    /** Appends the assignments of a context that has left the stack to those of the top one. */
    method MoveTo(top: HandlerContext, other: HandlerContext)
      requires Valid() && stack != [] && top == Top() && other in contexts && other !in stack
      requires Live(other.assignments, frozen)
      modifies top
      ensures Valid() && top.assignments == old(top.assignments) + other.assignments
    {
      top.Merge(other);
      assert StackOk() && FrozenOk();
    }

    /** Erases `other`, which must be on the stack, wherever it is. */
    method RemoveBranch(other: HandlerContext)
      requires Valid() && other in stack
      modifies this`stack, contexts, handlers.Values
      ensures Valid() && stack == Without(old(stack), other) && Removed(old(Now()), Now(), other)
    {
      var i := |stack| - 1;
      while stack[i] != other
        invariant 0 <= i < |stack|
        invariant other in stack[..i + 1]
        invariant forall j :: i < j < |stack| ==> stack[j] != other
        decreases i
      {
        i := i - 1;
      }
      WithoutIsErased(stack, other, i);
      stack := stack[..i] + stack[i + 1..];
      GiveBack(other);
    }

    lemma NothingCommitted()
      requires Valid() && stack != []
      ensures Committed(Now(), Now(), [])
    {
      ValidIsSound();
      CommittedNothing(Now());
    }

    method FeedSequence(g: Grammar, es: Recs, s: Bytes, pos: nat) returns (n: Option<nat>)
      requires Valid() && stack != [] && WellFormed(g.graph) && ReadySequence(g.graph, es, s, pos)
      modifies this, contexts, handlers.Values
      ensures Valid() && fresh(contexts - old(contexts)) && stack == old(stack)
      ensures var m := ParseSequence(g, HandlerTable(), old(Top().handler.rule), es, s, pos);
              n == Length(m) && Attempted(old(Now()), Now(), m)
      decreases |s| - pos, SequenceRank(g.graph, es), es, 0
    {
      hide Valid, Sound, Now, HandlerTable, Committed, Attempted;
      hide Parse, ParseSequence, WellFormed, Ok, OkSequence, HeadRank, SequenceRank;
      ghost var t, h, before := HandlerTable(), Top().handler.rule, Now();
      ghost var out: seq<Assignment> := [];
      var it, at, total := es, pos, 0;
      NothingCommitted();
      PrependNothing(ParseSequence(g, t, h, es, s, pos));
      while it.Cons?
        invariant pos <= at <= |s| && total == at - pos
        invariant it == es || it < es
        invariant at > pos || SequenceRank(g.graph, it) <= SequenceRank(g.graph, es)
        invariant ReadySequence(g.graph, it, s, at)
        invariant Valid() && fresh(contexts - old(contexts)) && stack == old(stack)
        invariant Committed(before, Now(), out)
        invariant ParseSequence(g, t, h, es, s, pos) == Prepend(total, out, ParseSequence(g, t, h, it, s, at))
        decreases it
      {
        SequenceUnfolds(g, t, h, it, s, at);
        ghost var mid, m := Now(), Parse(g, t, h, it.head, s, at);
        var matched := Feed(g, it.head, s, at);
        CommittedTwice(before, mid, Now(), out, Output(m));
        if matched.None? {
          CommittedAttempt(before, Now(), out + Output(m), NoMatch);
          return None;
        }
        PrependTwice(total, out, m.len, m.out, ParseSequence(g, t, h, it.tail, s, at + m.len));
        out := out + m.out;
        at, total := at + matched.value, total + matched.value;
        it := it.tail;
      }
      n := Some(total);
      CommittedAttempt(before, Now(), out, Match(total, out));
      SequenceEnds(g, t, h, s, at);
      assert out + [] == out;
    }

    method FeedExclusive(g: Grammar, es: Recs, s: Bytes, pos: nat) returns (n: Option<nat>)
      requires Valid() && stack != [] && WellFormed(g.graph) && ReadyAll(g.graph, es, s, pos)
      modifies this, contexts, handlers.Values
      ensures Valid() && fresh(contexts - old(contexts)) && stack == old(stack)
      ensures var m := ParseFirst(g, HandlerTable(), old(Top().handler.rule), es, s, pos);
              n == Length(m) && Attempted(old(Now()), Now(), m)
      decreases |s| - pos, SelectorRank(g.graph, es), es, 0
    {
      hide Valid, Sound, Now, HandlerTable, Committed, Attempted;
      hide Parse, ParseFirst, WellFormed, Ok, OkAll, HeadRank, SelectorRank;
      ghost var t, h, before := HandlerTable(), Top().handler.rule, Now();
      var it := es;
      NothingCommitted();
      while it.Cons?
        invariant it == es || it < es
        invariant SelectorRank(g.graph, it) <= SelectorRank(g.graph, es) && ReadyAll(g.graph, it, s, pos)
        invariant Valid() && fresh(contexts - old(contexts)) && stack == old(stack)
        invariant Committed(before, Now(), [])
        invariant ParseFirst(g, t, h, es, s, pos) == ParseFirst(g, t, h, it, s, pos)
        decreases it
      {
        SelectorUnfolds(g, t, h, it, NoMatch, s, pos);
        ghost var mid, m := Now(), Parse(g, t, h, it.head, s, pos);
        var matched := Feed(g, it.head, s, pos);
        CommittedTwice(before, mid, Now(), [], Output(m));
        assert [] + Output(m) == Output(m);
        if matched.Some? && matched.value > 0 {
          CommittedAttempt(before, Now(), Output(m), m);
          return matched;
        }
        it := it.tail;
      }
      n := None;
      CommittedAttempt(before, Now(), [], NoMatch);
      SelectorEnds(g, t, h, NoMatch, s, pos);
    }

    /** One iteration of a plain selector: the alternative is fed in a branch of its own, which
        replaces the best one so far if it matched more, and is removed otherwise. */
    method FeedAlternative(g: Grammar, e: Rec, s: Bytes, pos: nat,
                           bestmatch: Option<nat>, bestBranch: HandlerContext?, ghost before: View, ghost m: Result)
      returns (match': Option<nat>, branch': HandlerContext?)
      requires Valid() && stack != [] && WellFormed(g.graph) && Ready(g.graph, e, s, pos)
      requires Sound(before) && Branched(before, Now(), bestBranch, m) && bestmatch == Length(m)
      requires stack == before.stack + if bestBranch == null then [] else [bestBranch]
      modifies this, contexts, handlers.Values
      ensures Valid() && fresh(contexts - old(contexts))
      ensures stack == before.stack + (if branch' == null then [] else [branch'])
      ensures stack != [] && Top().handler == old(Top().handler)
      ensures var tried := Parse(g, HandlerTable(), old(Top().handler.rule), e, s, pos);
              var m' := if Better(tried, m) then tried else m;
              match' == Length(m') && Branched(before, Now(), branch', m')
      decreases |s| - pos, HeadRank(g.graph, e), e, 2
    {
      hide Valid, Sound, Now, HandlerTable, Committed, Branched, Tried, Pushed, Removed, Without;
      hide Parse, WellFormed, Ready, HeadRank;
      ghost var start, tried := Now(), Parse(g, HandlerTable(), Top().handler.rule, e, s, pos);
      BranchedEnds(before, start, bestBranch, m);
      var br := Branch();
      ghost var pushed := Now();
      var matched := Feed(g, e, s, pos);
      ghost var fed := Now();
      ValidIsSound();
      BranchTried(before, start, bestBranch, m, pushed, br, fed, Output(tried));
      match', branch' := bestmatch, bestBranch;
      if matched.Some? && (bestmatch.None? || matched.value > bestmatch.value) {
        match' := matched;
        KeepBranch(bestBranch, br, before, m, tried);
        branch' := br;
      } else {
        DropBranch(bestBranch, br, before, m, Output(tried));
      }
    }

    /** The branch just fed is better than the best one so far, which is removed. */
    method KeepBranch(bestBranch: HandlerContext?, br: HandlerContext, ghost before: View, ghost m: Result,
                      ghost tried: Result)
      requires Valid() && tried.Match? && Tried(before, Now(), bestBranch, m, br, tried.out)
      requires bestBranch == null ==> m == NoMatch
      modifies this`stack, contexts, handlers.Values
      ensures Valid() && stack == before.stack + [br] && Branched(before, Now(), br, tried)
    {
      ghost var fed := Now();
      hide Valid, Sound, Now, Branched, Removed, Without, Denotes, Extends;
      ValidIsSound();
      if bestBranch != null {
        RemoveBranch(bestBranch);
        ValidIsSound();
        BranchWon(before, fed, bestBranch, m, br, tried, Now());
      } else {
        BranchFirst(before, fed, br, tried);
      }
    }

    /** The branch just fed is not better than the best one so far, and is removed. */
    method DropBranch(ghost bestBranch: HandlerContext?, br: HandlerContext, ghost before: View, ghost m: Result,
                      ghost out: seq<Assignment>)
      requires Valid() && Tried(before, Now(), bestBranch, m, br, out)
      modifies this`stack, contexts, handlers.Values
      ensures Valid() && stack == before.stack + (if bestBranch == null then [] else [bestBranch])
      ensures Branched(before, Now(), bestBranch, m)
    {
      ghost var fed := Now();
      hide Valid, Sound, Now, Branched, Removed, Without, Denotes, Extends;
      ValidIsSound();
      RemoveBranch(br);
      ValidIsSound();
      BranchLost(before, fed, bestBranch, m, br, out, Now());
    }

    method FeedSelector(g: Grammar, es: Recs, s: Bytes, pos: nat) returns (n: Option<nat>)
      requires Valid() && stack != [] && WellFormed(g.graph) && ReadyAll(g.graph, es, s, pos)
      modifies this, contexts, handlers.Values
      ensures Valid() && fresh(contexts - old(contexts)) && stack == old(stack)
      ensures var m := ParseBest(g, HandlerTable(), old(Top().handler.rule), es, NoMatch, s, pos);
              n == Length(m) && Attempted(old(Now()), Now(), m)
      decreases |s| - pos, SelectorRank(g.graph, es), es, 0
    {
      hide Valid, Sound, Now, HandlerTable, Committed, Attempted, Branched, Merged;
      hide Parse, ParseBest, WellFormed, Ok, OkAll, HeadRank, SelectorRank;
      ghost var t, h, before := HandlerTable(), Top().handler.rule, Now();
      ghost var handler, m: Result := Top().handler, NoMatch;
      var bestmatch: Option<nat>, bestBranch: HandlerContext? := None, null;
      var it := es;
      ValidIsSound();
      NothingBranched(before);
      while it.Cons?
        invariant it == es || it < es
        invariant SelectorRank(g.graph, it) <= SelectorRank(g.graph, es) && ReadyAll(g.graph, it, s, pos)
        invariant Valid() && fresh(contexts - old(contexts))
        invariant stack == before.stack + (if bestBranch == null then [] else [bestBranch])
        invariant Top().handler == handler
        invariant Branched(before, Now(), bestBranch, m) && bestmatch == Length(m)
        invariant ParseBest(g, t, h, es, NoMatch, s, pos) == ParseBest(g, t, h, it, m, s, pos)
        decreases it
      {
        SelectorUnfolds(g, t, h, it, m, s, pos);
        ghost var tried := Parse(g, t, h, it.head, s, pos);
        bestmatch, bestBranch := FeedAlternative(g, it.head, s, pos, bestmatch, bestBranch, before, m);
        m := if Better(tried, m) then tried else m;
        it := it.tail;
      }
      n := bestmatch;
      SelectorEnds(g, t, h, m, s, pos);
      ghost var last := Now();
      ValidIsSound();
      BranchedEnds(before, last, bestBranch, m);
      if bestmatch.Some? {
        MergeBest(bestBranch, before, m);
      } else {
        BranchesFailed(before, last, m);
        CommittedAttempt(before, last, [], m);
      }
    }

    /** The end of a plain selector that matched: the best branch is merged into the context below. */
    method MergeBest(bestBranch: HandlerContext, ghost before: View, ghost m: Result)
      requires Valid() && Sound(before) && m.Match? && Branched(before, Now(), bestBranch, m)
      requires stack == before.stack + [bestBranch] && |stack| >= 2
      modifies this`stack, contexts, handlers.Values
      ensures Valid() && stack == before.stack && Attempted(before, Now(), m)
    {
      hide Valid, Sound, Now, Committed, Attempted, Branched, Merged;
      ghost var last := Now();
      ValidIsSound();
      Merge(bestBranch);
      BranchMerged(before, last, bestBranch, m, Now());
      CommittedAttempt(before, Now(), m.out, m);
    }

    method FeedLoop(g: Grammar, body: Rec, min: int, max: int, s: Bytes, pos: nat) returns (n: Option<nat>)
      requires Valid() && stack != [] && WellFormed(g.graph) && pos <= |s| && LoopOk(g.graph, body, max)
      modifies this, contexts, handlers.Values
      ensures Valid() && fresh(contexts - old(contexts)) && stack == old(stack)
      ensures var m := ParseLoop(g, HandlerTable(), old(Top().handler.rule), body, min, max, 0, s, pos);
              n == Length(m) && Attempted(old(Now()), Now(), m)
      decreases |s| - pos, HeadRank(g.graph, body), body, 2
    {
      hide Valid, Sound, Now, HandlerTable, Committed, Attempted;
      hide Parse, ParseLoop, WellFormed, LoopOk, HeadRank, Prepend;
      ghost var t, h, before := HandlerTable(), Top().handler.rule, Now();
      ghost var out: seq<Assignment> := [];
      var repeat, at, total := 0, pos, 0;
      NothingCommitted();
      PrependNothing(ParseLoop(g, t, h, body, min, max, 0, s, pos));
      while (max != -1 ==> repeat < max) && At(s, at) != 0
        invariant pos <= at <= |s| && total == at - pos
        invariant Valid() && fresh(contexts - old(contexts)) && stack == old(stack)
        invariant Committed(before, Now(), out)
        invariant ParseLoop(g, t, h, body, min, max, 0, s, pos) ==
                  Prepend(total, out, ParseLoop(g, t, h, body, min, max, repeat, s, at))
        decreases |s| - at, if repeat < max then max - repeat else 0
      {
        LoopUnfolds(g, t, h, body, min, max, repeat, s, at);
        ghost var mid, m := Now(), Parse(g, t, h, body, s, at);
        var matched := Feed(g, body, s, at);
        CommittedTwice(before, mid, Now(), out, Output(m));
        if matched.None? {
          assert out + Output(m) == out;
          break;
        }
        PrependTwice(total, out, m.len, m.out, ParseLoop(g, t, h, body, min, max, repeat + 1, s, at + m.len));
        out := out + m.out;
        at, total := at + matched.value, total + matched.value;
        repeat := repeat + 1;
      }
      LoopEnds(g, t, h, body, min, max, repeat, s, at);
      PrependLast(total, out, repeat >= min);
      n := if repeat < min then None else Some(total);
      CommittedAttempt(before, Now(), out, if repeat < min then NoMatch else Match(total, out));
    }

    /** The matching of one node, dispatched on its kind. */
    method FeedBody(g: Grammar, r: Rec, s: Bytes, pos: nat) returns (n: Option<nat>)
      requires Valid() && stack != [] && WellFormed(g.graph) && Ready(g.graph, r, s, pos) && !r.Named?
      modifies this, contexts, handlers.Values
      ensures Valid() && fresh(contexts - old(contexts)) && stack == old(stack)
      ensures var m := ParseBody(g, HandlerTable(), old(Top().handler.rule), r, s, pos);
              n == Length(m) && Attempted(old(Now()), Now(), m)
      decreases |s| - pos, HeadRank(g.graph, r), r, 0
    {
      hide Valid, Sound, Now, HandlerTable, Committed, Attempted;
      hide Parse, ParseLoop, ParseBest, ParseFirst, ParseSequence, WellFormed;
      ghost var before := Now();
      NothingCommitted();
      match r {
        case CharRec(c, caseSensitive) =>
          var b := At(s, pos);
          n := if (if caseSensitive then b else ToLower(b)) == c then Some(1) else None;
          CommittedAttempt(before, Now(), [], if n.Some? then Match(1, []) else NoMatch);
        case CharRange(lo, hi) =>
          n := if lo <= At(s, pos) <= hi then Some(1) else None;
          CommittedAttempt(before, Now(), [], if n.Some? then Match(1, []) else NoMatch);
        case Literal(lit) =>
          n := FeedLiteral(lit, s, pos);
          CommittedAttempt(before, Now(), [], if n.Some? then Match(|lit|, []) else NoMatch);
        case Sequence(es) =>
          n := FeedSequence(g, es, s, pos);
        case Selector(sel, es) =>
          if sel in g.exclusive {
            n := FeedExclusive(g, es, s, pos);
          } else {
            n := FeedSelector(g, es, s, pos);
          }
        case Loop(body, min, max) =>
          n := FeedLoop(g, body, min, max, s, pos);
        case Pointer(target) =>
          ghost var h := Top().handler.rule;
          n := Feed(g, target, s, pos);
          CommittedAttempt(before, Now(), Output(Parse(g, HandlerTable(), h, target, s, pos)),
                           Parse(g, HandlerTable(), h, target, s, pos));
        case Alias(target) =>
          ghost var h := Top().handler.rule;
          n := Feed(g, target, s, pos);
          CommittedAttempt(before, Now(), Output(Parse(g, HandlerTable(), h, target, s, pos)),
                           Parse(g, HandlerTable(), h, target, s, pos));
      }
    }

    /** Leaves a rule with a handler, which pushed `ctx`, after a match. */
    method EndMatched(ctx: HandlerContext, begin: nat, count: nat, ghost a: View, ghost b: View, ghost m: Result)
      requires Valid() && stack != [] && Sound(a) && Attempted(b, Now(), m) && Consumed(m) && count == m.len
      requires Pushed(a, b, ctx) && stack == a.stack + [ctx]
      modifies this`stack, this`root, this`frozen, contexts
      ensures Valid() && contexts == old(contexts) && stack == a.stack
      ensures stack != [] ==> Committed(a, Now(), Closed(Top().handler, Some(ctx.handler.rule), ctx, begin, m))
      ensures stack == [] ==> Rooted(a, Now(), ctx.handler.rule, m)
    {
      hide Valid, Sound, Now, Committed, Attempted, Pushed, Removed, Ended, Rooted, Closed, Denotes;
      ghost var fed := Now();
      ValidIsSound();
      PushedGain(a, b, ctx, fed, m);
      EndElement(begin, count, m.out);
      assert stack == a.stack;
      ghost var last := Now();
      if a.stack != [] {
        ElementClosed(a, b, ctx, fed, m, begin, last);
      } else {
        OutermostEnded(a, b, ctx, fed, m, begin, last);
      }
    }

    /** Leaves a rule with a handler that did not match anything. */
    method EndUnmatched(ctx: HandlerContext, ghost begin: nat, ghost a: View, ghost b: View, ghost m: Result)
      requires Valid() && stack != [] && Sound(a) && Attempted(b, Now(), m) && !Consumed(m)
      requires Pushed(a, b, ctx) && stack == a.stack + [ctx]
      modifies this`stack, contexts, handlers.Values
      ensures Valid() && contexts == old(contexts) && stack == a.stack
      ensures stack != [] ==> Committed(a, Now(), Closed(Top().handler, Some(ctx.handler.rule), ctx, begin, m))
      ensures stack == [] ==> Rooted(a, Now(), ctx.handler.rule, m)
    {
      hide Valid, Sound, Now, Committed, Attempted, Pushed, Removed, Ended, Rooted, Closed, Denotes;
      ghost var fed := Now();
      ValidIsSound();
      AbandonElement();
      assert stack == a.stack;
      ghost var last := Now();
      if a.stack != [] {
        ElementClosed(a, b, ctx, fed, m, begin, last);
      } else {
        OutermostEnded(a, b, ctx, fed, m, begin, last);
      }
    }

    /** Leaves a recognizer entered in state `a`: its element is assigned to the enclosing one, or
        becomes the root, or it is assigned as text, or everything since `a` is undone. */
    method EndParse(rule: Option<Name>, lc: LocalContext, begin: nat, count: Option<nat>,
                    ghost a: View, ghost b: View, ghost m: Result)
      requires Valid() && stack != [] && Sound(a) && Attempted(b, Now(), m) && count == Length(m)
      requires lc.ctx != null ==>
              Pushed(a, b, lc.ctx) && stack == a.stack + [lc.ctx] && rule == Some(lc.ctx.handler.rule)
      requires lc.ctx == null ==>
                 && a == b && stack == a.stack && Top() in a.content && lc.pos == |a.content[Top()]|
      modifies this, contexts, handlers.Values
      ensures Valid() && contexts == old(contexts) && stack == a.stack
      ensures stack != [] ==> Committed(a, Now(), Closed(Top().handler, rule, lc.ctx, begin, m))
      ensures stack == [] ==> lc.ctx != null && Rooted(a, Now(), lc.ctx.handler.rule, m)
    {
      hide Valid, Sound, Now, Committed, Attempted, Pushed, Removed, Ended, Rewritten;
      ghost var fed := Now();
      ValidIsSound();
      if lc.ctx != null {
        if count.Some? && count.value > 0 {
          EndMatched(lc.ctx, begin, count.value, a, b, m);
        } else {
          EndUnmatched(lc.ctx, begin, a, b, m);
        }
      } else {
        AttemptedPrefix(b, fed, m);
        EndText(rule, lc.pos, begin, count);
        if Consumed(m) {
          TextCommitted(a, fed, m, rule, begin, Now());
        } else {
          TextUndone(a, fed, m, Now());
        }
      }
    }

    /** Feeds `r`: the stack is restored, what is below its top is untouched, and the top gains what
        the reference parser commits. The outermost rule, fed on an empty stack, sets the root. */
    method Feed(g: Grammar, r: Rec, s: Bytes, pos: nat) returns (n: Option<nat>)
      requires Valid() && WellFormed(g.graph) && Ready(g.graph, r, s, pos)
      requires stack == [] ==> r.Named? && r.name in handlers
      modifies this, contexts, handlers.Values
      ensures Valid() && fresh(contexts - old(contexts)) && stack == old(stack)
      ensures stack != [] ==>
                var m := Parse(g, HandlerTable(), old(Top().handler.rule), r, s, pos);
                n == Length(m) && Committed(old(Now()), Now(), Output(m))
      ensures stack == [] ==>
                var m := ParseRule(g, HandlerTable(), r.name, r.name, s, pos);
                n == Length(m) && Rooted(old(Now()), Now(), r.name, m)
      decreases |s| - pos, HeadRank(g.graph, r), r, 1
    {
      hide Valid, Sound, Now, Committed, Attempted, Pushed, Parse, ParseBody, Closed;
      hide WellFormed, Ok, HeadRank, Rooted, Length, Output;
      ghost var before := Now();
      var rule, body := None, r;
      if r.Named? {
        RuleEntered(g.graph, r.name, s, pos);
        rule, body := Some(r.name), g.graph.rules[r.name];
      }
      ValidIsSound();
      var lc := BeginParse(rule);
      ghost var entered := Now();
      ghost var m := ParseBody(g, HandlerTable(), Top().handler.rule, body, s, pos);
      ValidIsSound();
      n := FeedBody(g, body, s, pos);
      EndParse(rule, lc, pos, n, before, entered, m);
      if stack != [] {
        ClosedIsParsed(g, HandlerTable(), Top().handler, r, rule, body, lc.ctx, s, pos, m);
      }
    }

    /** Creates the object of an assigned context, then runs its assignments in order; every piece of
        input they are given lies within bounds. */
    method Realize(c: HandlerContext, s: Bytes, begin: nat, count: nat) returns (e: Element)
      requires FrozenOk() && c in frozen
      requires begin + count <= |s| && Nested(frozen[c].kids, begin, begin + count)
      ensures e == Realized(frozen[c], s, begin, count) && Builds(e, frozen[c], s, begin, count)
      decreases frozen[c]
    {
      ghost var node := frozen[c];
      var props: seq<Property> := [];
      var i := 0;
      while i < |c.assignments|
        invariant 0 <= i <= |c.assignments| && |props| == i
        invariant forall k :: 0 <= k < i ==> Inside(node.kids[k], 0, |s|) && props[k] == RealizedOne(node.kids[k], s)
      {
        var a := c.assignments[i];
        assert DenotesOne(a, node.kids[i], frozen) && Inside(node.kids[i], begin, begin + count);
        var value := s[a.begin..a.begin + a.count];
        if a.child != null {
          assert node.kids[i] < node;
          var element := Realize(a.child, s, a.begin, a.count);
          props := props + [Object(a.collector, element)];
        } else {
          props := props + [Value(a.collector, value)];
        }
        i := i + 1;
      }
      e := Element(c.handler.rule, s[begin..begin + count], props);
      RealizedBuilds(node, s, begin, count);
    }

    /** The object of the outermost rule `x`, if it matched something. */
    method CreateRootObject(s: Bytes, count: Option<nat>, ghost x: Name, ghost m: Result, ghost start: View)
      returns (e: Option<Element>)
      requires Valid() && Rooted(start, Now(), x, m) && start.root == null && count == Length(m)
      requires m.Match? ==> m.len <= |s| && Nested(m.out, 0, m.len)
      ensures e == if Consumed(m) then Some(Realized(Node(x, m.out), s, 0, m.len)) else None
    {
      hide Nested;
      e := None;
      if root != null {
        var element := Realize(root, s, 0, count.value);
        e := Some(element);
      }
    }

    lemma CachesAreEmpty()
      requires Valid()
      ensures forall x :: x in handlers ==>
                && handlers[x].rule == x
                && (handlers[x].cached != null ==>
                      && handlers[x].cached.handler == handlers[x] && handlers[x].cached.assignments == []
                      && handlers[x].cached in contexts)
    {
    }
  }

  /** A parser keeps its handlers, and their caches, from one input to the next. */
  class Parser {
    const handlers: map<Name, Handler>

    ghost function Cached(): set<HandlerContext>
      reads handlers.Values
    {
      set x | x in handlers && handlers[x].cached != null :: handlers[x].cached
    }

    ghost predicate Valid()
      reads handlers.Values, Cached()
    {
      forall x :: x in handlers ==>
        && handlers[x].rule == x
        && (handlers[x].cached != null ==>
              handlers[x].cached.handler == handlers[x] && handlers[x].cached.assignments == [])
    }

    ghost function HandlerTable(): Table {
      map x | x in handlers :: handlers[x].collectors
    }

    constructor (handlers: map<Name, Handler>)
      requires forall x :: x in handlers ==> handlers[x].rule == x && handlers[x].cached == null
      ensures this.handlers == handlers && Valid()
    {
      this.handlers := handlers;
    }

    /** Matches a rule that has a handler at the start of the input, and builds its object. */
    method ParseInput(g: Grammar, rule: Name, s: Bytes, fullMatch: bool)
      returns (parsed: Option<nat>, element: Option<Element>)
      requires Valid() && WellFormed(g.graph) && Ready(g.graph, Named(rule), s, 0) && rule in handlers
      modifies handlers.Values, Cached()
      ensures Valid() && fresh(Cached() - old(Cached()))
      ensures (parsed, element) == Parsed(g, HandlerTable(), rule, s, fullMatch)
      ensures var m := ParseRule(g, HandlerTable(), rule, rule, s, 0);
              && parsed == (if m.Match? then Some(m.len) else None)
              && (element.Some? <==> parsed.Some? && parsed.value > 0 && (fullMatch ==> parsed.value == |s|))
              && (element.Some? ==> Builds(element.value, Node(rule, m.out), s, 0, parsed.value))
      ensures element.Some? ==>
                && element.value.rule == rule && parsed.value <= |s| && element.value.text == s[..parsed.value]
                && Derived(g.graph, HandlerTable(), element.value)
    {
      hide ParseRule, Nested, ParserContext.Valid, ParserContext.Now, Rooted, Builds, Derived;
      ParsedMeans(g, HandlerTable(), rule, s, fullMatch);
      var pctx := new ParserContext(handlers);
      ghost var start := pctx.Now();
      pctx.ValidIsSound();
      parsed := pctx.Feed(g, Named(rule), s, 0);
      pctx.CachesAreEmpty();
      ghost var m := ParseRule(g, HandlerTable(), rule, rule, s, 0);
      if fullMatch && parsed != Some(|s|) {
        return parsed, None;
      }
      RuleSpanned(g, HandlerTable(), rule, s, 0);
      element := pctx.CreateRootObject(s, parsed, rule, m, start);
    }
  }

  /** What a parse returns: the matched length, and the object for a match that is not empty. */
  ghost function Parsed(g: Grammar, t: Table, rule: Name, s: Bytes, fullMatch: bool): (Option<nat>, Option<Element>)
    requires WellFormed(g.graph) && Ready(g.graph, Named(rule), s, 0)
  {
    var m := ParseRule(g, t, rule, rule, s, 0);
    RuleSpanned(g, t, rule, s, 0);
    (Length(m),
     if !Consumed(m) || (fullMatch && m.len != |s|) then None
     else Some(Realized(Node(rule, m.out), s, 0, m.len)))
  }

  /** An object is returned exactly for a match that is not empty, and that covers the input if it has to; it
      is the one of the outermost rule and of what was matched, and so are those below it. */
  lemma ParsedMeans(g: Grammar, t: Table, rule: Name, s: Bytes, fullMatch: bool)
    requires WellFormed(g.graph) && Ready(g.graph, Named(rule), s, 0)
    ensures var m := ParseRule(g, t, rule, rule, s, 0);
            var (parsed, element) := Parsed(g, t, rule, s, fullMatch);
            && parsed == (if m.Match? then Some(m.len) else None)
            && (element.Some? <==> parsed.Some? && parsed.value > 0 && (fullMatch ==> parsed.value == |s|))
            && (element.Some? ==>
                  && Builds(element.value, Node(rule, m.out), s, 0, parsed.value)
                  && element.value.rule == rule && parsed.value <= |s| && element.value.text == s[..parsed.value]
                  && Derived(g.graph, t, element.value))
  {
    hide WellFormed, ParseRule, Nested, Derived;
    var m, element := ParseRule(g, t, rule, rule, s, 0), Parsed(g, t, rule, s, fullMatch).1;
    RuleSpanned(g, t, rule, s, 0);
    if element.Some? {
      RealizedBuilds(Node(rule, m.out), s, 0, m.len);
      RootDerived(g, t, rule, s, element.value);
    }
  }
}
