/** The one-slot cache of a handler shared by any number of parses running at once: a state machine
    over the atomic steps of taking a context from it and of putting one back. */
module HandlerCache {
  import opened Bytes

  type Context = nat
  type Parse = nat

  /** Where a parse stands between two of its steps. */
  datatype Point =
    | Idle
    | Locking                                  // creating: about to try the lock
    | Taking                                   // lock held, the slot not looked at yet
    | Resetting(taken: Context)                // lock held, the slot read but not emptied yet
    | Unlocking(result: Option<Context>)       // lock held, about to release it
    | Allocating                               // nothing was taken from the cache
    | Clearing(released: Context)              // recycling: about to clear the assignments
    | Releasing(released: Context)             // about to try the lock
    | Storing(released: Context)               // lock held, about to fill the slot
    | Leaving                                  // lock held, about to release it

  /** A parse and the contexts in use on its stacks and in its assignments. */
  datatype Thread = Thread(point: Point, owned: set<Context>)

  /** `filled` counts the assignments of every context ever allocated. */
  datatype State = State(
    locked: bool,
    cached: Option<Context>,
    filled: map<Context, nat>,
    threads: map<Parse, Thread>)

  /** What an idle parse may start, or the next step of what it is doing. */
  datatype Action = Create | Fill(context: Context) | Recycle(context: Context) | Continue(next: Context)

  predicate Initial(s: State) {
    && !s.locked && s.cached == None && s.filled == map[]
    && forall p :: p in s.threads ==> s.threads[p] == Thread(Idle, {})
  }

  /** A context that is allocated is not one that already exists; `Continue` names it in advance. */
  predicate Enabled(s: State, p: Parse, a: Action) {
    p in s.threads &&
    var t := s.threads[p];
    match a
    case Create => t.point.Idle?
    case Fill(c) => t.point.Idle? && c in t.owned && c in s.filled
    case Recycle(c) => t.point.Idle? && c in t.owned
    case Continue(next) => !t.point.Idle? && (t.point.Allocating? ==> next !in s.filled)
  }

  function Moved(s: State, p: Parse, t: Thread): State {
    s.(threads := s.threads[p := t])
  }

  /** The next step of what parse `p` is doing. */
  function Resumed(s: State, p: Parse, t: Thread, next: Context): State {
    match t.point
    case Idle => s
    case Locking =>
      if s.locked then Moved(s, p, t.(point := Allocating)) else Moved(s, p, t.(point := Taking)).(locked := true)
    case Taking =>
      if s.cached == None then Moved(s, p, t.(point := Unlocking(None)))
      else Moved(s, p, t.(point := Resetting(s.cached.value)))
    case Resetting(c) => Moved(s, p, t.(point := Unlocking(Some(c)))).(cached := None)
    case Unlocking(None) => Moved(s, p, t.(point := Allocating)).(locked := false)
    case Unlocking(Some(c)) => Moved(s, p, Thread(Idle, t.owned + {c})).(locked := false)
    case Allocating => Moved(s, p, Thread(Idle, t.owned + {next})).(filled := s.filled[next := 0])
    case Clearing(c) => Moved(s, p, t.(point := Releasing(c))).(filled := s.filled[c := 0])
    case Releasing(c) =>
      if s.locked then Moved(s, p, t.(point := Idle)) else Moved(s, p, t.(point := Storing(c))).(locked := true)
    case Storing(c) => Moved(s, p, t.(point := Leaving)).(cached := Some(c))
    case Leaving => Moved(s, p, t.(point := Idle)).(locked := false)
  }

  /** One atomic step of parse `p`. */
  function Step(s: State, p: Parse, a: Action): State
    requires Enabled(s, p, a)
  {
    var t := s.threads[p];
    match a
    case Create => Moved(s, p, t.(point := Locking))
    case Fill(c) => s.(filled := s.filled[c := s.filled[c] + 1])
    case Recycle(c) => Moved(s, p, Thread(Clearing(c), t.owned - {c}))
    case Continue(next) => Resumed(s, p, t, next)
  }

  predicate Critical(pt: Point) {
    pt.Taking? || pt.Resetting? || pt.Unlocking? || pt.Storing? || pt.Leaving?
  }

  /** The context a parse holds on its way into or out of the cache. */
  function InHand(pt: Point): set<Context> {
    match pt
    case Unlocking(Some(c)) => {c}
    case Clearing(c) => {c}
    case Releasing(c) => {c}
    case Storing(c) => {c}
    case _ => {}
  }

  function Held(t: Thread): set<Context> {
    t.owned + InHand(t.point)
  }

  function Slot(s: State): set<Context> {
    if s.cached == None then {} else {s.cached.value}
  }

  /** One parse is consistent with the shared state. */
  predicate ThreadOk(s: State, t: Thread) {
    && (Critical(t.point) ==> s.locked)
    && Held(t) !! Slot(s) && t.owned !! InHand(t.point)
    && Held(t) <= s.filled.Keys
    && (t.point.Resetting? ==> s.cached == Some(t.point.taken))
    && (!t.point.Clearing? ==> forall c :: c in InHand(t.point) ==> c in s.filled && s.filled[c] == 0)
  }

  /** Two parses never hold the same context, and one of them at most is past the lock. */
  predicate Apart(t: Thread, u: Thread) {
    Held(t) !! Held(u) && !(Critical(t.point) && Critical(u.point))
  }

  predicate SlotOk(s: State) {
    s.cached.Some? ==> s.cached.value in s.filled && s.filled[s.cached.value] == 0
  }

  ghost predicate Inv(s: State) {
    && SlotOk(s)
    && (forall p :: p in s.threads ==> ThreadOk(s, s.threads[p]))
    && (forall p, q :: p in s.threads && q in s.threads && p != q ==> Apart(s.threads[p], s.threads[q]))
    && (s.locked ==> exists p :: p in s.threads && Critical(s.threads[p].point))
  }

  lemma StepOfOwner(s: State, p: Parse, a: Action)
    requires Inv(s) && Enabled(s, p, a)
    ensures ThreadOk(Step(s, p, a), Step(s, p, a).threads[p]) && SlotOk(Step(s, p, a))
  {
    assert ThreadOk(s, s.threads[p]);
    if a.Continue? {
      OwnerResumes(s, p, s.threads[p], a.next);
    }
    hide Resumed;
  }

  lemma OwnerResumes(s: State, p: Parse, t: Thread, next: Context)
    requires SlotOk(s) && ThreadOk(s, t) && (t.point.Allocating? ==> next !in s.filled) && !t.point.Idle?
    requires p in s.threads && s.threads[p] == t
    ensures p in Resumed(s, p, t, next).threads
    ensures ThreadOk(Resumed(s, p, t, next), Resumed(s, p, t, next).threads[p]) && SlotOk(Resumed(s, p, t, next))
  {
  }

  lemma StepOfOther(s: State, p: Parse, a: Action, q: Parse)
    requires Inv(s) && Enabled(s, p, a) && q in s.threads && q != p
    ensures var s' := Step(s, p, a);
            ThreadOk(s', s.threads[q]) && Apart(s'.threads[p], s.threads[q]) && Apart(s.threads[q], s'.threads[p])
  {
    assert ThreadOk(s, s.threads[p]) && ThreadOk(s, s.threads[q]) && Apart(s.threads[p], s.threads[q]);
    if a.Continue? {
      OtherResumes(s, p, s.threads[p], a.next, s.threads[q]);
    }
    hide Resumed;
  }

  lemma OtherResumes(s: State, p: Parse, t: Thread, next: Context, u: Thread)
    requires ThreadOk(s, t) && ThreadOk(s, u) && Apart(t, u) && Apart(u, t)
    requires (t.point.Allocating? ==> next !in s.filled) && !t.point.Idle?
    requires p in s.threads && s.threads[p] == t
    ensures var s' := Resumed(s, p, t, next);
            p in s'.threads && ThreadOk(s', u) && Apart(s'.threads[p], u) && Apart(u, s'.threads[p])
  {
  }

  /** A step leaves the other parses where they are. */
  lemma StepOfNobodyElse(s: State, p: Parse, a: Action)
    requires Enabled(s, p, a)
    ensures Step(s, p, a).threads.Keys == s.threads.Keys
    ensures forall q :: q in s.threads && q != p ==> Step(s, p, a).threads[q] == s.threads[q]
  {
  }

  lemma LockIsHeld(s: State, p: Parse, a: Action)
    requires Inv(s) && Enabled(s, p, a)
    ensures var s' := Step(s, p, a);
            s'.locked ==> exists q :: q in s'.threads && Critical(s'.threads[q].point)
  {
    var s' := Step(s, p, a);
    if s'.locked && !Critical(s'.threads[p].point) {
      var q :| q in s.threads && Critical(s.threads[q].point);
      assert q in s'.threads && Critical(s'.threads[q].point);
    }
  }

  lemma InvStep(s: State, p: Parse, a: Action)
    requires Inv(s) && Enabled(s, p, a)
    ensures Inv(Step(s, p, a))
  {
    hide Step, Enabled, ThreadOk, Apart, SlotOk, Critical;
    var s' := Step(s, p, a);
    StepOfOwner(s, p, a);
    LockIsHeld(s, p, a);
    StepOfNobodyElse(s, p, a);
    EnabledThread(s, p, a);
    forall q | q in s.threads && q != p
      ensures ThreadOk(s', s'.threads[q]) && Apart(s'.threads[p], s'.threads[q]) && Apart(s'.threads[q], s'.threads[p])
    {
      StepOfOther(s, p, a, q);
    }
    forall q, r | q in s'.threads && r in s'.threads && q != r
      ensures Apart(s'.threads[q], s'.threads[r])
    {
      if q != p && r != p {
        assert Apart(s.threads[q], s.threads[r]);
      }
    }
  }

  lemma EnabledThread(s: State, p: Parse, a: Action)
    requires Enabled(s, p, a)
    ensures p in s.threads
  {
  }

  // Runs: the parses take their steps in any order.

  ghost predicate Next(s: State, s': State) {
    exists p, a :: Enabled(s, p, a) && s' == Step(s, p, a)
  }

  ghost predicate Run(trace: seq<State>) {
    && trace != [] && Initial(trace[0])
    && forall i :: 0 <= i < |trace| - 1 ==> Next(trace[i], trace[i + 1])
  }

  lemma {:induction false} RunKeepsInv(trace: seq<State>, i: nat)
    requires Run(trace) && i < |trace|
    ensures Inv(trace[i])
  {
    if i > 0 {
      RunKeepsInv(trace, i - 1);
      assert Next(trace[i - 1], trace[i]);
      var p, a :| Enabled(trace[i - 1], p, a) && trace[i] == Step(trace[i - 1], p, a);
      InvStep(trace[i - 1], p, a);
    }
  }

  /** From `s` to `s'`, creating a context gives `c` to parse `p`. */
  predicate Obtains(s: State, s': State, p: Parse, c: Context) {
    p in s.threads && p in s'.threads && c !in s.threads[p].owned && c in s'.threads[p].owned
  }

  /** From `s` to `s'`, parse `p` starts recycling `c`. */
  predicate Recycles(s: State, s': State, p: Parse, c: Context) {
    p in s.threads && p in s'.threads && c in s.threads[p].owned && s'.threads[p].point == Clearing(c)
  }

  /** Whoever else is at work, a context that is created is empty, held by no other parse and no
      longer in the cache. */
  lemma ObtainedIsExclusive(trace: seq<State>, i: nat, p: Parse, c: Context)
    requires Run(trace) && i < |trace| - 1 && Obtains(trace[i], trace[i + 1], p, c)
    ensures var s' := trace[i + 1];
            && c in s'.filled && s'.filled[c] == 0 && s'.cached != Some(c)
            && forall q :: q in s'.threads && q != p ==> c !in Held(s'.threads[q])
  {
    RunKeepsInv(trace, i);
    RunKeepsInv(trace, i + 1);
    var s, s' := trace[i], trace[i + 1];
    assert Next(s, s');
    var q, a :| Enabled(s, q, a) && s' == Step(s, q, a);
    EnabledThread(s, q, a);
    StepOfNobodyElse(s, q, a);
    ObtainedIsEmpty(s, p, a, c);
    forall q | q in s'.threads && q != p ensures c !in Held(s'.threads[q]) {
      assert Apart(s'.threads[p], s'.threads[q]);
    }
    hide Step, Enabled;
  }

  lemma ObtainedIsEmpty(s: State, p: Parse, a: Action, c: Context)
    requires Inv(s) && Enabled(s, p, a) && Obtains(s, Step(s, p, a), p, c)
    ensures var s' := Step(s, p, a); c in s'.filled && s'.filled[c] == 0 && s'.cached != Some(c)
  {
    assert ThreadOk(s, s.threads[p]);
    StepOfOwner(s, p, a);
  }

  /** An owner keeps its context until it recycles it. */
  lemma {:induction false} OwnedUntilRecycled(trace: seq<State>, i: nat, j: nat, p: Parse, c: Context)
    requires Run(trace) && i <= j < |trace| && p in trace[i].threads && c in trace[i].threads[p].owned
    requires forall k :: i <= k < j ==> !Recycles(trace[k], trace[k + 1], p, c)
    ensures p in trace[j].threads && c in trace[j].threads[p].owned
    decreases j
  {
    if i < j {
      OwnedUntilRecycled(trace, i, j - 1, p, c);
      assert !Recycles(trace[j - 1], trace[j], p, c) by {
        assert !Recycles(trace[j - 1], trace[j - 1 + 1], p, c);
      }
      assert Next(trace[j - 1], trace[j - 1 + 1]);
      var q, a :| Enabled(trace[j - 1], q, a) && trace[j] == Step(trace[j - 1], q, a);
    }
  }

  /** A context given out twice was recycled by its first owner in between: what is put back in the
      cache is handed to one parse at most. */
  lemma HandedOutOnce(trace: seq<State>, i: nat, j: nat, p: Parse, q: Parse, c: Context)
    requires Run(trace) && i < j < |trace| - 1
    requires Obtains(trace[i], trace[i + 1], p, c) && Obtains(trace[j], trace[j + 1], q, c)
    ensures exists k :: i < k < j && Recycles(trace[k], trace[k + 1], p, c)
  {
    hide Step, Enabled, Held, Initial;
    if forall k :: i < k < j ==> !Recycles(trace[k], trace[k + 1], p, c) {
      OwnedUntilRecycled(trace, i + 1, j, p, c);
      ObtainedIsExclusive(trace, j, q, c);
      KeptWhileAnotherObtains(trace[j], trace[j + 1], p, q, c);
      assert false;
    }
  }

  lemma KeptWhileAnotherObtains(s: State, s': State, p: Parse, q: Parse, c: Context)
    requires Next(s, s') && p in s.threads && c in s.threads[p].owned && Obtains(s, s', q, c)
    ensures p != q && p in s'.threads && c in Held(s'.threads[p])
  {
    var r, a :| Enabled(s, r, a) && s' == Step(s, r, a);
    StepOfNobodyElse(s, r, a);
    EnabledThread(s, r, a);
  }

  /** How many of its own steps a parse still needs before it is idle. */
  function Distance(pt: Point): nat {
    match pt
    case Idle => 0
    case Locking => 5
    case Taking => 4
    case Resetting(_) => 3
    case Unlocking(_) => 2
    case Allocating => 1
    case Clearing(_) => 4
    case Releasing(_) => 3
    case Storing(_) => 2
    case Leaving => 1
  }

  /** No parse ever waits for another: each of its steps is always possible and brings it nearer to
      the end, and the steps of the others do not set it back. */
  lemma NobodyWaits(s: State, p: Parse, next: Context, q: Parse, a: Action)
    requires p in s.threads && !s.threads[p].point.Idle? && next !in s.filled
    requires Enabled(s, q, a) && q != p
    ensures Enabled(s, p, Continue(next))
    ensures Distance(Step(s, p, Continue(next)).threads[p].point) < Distance(s.threads[p].point) <= 5
    ensures Step(s, q, a).threads[p] == s.threads[p]
  {
  }

  /** An idle parse may create a context, and fill or recycle any of its own, at any time. */
  lemma IdleMay(s: State, p: Parse, c: Context)
    requires Inv(s) && p in s.threads && s.threads[p].point.Idle?
    ensures Enabled(s, p, Create)
    ensures c in s.threads[p].owned ==> Enabled(s, p, Fill(c)) && Enabled(s, p, Recycle(c))
  {
    assert ThreadOk(s, s.threads[p]);
  }

  /** Filling a context adds one assignment to it, and does nothing else. */
  lemma FillAddsOne(s: State, p: Parse, c: Context, d: Context)
    requires Enabled(s, p, Fill(c))
    ensures var s' := Step(s, p, Fill(c));
            && s'.locked == s.locked && s'.cached == s.cached && s'.threads == s.threads
            && (d in s'.filled <==> d in s.filled)
            && (d in s.filled ==> s'.filled[d] - s.filled[d] == if d == c then 1 else 0)
  {
  }

  /** No step writes to a context that another parse holds or that is in the cache. */
  lemma WritesOwn(s: State, p: Parse, a: Action, c: Context)
    requires Inv(s) && Enabled(s, p, a) && c in s.filled
    requires c !in Step(s, p, a).filled || Step(s, p, a).filled[c] != s.filled[c]
    ensures c in Held(s.threads[p]) && s.cached != Some(c)
    ensures forall q :: q in s.threads && q != p ==> c !in Held(s.threads[q])
  {
    assert ThreadOk(s, s.threads[p]);
    forall q | q in s.threads && q != p
      ensures Apart(s.threads[p], s.threads[q])
    {
    }
  }

  /** A parse that finds the lock taken when it gives a context back drops it: nobody has it any more. */
  lemma LockedOutDrops(s: State, p: Parse, c: Context, next: Context)
    requires Inv(s) && p in s.threads && s.threads[p].point == Releasing(c) && s.locked
    ensures Enabled(s, p, Continue(next))
    ensures var s' := Step(s, p, Continue(next));
            && s'.threads[p] == Thread(Idle, s.threads[p].owned) && s'.cached == s.cached && s'.cached != Some(c)
            && s'.filled == s.filled && forall q :: q in s'.threads ==> c !in Held(s'.threads[q])
  {
    assert ThreadOk(s, s.threads[p]);
    forall q | q in s.threads && q != p
      ensures Apart(s.threads[p], s.threads[q])
    {
    }
  }

  /** A parse that finds the lock taken, at `s`, gets a context that did not exist before, whatever
      the others did until its next step, at `s'`. */
  lemma LockedOutAllocates(s: State, s': State, p: Parse, any: Context, next: Context)
    requires Enabled(s, p, Continue(any)) && s.threads[p].point.Locking? && s.locked
    requires Inv(s') && Enabled(s', p, Continue(next)) && s'.threads[p] == Step(s, p, Continue(any)).threads[p]
    ensures Obtains(s', Step(s', p, Continue(next)), p, next)
    ensures next !in s'.filled && s'.cached != Some(next) && forall q :: q in s'.threads ==>
            next !in Held(s'.threads[q])
  {
    forall q | q in s'.threads ensures next !in Held(s'.threads[q]) {
      assert ThreadOk(s', s'.threads[q]);
    }
    assert ThreadOk(s', s'.threads[p]);
  }

  // A parse that is alone: the steps together are the sequential operations of a handler.

  /** Parse `p` takes four steps in a row. */
  function FourSteps(s: State, p: Parse, next: Context): (s': State)
    requires p in s.threads && Distance(s.threads[p].point) >= 4 && !s.locked && next !in s.filled
    requires s.threads[p].point.Locking? || s.threads[p].point.Clearing?
  {
    var a := Continue(next);
    var s1 := Step(s, p, a);
    var s2 := Step(s1, p, a);
    var s3 := Step(s2, p, a);
    Step(s3, p, a)
  }

  lemma FourStepsFromLocking(s: State, p: Parse, next: Context)
    requires p in s.threads && s.threads[p].point.Locking? && !s.locked && next !in s.filled
    ensures var owned := s.threads[p].owned;
            FourSteps(s, p, next) ==
            if s.cached.Some?
            then State(false, None, s.filled, s.threads[p := Thread(Idle, owned + {s.cached.value})])
            else State(false, None, s.filled[next := 0], s.threads[p := Thread(Idle, owned + {next})])
  {
    var a, t := Continue(next), s.threads[p];
    var s1 := Step(s, p, a);
    assert s1 == State(true, s.cached, s.filled, s.threads[p := t.(point := Taking)]);
    var s2 := Step(s1, p, a);
    if s.cached.Some? {
      assert s2 == State(true, s.cached, s.filled, s.threads[p := t.(point := Resetting(s.cached.value))]);
      var s3 := Step(s2, p, a);
      assert s3 == State(true, None, s.filled, s.threads[p := t.(point := Unlocking(s.cached))]);
    } else {
      assert s2 == State(true, None, s.filled, s.threads[p := t.(point := Unlocking(None))]);
      var s3 := Step(s2, p, a);
      assert s3 == State(false, None, s.filled, s.threads[p := t.(point := Allocating)]);
    }
  }

  /** Creating a context takes the cached one if there is one, and allocates otherwise. */
  lemma CreateAlone(s: State, p: Parse, next: Context)
    requires Enabled(s, p, Create) && !s.locked && next !in s.filled
    ensures var owned := s.threads[p].owned;
            FourSteps(Step(s, p, Create), p, next) ==
            if s.cached.Some?
            then Moved(s, p, Thread(Idle, owned + {s.cached.value})).(cached := None)
            else Moved(s, p, Thread(Idle, owned + {next})).(filled := s.filled[next := 0])
  {
    hide FourSteps;
    var s0 := Step(s, p, Create);
    assert s0 == Moved(s, p, s.threads[p].(point := Locking));
    FourStepsFromLocking(s0, p, next);
    hide Step;
  }

  /** Recycling a context clears it and leaves it in the cache, whatever was there. */
  lemma RecycleAlone(s: State, p: Parse, c: Context, next: Context)
    requires Enabled(s, p, Recycle(c)) && !s.locked && next !in s.filled
    ensures FourSteps(Step(s, p, Recycle(c)), p, next) ==
            Moved(s, p, Thread(Idle, s.threads[p].owned - {c})).(cached := Some(c)).(filled := s.filled[c := 0])
  {
    var a, s0 := Continue(next), Step(s, p, Recycle(c));
    var s1 := Step(s0, p, a);
    var s2 := Step(s1, p, a);
    assert s2.threads == s.threads[p := Thread(Storing(c), s.threads[p].owned - {c})];
  }
}
