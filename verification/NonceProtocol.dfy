/** The nonce store shared by any number of threads (`nonce.rs`, `account.rs`). The store takes its
    lock anew for every pop, every single push and the emptiness check, and holds none across a
    request; each of those is one atomic action here, and any interleaving of actions is a run. */
module NonceProtocol {
  import opened Wrappers
  import opened Acme

  /** Where a thread stands in `post_kid` and the `get`, `refill` and `absorb` inside it. For a `get`
      that went to the CA, `brought` are the nonces its HEAD brought and `marks` the positions, in the
      order of all pushes, of those pushed so far. */
  datatype Thread =
    | Idle
    | Heading
    | HeadAnswered(success: bool, values: seq<string>)
    | Filling(unpushed: seq<string>, marks: seq<nat>, brought: seq<string>)
    | LastPop(marks: seq<nat>, brought: seq<string>)
    | Starved(marks: seq<nat>, brought: seq<string>)   // `get` failed with MissingField
    | Signing(nonce: string)
    | Posting(nonce: string)
    | PostAnswered(values: seq<string>)
    | Absorbing(unpushed: seq<string>)

  datatype Taken = Popped(value: string, thread: nat) | Cleared(value: string)

  /** The pool and the threads; the logs of all pushes, of all removals, and of all values given to
      `absorb`; and the CA's nonces, with the number of POSTs it refused for theirs. */
  datatype State = State(pool: seq<string>, threads: seq<Thread>,
                         pushes: seq<string>, taken: seq<Taken>, given: seq<string>,
                         issued: set<string>, outstanding: set<string>, refused: nat)

  function Init(n: nat): State {
    State([], seq(n, _ => Idle), [], [], [], {}, {}, 0)
  }

  datatype Action =
    | TryPop(thread: nat)
    | AnswerHead(thread: nat, success: bool, values: seq<string>)
    | ReceiveHead(thread: nat)
    | PushOne(thread: nat)
    | CheckEmpty(thread: nat)
    | PopAgain(thread: nat)
    | Send(thread: nat)
    | AnswerPost(thread: nat, values: seq<string>)
    | ReceivePost(thread: nat)
    | Finish(thread: nat)
    | Fail(thread: nat)       // a lost request, a lost answer, a failed signature, or `get` returning its error
    | Clear

  // ---- the actions ---------------------------------------------------------

  function Move(s: State, i: nat, t: Thread): State
    requires i < |s.threads|
  {
    s.(threads := s.threads[i := t])
  }

  function PopTo(s: State, i: nat): State
    requires i < |s.threads| && s.pool != []
  {
    s.(pool := s.pool[1..], taken := s.taken + [Popped(s.pool[0], i)], threads := s.threads[i := Signing(s.pool[0])])
  }

  function Push(s: State, value: string): State {
    s.(pool := s.pool + [value], pushes := s.pushes + [value])
  }

  function AsSet(values: seq<string>): set<string> {
    set v | v in values
  }

  function Issue(s: State, values: seq<string>): State {
    s.(issued := s.issued + AsSet(NonEmpty(values)), outstanding := s.outstanding + AsSet(NonEmpty(values)))
  }

  function AllCleared(values: seq<string>): (r: seq<Taken>)
    ensures |r| == |values| && forall k :: 0 <= k < |r| ==> r[k] == Cleared(values[k])
  {
    if values == [] then [] else [Cleared(values[0])] + AllCleared(values[1..])
  }

  function PushStep(s: State, i: nat): State
    requires i < |s.threads|
  {
    match s.threads[i]
    case Filling(unpushed, marks, brought) =>
      if unpushed == [] then s
      else if unpushed[0] == "" then Move(s, i, Filling(unpushed[1..], marks, brought))
      else Move(Push(s, unpushed[0]), i, Filling(unpushed[1..], marks + [|s.pushes|], brought))
    case Absorbing(unpushed) =>
      if unpushed == [] then s
      else if unpushed[0] == "" then Move(s, i, Absorbing(unpushed[1..]))
      else Move(Push(s, unpushed[0]), i, Absorbing(unpushed[1..]))
    case _ => s
  }

  /** One action of thread `i`; an action that its thread is not ready for changes nothing. */
  function ThreadStep(s: State, i: nat, a: Action): State
    requires i < |s.threads|
  {
    var t := s.threads[i];
    match a
    case TryPop(_) => if !t.Idle? then s else if s.pool == [] then Move(s, i, Heading) else PopTo(s, i)
    case AnswerHead(_, success, values) =>
      if !t.Heading? then s else Move(Issue(s, values), i, HeadAnswered(success, values))
    case ReceiveHead(_) =>
      if !t.HeadAnswered? then s
      else if !t.success then Move(s, i, Idle)
      else Move(s, i, Filling(t.values, [], NonEmpty(t.values))).(given := s.given + NonEmpty(t.values))
    case PushOne(_) => PushStep(s, i)
    case CheckEmpty(_) =>
      if !(t.Filling? && t.unpushed == []) then s
      else Move(s, i, if s.pool == [] then Starved(t.marks, t.brought) else LastPop(t.marks, t.brought))
    case PopAgain(_) =>
      if !t.LastPop? then s else if s.pool == [] then Move(s, i, Starved(t.marks, t.brought)) else PopTo(s, i)
    case Send(_) => if !t.Signing? then s else Move(s, i, Posting(t.nonce))
    case AnswerPost(_, values) =>
      if !t.Posting? then s
      else
        var handled := if t.nonce in s.outstanding then s.(outstanding := s.outstanding - {t.nonce})
                       else s.(refused := s.refused + 1);
        Move(Issue(handled, values), i, PostAnswered(values))
    case ReceivePost(_) =>
      if !t.PostAnswered? then s
      else Move(s, i, Absorbing(t.values)).(given := s.given + NonEmpty(t.values))
    case Finish(_) => if t == Absorbing([]) then Move(s, i, Idle) else s
    case Fail(_) =>
      if t.Heading? || t.HeadAnswered? || t.Signing? || t.Posting? || t.PostAnswered? || t.Starved? then
        Move(s, i, Idle)
      else s
    case Clear => s
  }

  function Step(s: State, a: Action): State {
    if a.Clear? then s.(pool := [], taken := s.taken + AllCleared(s.pool))
    else if a.thread < |s.threads| then ThreadStep(s, a.thread, a)
    else s
  }

  function Run(s: State, actions: seq<Action>): State {
    if actions == [] then s else Step(Run(s, actions[..|actions| - 1]), actions[|actions| - 1])
  }

  /** What an action hands to `absorb`: the non-empty nonces of a successful HEAD answer, or of any POST answer,
      that its thread holds and now receives. */
  function Received(s: State, a: Action): seq<string> {
    if a.Clear? || a.thread >= |s.threads| then []
    else
      match s.threads[a.thread]
      case HeadAnswered(success, values) => if a.ReceiveHead? && success then NonEmpty(values) else []
      case PostAnswered(values) => if a.ReceivePost? then NonEmpty(values) else []
      case _ => []
  }

  /** All of it over a run, in order. */
  function GivenOver(n: nat, actions: seq<Action>): seq<string> {
    if actions == [] then []
    else
      var before, last := actions[..|actions| - 1], actions[|actions| - 1];
      GivenOver(n, before) + Received(Run(Init(n), before), last)
  }

  // ---- sums over the threads -----------------------------------------------

  function Total(f: Thread -> multiset<string>, threads: seq<Thread>): multiset<string> {
    if threads == [] then multiset{} else f(threads[0]) + Total(f, threads[1..])
  }

  lemma {:induction false} TotalUpdate(f: Thread -> multiset<string>, threads: seq<Thread>, i: nat, t: Thread)
    requires i < |threads|
    ensures f(threads[i]) <= Total(f, threads)
    ensures Total(f, threads[i := t]) == Total(f, threads) - f(threads[i]) + f(t)
  {
    if i > 0 {
      TotalUpdate(f, threads[1..], i - 1, t);
      assert threads[i := t][1..] == threads[1..][i - 1 := t];
    } else {
      assert threads[i := t][1..] == threads[1..];
    }
  }

  lemma {:induction false} TotalOfIdle(f: Thread -> multiset<string>, n: nat)
    requires f(Idle) == multiset{}
    ensures Total(f, seq(n, _ => Idle)) == multiset{}
  {
    if n > 0 {
      TotalOfIdle(f, n - 1);
      assert seq(n, _ => Idle)[1..] == seq(n - 1, _ => Idle);
    }
  }

  // ---- conservation and order ----------------------------------------------

  /** The nonces a thread has received and not yet pushed. */
  function Unpushed(t: Thread): seq<string> {
    if t.Filling? || t.Absorbing? then NonEmpty(t.unpushed) else []
  }

  function UnpushedBag(t: Thread): multiset<string> {
    multiset(Unpushed(t))
  }

  /** The removals replay the pushes in order, and the pool is what is left of them. */
  ghost predicate InOrder(s: State) {
    && |s.taken| <= |s.pushes| && s.pool == s.pushes[|s.taken|..]
    && (forall k :: 0 <= k < |s.taken| ==> s.taken[k].value == s.pushes[k])
  }

  /** Pushed and unpushed nonces together are those given to `absorb`. */
  ghost predicate Accounted(s: State) {
    multiset(s.pushes) + Total(UnpushedBag, s.threads) == multiset(s.given)
  }

  lemma PopKeepsOrder(s: State, i: nat)
    requires InOrder(s) && i < |s.threads| && s.pool != []
    ensures InOrder(PopTo(s, i))
  {
    assert s.pool[0] == s.pushes[|s.taken|];
  }

  lemma ClearKeepsOrder(s: State)
    requires InOrder(s)
    ensures InOrder(Step(s, Clear))
  {
    var r := Step(s, Clear);
    assert r.pushes[|r.taken|..] == [];
    assert forall k :: |s.taken| <= k < |s.pushes| ==> s.pool[k - |s.taken|] == s.pushes[k];
  }

  lemma PushKeepsOrder(s: State, i: nat)
    requires InOrder(s) && i < |s.threads|
    ensures InOrder(PushStep(s, i))
  {
    var r := PushStep(s, i);
    if r.pool != s.pool {
      var v := r.pushes[|s.pushes|];
      assert (s.pushes + [v])[|s.taken|..] == s.pool + [v];
    }
  }

  /** Every other action leaves the pool and the logs alone. */
  lemma OtherKeepsOrder(s: State, i: nat, a: Action)
    requires InOrder(s) && i < |s.threads| && !a.Clear? && !a.PushOne?
    requires ((a.TryPop? && s.threads[i].Idle?) || (a.PopAgain? && s.threads[i].LastPop?)) ==> s.pool == []
    ensures InOrder(ThreadStep(s, i, a))
  {
    var r := ThreadStep(s, i, a);
    assert r.pool == s.pool && r.taken == s.taken && r.pushes == s.pushes;
  }

  lemma StepKeepsOrder(s: State, a: Action)
    requires InOrder(s)
    ensures InOrder(Step(s, a))
  {
    if a.Clear? {
      ClearKeepsOrder(s);
    } else if a.thread < |s.threads| {
      var t := s.threads[a.thread];
      if a.PushOne? {
        PushKeepsOrder(s, a.thread);
      } else if s.pool != [] && ((a.TryPop? && t.Idle?) || (a.PopAgain? && t.LastPop?)) {
        PopKeepsOrder(s, a.thread);
      } else {
        OtherKeepsOrder(s, a.thread, a);
      }
    }
  }

  /** What one thread step adds to the pushes and to the given values, and how that changes what the
      thread still has to push. */
  ghost predicate Parts(s: State, r: State, i: nat, pushed: seq<string>, given: seq<string>)
    requires i < |s.threads|
  {
    && |r.threads| == |s.threads| && r.threads == s.threads[i := r.threads[i]]
    && r.pushes == s.pushes + pushed && r.given == s.given + given
    && Unpushed(s.threads[i]) + given == pushed + Unpushed(r.threads[i])
  }

  lemma PushParts(s: State, i: nat) returns (pushed: seq<string>)
    requires i < |s.threads|
    ensures Parts(s, PushStep(s, i), i, pushed, [])
  {
    var t, r := s.threads[i], PushStep(s, i);
    pushed := if (t.Filling? || t.Absorbing?) && t.unpushed != [] && t.unpushed[0] != "" then [t.unpushed[0]] else [];
    assert r.pushes == s.pushes + pushed;
    assert r.given == s.given + [];
    assert Unpushed(t) == pushed + Unpushed(r.threads[i]);
    assert Unpushed(t) + [] == Unpushed(t);
  }

  lemma ReceiveParts(s: State, i: nat, a: Action) returns (given: seq<string>)
    requires i < |s.threads| && (a.ReceiveHead? || a.ReceivePost?)
    ensures Parts(s, ThreadStep(s, i, a), i, [], given)
  {
    var r := ThreadStep(s, i, a);
    given := r.given[|s.given|..];
    assert s.pushes + [] == s.pushes && s.given + [] == s.given;
  }

  lemma SameParts(s: State, r: State, i: nat)
    requires i < |s.threads| && |r.threads| == |s.threads| && r.threads == s.threads[i := r.threads[i]]
    requires r.pushes == s.pushes && r.given == s.given && Unpushed(r.threads[i]) == Unpushed(s.threads[i])
    ensures Parts(s, r, i, [], [])
  {
    assert s.pushes + [] == s.pushes && s.given + [] == s.given;
    assert Unpushed(s.threads[i]) + [] == [] + Unpushed(r.threads[i]);
  }

  lemma OtherParts(s: State, i: nat, a: Action)
    requires i < |s.threads| && !a.PushOne? && !a.ReceiveHead? && !a.ReceivePost? && !a.Clear?
    ensures Parts(s, ThreadStep(s, i, a), i, [], [])
  {
    SameParts(s, ThreadStep(s, i, a), i);
  }

  lemma StepParts(s: State, a: Action) returns (pushed: seq<string>, given: seq<string>)
    requires !a.Clear? && a.thread < |s.threads|
    ensures Parts(s, Step(s, a), a.thread, pushed, given)
  {
    pushed, given := [], [];
    if a.PushOne? {
      pushed := PushParts(s, a.thread);
    } else if a.ReceiveHead? || a.ReceivePost? {
      given := ReceiveParts(s, a.thread, a);
    } else {
      OtherParts(s, a.thread, a);
    }
  }

  lemma PartsKeepAccount(s: State, r: State, i: nat, pushed: seq<string>, given: seq<string>)
    requires Accounted(s) && i < |s.threads| && Parts(s, r, i, pushed, given)
    ensures Accounted(r)
  {
    TotalUpdate(UnpushedBag, s.threads, i, r.threads[i]);
    assert multiset(Unpushed(s.threads[i]) + given) == UnpushedBag(s.threads[i]) + multiset(given);
    BagSwap(Total(UnpushedBag, s.threads), UnpushedBag(s.threads[i]), UnpushedBag(r.threads[i]), multiset(given),
            multiset(pushed));
    var after := Total(UnpushedBag, r.threads);
    assert multiset(r.pushes) + after == multiset(s.pushes) + (multiset(pushed) + after);
    assert multiset(r.given) == multiset(s.pushes) + (Total(UnpushedBag, s.threads) + multiset(given));
  }

  lemma BagSwap(all: multiset<string>, mine: multiset<string>, left: multiset<string>, given: multiset<string>,
                pushed: multiset<string>)
    requires mine <= all && mine + given == pushed + left
    ensures all + given == pushed + (all - mine + left)
  {
    forall v
      ensures (all + given)[v] == (pushed + (all - mine + left))[v]
    {
      assert (mine + given)[v] == (pushed + left)[v];
    }
  }

  lemma StepKeepsAccount(s: State, a: Action)
    requires Accounted(s)
    ensures Accounted(Step(s, a))
  {
    if !a.Clear? && a.thread < |s.threads| {
      var pushed, given := StepParts(s, a);
      PartsKeepAccount(s, Step(s, a), a.thread, pushed, given);
    }
  }

  lemma StepGives(s: State, a: Action)
    ensures Step(s, a).given == s.given + Received(s, a)
  {
    if !a.Clear? && a.thread < |s.threads| && a.PushOne? {
      assert PushStep(s, a.thread).given == s.given;
    }
  }

  /** The log of given values is what the answers received over the run bring. */
  lemma {:induction false} GivenIsReceived(n: nat, actions: seq<Action>)
    ensures Run(Init(n), actions).given == GivenOver(n, actions)
  {
    if actions != [] {
      GivenIsReceived(n, actions[..|actions| - 1]);
      StepGives(Run(Init(n), actions[..|actions| - 1]), actions[|actions| - 1]);
    }
  }

  function Values(taken: seq<Taken>): seq<string> {
    if taken == [] then [] else Values(taken[..|taken| - 1]) + [taken[|taken| - 1].value]
  }

  /** What all `get` calls returned, in order. */
  function Returned(taken: seq<Taken>): seq<string> {
    if taken == [] then []
    else
      Returned(taken[..|taken| - 1])
      + if taken[|taken| - 1].Popped? then [taken[|taken| - 1].value] else []
  }

  function Discarded(taken: seq<Taken>): seq<string> {
    if taken == [] then []
    else
      Discarded(taken[..|taken| - 1])
      + if taken[|taken| - 1].Cleared? then [taken[|taken| - 1].value] else []
  }

  lemma {:induction false} TakenSplits(taken: seq<Taken>)
    ensures multiset(Returned(taken)) + multiset(Discarded(taken)) == multiset(Values(taken))
  {
    if taken != [] {
      var last := taken[|taken| - 1];
      TakenSplits(taken[..|taken| - 1]);
      assert multiset(Values(taken)) == multiset(Values(taken[..|taken| - 1])) + multiset{last.value};
    }
  }

  lemma {:induction false} ValuesAre(taken: seq<Taken>)
    ensures |Values(taken)| == |taken| && forall k :: 0 <= k < |taken| ==> Values(taken)[k] == taken[k].value
  {
    if taken != [] {
      ValuesAre(taken[..|taken| - 1]);
    }
  }

  lemma {:induction false} AllReturned(taken: seq<Taken>)
    requires forall k :: 0 <= k < |taken| ==> taken[k].Popped?
    ensures Returned(taken) == Values(taken)
  {
    if taken != [] {
      AllReturned(taken[..|taken| - 1]);
    }
  }

  lemma {:induction false} RunKeepsBooks(n: nat, actions: seq<Action>)
    ensures InOrder(Run(Init(n), actions)) && Accounted(Run(Init(n), actions))
  {
    if actions == [] {
      TotalOfIdle(UnpushedBag, n);
    } else {
      var before := actions[..|actions| - 1];
      RunKeepsBooks(n, before);
      StepKeepsOrder(Run(Init(n), before), actions[|actions| - 1]);
      StepKeepsAccount(Run(Init(n), before), actions[|actions| - 1]);
    }
  }

  lemma OrderIsSum(s: State)
    requires InOrder(s)
    ensures s.pushes == Values(s.taken) + s.pool
  {
    ValuesAre(s.taken);
    assert Values(s.taken) == s.pushes[..|s.taken|];
    assert s.pushes == s.pushes[..|s.taken|] + s.pushes[|s.taken|..];
  }

  /** Removals happen in push order, across all threads. */
  lemma FirstInFirstOut(n: nat, actions: seq<Action>)
    ensures var s := Run(Init(n), actions); s.pushes == Values(s.taken) + s.pool
  {
    RunKeepsBooks(n, actions);
    OrderIsSum(Run(Init(n), actions));
  }

  /** Over any run of any number of threads, whatever the CA answers: nonces returned, cleared, pooled
      and not yet pushed are together exactly the non-empty nonces of the answers received. */
  lemma NoncesConserved(n: nat, actions: seq<Action>)
    ensures var s := Run(Init(n), actions);
            multiset(Returned(s.taken)) + multiset(Discarded(s.taken)) + multiset(s.pool)
            + Total(UnpushedBag, s.threads)
            == multiset(GivenOver(n, actions))
  {
    RunKeepsBooks(n, actions);
    GivenIsReceived(n, actions);
    BooksBalance(Run(Init(n), actions));
  }

  lemma BooksBalance(s: State)
    requires InOrder(s) && Accounted(s)
    ensures multiset(Returned(s.taken)) + multiset(Discarded(s.taken)) + multiset(s.pool)
            + Total(UnpushedBag, s.threads)
            == multiset(s.given)
  {
    OrderIsSum(s);
    TakenSplits(s.taken);
    assert multiset(s.pushes) == multiset(Values(s.taken)) + multiset(s.pool);
  }

  // ---- a single thread -----------------------------------------------------

  ghost predicate OneThread(s: State) {
    |s.threads| == 1 && s.pushes + Unpushed(s.threads[0]) == s.given && OnlyThread(s)
  }

  ghost predicate OnlyThread(s: State) {
    && |s.threads| == 1
    && (forall k :: 0 <= k < |s.taken| ==> s.taken[k].Popped? && s.taken[k].thread == 0)
    && (s.threads[0].LastPop? ==> s.pool != [])
  }

  lemma OnlyThreadStep(s: State, a: Action)
    requires OnlyThread(s) && !a.Clear?
    ensures OnlyThread(Step(s, a))
  {
  }

  lemma PartsKeepSequence(s: State, r: State, pushed: seq<string>, given: seq<string>)
    requires |s.threads| == 1 && s.pushes + Unpushed(s.threads[0]) == s.given && Parts(s, r, 0, pushed, given)
    ensures r.pushes + Unpushed(r.threads[0]) == r.given
  {
    assert s.pushes + pushed + Unpushed(r.threads[0]) == s.pushes + (pushed + Unpushed(r.threads[0]));
    assert s.pushes + (Unpushed(s.threads[0]) + given) == s.given + given;
  }

  lemma OneThreadStep(s: State, a: Action)
    requires OneThread(s) && !a.Clear?
    ensures OneThread(Step(s, a))
  {
    OnlyThreadStep(s, a);
    if a.thread == 0 {
      var pushed, given := StepParts(s, a);
      PartsKeepSequence(s, Step(s, a), pushed, given);
    }
  }

  lemma {:induction false} OneThreadRun(actions: seq<Action>)
    requires forall k :: 0 <= k < |actions| ==> !actions[k].Clear?
    ensures OneThread(Run(Init(1), actions))
  {
    if actions != [] {
      OneThreadRun(actions[..|actions| - 1]);
      OneThreadStep(Run(Init(1), actions[..|actions| - 1]), actions[|actions| - 1]);
    }
  }

  /** With one thread and no `clear`, what `get` returned followed by the pool and the values still to
      push is the sequence given to `absorb`, and the last pop of `get` never finds the pool empty. */
  lemma OneThreadInOrder(actions: seq<Action>)
    requires forall k :: 0 <= k < |actions| ==> !actions[k].Clear?
    ensures var s := Run(Init(1), actions);
            && |s.threads| == 1
            && Returned(s.taken) + s.pool + Unpushed(s.threads[0]) == GivenOver(1, actions)
            && (s.threads[0].LastPop? ==> s.pool != [])
  {
    OneThreadRun(actions);
    GivenIsReceived(1, actions);
    FirstInFirstOut(1, actions);
    AllReturned(Run(Init(1), actions).taken);
  }

  // ---- why a refilled `get` can fail ---------------------------------------

  /** Push number `m` is still pooled, or was removed by `clear` or by a thread other than `i`. */
  ghost predicate NotMine(s: State, i: nat, m: nat) {
    m < |s.pushes| && (m < |s.taken| ==> s.taken[m].Cleared? || s.taken[m].thread != i)
  }

  /** `marks` are the pushes of the first of the `brought` nonces, `pending` the others. */
  ghost predicate Marked(s: State, i: nat, marks: seq<nat>, brought: seq<string>, pending: seq<string>) {
    && |marks| <= |brought| && brought[|marks|..] == pending
    && (forall k :: 0 <= k < |marks| ==> NotMine(s, i, marks[k]) && s.pushes[marks[k]] == brought[k])
    && (forall j, k :: 0 <= j < k < |marks| ==> marks[j] < marks[k])
  }

  ghost predicate ThreadMarked(s: State, i: nat)
    requires i < |s.threads|
  {
    match s.threads[i]
    case Filling(unpushed, marks, brought) => Marked(s, i, marks, brought, NonEmpty(unpushed))
    case LastPop(marks, brought) => Marked(s, i, marks, brought, [])
    case Starved(marks, brought) =>
      Marked(s, i, marks, brought, []) && forall k :: 0 <= k < |marks| ==> marks[k] < |s.taken|
    case _ => true
  }

  ghost predicate AllMarked(s: State) {
    forall i :: 0 <= i < |s.threads| ==> ThreadMarked(s, i)
  }

  lemma MarksLast(s: State, r: State, j: nat, marks: seq<nat>, brought: seq<string>, pending: seq<string>)
    requires Marked(s, j, marks, brought, pending) && s.pushes <= r.pushes && s.taken <= r.taken
    requires forall m :: |s.taken| <= m < |r.taken| ==> r.taken[m].Cleared? || r.taken[m].thread != j
    ensures Marked(r, j, marks, brought, pending)
  {
  }

  /** Another thread's step only adds to the logs, and removes nothing in thread `j`'s name. */
  lemma OthersExtendLogs(s: State, a: Action, j: nat)
    requires j < |s.threads| && (a.Clear? || a.thread != j)
    ensures var r := Step(s, a);
            && |r.threads| == |s.threads| && r.threads[j] == s.threads[j] && s.pushes <= r.pushes && s.taken <= r.taken
            && forall m :: |s.taken| <= m < |r.taken| ==> r.taken[m].Cleared? || r.taken[m].thread != j
  {
  }

  lemma OthersKeepMarks(s: State, a: Action, j: nat)
    requires j < |s.threads| && ThreadMarked(s, j) && (a.Clear? || a.thread != j)
    ensures j < |Step(s, a).threads| && ThreadMarked(Step(s, a), j)
  {
    OthersExtendLogs(s, a, j);
    LongerLogsKeepMarks(s, Step(s, a), j);
  }

  lemma LongerLogsKeepMarks(s: State, r: State, j: nat)
    requires j < |s.threads| == |r.threads| && ThreadMarked(s, j) && r.threads[j] == s.threads[j]
    requires s.pushes <= r.pushes && s.taken <= r.taken
    requires forall m :: |s.taken| <= m < |r.taken| ==> r.taken[m].Cleared? || r.taken[m].thread != j
    ensures ThreadMarked(r, j)
  {
    match s.threads[j]
    case Filling(unpushed, marks, brought) => MarksLast(s, r, j, marks, brought, NonEmpty(unpushed));
    case LastPop(marks, brought) => MarksLast(s, r, j, marks, brought, []);
    case Starved(marks, brought) => MarksLast(s, r, j, marks, brought, []);
    case _ =>
  }

  lemma OwnStepKeepsMarks(s: State, a: Action)
    requires InOrder(s) && !a.Clear? && a.thread < |s.threads| && ThreadMarked(s, a.thread)
    ensures ThreadMarked(Step(s, a), a.thread)
  {
    var i, t, r := a.thread, s.threads[a.thread], Step(s, a);
    if a.PushOne? && t.Filling? {
      PushKeepsMarks(s, i);
    } else if a.CheckEmpty? || a.PopAgain? {
      assert s.pool == [] ==> |s.taken| == |s.pushes|;
    }
  }

  lemma PushKeepsMarks(s: State, i: nat)
    requires InOrder(s) && i < |s.threads| && s.threads[i].Filling? && ThreadMarked(s, i)
    ensures ThreadMarked(PushStep(s, i), i)
  {
    var t := s.threads[i];
    if t.unpushed != [] && t.unpushed[0] != "" {
      assert t.brought[|t.marks|..] == [t.unpushed[0]] + NonEmpty(t.unpushed[1..]);
      MarkAnother(s, Push(s, t.unpushed[0]), i, t.marks, t.brought, t.unpushed[0], NonEmpty(t.unpushed[1..]));
      MarksDependOnLogs(Push(s, t.unpushed[0]), PushStep(s, i), i, t.marks + [|s.pushes|], t.brought,
                        NonEmpty(t.unpushed[1..]));
    }
  }

  lemma MarkAnother(s: State, r: State, i: nat, marks: seq<nat>, brought: seq<string>, v: string, pending: seq<string>)
    requires Marked(s, i, marks, brought, [v] + pending) && |s.taken| <= |s.pushes|
    requires r.pushes == s.pushes + [v] && r.taken == s.taken
    ensures Marked(r, i, marks + [|s.pushes|], brought, pending)
  {
    assert brought[|marks|] == ([v] + pending)[0] && brought[|marks| + 1..] == ([v] + pending)[1..];
  }

  lemma MarksDependOnLogs(s: State, r: State, i: nat, marks: seq<nat>, brought: seq<string>, pending: seq<string>)
    requires Marked(s, i, marks, brought, pending) && r.pushes == s.pushes && r.taken == s.taken
    ensures Marked(r, i, marks, brought, pending)
  {
  }

  lemma {:induction false} RunKeepsMarks(n: nat, actions: seq<Action>)
    ensures AllMarked(Run(Init(n), actions))
  {
    if actions != [] {
      var before, a := actions[..|actions| - 1], actions[|actions| - 1];
      RunKeepsMarks(n, before);
      RunKeepsBooks(n, before);
      var s := Run(Init(n), before);
      forall j | 0 <= j < |Step(s, a).threads|
        ensures ThreadMarked(Step(s, a), j)
      {
        if !a.Clear? && a.thread == j {
          OwnStepKeepsMarks(s, a);
        } else {
          OthersKeepMarks(s, a, j);
        }
      }
    }
  }

  /** When `get` fails after its own HEAD was absorbed, each nonce that HEAD brought was pushed, and
      was removed by `clear` or by the pop of another thread. */
  lemma StarvedByOthers(n: nat, actions: seq<Action>, i: nat)
    requires i < |Run(Init(n), actions).threads| && Run(Init(n), actions).threads[i].Starved?
    ensures var s := Run(Init(n), actions);
            var (marks, brought) := (s.threads[i].marks, s.threads[i].brought);
            && |marks| == |brought|
            && (forall j, k :: 0 <= j < k < |marks| ==> marks[j] < marks[k])
            && forall k :: 0 <= k < |marks| ==>
                 && marks[k] < |s.taken| && s.taken[marks[k]].value == brought[k]
                 && (s.taken[marks[k]].Cleared? || s.taken[marks[k]].thread != i)
  {
    RunKeepsMarks(n, actions);
    RunKeepsBooks(n, actions);
    var s := Run(Init(n), actions);
    assert ThreadMarked(s, i);
  }

  /** With one thread and no `clear` that failure means the HEAD brought nothing at all. */
  lemma OneThreadStarvesOnlyDry(actions: seq<Action>)
    requires forall k :: 0 <= k < |actions| ==> !actions[k].Clear?
    requires Run(Init(1), actions).threads != [] && Run(Init(1), actions).threads[0].Starved?
    ensures Run(Init(1), actions).threads[0].brought == []
  {
    OneThreadRun(actions);
    StarvedByOthers(1, actions, 0);
    var s := Run(Init(1), actions);
    if s.threads[0].marks != [] {
      assert false;
    }
  }

  // ---- with a CA that issues each nonce once -------------------------------

  /** The nonces a thread, its request or its answer carries and the CA has not consumed. */
  function Held(t: Thread): seq<string> {
    if t.Filling? || t.Absorbing? then NonEmpty(t.unpushed)
    else if t.HeadAnswered? || t.PostAnswered? then NonEmpty(t.values)
    else if t.Signing? || t.Posting? then [t.nonce]
    else []
  }

  function HeldBag(t: Thread): multiset<string> {
    multiset(Held(t))
  }

  /** Every unconsumed nonce outside the CA: pooled, unpushed, in a request or in an answer. */
  function Everywhere(s: State): multiset<string> {
    multiset(s.pool) + Total(HeldBag, s.threads)
  }

  ghost predicate NoRepeats(values: seq<string>) {
    forall v :: multiset(values)[v] <= 1
  }

  /** Section 6.5 of RFC 8555: the nonces of an answer are new. */
  ghost predicate Fresh(s: State, a: Action) {
    a.AnswerHead? || a.AnswerPost? ==>
      NoRepeats(NonEmpty(a.values)) && forall v :: v in NonEmpty(a.values) ==> v !in s.issued
  }

  ghost predicate HonestRun(n: nat, actions: seq<Action>) {
    forall k :: 0 <= k < |actions| ==> Fresh(Run(Init(n), actions[..k]), actions[k])
  }

  /** The joint invariant: no POST was refused for its nonce, every unconsumed nonce is in one place
      only, and each of them is outstanding at the CA. */
  ghost predicate Joint(s: State) {
    && s.refused == 0 && s.outstanding <= s.issued
    && forall v :: Everywhere(s)[v] <= 1 && (Everywhere(s)[v] > 0 ==> v in s.outstanding)
  }

  /** A step that issues and consumes nothing moves nonces about, or loses some. */
  ghost predicate Carries(s: State, r: State, i: nat)
    requires i < |s.threads|
  {
    && |r.threads| == |s.threads| && r.threads == s.threads[i := r.threads[i]]
    && r.issued == s.issued && r.outstanding == s.outstanding && r.refused == s.refused
    && multiset(r.pool) + HeldBag(r.threads[i]) <= multiset(s.pool) + HeldBag(s.threads[i])
  }

  lemma PopCarries(s: State, i: nat)
    requires i < |s.threads| && s.pool != [] && Held(s.threads[i]) == []
    ensures Carries(s, PopTo(s, i), i)
  {
    assert s.pool == [s.pool[0]] + s.pool[1..];
  }

  lemma PushCarries(s: State, i: nat)
    requires i < |s.threads|
    ensures Carries(s, PushStep(s, i), i)
  {
    var t, r := s.threads[i], PushStep(s, i);
    if (t.Filling? || t.Absorbing?) && t.unpushed != [] && t.unpushed[0] != "" {
      assert HeldBag(t) == multiset{t.unpushed[0]} + HeldBag(r.threads[i]);
    }
  }

  lemma MoveCarries(s: State, r: State, i: nat)
    requires i < |s.threads| && |r.threads| == |s.threads| && r.threads == s.threads[i := r.threads[i]]
    requires r.pool == s.pool && r.issued == s.issued && r.outstanding == s.outstanding && r.refused == s.refused
    requires Held(r.threads[i]) == Held(s.threads[i]) || Held(r.threads[i]) == []
    ensures Carries(s, r, i)
  {
  }

  lemma OtherCarries(s: State, i: nat, a: Action)
    requires i < |s.threads| && !a.Clear? && !a.PushOne? && !a.AnswerHead? && !a.AnswerPost?
    requires ((a.TryPop? && s.threads[i].Idle?) || (a.PopAgain? && s.threads[i].LastPop?)) ==> s.pool == []
    ensures Carries(s, ThreadStep(s, i, a), i)
  {
    MoveCarries(s, ThreadStep(s, i, a), i);
  }

  lemma StepCarries(s: State, i: nat, a: Action)
    requires i < |s.threads| && !a.Clear? && !a.AnswerHead? && !a.AnswerPost?
    ensures Carries(s, ThreadStep(s, i, a), i)
  {
    if a.PushOne? {
      PushCarries(s, i);
    } else if s.pool != [] && ((a.TryPop? && s.threads[i].Idle?) || (a.PopAgain? && s.threads[i].LastPop?)) {
      PopCarries(s, i);
    } else {
      OtherCarries(s, i, a);
    }
  }

  lemma CarriedStaysJoint(s: State, r: State, i: nat)
    requires Joint(s) && i < |s.threads| && Carries(s, r, i)
    ensures Joint(r)
  {
    TotalUpdate(HeldBag, s.threads, i, r.threads[i]);
    forall v
      ensures Everywhere(r)[v] <= Everywhere(s)[v]
    {
      assert (multiset(r.pool) + HeldBag(r.threads[i]))[v] <= (multiset(s.pool) + HeldBag(s.threads[i]))[v];
    }
  }

  /** An answer adds fresh nonces to what its thread holds, after the CA consumed the thread's own. */
  lemma AnswerStaysJoint(s: State, r: State, i: nat, values: seq<string>)
    requires Joint(s) && i < |s.threads| && |r.threads| == |s.threads| && r.threads == s.threads[i := r.threads[i]]
    requires NoRepeats(NonEmpty(values)) && forall v :: v in NonEmpty(values) ==> v !in s.issued
    requires Held(r.threads[i]) == NonEmpty(values) && r.pool == s.pool && r.refused == 0
    requires r.issued == s.issued + AsSet(NonEmpty(values))
    requires r.outstanding == s.outstanding - AsSet(Held(s.threads[i])) + AsSet(NonEmpty(values))
    ensures Joint(r)
  {
    TotalUpdate(HeldBag, s.threads, i, r.threads[i]);
    var mine, brought := HeldBag(s.threads[i]), HeldBag(r.threads[i]);
    assert Everywhere(r) == Everywhere(s) - mine + brought;
    forall v
      ensures Everywhere(r)[v] <= 1 && (Everywhere(r)[v] > 0 ==> v in r.outstanding)
    {
      assert brought[v] > 0 <==> v in NonEmpty(values);
      assert mine[v] > 0 <==> v in Held(s.threads[i]);
      assert Everywhere(s)[v] > 0 ==> v in s.issued;
    }
  }

  lemma AnswerHeadStaysJoint(s: State, i: nat, a: Action)
    requires Joint(s) && Fresh(s, a) && i < |s.threads| && a.AnswerHead?
    ensures Joint(ThreadStep(s, i, a))
  {
    if s.threads[i].Heading? {
      AnswerStaysJoint(s, ThreadStep(s, i, a), i, a.values);
    }
  }

  lemma AnswerPostStaysJoint(s: State, i: nat, a: Action)
    requires Joint(s) && Fresh(s, a) && i < |s.threads| && a.AnswerPost?
    ensures Joint(ThreadStep(s, i, a))
  {
    var t := s.threads[i];
    if t.Posting? {
      HeldIsOutstanding(s, i, t.nonce);
      assert AsSet([t.nonce]) == {t.nonce};
      AnswerStaysJoint(s, ThreadStep(s, i, a), i, a.values);
    }
  }

  lemma ClearStaysJoint(s: State)
    requires Joint(s)
    ensures Joint(Step(s, Clear))
  {
    forall v
      ensures Everywhere(Step(s, Clear))[v] <= Everywhere(s)[v]
    {
    }
  }

  lemma StepStaysJoint(s: State, a: Action)
    requires Joint(s) && Fresh(s, a)
    ensures Joint(Step(s, a))
  {
    if a.Clear? {
      ClearStaysJoint(s);
    } else if a.thread < |s.threads| {
      if a.AnswerHead? {
        AnswerHeadStaysJoint(s, a.thread, a);
      } else if a.AnswerPost? {
        AnswerPostStaysJoint(s, a.thread, a);
      } else {
        StepCarries(s, a.thread, a);
        CarriedStaysJoint(s, Step(s, a), a.thread);
      }
    }
  }

  lemma HeldIsOutstanding(s: State, i: nat, v: string)
    requires Joint(s) && i < |s.threads| && v in Held(s.threads[i])
    ensures v in s.outstanding
  {
    TotalUpdate(HeldBag, s.threads, i, s.threads[i]);
    assert HeldBag(s.threads[i])[v] > 0;
    assert Everywhere(s)[v] > 0;
  }

  lemma {:induction false} JointRun(n: nat, actions: seq<Action>)
    requires HonestRun(n, actions)
    ensures Joint(Run(Init(n), actions))
  {
    if actions == [] {
      TotalOfIdle(HeldBag, n);
    } else {
      var before := actions[..|actions| - 1];
      forall k | 0 <= k < |before|
        ensures Fresh(Run(Init(n), before[..k]), before[k])
      {
        assert before[..k] == actions[..k];
      }
      JointRun(n, before);
      StepStaysJoint(Run(Init(n), before), actions[|actions| - 1]);
    }
  }

  lemma {:induction false} TwoThreadsInTotal(f: Thread -> multiset<string>, threads: seq<Thread>, i: nat, j: nat)
    requires i < j < |threads|
    ensures f(threads[i]) + f(threads[j]) <= Total(f, threads)
  {
    if i > 0 {
      TwoThreadsInTotal(f, threads[1..], i - 1, j - 1);
    } else {
      TotalUpdate(f, threads[1..], j - 1, threads[j]);
    }
  }

  lemma PoolOnce(s: State, v: string)
    requires Joint(s)
    ensures multiset(s.pool)[v] <= 1 && (v in s.pool ==> v in s.outstanding)
  {
    assert Everywhere(s)[v] >= multiset(s.pool)[v];
    assert v in s.pool <==> multiset(s.pool)[v] > 0;
  }

  lemma ThreadOnce(s: State, i: nat, v: string)
    requires Joint(s) && i < |s.threads|
    ensures HeldBag(s.threads[i])[v] <= 1
    ensures v in Held(s.threads[i]) ==> v in s.outstanding && v !in s.pool
  {
    TotalUpdate(HeldBag, s.threads, i, s.threads[i]);
    assert Everywhere(s)[v] >= multiset(s.pool)[v] + HeldBag(s.threads[i])[v];
    assert v in Held(s.threads[i]) <==> HeldBag(s.threads[i])[v] > 0;
    assert v in s.pool <==> multiset(s.pool)[v] > 0;
  }

  lemma ThreadsApart(s: State, i: nat, j: nat, v: string)
    requires Joint(s) && i < j < |s.threads| && v in Held(s.threads[i])
    ensures v !in Held(s.threads[j])
  {
    TwoThreadsInTotal(HeldBag, s.threads, i, j);
    assert Everywhere(s)[v] >= (HeldBag(s.threads[i]) + HeldBag(s.threads[j]))[v];
    assert HeldBag(s.threads[i])[v] > 0;
    assert v in Held(s.threads[j]) <==> HeldBag(s.threads[j])[v] > 0;
  }

  ghost predicate PoolOutstanding(s: State) {
    NoRepeats(s.pool) && forall v :: v in s.pool ==> v in s.outstanding
  }

  ghost predicate HeldOutstanding(s: State, i: nat)
    requires i < |s.threads|
  {
    NoRepeats(Held(s.threads[i])) && forall v :: v in Held(s.threads[i]) ==> v in s.outstanding && v !in s.pool
  }

  ghost predicate HeldApart(s: State, i: nat, j: nat)
    requires i < j < |s.threads|
  {
    forall v :: v in Held(s.threads[i]) ==> v !in Held(s.threads[j])
  }

  lemma PoolStaysOutstanding(s: State)
    requires Joint(s)
    ensures PoolOutstanding(s)
  {
    forall v
      ensures multiset(s.pool)[v] <= 1 && (v in s.pool ==> v in s.outstanding)
    {
      PoolOnce(s, v);
    }
  }

  lemma HeldStaysOutstanding(s: State, i: nat)
    requires Joint(s) && i < |s.threads|
    ensures HeldOutstanding(s, i)
  {
    forall v
      ensures multiset(Held(s.threads[i]))[v] <= 1
      ensures v in Held(s.threads[i]) ==> v in s.outstanding && v !in s.pool
    {
      ThreadOnce(s, i, v);
    }
  }

  lemma HeldStaysApart(s: State, i: nat, j: nat)
    requires Joint(s) && i < j < |s.threads|
    ensures HeldApart(s, i, j)
  {
    forall v | v in Held(s.threads[i])
      ensures v !in Held(s.threads[j])
    {
      ThreadsApart(s, i, j, v);
    }
  }

  /** Over every run of any number of threads against a CA whose answers carry new nonces, requests and
      answers being lost at will: no POST is refused for its nonce, and the nonces of the pool, of
      requests, of answers and of values not yet pushed are pairwise distinct and outstanding. */
  lemma NoPostRefused(n: nat, actions: seq<Action>)
    requires HonestRun(n, actions)
    ensures var s := Run(Init(n), actions);
            && s.refused == 0 && PoolOutstanding(s)
            && (forall i :: 0 <= i < |s.threads| ==> HeldOutstanding(s, i))
            && forall i, j :: 0 <= i < j < |s.threads| ==> HeldApart(s, i, j)
  {
    JointRun(n, actions);
    var s := Run(Init(n), actions);
    PoolStaysOutstanding(s);
    forall i | 0 <= i < |s.threads|
      ensures HeldOutstanding(s, i)
    {
      HeldStaysOutstanding(s, i);
    }
    forall i, j | 0 <= i < j < |s.threads|
      ensures HeldApart(s, i, j)
    {
      HeldStaysApart(s, i, j);
    }
    assert s.refused == 0;
  }

  // ---- undisturbed calls as runs of actions --------------------------------

  /** `n` pushes by thread `i`. */
  function Pushes(s: State, i: nat, n: nat): State {
    if n == 0 then s else Step(Pushes(s, i, n - 1), PushOne(i))
  }

  /** The values a thread is pushing, the empty ones included. */
  function Pending(t: Thread): seq<string>
    requires t.Filling? || t.Absorbing?
  {
    t.unpushed
  }

  lemma OnePush(s: State, i: nat)
    requires i < |s.threads| && (s.threads[i].Filling? || s.threads[i].Absorbing?) && Pending(s.threads[i]) != []
    ensures var r, values := Step(s, PushOne(i)), Pending(s.threads[i]);
            && |r.threads| == |s.threads| && r.threads == s.threads[i := r.threads[i]]
            && (r.threads[i].Filling? <==> s.threads[i].Filling?)
            && (r.threads[i].Absorbing? <==> s.threads[i].Absorbing?)
            && Pending(r.threads[i]) == values[1..] && r.pool == s.pool + if values[0] == "" then [] else [values[0]]
  {
  }

  lemma {:induction false} PushesDrain(s: State, i: nat, n: nat)
    requires i < |s.threads| && (s.threads[i].Filling? || s.threads[i].Absorbing?) && n <= |Pending(s.threads[i])|
    ensures var r, values := Pushes(s, i, n), Pending(s.threads[i]);
            && |r.threads| == |s.threads| && r.threads == s.threads[i := r.threads[i]]
            && (r.threads[i].Filling? <==> s.threads[i].Filling?)
            && (r.threads[i].Absorbing? <==> s.threads[i].Absorbing?)
            && Pending(r.threads[i]) == values[n..] && r.pool + NonEmpty(values[n..]) == s.pool + NonEmpty(values)
  {
    var values := Pending(s.threads[i]);
    if n > 0 {
      PushesDrain(s, i, n - 1);
      var p := Pushes(s, i, n - 1);
      OnePush(p, i);
      assert values[n - 1..][1..] == values[n..];
      FirstIsPushed(p.pool, values[n - 1..]);
    }
  }

  lemma FirstIsPushed(pool: seq<string>, rest: seq<string>)
    requires rest != []
    ensures pool + NonEmpty(rest) == pool + (if rest[0] == "" then [] else [rest[0]]) + NonEmpty(rest[1..])
  {
  }

  /** The state in which a thread has received the answer to its HEAD. */
  function AfterHead(s: State, i: nat, values: seq<string>): State {
    Step(Step(Step(s, TryPop(i)), AnswerHead(i, true, values)), ReceiveHead(i))
  }

  lemma HeadFills(s: State, i: nat, values: seq<string>)
    requires i < |s.threads| && s.threads[i].Idle? && s.pool == []
    ensures var r := AfterHead(s, i, values);
            && |r.threads| == |s.threads| && r.pool == []
            && r.threads[i] == Filling(values, [], NonEmpty(values))
  {
  }

  lemma DrainedGet(s: State, i: nat)
    requires i < |s.threads| && s.threads[i].Filling? && s.threads[i].unpushed == []
    ensures var r := Step(Step(s, CheckEmpty(i)), PopAgain(i));
            && |r.threads| == |s.threads|
            && (s.pool == [] ==> r.threads[i].Starved? && r.pool == [])
            && (s.pool != [] ==> r.threads[i] == Signing(s.pool[0]) && r.pool == s.pool[1..])
  {
  }

  /** The actions of one `get`: a pop, or on an empty pool a HEAD answered with `values`, as many pushes, the
      emptiness check and the last pop. */
  function Got(s: State, i: nat, values: seq<string>): State {
    if s.pool != [] then Step(s, TryPop(i))
    else Step(Step(Pushes(AfterHead(s, i, values), i, |values|), CheckEmpty(i)), PopAgain(i))
  }

  /** Undisturbed, those actions do what `get` does alone: they take the oldest pooled nonce, or the first
      non-empty one of the HEAD's answer and pool the others, or fail if there is none. */
  lemma UndisturbedGet(s: State, i: nat, values: seq<string>)
    requires i < |s.threads| && s.threads[i].Idle?
    ensures var r, all := Got(s, i, values), if s.pool != [] then s.pool else NonEmpty(values);
            && |r.threads| == |s.threads|
            && (all == [] ==> r.threads[i].Starved? && r.pool == [])
            && (all != [] ==> r.threads[i] == Signing(all[0]) && r.pool == all[1..])
  {
    if s.pool == [] {
      var received := AfterHead(s, i, values);
      HeadFills(s, i, values);
      PushesDrain(received, i, |values|);
      var filled := Pushes(received, i, |values|);
      assert filled.pool + [] == filled.pool && [] + NonEmpty(values) == NonEmpty(values);
      DrainedGet(filled, i);
    }
  }

  /** A HEAD answered without success fails its `get`, and none of its nonces is pooled. */
  lemma FailedHead(s: State, i: nat, values: seq<string>)
    requires i < |s.threads| && s.threads[i].Heading?
    ensures var r := Step(Step(s, AnswerHead(i, false, values)), ReceiveHead(i));
            |r.threads| == |s.threads| && r.threads[i] == Idle && r.pool == s.pool && r.given == s.given
  {
  }

  /** The actions of one POST from its sending on: the CA's answer with `values` is received and absorbed. */
  function Answered(s: State, i: nat, values: seq<string>): State {
    var received := Step(Step(s, AnswerPost(i, values)), ReceivePost(i));
    Step(Pushes(received, i, |values|), Finish(i))
  }

  lemma PostAbsorbs(s: State, i: nat, values: seq<string>)
    requires i < |s.threads| && s.threads[i].Posting?
    ensures var r := Step(Step(s, AnswerPost(i, values)), ReceivePost(i));
            && |r.threads| == |s.threads| && r.threads[i] == Absorbing(values) && r.pool == s.pool
  {
  }

  /** Undisturbed, every non-empty nonce of a POST's answer is pooled, behind those already there. */
  lemma UndisturbedPost(s: State, i: nat, values: seq<string>)
    requires i < |s.threads| && s.threads[i].Posting?
    ensures var r := Answered(s, i, values);
            |r.threads| == |s.threads| && r.threads[i] == Idle && r.pool == s.pool + NonEmpty(values)
  {
    var received := Step(Step(s, AnswerPost(i, values)), ReceivePost(i));
    PostAbsorbs(s, i, values);
    PushesDrain(received, i, |values|);
    var drained := Pushes(received, i, |values|);
    assert drained.pool + [] == drained.pool && values[|values|..] == [];
    FinishIdles(drained, i);
  }

  lemma FinishIdles(s: State, i: nat)
    requires i < |s.threads| && s.threads[i].Absorbing? && s.threads[i].unpushed == []
    ensures var r := Step(s, Finish(i)); |r.threads| == |s.threads| && r.threads[i] == Idle && r.pool == s.pool
  {
  }

  /** A whole `post_kid` undisturbed: the nonce sent is the one `get` takes, and the others stay pooled with those
      of the answer behind them. */
  lemma UndisturbedPostKid(s: State, i: nat, head: seq<string>, values: seq<string>)
    requires i < |s.threads| && s.threads[i].Idle?
    ensures var all, sent := if s.pool != [] then s.pool else NonEmpty(head), Step(Got(s, i, head), Send(i));
            all != [] ==>
              && |sent.threads| == |s.threads| && sent.threads[i] == Posting(all[0]) && sent.pool == all[1..]
              && var r := Answered(sent, i, values);
                 |r.threads| == |s.threads| && r.threads[i] == Idle && r.pool == all[1..] + NonEmpty(values)
  {
    UndisturbedGet(s, i, head);
    var sent := Step(Got(s, i, head), Send(i));
    if s.pool != [] || NonEmpty(head) != [] {
      UndisturbedPost(sent, i, values);
    }
  }

  /** `clear` empties the pool and stops nobody. */
  lemma ClearEmpties(s: State)
    ensures var r := Step(s, Clear);
            && r.pool == [] && r.threads == s.threads && |r.taken| == |s.taken| + |s.pool| && s.taken <= r.taken
            && forall k :: 0 <= k < |s.pool| ==> r.taken[|s.taken| + k] == Cleared(s.pool[k])
  {
  }
}
