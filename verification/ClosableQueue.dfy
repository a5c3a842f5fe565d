/**
 * The closable bounded queue of linked_list.c under every interleaving of its callers: two
 * semaphores, a lock around the list, and a closing thread that posts extra tokens.
 */
module ClosableQueue {
  import opened Basics

  type Elem = int

  // Where a caller is: append goes through WaitEmpty, CheckEmpty, Enter and PostFull, dequeue and
  // remove through WaitFull, CheckFull, Take and PostEmpty; callers that find the queue closed
  // return their token.
  datatype Pc =
    | Idle
    | WaitEmpty | CheckEmpty | Enter | PostFull | ReturnEmpty
    | WaitFull | CheckFull | Take | PostEmpty | ReturnFull

  datatype State = State(
    max: nat,
    list: seq<Elem>,
    empty: nat,            // the two semaphores
    full: nat,
    closed: bool,
    pcs: seq<Pc>,
    args: seq<Elem>,       // what each caller appends
    oweFull: nat,          // posts the closing thread has still to make
    oweEmpty: nat,
    extraFull: nat,        // posts it has made
    extraEmpty: nat,
    entered: seq<Elem>,    // all elements appended, and those dequeued, in order
    left: seq<Elem>,
    removed: bool)         // an element was taken from the middle

  datatype Step =
    | CallAppend(i: nat, x: Elem)
    | CallTake(i: nat)
    | Advance(i: nat, k: nat)   // the caller's next action; k is the position a removal takes from
    | Close(full: nat, empty: nat)
    | CloserPostsFull
    | CloserPostsEmpty

  predicate Init(s: State) {
    && s.list == [] && s.empty == s.max && s.full == 0 && !s.closed && |s.args| == |s.pcs|
    && (forall i | 0 <= i < |s.pcs| :: s.pcs[i].Idle?)
    && s.oweFull == s.oweEmpty == s.extraFull == s.extraEmpty == 0
    && s.entered == s.left == [] && !s.removed
  }

  predicate Enabled(s: State, a: Step) {
    match a
    case CallAppend(i, _) => i < |s.pcs| && s.pcs[i].Idle? && i < |s.args|
    case CallTake(i) => i < |s.pcs| && s.pcs[i].Idle?
    case Advance(i, k) =>
      && i < |s.pcs| && i < |s.args| && !s.pcs[i].Idle?
      && (s.pcs[i].WaitEmpty? ==> s.empty > 0) && (s.pcs[i].WaitFull? ==> s.full > 0)
      && (s.pcs[i].Take? ==> k == 0 || k < |s.list|)
    case Close(_, _) => true
    case CloserPostsFull => s.oweFull > 0
    case CloserPostsEmpty => s.oweEmpty > 0
  }

  function Go(s: State, i: nat, pc: Pc): State
    requires i < |s.pcs|
  {
    s.(pcs := s.pcs[i := pc])
  }

  // Where a caller goes next, and what it adds to the two semaphores.
  function Next(pc: Pc, closed: bool): (Pc, int, int) {
    match pc
    case Idle => (Idle, 0, 0)
    case WaitEmpty => (CheckEmpty, -1, 0)
    case CheckEmpty => (if closed then ReturnEmpty else Enter, 0, 0)
    case Enter => (PostFull, 0, 0)
    case PostFull => (Idle, 0, 1)
    case ReturnEmpty => (Idle, 1, 0)
    case WaitFull => (CheckFull, 0, -1)
    case CheckFull => (if closed then ReturnFull else Take, 0, 0)
    case Take => (PostEmpty, 0, 0)
    case PostEmpty => (Idle, 1, 0)
    case ReturnFull => (Idle, 0, 1)
  }

  // The list under its lock: an appender adds at the end, a taker takes from position k.
  function Locked(s: State, i: nat, k: nat): State
    requires Enabled(s, Advance(i, k))
  {
    if s.pcs[i].Enter? then s.(list := s.list + [s.args[i]], entered := s.entered + [s.args[i]])
    else if s.pcs[i].Take? && s.list != [] then
      s.(list := s.list[..k] + s.list[k + 1..], left := s.left + [s.list[k]], removed := s.removed || k > 0)
    else s
  }

  function DoAdvance(s: State, i: nat, k: nat): State
    requires Enabled(s, Advance(i, k))
  {
    var (pc, empty, full) := Next(s.pcs[i], s.closed);
    Locked(s, i, k).(pcs := s.pcs[i := pc], empty := s.empty + empty, full := s.full + full)
  }

  function Apply(s: State, a: Step): State
    requires Enabled(s, a)
  {
    match a
    case CallAppend(i, x) => Go(s, i, WaitEmpty).(args := s.args[i := x])
    case CallTake(i) => Go(s, i, WaitFull)
    case Advance(i, k) => DoAdvance(s, i, k)
    case Close(full, empty) => s.(closed := true, oweFull := s.oweFull + full, oweEmpty := s.oweEmpty + empty)
    case CloserPostsFull => s.(full := s.full + 1, oweFull := s.oweFull - 1, extraFull := s.extraFull + 1)
    case CloserPostsEmpty => s.(empty := s.empty + 1, oweEmpty := s.oweEmpty - 1, extraEmpty := s.extraEmpty + 1)
  }

  // ------------------------------------------------------------ invariants

  // How many callers are at each point that holds a token, the semaphores, and the list's length.
  datatype Tally = Tally(checkEmpty: int, enter: int, returnEmpty: int, postEmpty: int,
                         checkFull: int, take: int, returnFull: int, postFull: int, empty: int, full: int, length: int)

  function TallyOf(s: State): Tally {
    Tally(CountOf(s.pcs, CheckEmpty), CountOf(s.pcs, Enter), CountOf(s.pcs, ReturnEmpty), CountOf(s.pcs, PostEmpty),
          CountOf(s.pcs, CheckFull), CountOf(s.pcs, Take), CountOf(s.pcs, ReturnFull), CountOf(s.pcs, PostFull), s.empty, s.full, |s.list|)
  }

  // Every slot is free, claimed by an appender, in use, or about to be freed; every element is
  // announced, claimed, or about to be announced; the closing thread's posts come on top.
  predicate AddsUp(t: Tally, max: nat, extraEmpty: nat, extraFull: nat) {
    && t.empty + t.checkEmpty + t.enter + t.returnEmpty + t.length + t.postEmpty == max + extraEmpty
    && t.full + t.checkFull + t.take + t.returnFull + t.postFull == t.length + extraFull
    && t.length + t.enter <= max && t.take <= t.length
  }

  ghost predicate CountsOk(s: State) {
    && AddsUp(TallyOf(s), s.max, s.extraEmpty, s.extraFull)
    && (!s.closed ==> s.extraFull == s.extraEmpty == s.oweFull == s.oweEmpty == 0)
  }

  // Nothing is lost or made up, and without removals the queue is first in, first out.
  ghost predicate ContentsOk(s: State) {
    && multiset(s.entered) == multiset(s.left) + multiset(s.list)
    && (!s.removed ==> s.entered == s.left + s.list)
  }

  ghost predicate Inv(s: State) {
    |s.args| == |s.pcs| && CountsOk(s) && ContentsOk(s)
  }

  function Shift(t: Tally, pc: Pc, d: int): Tally {
    match pc
    case CheckEmpty => t.(checkEmpty := t.checkEmpty + d)
    case Enter => t.(enter := t.enter + d)
    case ReturnEmpty => t.(returnEmpty := t.returnEmpty + d)
    case PostEmpty => t.(postEmpty := t.postEmpty + d)
    case CheckFull => t.(checkFull := t.checkFull + d)
    case Take => t.(take := t.take + d)
    case ReturnFull => t.(returnFull := t.returnFull + d)
    case PostFull => t.(postFull := t.postFull + d)
    case _ => t
  }

  // The tally after one caller moved on.
  lemma Moves(s: State, s': State, i: nat, pc: Pc)
    requires i < |s.pcs| && s'.pcs == s.pcs[i := pc]
    ensures TallyOf(s') == Shift(Shift(TallyOf(s), s.pcs[i], -1), pc, 1).(empty := s'.empty, full := s'.full, length := |s'.list|)
    ensures CountOf(s.pcs, s.pcs[i]) > 0
  {
    hide CountOf;
    CountUpdated(s.pcs, i, pc, CheckEmpty);
    CountUpdated(s.pcs, i, pc, Enter);
    CountUpdated(s.pcs, i, pc, ReturnEmpty);
    CountUpdated(s.pcs, i, pc, PostEmpty);
    CountUpdated(s.pcs, i, pc, CheckFull);
    CountUpdated(s.pcs, i, pc, Take);
    CountUpdated(s.pcs, i, pc, ReturnFull);
    CountUpdated(s.pcs, i, pc, PostFull);
  }

  lemma LockedFacts(s: State, i: nat, k: nat)
    requires Enabled(s, Advance(i, k))
    ensures var t := Locked(s, i, k);
      && |t.list| == |s.list| + One(s.pcs[i].Enter?) - One(s.pcs[i].Take? && s.list != [])
      && t == s.(list := t.list, entered := t.entered, left := t.left, removed := t.removed)
  {
  }

  // One action of a caller at pc on the tally. A caller that finds the queue open knows that the
  // closing thread has not posted.
  lemma ActionAddsUp(t: Tally, t': Tally, pc: Pc, closed: bool, max: nat, extraEmpty: nat, extraFull: nat)
    requires AddsUp(t, max, extraEmpty, extraFull) && (!closed ==> extraEmpty == extraFull == 0)
    requires t.empty >= 0 && t.full >= 0 && t.checkEmpty >= 0 && t.enter >= 0 && t.returnEmpty >= 0 && t.postEmpty >= 0
    requires t.checkFull >= 0 && t.take >= 0 && t.returnFull >= 0 && t.postFull >= 0
    requires (pc.Take? ==> t.take > 0) && (pc.CheckEmpty? ==> t.checkEmpty > 0) && (pc.CheckFull? ==> t.checkFull > 0)
    requires var (pc', empty, full) := Next(pc, closed);
      t' == Shift(Shift(t, pc, -1), pc', 1).(empty := t.empty + empty, full := t.full + full,
                                             length := t.length + One(pc.Enter?) - One(pc.Take?))
    ensures AddsUp(t', max, extraEmpty, extraFull)
  {
  }

  lemma AdvanceKeepsCounts(s: State, i: nat, k: nat)
    requires CountsOk(s) && Enabled(s, Advance(i, k))
    ensures CountsOk(DoAdvance(s, i, k))
  {
    hide CountOf, Locked, Shift, Next;
    LockedFacts(s, i, k);
    var s' := DoAdvance(s, i, k);
    Moves(s, s', i, s'.pcs[i]);
    ActionAddsUp(TallyOf(s), TallyOf(s'), s.pcs[i], s.closed, s.max, s.extraEmpty, s.extraFull);
  }

  lemma StayCounts(s: State, s': State)
    requires CountsOk(s) && s'.pcs == s.pcs && s'.list == s.list && s'.max == s.max
    requires s'.empty - s'.extraEmpty == s.empty - s.extraEmpty && s'.full - s'.extraFull == s.full - s.extraFull && s'.closed
    ensures CountsOk(s')
  {
    hide CountOf;
    assert forall q :: CountOf(s'.pcs, q) == CountOf(s.pcs, q);
  }

  lemma CallKeepsCounts(s: State, s': State, i: nat, pc: Pc)
    requires CountsOk(s) && i < |s.pcs| && s.pcs[i].Idle? && (pc.WaitEmpty? || pc.WaitFull?)
    requires s' == Go(s, i, pc).(args := s'.args)
    ensures CountsOk(s')
  {
    hide CountOf;
    Moves(s, s', i, pc);
  }

  lemma StepKeepsCounts(s: State, a: Step)
    requires CountsOk(s) && Enabled(s, a)
    ensures CountsOk(Apply(s, a))
  {
    hide DoAdvance;
    match a
    case CallAppend(i, x) => CallKeepsCounts(s, Apply(s, a), i, WaitEmpty);
    case CallTake(i) => CallKeepsCounts(s, Apply(s, a), i, WaitFull);
    case Advance(i, k) => AdvanceKeepsCounts(s, i, k);
    case Close(_, _) => StayCounts(s, Apply(s, a));
    case _ =>
      assert s.closed;
      StayCounts(s, Apply(s, a));
  }

  lemma TakeKeepsContents(entered: seq<Elem>, left: seq<Elem>, list: seq<Elem>, k: nat)
    requires k < |list| && multiset(entered) == multiset(left) + multiset(list)
    ensures multiset(entered) == multiset(left + [list[k]]) + multiset(list[..k] + list[k + 1..])
    ensures entered == left + list && k == 0 ==> entered == left + [list[k]] + (list[..k] + list[k + 1..])
  {
    assert list == list[..k] + [list[k]] + list[k + 1..];
  }

  lemma StepKeepsContents(s: State, a: Step)
    requires ContentsOk(s) && Enabled(s, a)
    ensures ContentsOk(Apply(s, a))
  {
    hide Locked, Next;
    match a
    case Advance(i, k) => LockedKeepsContents(s, i, k);
    case _ =>
  }

  lemma LockedKeepsContents(s: State, i: nat, k: nat)
    requires ContentsOk(s) && Enabled(s, Advance(i, k))
    ensures ContentsOk(Locked(s, i, k))
  {
    if s.pcs[i].Enter? {
      EnterKeepsContents(s.entered, s.left, s.list, s.args[i]);
    } else if s.pcs[i].Take? && s.list != [] {
      TakeKeepsContents(s.entered, s.left, s.list, k);
    }
  }

  lemma EnterKeepsContents(entered: seq<Elem>, left: seq<Elem>, list: seq<Elem>, x: Elem)
    requires multiset(entered) == multiset(left) + multiset(list)
    ensures multiset(entered + [x]) == multiset(left) + multiset(list + [x])
    ensures entered == left + list ==> entered + [x] == left + (list + [x])
  {
  }

  // ------------------------------------------------------------ runs

  ghost predicate IsRun(run: seq<State>, steps: seq<Step>) {
    && |run| == |steps| + 1 && Init(run[0])
    && forall i | 0 <= i < |steps| :: Enabled(run[i], steps[i]) && run[i + 1] == Apply(run[i], steps[i])
  }

  lemma InitInv(s: State)
    requires Init(s)
    ensures Inv(s)
  {
    assert forall q: Pc | q in s.pcs :: q == Idle;
    assert forall q: Pc | q in multiset(s.pcs) :: q in s.pcs;
  }

  lemma SameCallers(s: State, a: Step)
    requires Enabled(s, a)
    ensures |Apply(s, a).pcs| == |s.pcs| && |Apply(s, a).args| == |s.args|
  {
  }

  lemma {:induction false} RunKeepsInv(run: seq<State>, steps: seq<Step>, i: nat)
    requires IsRun(run, steps) && i < |run|
    ensures Inv(run[i])
  {
    if i == 0 {
      InitInv(run[0]);
    } else {
      hide CountsOk, ContentsOk, DoAdvance;
      RunKeepsInv(run, steps, i - 1);
      StepKeepsCounts(run[i - 1], steps[i - 1]);
      StepKeepsContents(run[i - 1], steps[i - 1]);
      SameCallers(run[i - 1], steps[i - 1]);
    }
  }

  // In every state of every run the list stays within its bound, a caller about to take finds an
  // element, every element entered is in the list or has left once, and in order unless one was
  // removed from the middle.
  lemma QueueIsSafe(run: seq<State>, steps: seq<Step>, i: nat)
    requires IsRun(run, steps) && i < |run|
    ensures var s := run[i];
      && |s.list| <= s.max
      && (Take in s.pcs ==> s.list != [])
      && multiset(s.entered) == multiset(s.left) + multiset(s.list)
      && (!s.removed ==> s.entered == s.left + s.list)
  {
    RunKeepsInv(run, steps, i);
    if Take in run[i].pcs {
      assert Take in multiset(run[i].pcs);
    }
  }

  // The caller will post to the semaphore without waiting for anyone.
  predicate BoundToPostFull(s: State, pc: Pc) {
    pc.PostFull? || pc.ReturnFull? || (pc.CheckFull? && s.closed)
  }

  predicate BoundToPostEmpty(s: State, pc: Pc) {
    pc.PostEmpty? || pc.ReturnEmpty? || (pc.CheckEmpty? && s.closed)
  }

  // Once the queue is closed and the closing thread has posted to a semaphore, that semaphore is
  // at zero only while some caller is bound to post to it: no caller waits for ever.
  lemma NobodyIsStuck(run: seq<State>, steps: seq<Step>, i: nat)
    requires IsRun(run, steps) && i < |run|
    ensures var s := run[i];
      && (s.extraFull > 0 && s.full == 0 ==> exists j :: 0 <= j < |s.pcs| && BoundToPostFull(s, s.pcs[j]))
      && (s.extraEmpty > 0 && s.empty == 0 ==> exists j :: 0 <= j < |s.pcs| && BoundToPostEmpty(s, s.pcs[j]))
  {
    RunKeepsInv(run, steps, i);
    var s := run[i];
    if s.extraFull > 0 && s.full == 0 {
      assert CountOf(s.pcs, CheckFull) + CountOf(s.pcs, ReturnFull) + CountOf(s.pcs, PostFull) > 0;
      Present(s, CheckFull);
      Present(s, ReturnFull);
      Present(s, PostFull);
    }
    if s.extraEmpty > 0 && s.empty == 0 {
      assert CountOf(s.pcs, CheckEmpty) + CountOf(s.pcs, ReturnEmpty) + CountOf(s.pcs, PostEmpty) > 0;
      Present(s, CheckEmpty);
      Present(s, ReturnEmpty);
      Present(s, PostEmpty);
    }
  }

  lemma Present(s: State, pc: Pc)
    ensures CountOf(s.pcs, pc) > 0 ==> exists j :: 0 <= j < |s.pcs| && s.pcs[j] == pc
  {
    if CountOf(s.pcs, pc) > 0 {
      assert pc in multiset(s.pcs);
      assert pc in s.pcs;
    }
  }

  // ------------------------------------------------------------ closing

  // The posts asked for by the first n steps.
  function AskedFull(steps: seq<Step>, n: nat): nat
    requires n <= |steps|
  {
    if n == 0 then 0 else AskedFull(steps, n - 1) + if steps[n - 1].Close? then steps[n - 1].full else 0
  }

  function AskedEmpty(steps: seq<Step>, n: nat): nat
    requires n <= |steps|
  {
    if n == 0 then 0 else AskedEmpty(steps, n - 1) + if steps[n - 1].Close? then steps[n - 1].empty else 0
  }

  predicate HasClosed(steps: seq<Step>, n: nat)
    requires n <= |steps|
  {
    exists k :: 0 <= k < n && steps[k].Close?
  }

  // The queue is closed once it has been closed, and what the closing threads have posted and still
  // owe is what they were asked for.
  lemma {:induction false} ClosingAddsUp(run: seq<State>, steps: seq<Step>, n: nat)
    requires IsRun(run, steps) && n < |run|
    ensures run[n].closed <==> HasClosed(steps, n)
    ensures run[n].extraFull + run[n].oweFull == AskedFull(steps, n) && run[n].extraEmpty + run[n].oweEmpty == AskedEmpty(steps, n)
  {
    hide Locked, Next, HasClosed;
    if n == 0 {
      ClosedNever(steps);
    } else {
      ClosingAddsUp(run, steps, n - 1);
      ClosedNext(steps, n - 1);
      assert Enabled(run[n - 1], steps[n - 1]) && run[n] == Apply(run[n - 1], steps[n - 1]);
      if steps[n - 1].Advance? {
        LockedFacts(run[n - 1], steps[n - 1].i, steps[n - 1].k);
      }
    }
  }

  lemma ClosedNever(steps: seq<Step>)
    ensures !HasClosed(steps, 0)
  {
  }

  lemma ClosedNext(steps: seq<Step>, n: nat)
    requires n < |steps|
    ensures HasClosed(steps, n + 1) <==> HasClosed(steps, n) || steps[n].Close?
  {
    if HasClosed(steps, n) {
      var k :| 0 <= k < n && steps[k].Close?;
      assert k < n + 1;
    }
  }

  // ------------------------------------------------------------ what is appended

  // What the caller's last call to append was given.
  function LastCall(steps: seq<Step>, n: nat, i: nat): Option<Elem>
    requires n <= |steps|
  {
    if n == 0 then None
    else if steps[n - 1].CallAppend? && steps[n - 1].i == i then Some(steps[n - 1].x) else LastCall(steps, n - 1, i)
  }

  predicate Appending(pc: Pc) {
    pc.WaitEmpty? || pc.CheckEmpty? || pc.Enter?
  }

  lemma {:induction false} CallerKeepsArgument(run: seq<State>, steps: seq<Step>, n: nat, i: nat)
    requires IsRun(run, steps) && n < |run|
    ensures i < |run[n].pcs| && Appending(run[n].pcs[i]) ==> i < |run[n].args| && LastCall(steps, n, i) == Some(run[n].args[i])
  {
    if n > 0 {
      CallerKeepsArgument(run, steps, n - 1, i);
      assert Enabled(run[n - 1], steps[n - 1]) && run[n] == Apply(run[n - 1], steps[n - 1]);
    }
  }

  // What enters the list is what the caller was given.
  lemma EntersWhatWasCalled(run: seq<State>, steps: seq<Step>, n: nat)
    requires IsRun(run, steps) && n < |steps| && steps[n].Advance? && run[n].pcs[steps[n].i].Enter?
    ensures LastCall(steps, n, steps[n].i).Some?
    ensures run[n + 1].entered == run[n].entered + [LastCall(steps, n, steps[n].i).value]
    ensures run[n + 1].list == run[n].list + [LastCall(steps, n, steps[n].i).value]
  {
    CallerKeepsArgument(run, steps, n, steps[n].i);
    assert Enabled(run[n], steps[n]) && run[n + 1] == Apply(run[n], steps[n]);
  }

  // ------------------------------------------------------------ everyone gets out

  ghost predicate Leads(s: State, steps: seq<Step>, s': State)
    decreases |steps|
  {
    if steps == [] then s' == s
    else Enabled(s, steps[0]) && Leads(Apply(s, steps[0]), steps[1..], s')
  }

  lemma LeadsFrom(s: State, a: Step, steps: seq<Step>, s': State)
    requires Enabled(s, a) && Leads(Apply(s, a), steps, s')
    ensures Leads(s, [a] + steps, s')
  {
    assert ([a] + steps)[1..] == steps;
  }

  lemma {:induction false} LeadsThen(s: State, steps: seq<Step>, s1: State, steps': seq<Step>, s2: State)
    requires Leads(s, steps, s1) && Leads(s1, steps', s2)
    ensures Leads(s, steps + steps', s2)
    decreases |steps|
  {
    hide Enabled, Apply;
    if steps == [] {
      assert steps + steps' == steps';
    } else {
      LeadsThen(Apply(s, steps[0]), steps[1..], s1, steps', s2);
      assert (steps + steps')[1..] == steps[1..] + steps';
    }
  }

  // How many actions a caller has left that wait for nobody.
  function ActionsLeft(pc: Pc): nat {
    match pc
    case Idle => 0
    case WaitEmpty => 4
    case WaitFull => 4
    case CheckEmpty => 3
    case CheckFull => 3
    case Enter => 2
    case Take => 2
    case _ => 1
  }

  predicate Waits(pc: Pc) {
    pc.WaitEmpty? || pc.WaitFull?
  }

  // A caller that need not wait, or has a token to take, gets out by its own actions.
  lemma {:induction false} RunsOut(s: State, i: nat) returns (steps: seq<Step>, s': State)
    requires i < |s.pcs| == |s.args| && (s.pcs[i].WaitEmpty? ==> s.empty > 0) && (s.pcs[i].WaitFull? ==> s.full > 0)
    ensures Leads(s, steps, s') && i < |s'.pcs| && s'.pcs[i].Idle? && (forall a | a in steps :: a == Advance(i, 0))
    ensures s'.pcs == s.pcs[i := Idle] && s'.args == s.args && s'.closed == s.closed && (s.pcs[i].Idle? ==> s' == s)
    ensures s.closed && (s.pcs[i].PostFull? || s.pcs[i].ReturnFull? || s.pcs[i].CheckFull?) ==> s'.full == s.full + 1
    ensures s.closed && (s.pcs[i].PostEmpty? || s.pcs[i].ReturnEmpty? || s.pcs[i].CheckEmpty?) ==> s'.empty == s.empty + 1
    decreases ActionsLeft(s.pcs[i])
  {
    hide Leads;
    if s.pcs[i].Idle? {
      steps, s' := [], s;
      assert s.pcs[i := Idle] == s.pcs;
      LeadsNowhere(s);
    } else {
      var s1 := Apply(s, Advance(i, 0));
      var rest;
      rest, s' := RunsOut(s1, i);
      LeadsFrom(s, Advance(i, 0), rest, s');
      steps := [Advance(i, 0)] + rest;
      assert s1.pcs[i := Idle] == s.pcs[i := Idle];
    }
  }

  lemma LeadsNowhere(s: State)
    ensures Leads(s, [], s)
  {
  }

  // In every state of every run after a closing thread has posted to both semaphores, every caller
  // can get out by actions of callers alone.
  lemma EveryoneGetsOut(run: seq<State>, steps: seq<Step>, n: nat, i: nat) returns (more: seq<Step>, s': State)
    requires IsRun(run, steps) && n < |run| && i < |run[n].pcs| && run[n].extraFull > 0 && run[n].extraEmpty > 0
    ensures Leads(run[n], more, s') && (forall a | a in more :: a.Advance?) && i < |s'.pcs| && s'.pcs[i].Idle?
  {
    var s := run[n];
    NobodyIsStuck(run, steps, n);
    assert s.closed && |s.args| == |s.pcs| by { RunKeepsInv(run, steps, n); }
    hide Leads, Enabled, Apply, IsRun;
    if s.pcs[i].WaitFull? && s.full == 0 {
      var j :| 0 <= j < |s.pcs| && BoundToPostFull(s, s.pcs[j]);
      var first, s1 := RunsOut(s, j);
      var second;
      second, s' := RunsOut(s1, i);
      LeadsThen(s, first, s1, second, s');
      more := first + second;
    } else if s.pcs[i].WaitEmpty? && s.empty == 0 {
      var j :| 0 <= j < |s.pcs| && BoundToPostEmpty(s, s.pcs[j]);
      var first, s1 := RunsOut(s, j);
      var second;
      second, s' := RunsOut(s1, i);
      LeadsThen(s, first, s1, second, s');
      more := first + second;
    } else {
      more, s' := RunsOut(s, i);
    }
  }
}
