/** The ordered-invocation coordinator `InOrder` of mockito's `inorder`
    module.  A coordinator watches a fixed list of mocks, attaches itself as
    an observer to each of them, records every call that its watched mocks
    report into one shared log, and lets a test consume that log from the
    front, one expected mock at a time.

    The types are parameters: `M` is the handle a test holds for a mock, `S`
    is the registry's mock object (the subject that notifies observers) and
    `I` is an invocation.  The registry lookup `mock_registry.mock_for` is the
    function `mockFor`, handed to the coordinator when it is created; a
    subject's invocation history, which the mock itself keeps, is passed in
    on each notification. */
module Ordering {
  import opened DuplicateCheck

  /** One log entry: the subject that was called and the invocation it recorded. */
  datatype Entry<S, I> = Entry(mock: S, invocation: I)

  /** What `InOrder.verify` does: raise `IndexError` because the log is empty,
      raise because the front entry belongs to another mock, or hand over to
      the single-mock `verify` of the library for the given handle. */
  datatype Verdict<M, S> = Exhausted | Mismatch(actual: S, wanted: S) | Delegated(mock: M)

  /** What `InOrder(mocks)` does: raise `ValueError` naming the duplicated
      mocks, or produce a coordinator. */
  datatype Construction<M(==, !new), S(==), I> =
    | DuplicateError(dups: seq<M>)
    | Constructed(inOrder: InOrder<M, S, I>)

  /** `xs[-1]`. */
  function Last<I>(xs: seq<I>): I
    requires xs != []
  {
    xs[|xs| - 1]
  }

  /** The subjects the coordinator attaches to: every watched mock, resolved. */
  function Resolved<M(!new), S>(mocks: seq<M>, mockFor: M -> S): (attached: set<S>)
    ensures forall m :: m in mocks ==> mockFor(m) in attached
    ensures mocks == [] ==> attached == {}
  {
    var attached := set i | 0 <= i < |mocks| :: mockFor(mocks[i]);
    assert forall i :: 0 <= i < |mocks| ==> mockFor(mocks[i]) in attached;
    attached
  }

  /** Resolving one more mock attaches to one more subject. */
  lemma ResolvedAppend<M(!new), S>(mocks: seq<M>, m: M, mockFor: M -> S)
    ensures Resolved(mocks + [m], mockFor) == Resolved(mocks, mockFor) + {mockFor(m)}
  {
    var q := mocks + [m];
    assert q[|mocks|] == m;
    forall y | y in Resolved(mocks, mockFor)
      ensures y in Resolved(q, mockFor)
    {
      var i :| 0 <= i < |mocks| && mockFor(mocks[i]) == y;
      assert q[i] == mocks[i];
    }
  }

  /** The subject of a watched mock is attached; nothing else is. */
  lemma ResolvedMembers<M(!new), S>(mocks: seq<M>, mockFor: M -> S, s: S)
    ensures s in Resolved(mocks, mockFor) <==> exists m :: m in mocks && mockFor(m) == s
  {
    if exists m :: m in mocks && mockFor(m) == s {
      var m :| m in mocks && mockFor(m) == s;
      var i :| 0 <= i < |mocks| && mocks[i] == m;
      assert mockFor(mocks[i]) == s;
    }
  }

  class InOrder<M(==, !new), S(==), I> {
    /** The watch list, as given to the constructor. */
    const mocks: seq<M>
    /** The registry lookup `mock_registry.mock_for`. */
    const mockFor: M -> S
    /** The subjects this coordinator has attached itself to. */
    var observing: set<S>
    /** `ordered_invocations`: the calls reported so far and not yet verified, oldest first. */
    var log: seq<Entry<S, I>>

    /** The watch list holds no mock twice, and the coordinator is attached
        to exactly the subjects of the watched mocks. */
    ghost predicate Valid()
      reads this
    {
      NoRepeats(mocks) && observing == Resolved(mocks, mockFor)
    }

    /** The part of `__init__` after the duplicate check: keep the list,
        attach to every resolved mock in turn, start with an empty log. */
    constructor (mocks: seq<M>, mockFor: M -> S)
      requires NoRepeats(mocks)
      ensures Valid()
      ensures this.mocks == mocks && this.mockFor == mockFor
      ensures observing == Resolved(mocks, mockFor) && log == []
    {
      this.mocks := mocks;
      this.mockFor := mockFor;
      observing := {};
      new;
      var i := 0;
      while i < |mocks|
        invariant 0 <= i <= |mocks|
        invariant observing == Resolved(mocks[..i], mockFor)
      {
        assert mocks[..i + 1] == mocks[..i] + [mocks[i]];
        ResolvedAppend(mocks[..i], mocks[i], mockFor);
        observing := observing + {mockFor(mocks[i])};
        i := i + 1;
      }
      assert mocks[..i] == mocks;
      log := [];
    }

    /** The `mocks` property: the watch list, which holds no mock twice and
        whose every mock has its subject attached. */
    function Mocks(): (watched: seq<M>)
      reads this
      requires Valid()
      ensures NoRepeats(watched)
      ensures forall m :: m in watched ==> mockFor(m) in observing
    {
      mocks
    }

    /** `update(subject)`: record the subject's latest invocation at the back
        of the log.  An empty history makes `invocations[-1]` raise
        `IndexError`, and then nothing is recorded. */
    method Update(subject: S, invocations: seq<I>) returns (raised: bool)
      requires Valid()
      modifies this`log
      ensures Valid()
      ensures raised <==> invocations == []
      ensures !raised ==> log == old(log) + [Entry(subject, Last(invocations))]
      ensures raised ==> log == old(log)
      ensures |log| == |old(log)| + (if raised then 0 else 1)
      ensures log[..|old(log)|] == old(log)
    {
      if invocations == [] {
        return true;
      }
      log := log + [Entry(subject, Last(invocations))];
      raised := false;
    }

    /** A subject's `notify()` as this coordinator sees it: `update` runs only
        for a subject the constructor attached this coordinator to. */
    method OnNotify(subject: S, invocations: seq<I>)
      requires Valid()
      modifies this`log
      ensures Valid()
      ensures log == Notified(old(log), observing, subject, invocations)
    {
      if subject in observing {
        var _ := Update(subject, invocations);
      }
    }

    /** `verify(mock)`: pop the front entry (raising `IndexError` on an empty
        log), then compare its subject with the resolved wanted mock. */
    method Verify(mock: M) returns (r: Verdict<M, S>)
      requires Valid()
      modifies this`log
      ensures Valid()
      ensures (r, log) == VerifyStep(old(log), mockFor, mock)
      ensures old(log) == [] ==> r == Exhausted && log == []
      ensures old(log) != [] ==> log == old(log)[1..]
      ensures r.Mismatch? <==> old(log) != [] && old(log)[0].mock != mockFor(mock)
      ensures r.Mismatch? ==> r == Mismatch(old(log)[0].mock, mockFor(mock))
      ensures r.Delegated? <==> old(log) != [] && old(log)[0].mock == mockFor(mock)
      ensures r.Delegated? ==> r.mock == mock
    {
      if log == [] {
        return Exhausted;
      }
      var front := log[0];
      log := log[1..];
      var wanted := mockFor(mock);
      if front.mock != wanted {
        r := Mismatch(front.mock, wanted);
      } else {
        r := Delegated(mock);
      }
    }
  }

  /** `InOrder(mocks)`: reject a watch list with duplicates before attaching
      to anything, otherwise build the coordinator. */
  method Create<M(==, !new), S(==), I>(mocks: seq<M>, mockFor: M -> S) returns (r: Construction<M, S, I>)
    ensures r.DuplicateError? <==> !NoRepeats(mocks)
    ensures r.DuplicateError? ==> r.dups == Duplicates(mocks) && r.dups != []
    ensures r.Constructed? ==>
              && fresh(r.inOrder) && r.inOrder.Valid()
              && r.inOrder.Mocks() == mocks && r.inOrder.mockFor == mockFor
              && r.inOrder.observing == Resolved(mocks, mockFor)
              && r.inOrder.log == []
  {
    var dups := Duplicates(mocks);
    NoDuplicatesIff(mocks);
    if dups != [] {
      return DuplicateError(dups);
    }
    var c := new InOrder(mocks, mockFor);
    r := Constructed(c);
  }

  // ---------------------------------------------------------------------
  // Recording: the log as a function of the calls made on the mocks.
  // ---------------------------------------------------------------------

  /** The log after a subject notifies: one entry more when the coordinator
      is attached to the subject and the history is not empty. */
  function Notified<S, I>(log: seq<Entry<S, I>>, observing: set<S>, subject: S, invocations: seq<I>)
    : (after: seq<Entry<S, I>>)
    ensures |log| <= |after| <= |log| + 1
    ensures after[..|log|] == log
    ensures |after| == |log| + 1 <==> subject in observing && invocations != []
    ensures |after| > |log| ==> after[|log|] == Entry(subject, Last(invocations))
  {
    if subject in observing && invocations != [] then log + [Entry(subject, Last(invocations))]
    else log
  }

  /** The invocation history a subject keeps, given all calls made since it
      was created, oldest first. */
  function History<S(==), I>(calls: seq<Entry<S, I>>, s: S): seq<I> {
    if calls == [] then []
    else
      var c := calls[|calls| - 1];
      History(calls[..|calls| - 1], s) + (if c.mock == s then [c.invocation] else [])
  }

  /** The calls made on attached subjects, in the order they were made. */
  function Watched<S, I>(observing: set<S>, calls: seq<Entry<S, I>>): seq<Entry<S, I>> {
    if calls == [] then []
    else
      var c := calls[|calls| - 1];
      Watched(observing, calls[..|calls| - 1]) + (if c.mock in observing then [c] else [])
  }

  /** The coordinator's log after each call in `calls` has been recorded by
      its subject and notified: every call updates the subject's history,
      then the subject notifies with that history. */
  function Replay<S(==), I>(log: seq<Entry<S, I>>, observing: set<S>, calls: seq<Entry<S, I>>)
    : (after: seq<Entry<S, I>>)
    ensures |log| <= |after| <= |log| + |calls|
    ensures after[..|log|] == log
  {
    if calls == [] then log
    else
      var c := calls[|calls| - 1];
      Notified(Replay(log, observing, calls[..|calls| - 1]), observing, c.mock, History(calls, c.mock))
  }

  /** Exactly the calls on attached subjects are watched. */
  lemma {:induction false} WatchedMembers<S, I>(observing: set<S>, calls: seq<Entry<S, I>>, e: Entry<S, I>)
    ensures e in Watched(observing, calls) <==> e in calls && e.mock in observing
  {
    if calls != [] {
      var p := calls[..|calls| - 1];
      assert calls == p + [calls[|calls| - 1]];
      WatchedMembers(observing, p, e);
    }
  }

  /** The latest entry of a subject's history is the call that was just made on it. */
  lemma HistoryEndsWithLatestCall<S, I>(calls: seq<Entry<S, I>>)
    requires calls != []
    ensures History(calls, calls[|calls| - 1].mock) != []
    ensures Last(History(calls, calls[|calls| - 1].mock)) == calls[|calls| - 1].invocation
  {
  }

  /** The log grows by exactly the calls on attached subjects, each with its
      own invocation, in the order the calls were made; calls on other
      mocks leave no entry. */
  lemma {:induction false} ReplayRecordsWatchedCalls<S, I>(log: seq<Entry<S, I>>, observing: set<S>, calls: seq<Entry<S, I>>)
    ensures Replay(log, observing, calls) == log + Watched(observing, calls)
  {
    if calls != [] {
      var p := calls[..|calls| - 1];
      ReplayRecordsWatchedCalls(log, observing, p);
      HistoryEndsWithLatestCall(calls);
    }
  }

  /** Order is kept across a split: what is watched of earlier calls comes
      before what is watched of later ones. */
  lemma {:induction false} WatchedSplits<S, I>(observing: set<S>, earlier: seq<Entry<S, I>>, later: seq<Entry<S, I>>)
    ensures Watched(observing, earlier + later) == Watched(observing, earlier) + Watched(observing, later)
  {
    if later != [] {
      var p := later[..|later| - 1];
      assert (earlier + later)[..|earlier + later| - 1] == earlier + p;
      assert (earlier + later)[|earlier + later| - 1] == later[|later| - 1];
      WatchedSplits(observing, earlier, p);
    } else {
      assert earlier + later == earlier;
    }
  }

  // ---------------------------------------------------------------------
  // Verifying: the log consumed from the front.
  // ---------------------------------------------------------------------

  /** The comparison of one popped entry with the wanted handle. */
  function Judge<M, S(==), I>(e: Entry<S, I>, mockFor: M -> S, mock: M): (v: Verdict<M, S>)
    ensures !v.Exhausted?
    ensures v.Delegated? <==> e.mock == mockFor(mock)
    ensures v.Delegated? ==> v.mock == mock
    ensures v.Mismatch? ==> v.actual == e.mock && v.wanted == mockFor(mock)
  {
    if e.mock == mockFor(mock) then Delegated(mock) else Mismatch(e.mock, mockFor(mock))
  }

  /** One `verify(mock)`: the verdict and the log that is left. */
  function VerifyStep<M, S(==), I>(log: seq<Entry<S, I>>, mockFor: M -> S, mock: M)
    : (step: (Verdict<M, S>, seq<Entry<S, I>>))
    ensures log == [] ==> step.0 == Exhausted && step.1 == []
    ensures log != [] ==> log == [log[0]] + step.1
    ensures step.0.Mismatch? <==> log != [] && log[0].mock != mockFor(mock)
    ensures step.0.Mismatch? ==> step.0 == Mismatch(log[0].mock, mockFor(mock))
    ensures step.0.Delegated? <==> log != [] && log[0].mock == mockFor(mock)
    ensures step.0.Delegated? ==> step.0.mock == mock
  {
    if log == [] then (Exhausted, [])
    else (Judge(log[0], mockFor, mock), log[1..])
  }

  /** The verdict of `verify` depends on the front entry alone; the entries
      behind it are never read and are left in place. */
  lemma VerifyInspectsOnlyFront<M, S, I>(e: Entry<S, I>, rest: seq<Entry<S, I>>, other: seq<Entry<S, I>>, mockFor: M -> S, mock: M)
    ensures VerifyStep([e] + rest, mockFor, mock).0 == VerifyStep([e] + other, mockFor, mock).0
    ensures VerifyStep([e] + rest, mockFor, mock).1 == rest
  {
    assert ([e] + rest)[0] == e && ([e] + other)[0] == e;
    assert ([e] + rest)[1..] == rest;
  }

  /** `in_order.verify(m)` for each `m` of `wanted` in turn: the verdicts
      and the log that is left.  Each call consumes one entry, whatever its
      verdict, until the log runs out. */
  function VerifyAll<M, S(==), I>(log: seq<Entry<S, I>>, mockFor: M -> S, wanted: seq<M>)
    : (run: (seq<Verdict<M, S>>, seq<Entry<S, I>>))
    ensures |run.0| == |wanted|
    ensures run.1 == if |wanted| <= |log| then log[|wanted|..] else []
  {
    if wanted == [] then ([], log)
    else
      var step := VerifyStep(log, mockFor, wanted[0]);
      var rest := VerifyAll(step.1, mockFor, wanted[1..]);
      ([step.0] + rest.0, rest.1)
  }

  /** The `i`-th call of `verify` compares the `i`-th recorded call with the
      `i`-th wanted mock, and finds the log exhausted once every recorded
      call has been consumed: an earlier mismatch does not shift later ones. */
  lemma {:induction false} VerdictAt<M, S, I>(log: seq<Entry<S, I>>, mockFor: M -> S, wanted: seq<M>, i: nat)
    requires i < |wanted|
    ensures VerifyAll(log, mockFor, wanted).0[i] ==
            if i < |log| then Judge(log[i], mockFor, wanted[i]) else Exhausted
  {
    if i > 0 {
      var step := VerifyStep(log, mockFor, wanted[0]);
      VerdictAt(step.1, mockFor, wanted[1..], i - 1);
      if i < |log| {
        assert step.1[i - 1] == log[i];
      }
    }
  }

  /** The wanted mocks resolve, one by one, to the subjects at the front of the log. */
  ghost predicate MatchesFront<M, S, I>(log: seq<Entry<S, I>>, mockFor: M -> S, wanted: seq<M>) {
    |wanted| <= |log| && forall i :: 0 <= i < |wanted| ==> mockFor(wanted[i]) == log[i].mock
  }

  /** Every verdict is a hand-over to the single-mock verification. */
  ghost predicate AllDelegated<M, S>(verdicts: seq<Verdict<M, S>>) {
    forall i :: 0 <= i < |verdicts| ==> verdicts[i].Delegated?
  }

  /** FIFO law: verifying the recorded order succeeds at every step, hands
      each wanted mock over in turn, and leaves the unverified tail. */
  lemma {:induction false} FifoLaw<M, S, I>(log: seq<Entry<S, I>>, mockFor: M -> S, wanted: seq<M>)
    requires MatchesFront(log, mockFor, wanted)
    ensures forall i :: 0 <= i < |wanted| ==> VerifyAll(log, mockFor, wanted).0[i] == Delegated(wanted[i])
    ensures VerifyAll(log, mockFor, wanted).1 == log[|wanted|..]
  {
    forall i | 0 <= i < |wanted|
      ensures VerifyAll(log, mockFor, wanted).0[i] == Delegated(wanted[i])
    {
      VerdictAt(log, mockFor, wanted, i);
    }
  }

  /** A sequence of `verify` calls all succeed exactly when the wanted mocks
      are the subjects of the oldest recorded calls, in that order. */
  lemma AllDelegatedIff<M, S, I>(log: seq<Entry<S, I>>, mockFor: M -> S, wanted: seq<M>)
    ensures AllDelegated(VerifyAll(log, mockFor, wanted).0) <==> MatchesFront(log, mockFor, wanted)
  {
    var vs := VerifyAll(log, mockFor, wanted).0;
    if MatchesFront(log, mockFor, wanted) {
      FifoLaw(log, mockFor, wanted);
    } else if |wanted| > |log| {
      VerdictAt(log, mockFor, wanted, |log|);
      assert !vs[|log|].Delegated?;
    } else {
      var i :| 0 <= i < |wanted| && mockFor(wanted[i]) != log[i].mock;
      VerdictAt(log, mockFor, wanted, i);
      assert !vs[i].Delegated?;
    }
  }

  /** The first wanted mock that differs from the recorded one raises a
      mismatch naming the recorded subject and the wanted one, after every
      earlier call succeeded. */
  lemma {:induction false} FirstOutOfOrderFails<M, S, I>(log: seq<Entry<S, I>>, mockFor: M -> S, wanted: seq<M>, k: nat)
    requires k < |wanted| && k < |log|
    requires MatchesFront(log, mockFor, wanted[..k])
    requires mockFor(wanted[k]) != log[k].mock
    ensures VerifyAll(log, mockFor, wanted).0[k] == Mismatch(log[k].mock, mockFor(wanted[k]))
    ensures forall i :: 0 <= i < k ==> VerifyAll(log, mockFor, wanted).0[i] == Delegated(wanted[i])
  {
    VerdictAt(log, mockFor, wanted, k);
    forall i | 0 <= i < k
      ensures VerifyAll(log, mockFor, wanted).0[i] == Delegated(wanted[i])
    {
      assert wanted[..k][i] == wanted[i];
      VerdictAt(log, mockFor, wanted, i);
    }
  }

  /** Once every recorded call has been consumed, every further `verify`
      finds the log exhausted, whatever mock it asks for. */
  lemma {:induction false} ExhaustionIsSticky<M, S, I>(log: seq<Entry<S, I>>, mockFor: M -> S, wanted: seq<M>)
    ensures forall j :: |log| <= j < |wanted| ==> VerifyAll(log, mockFor, wanted).0[j] == Exhausted
  {
    forall j | |log| <= j < |wanted|
      ensures VerifyAll(log, mockFor, wanted).0[j] == Exhausted
    {
      VerdictAt(log, mockFor, wanted, j);
    }
  }

  /** From construction to verification: starting from the empty log of a
      new coordinator, verifying the watched calls' mocks in the order the
      calls were made succeeds at every step and consumes the whole log. */
  lemma RecordedOrderVerifies<M, S, I>(observing: set<S>, calls: seq<Entry<S, I>>, mockFor: M -> S, wanted: seq<M>)
    requires |wanted| == |Watched(observing, calls)|
    requires forall i :: 0 <= i < |wanted| ==> mockFor(wanted[i]) == Watched(observing, calls)[i].mock
    ensures AllDelegated(VerifyAll(Replay([], observing, calls), mockFor, wanted).0)
    ensures VerifyAll(Replay([], observing, calls), mockFor, wanted).1 == []
  {
    ReplayRecordsWatchedCalls([], observing, calls);
    assert Replay([], observing, calls) == Watched(observing, calls);
    FifoLaw(Watched(observing, calls), mockFor, wanted);
  }
}
