/** The cases of mockito's in-order test suite, written as clients of the
    coordinator: a cat and a dog are watched, a third mock is not.  Each
    method states, as its postcondition, what the corresponding test asserts. */
module Scenarios {
  import opened DuplicateCheck
  import opened Ordering

  /** The mocks of the tests.  A test's handle and the registry's mock are
      the same value here, so the registry lookup is the identity. */
  datatype Double = Cat | Dog | ToIgnore

  /** The calls the tests make: `cat.meow()` and `dog.bark()`. */
  datatype Call = Meow | Bark

  function Resolve(d: Double): Double {
    d
  }

  /** A coordinator over one mock lists that mock among its mocks. */
  method ObserveSingleMock() returns (watched: seq<Double>)
    ensures Cat in watched
  {
    var r := Create<Double, Double, Call>([Cat], Resolve);
    assert r.Constructed?;
    watched := r.inOrder.Mocks();
  }

  /** A coordinator over a cat and a dog lists exactly those two. */
  method ObserveSeveralMocks() returns (watched: seq<Double>)
    ensures watched == [Cat, Dog]
  {
    var r := Create<Double, Double, Call>([Cat, Dog], Resolve);
    assert r.Constructed?;
    watched := r.inOrder.Mocks();
  }

  /** Watching the same mock twice is rejected, naming that mock once. */
  method ObservingTheSameMockTwiceRaises() returns (r: Construction<Double, Double, Call>)
    ensures r == DuplicateError([Cat])
  {
    r := Create([Cat, Cat], Resolve);
    var d := Duplicates([Cat, Cat]);
    assert multiset([Cat, Cat])[Cat] == 2;
    forall i | 0 <= i < |d|
      ensures d[i] == Cat
    {
      assert multiset([Cat, Cat])[d[i]] >= 2;
    }
    assert d == [Cat];
  }

  /** An empty watch list is accepted; its coordinator has nothing to verify. */
  method EmptyWatchListIsAccepted() returns (r: Verdict<Double, Double>)
    ensures r == Exhausted
  {
    var c := Create<Double, Double, Call>([], Resolve);
    assert c.Constructed?;
    r := c.inOrder.Verify(Cat);
  }

  /** `greet` calls the cat, then the dog; then an unwatched mock is called.
      Only the two watched calls are logged, in the order they were made. */
  method CallsRecordOnlyWatchedMocks() returns (log: seq<Entry<Double, Call>>)
    ensures log == [Entry(Cat, Meow), Entry(Dog, Bark)]
  {
    var r := Create<Double, Double, Call>([Cat, Dog], Resolve);
    assert r.Constructed?;
    var inOrder := r.inOrder;
    ResolvedMembers([Cat, Dog], Resolve, ToIgnore);
    ResolvedMembers([Cat, Dog], Resolve, Cat);
    ResolvedMembers([Cat, Dog], Resolve, Dog);
    assert Cat in [Cat, Dog] && Dog in [Cat, Dog];
    assert Cat in inOrder.observing && Dog in inOrder.observing;
    inOrder.OnNotify(Cat, [Meow]);
    inOrder.OnNotify(Dog, [Bark]);
    inOrder.OnNotify(ToIgnore, [Meow]);
    log := inOrder.log;
  }

  /** Verifying the cat, then the dog, after `greet` passes both checks. */
  method CorrectOrderPasses() returns (first: Verdict<Double, Double>, second: Verdict<Double, Double>)
    ensures first == Delegated(Cat) && second == Delegated(Dog)
  {
    var r := Create<Double, Double, Call>([Cat, Dog], Resolve);
    assert r.Constructed?;
    var inOrder := r.inOrder;
    ResolvedMembers([Cat, Dog], Resolve, Cat);
    ResolvedMembers([Cat, Dog], Resolve, Dog);
    assert Cat in [Cat, Dog] && Dog in [Cat, Dog];
    assert Cat in inOrder.observing && Dog in inOrder.observing;
    inOrder.OnNotify(Cat, [Meow]);
    inOrder.OnNotify(Dog, [Bark]);
    first := inOrder.Verify(Cat);
    second := inOrder.Verify(Dog);
  }

  /** Verifying the dog first, after `greet`, fails: the cat was called first. */
  method IncorrectOrderFails() returns (first: Verdict<Double, Double>)
    ensures first == Mismatch(Cat, Dog)
  {
    var r := Create<Double, Double, Call>([Cat, Dog], Resolve);
    assert r.Constructed?;
    var inOrder := r.inOrder;
    ResolvedMembers([Cat, Dog], Resolve, Cat);
    ResolvedMembers([Cat, Dog], Resolve, Dog);
    assert Cat in [Cat, Dog] && Dog in [Cat, Dog];
    assert Cat in inOrder.observing && Dog in inOrder.observing;
    inOrder.OnNotify(Cat, [Meow]);
    inOrder.OnNotify(Dog, [Bark]);
    first := inOrder.Verify(Dog);
  }
}
