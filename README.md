# InOrder: ordered verification of mock calls (Dafny model)

This project models mockito-python's ordered-invocation coordinator, the
class `InOrder` in `mockito/inorder.py`, and proves properties of it.

A coordinator is created from a list of mocks, its watch list. Creation fails
with a `ValueError` that names each duplicated mock once, in the order the
mocks first occur. That check uses `Counter` and a list comprehension. If it
passes, the coordinator attaches itself as an observer to the registry entry
of every watched mock and starts with an empty log, `ordered_invocations`.
Each time a watched mock is called, the mock notifies its observers. The
coordinator's `update` then appends the subject and its latest invocation at
the back of the log. `verify(mock)` pops the front entry. Popping an empty log
raises `IndexError`. The popped entry's subject is compared with the wanted
mock's registry entry: a difference raises, and a match hands over to the
library's single-mock `verify`. The entry is consumed either way.

Files:

- `duplicate_check.dfy` (module `DuplicateCheck`): the `Counter` keys in
  first-insertion order, the comprehension that keeps the repeated ones, and
  lemmas saying the reported list consists of exactly the repeated mocks,
  each named once, in first-occurrence order.
- `inorder.dfy` (module `Ordering`): the class `InOrder` and the method
  `Create` that stands for `InOrder(mocks)`. It also holds the functions that
  specify the log: `Replay` (recording) and `VerifyStep`/`VerifyAll`
  (verifying), with the FIFO lemmas.
- `scenarios.dfy` (module `Scenarios`): the cases of
  `tests/in_order_test.py`, as client methods whose postconditions are the
  tests' assertions.

The model is generic over three types: `M`, the handle a test holds for a
mock; `S`, the registry's mock object, which is the notifying subject; and
`I`, an invocation. `mock_registry.mock_for` becomes a function
`mockFor: M -> S`, passed to the coordinator when it is created. The
history that each mock keeps is passed to `Update` as a sequence, because
the coordinator only reads its last element. The class fields are the watch
list `mocks` (a `const`), the set `observing` of subjects the coordinator
has attached to, and the `log`.

Three behaviours of the code are worth stating outright. An empty watch
list is accepted, giving a coordinator that can never verify anything.
Verifying against an empty log is the `IndexError` of `pop(0)`; there is no
dedicated error for it. A mismatch consumes the front entry, because the pop
happens before the comparison.

## Model

| member | source | states |
|---|---|---|
| `DuplicateCheck.Keys` | mockito/inorder.py:39 | The keys of `Counter(mocks)` are exactly the elements of the list, and none is repeated |
| `DuplicateCheck.KeysInFirstOccurrenceOrder` | mockito/inorder.py:39-40 | The `Counter` yields its keys in the order of their first occurrence in the list |
| `DuplicateCheck.Repeated` | mockito/inorder.py:40 | The comprehension keeps exactly the keys whose frequency exceeds one; from repeat-free keys it yields a repeat-free list |
| `DuplicateCheck.RepeatedKeepsOrder` | mockito/inorder.py:40 | Filtering the keys keeps their first-occurrence order |
| `DuplicateCheck.Duplicates` | mockito/inorder.py:39-42 | The reported mocks are exactly those occurring at least twice, each named once, in first-occurrence order |
| `DuplicateCheck.TwiceIffTwoPositions` | mockito/inorder.py:39-40 | A mock's `Counter` frequency is at least two exactly when two distinct positions of the list hold it |
| `DuplicateCheck.NoDuplicatesIff` | mockito/inorder.py:39-42 | No duplicate is reported, so construction goes ahead, exactly when no mock occurs twice; the empty list passes |
| `Ordering.Resolved` | mockito/inorder.py:45-46 | The attach loop's target set contains `mock_for(m)` for every watched `m`, and is empty for an empty watch list |
| `Ordering.ResolvedMembers` | mockito/inorder.py:45-46 | The coordinator attaches to a subject exactly when that subject is `mock_for(m)` for some watched `m` |
| `Ordering.Create` | mockito/inorder.py:38-52 | `InOrder(mocks)` fails exactly when some mock occurs twice, with the error naming `Duplicates(mocks)` and no coordinator made; otherwise a new coordinator whose `mocks` property is the given list, attached to `mock_for(m)` for every watched `m`, with an empty log |
| `Ordering.InOrder.constructor` | mockito/inorder.py:43-48 | After the duplicate check: the list is kept, the attach loop attaches to every resolved mock and to nothing else, and the log starts empty |
| `Ordering.InOrder.Mocks` | mockito/inorder.py:50-52 | The `mocks` property of a coordinator holds no mock twice, and the subject of every listed mock is attached |
| `Ordering.InOrder.Update` | mockito/inorder.py:54-56 | The log becomes the old log plus one entry at the back: the subject with the last element of its history; earlier entries are unchanged; an empty history raises `IndexError` and records nothing |
| `Ordering.InOrder.OnNotify` | mockito/inorder.py:45-46 | A notification adds an entry only when it comes from a subject the constructor attached to |
| `Ordering.InOrder.Verify` | mockito/inorder.py:58-66 | On an empty log it raises `IndexError` and the log stays empty; otherwise the log always becomes its tail; the call raises with the front subject and the resolved wanted mock exactly when they differ, and otherwise delegates with the given handle |
| `Ordering.HistoryEndsWithLatestCall` | mockito/inorder.py:56 | `subject.invocations[-1]` at notification time is the invocation that triggered it |
| `Ordering.Notified` | mockito/inorder.py:54-56 | A notification leaves the earlier entries unchanged and adds at most one; it adds one exactly when the subject is attached and its history is not empty, and that entry is the subject with its latest invocation |
| `Ordering.Replay` | mockito/inorder.py:54-56 | A sequence of notifications only appends: the earlier log stays a prefix, and at most one entry is added per call |
| `Ordering.WatchedMembers` | mockito/inorder.py:45-46 | A call is among the watched calls exactly when it was made on an attached subject |
| `Ordering.ReplayRecordsWatchedCalls` | mockito/inorder.py:54-56 | After any sequence of calls, the log is the old log followed by the calls on attached subjects, each with its own invocation, in the order they were made |
| `Ordering.WatchedSplits` | mockito/inorder.py:54-56 | What is recorded of earlier calls comes before what is recorded of later ones |
| `Ordering.Judge` | mockito/inorder.py:60-65 | Comparing a popped entry never reports exhaustion; it delegates with the given handle exactly when the entry's subject is the resolved wanted mock, and otherwise reports that subject and the resolved wanted mock |
| `Ordering.VerifyStep` | mockito/inorder.py:59-65 | One `verify` on an empty log raises `IndexError` and leaves it empty; on a non-empty log the front entry is removed whatever the verdict; it raises a mismatch exactly when the front subject differs from the resolved wanted mock, and delegates with the given handle otherwise |
| `Ordering.VerifyInspectsOnlyFront` | mockito/inorder.py:59-62 | The verdict of `verify` depends on the front entry only, and the entries behind it are left as they were |
| `Ordering.VerifyAll` | mockito/inorder.py:59 | A run of `verify` calls gives one verdict per call and consumes one entry per call, whatever the verdicts, until the log is empty |
| `Ordering.VerdictAt` | mockito/inorder.py:59-66 | The i-th `verify` compares the i-th recorded call with the i-th wanted mock, or raises `IndexError` once the recorded calls are used up |
| `Ordering.FifoLaw` | mockito/inorder.py:59-66 | Verifying mocks that resolve to the recorded subjects, in order, delegates at every step and leaves the unverified tail |
| `Ordering.AllDelegatedIff` | mockito/inorder.py:59-66 | A run of `verify` calls succeeds at every step exactly when the wanted mocks resolve, in order, to the subjects of the oldest recorded calls |
| `Ordering.FirstOutOfOrderFails` | mockito/inorder.py:60-65 | The first wanted mock that differs from the recorded one raises, naming the recorded subject and the wanted one, and every earlier call delegated |
| `Ordering.ExhaustionIsSticky` | mockito/inorder.py:59 | Once the recorded calls are consumed, every further `verify` raises `IndexError` |
| `Ordering.RecordedOrderVerifies` | mockito/inorder.py:43-66 | From a new coordinator, verifying the watched calls' mocks in call order succeeds at every step and empties the log |
| `Scenarios.ObserveSingleMock` | tests/in_order_test.py:27-30 | A coordinator over the cat lists the cat among its mocks |
| `Scenarios.ObserveSeveralMocks` | tests/in_order_test.py:32-35 | A coordinator over the cat and the dog lists exactly those two |
| `Scenarios.ObservingTheSameMockTwiceRaises` | tests/in_order_test.py:37-40 | Watching the cat twice fails, naming the cat once |
| `Scenarios.EmptyWatchListIsAccepted` | mockito/inorder.py:39-48 | An empty watch list is accepted, and its coordinator's first `verify` raises `IndexError` |
| `Scenarios.CallsRecordOnlyWatchedMocks` | tests/in_order_test.py:42-54 | After the cat and the dog are called, and then an unwatched mock, the log holds exactly the cat's and the dog's calls |
| `Scenarios.CorrectOrderPasses` | tests/in_order_test.py:57-65 | Verifying the cat, then the dog, delegates both times |
| `Scenarios.IncorrectOrderFails` | tests/in_order_test.py:67-76 | Verifying the dog first raises a mismatch, with the cat as the recorded subject and the dog as the wanted one |

## Left out

- The module-level `verify` wrapper (mockito/inorder.py:31-33) is not modelled. It sets `inorder=True` and calls the library's `verify`, which `mockito/mockito.py` defines; that file is not part of this model.
- The library's single-mock `verify` (`verify_main`, mockito/inorder.py:66) is not part of this model. It matches methods and arguments and checks call counts. Here it is the opaque verdict `Delegated(mock)`, and its own errors are not modelled.
- `mock_registry.mock_for` is not part of this model. It is the function parameter `mockFor`, and the model assumes it is deterministic.
- The `Mock` class is not part of this model: how it records invocations, its observer list and its `notify`. A subject's history is a parameter of `Update`. `OnNotify` models only the coordinator's end of a notification: a subject notifies the observers attached to it.
- `Replay` assumes each subject's history starts empty at the beginning of the call sequence. Earlier invocations would not change anything, since only the last element is read.
- `mockito/observer.py` is not modelled. It declares abstract `attach`, `detach`, `notify` and `update` methods and gives them no behaviour. Attaching is modelled as adding to the set `observing`.
- Exception classes and message texts are not modelled. The `ValueError`, the bare `Exception` and `IndexError` are the variants `DuplicateError`, `Mismatch` and `Exhausted`.
- Equality and hashing are not modelled: `Counter` and the `!=` comparison use `==` on the mock types, standing for Python's default identity equality.
- `VerifyAll`: Python stops at the first exception, while `VerifyAll` goes on through the remaining wanted mocks. Its verdicts before the first failure are the ones Python produces.
- `Ordering.InOrder.Mocks`: the model keeps the watch list as the value given at construction (`const mocks`). Python keeps the caller's list object itself (mockito/inorder.py:43), and the `mocks` property returns that same object. A later change to that list, by the caller or through `in_order.mocks`, would show in `mocks` but not in the attachments already made; the model does not capture that aliasing.
- Detaching, scoped entry and exit, and a check for unverified calls left at exit are not modelled. `mockito/inorder.py` does not implement them.
