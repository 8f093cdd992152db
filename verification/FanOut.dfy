/** Many outputs of one request, finished in any order and put together in one. */
module FanOut {
  import opened Sorting
  import opened Wrappers
  import CircuitBreakers
  import Negotiation

  type ErrorCode = CircuitBreakers.ErrorCode

  type RevisedPromptPolicy = Negotiation.RevisedPromptPolicy

  const U64_MAX := 0xFFFF_FFFF_FFFF_FFFF

  datatype Usage = Usage(input: Option<nat>, output: Option<nat>, total: Option<nat>)

  const NO_USAGE := Usage(None, None, None)

  /** `unknown` says that the provider may have done the work. */
  datatype Error = Error(code: ErrorCode, retryable: bool, unknown: bool)

  datatype Call = Call(image: string, attempts: nat, revised: Option<string>, usage: Usage)

  datatype Output = Output(index: nat, elapsed: nat, result: Result<Call, Error>)

  datatype Image = Image(index: nat, elapsed: nat, image: string)

  datatype Failure = Failure(index: nat, elapsed: nat, error: Error)

  datatype Batch = Batch(
    images: seq<Image>, failures: seq<Failure>, revised: Option<string>, usage: Usage, retried: bool)

  const EMPTY := Batch([], [], None, NO_USAGE, false)

  datatype Policy = FailFast | BestEffort

  datatype Problem =
    | Aborted(error: Error, index: nat)
    | AllFailed(error: Error, index: nat, count: nat)
    | NoRevisedPrompt

  // ----- usage

  function AddSaturating(a: nat, b: nat): nat {
    if a + b <= U64_MAX then a + b else U64_MAX
  }

  function AddOptional(a: Option<nat>, b: Option<nat>): Option<nat> {
    if a.None? && b.None? then None
    else Some(AddSaturating(if a.Some? then a.value else 0, if b.Some? then b.value else 0))
  }

  function MergeUsage(total: Usage, more: Usage): Usage {
    Usage(AddOptional(total.input, more.input), AddOptional(total.output, more.output),
      AddOptional(total.total, more.total))
  }

  // ----- collecting in order

  predicate Earlier(a: Output, b: Output) {
    a.index < b.index
  }

  function ByIndex(outputs: seq<Output>): (r: seq<Output>)
    ensures |r| == |outputs| && multiset(r) == multiset(outputs)
  {
    Sorted(Earlier, outputs)
  }

  function Take(b: Batch, o: Output): Batch {
    match o.result
    case Ok(call) =>
      b.(images := b.images + [Image(o.index, o.elapsed, call.image)],
         revised := if call.revised.Some? then call.revised else b.revised,
         usage := MergeUsage(b.usage, call.usage), retried := b.retried || call.attempts > 1)
    case Err(error) => b.(failures := b.failures + [Failure(o.index, o.elapsed, error)])
  }

  function TakeAll(b: Batch, outputs: seq<Output>): Batch
    decreases |outputs|
  {
    if outputs == [] then b else TakeAll(Take(b, outputs[0]), outputs[1..])
  }

  /** Where the first failure comes, in the order of arrival. */
  function FirstFailure(arrivals: seq<Output>): (r: Option<nat>)
    ensures r.Some? ==> r.value < |arrivals| && arrivals[r.value].result.Err?
    ensures r.Some? ==> forall i :: 0 <= i < r.value ==> arrivals[i].result.Ok?
    ensures r == None ==> forall i :: 0 <= i < |arrivals| ==> arrivals[i].result.Ok?
  {
    if arrivals == [] then None
    else if arrivals[0].result.Err? then Some(0)
    else match FirstFailure(arrivals[1..])
      case None => None
      case Some(i) => Some(i + 1)
  }

  /** The error of an aborted batch; it cannot be retried as a whole when another output may have been made. */
  function Abort(o: Output, n: nat, parallel: nat, succeeded: bool): Problem
    requires o.result.Err?
  {
    var error := o.result.error;
    if n > 1 && (parallel > 1 || succeeded) then Aborted(error.(retryable := false, unknown := true), o.index)
    else Aborted(error, o.index)
  }

  function Finish(b: Batch, n: nat, wanted: RevisedPromptPolicy): Result<Batch, Problem> {
    if b.images == [] && b.failures != [] then Err(AllFailed(b.failures[0].error, b.failures[0].index, n))
    else if wanted.Require? && b.revised == None then Err(NoRevisedPrompt)
    else Ok(if wanted.Omit? then b.(revised := None) else b)
  }

  function Assemble(arrivals: seq<Output>, n: nat, parallel: nat, policy: Policy,
    wanted: RevisedPromptPolicy): Result<Batch, Problem> {
    var first := FirstFailure(arrivals);
    if policy == FailFast && first.Some? then Err(Abort(arrivals[first.value], n, parallel, first.value > 0))
    else Finish(TakeAll(EMPTY, ByIndex(arrivals)), n, wanted)
  }

  method Execute(arrivals: seq<Output>, n: nat, parallel: nat, policy: Policy, wanted: RevisedPromptPolicy)
    returns (r: Result<Batch, Problem>)
    ensures r == Assemble(arrivals, n, parallel, policy, wanted)
  {
    hide Finish, TakeAll, FirstFailure, Sorted;
    var outputs: seq<Output> := [];
    var i := 0;
    while i < |arrivals|
      invariant 0 <= i <= |arrivals| && outputs == arrivals[..i]
      invariant policy == FailFast ==> forall j :: 0 <= j < i ==> arrivals[j].result.Ok?
    {
      var output := arrivals[i];
      if policy == FailFast && output.result.Err? {
        return Err(Abort(output, n, parallel, |outputs| > 0));
      }
      outputs := outputs + [output];
      i := i + 1;
    }
    assert arrivals[..|arrivals|] == arrivals;
    var sorted := InsertionSort(Earlier, outputs);
    var batch := Collect(sorted);
    return Finish(batch, n, wanted);
  }

  /** The images and failures, in the order of the sorted outputs. */
  method Collect(sorted: seq<Output>) returns (batch: Batch)
    ensures batch == TakeAll(EMPTY, sorted)
  {
    hide Take;
    batch := EMPTY;
    var i := 0;
    while i < |sorted|
      invariant 0 <= i <= |sorted|
      invariant TakeAll(batch, sorted[i..]) == TakeAll(EMPTY, sorted)
    {
      assert sorted[i..][0] == sorted[i] && sorted[i..][1..] == sorted[i + 1..];
      batch := Take(batch, sorted[i]);
      i := i + 1;
    }
  }

  // ----- the order of arrival does not matter

  predicate Ascending(outputs: seq<Output>) {
    forall i, j :: 0 <= i < j < |outputs| ==> outputs[i].index < outputs[j].index
  }

  predicate DistinctIndices(outputs: seq<Output>) {
    forall i, j :: 0 <= i < j < |outputs| ==> outputs[i].index != outputs[j].index
  }

  lemma ByIndexAscending(outputs: seq<Output>)
    requires DistinctIndices(outputs)
    ensures Ascending(ByIndex(outputs))
  {
    hide Sorted;
    SortedOrdered(Earlier, outputs);
  }

  /** Ascending indices below the length are 0, 1, 2, and so on. */
  lemma {:induction false} AscendingIsAll(outputs: seq<Output>, i: nat)
    requires Ascending(outputs) && i < |outputs| && forall o :: o in outputs ==> o.index < |outputs|
    ensures outputs[i].index == i
  {
    AtLeast(outputs, i);
    AtMost(outputs, i);
  }

  lemma {:induction false} AtLeast(outputs: seq<Output>, i: nat)
    requires Ascending(outputs) && i < |outputs|
    ensures outputs[i].index >= i
  {
    if i > 0 {
      AtLeast(outputs, i - 1);
    }
  }

  lemma {:induction false} AtMost(outputs: seq<Output>, i: nat)
    requires Ascending(outputs) && i < |outputs| && forall o :: o in outputs ==> o.index < |outputs|
    ensures outputs[i].index <= i
    decreases |outputs| - i
  {
    if i + 1 < |outputs| {
      AtMost(outputs, i + 1);
    } else {
      assert outputs[i] in outputs;
    }
  }

  /** The outputs of a batch, one for each index, in their order. */
  predicate Complete(outputs: seq<Output>) {
    forall i :: 0 <= i < |outputs| ==> outputs[i].index == i
  }

  /** Whatever order they arrive in, sorting gives the outputs in their order. */
  lemma SortedIsOrdered(outputs: seq<Output>, arrivals: seq<Output>)
    requires Complete(outputs) && multiset(arrivals) == multiset(outputs)
    ensures ByIndex(arrivals) == outputs
  {
    SameLength(outputs, arrivals);
    var sorted := ByIndex(arrivals);
    ArrivalsDistinct(outputs, arrivals);
    ByIndexAscending(arrivals);
    forall o | o in sorted ensures o in outputs && o.index < |sorted| {
      assert o in multiset(sorted);
    }
    forall i | 0 <= i < |sorted| ensures sorted[i] == outputs[i] {
      AscendingIsAll(sorted, i);
      assert sorted[i] in outputs;
    }
  }

  lemma SameLength(a: seq<Output>, b: seq<Output>)
    requires multiset(a) == multiset(b)
    ensures |a| == |b|
  {
    assert |multiset(a)| == |a| && |multiset(b)| == |b|;
  }

  lemma ArrivalsDistinct(outputs: seq<Output>, arrivals: seq<Output>)
    requires Complete(outputs) && multiset(arrivals) == multiset(outputs)
    ensures DistinctIndices(arrivals)
  {
    forall i, j | 0 <= i < j < |arrivals| ensures arrivals[i].index != arrivals[j].index {
      var a, b := arrivals[i], arrivals[j];
      assert a in multiset(outputs) && b in multiset(outputs);
      if a.index == b.index {
        assert a == b;
        Repeated(arrivals, i, j);
        OnceOnly(outputs, a);
      }
    }
  }

  lemma Repeated(s: seq<Output>, i: nat, j: nat)
    requires i < j < |s| && s[i] == s[j]
    ensures multiset(s)[s[i]] >= 2
  {
    assert s == s[..j] + s[j..];
    assert s[i] in s[..j] && s[j] in s[j..];
    assert multiset(s) == multiset(s[..j]) + multiset(s[j..]);
  }

  lemma {:induction false} OnceOnly(outputs: seq<Output>, o: Output)
    requires Complete(outputs)
    ensures multiset(outputs)[o] <= 1
    decreases |outputs|
  {
    if outputs != [] {
      var n := |outputs| - 1;
      OnceOnly(outputs[..n], o);
      assert outputs == outputs[..n] + [outputs[n]];
      if outputs[n] == o {
        assert o !in outputs[..n];
        assert multiset(outputs[..n])[o] == 0;
      }
    }
  }

  /** With best effort the result depends on the outputs alone, not on when they arrived. */
  lemma OrderIndependent(outputs: seq<Output>, arrivals: seq<Output>, parallel: nat, wanted: RevisedPromptPolicy)
    requires Complete(outputs) && multiset(arrivals) == multiset(outputs)
    ensures Assemble(arrivals, |outputs|, parallel, BestEffort, wanted)
      == Finish(TakeAll(EMPTY, outputs), |outputs|, wanted)
  {
    SortedIsOrdered(outputs, arrivals);
  }

  /**
   * Failing fast, the batch is given up in every order or in none: exactly when some output failed; and a batch that is
   * not given up is the one best effort gives.
   */
  lemma FailFastIff(outputs: seq<Output>, arrivals: seq<Output>, parallel: nat, wanted: RevisedPromptPolicy)
    requires Complete(outputs) && multiset(arrivals) == multiset(outputs)
    ensures var r := Assemble(arrivals, |outputs|, parallel, FailFast, wanted);
      if exists i :: 0 <= i < |outputs| && outputs[i].result.Err?
      then r.Err? && r.error.Aborted?
        && (|outputs| > 1 && parallel > 1 ==> !r.error.error.retryable && r.error.error.unknown)
      else r == Assemble(outputs, |outputs|, parallel, BestEffort, wanted)
  {
    hide Finish, TakeAll, ByIndex;
    SortedIsOrdered(outputs, arrivals);
    SortedIsOrdered(outputs, outputs);
    forall i | 0 <= i < |outputs| ensures outputs[i] in arrivals {
      assert outputs[i] in multiset(outputs);
    }
    forall i | 0 <= i < |arrivals| ensures arrivals[i] in outputs {
      assert arrivals[i] in multiset(arrivals);
    }
  }

  // ----- what a batch holds

  function Succeeded(outputs: seq<Output>): seq<Image> {
    if outputs == [] then []
    else
      (if outputs[0].result.Ok?
       then [Image(outputs[0].index, outputs[0].elapsed, outputs[0].result.value.image)]
       else [])
        + Succeeded(outputs[1..])
  }

  function Failed(outputs: seq<Output>): seq<Failure> {
    if outputs == [] then []
    else
      (if outputs[0].result.Err? then [Failure(outputs[0].index, outputs[0].elapsed, outputs[0].result.error)] else [])
        + Failed(outputs[1..])
  }

  lemma {:induction false} TakeAllParts(b: Batch, outputs: seq<Output>)
    ensures TakeAll(b, outputs).images == b.images + Succeeded(outputs)
    ensures TakeAll(b, outputs).failures == b.failures + Failed(outputs)
    decreases |outputs|
  {
    if outputs != [] {
      TakeAllParts(Take(b, outputs[0]), outputs[1..]);
    }
  }

  lemma {:induction false} PartsAscend(outputs: seq<Output>, low: nat)
    requires Ascending(outputs) && forall o :: o in outputs ==> low <= o.index
    ensures forall i :: 0 <= i < |Succeeded(outputs)| ==> low <= Succeeded(outputs)[i].index
    ensures forall i, j :: 0 <= i < j < |Succeeded(outputs)| ==>
      Succeeded(outputs)[i].index < Succeeded(outputs)[j].index
    ensures forall i :: 0 <= i < |Failed(outputs)| ==> low <= Failed(outputs)[i].index
    ensures forall i, j :: 0 <= i < j < |Failed(outputs)| ==> Failed(outputs)[i].index < Failed(outputs)[j].index
    decreases |outputs|
  {
    if outputs != [] {
      assert outputs[0] in outputs;
      PartsAscend(outputs[1..], outputs[0].index + 1);
    }
  }

  predicate HasImage(images: seq<Image>, k: nat) {
    exists i :: 0 <= i < |images| && images[i].index == k
  }

  predicate HasFailure(failures: seq<Failure>, k: nat) {
    exists i :: 0 <= i < |failures| && failures[i].index == k
  }

  predicate Made(outputs: seq<Output>, k: nat) {
    exists o :: o in outputs && o.index == k && o.result.Ok?
  }

  predicate Missed(outputs: seq<Output>, k: nat) {
    exists o :: o in outputs && o.index == k && o.result.Err?
  }

  lemma MadeFirst(outputs: seq<Output>, k: nat)
    requires outputs != []
    ensures Made(outputs, k) <==> (outputs[0].index == k && outputs[0].result.Ok?) || Made(outputs[1..], k)
    ensures Missed(outputs, k) <==> (outputs[0].index == k && outputs[0].result.Err?) || Missed(outputs[1..], k)
  {
    assert forall o :: o in outputs <==> o == outputs[0] || o in outputs[1..];
  }

  lemma HasFirst(first: Image, rest: seq<Image>, k: nat)
    ensures HasImage([first] + rest, k) <==> first.index == k || HasImage(rest, k)
  {
    var all := [first] + rest;
    assert all[0] == first && all[1..] == rest;
    if i :| 0 <= i < |rest| && rest[i].index == k {
      assert all[i + 1].index == k;
    }
  }

  lemma HasFirstFailure(first: Failure, rest: seq<Failure>, k: nat)
    ensures HasFailure([first] + rest, k) <==> first.index == k || HasFailure(rest, k)
  {
    var all := [first] + rest;
    assert all[0] == first && all[1..] == rest;
    if i :| 0 <= i < |rest| && rest[i].index == k {
      assert all[i + 1].index == k;
    }
  }

  lemma {:induction false} PartsMembers(outputs: seq<Output>, k: nat)
    ensures HasImage(Succeeded(outputs), k) <==> Made(outputs, k)
    ensures HasFailure(Failed(outputs), k) <==> Missed(outputs, k)
    decreases |outputs|
  {
    hide HasImage, HasFailure, Made, Missed;
    if outputs == [] {
      NothingThere(k);
    } else {
      var head, rest := outputs[0], outputs[1..];
      PartsMembers(rest, k);
      MadeFirst(outputs, k);
      if head.result.Ok? {
        HasFirst(Image(head.index, head.elapsed, head.result.value.image), Succeeded(rest), k);
        assert [] + Failed(rest) == Failed(rest);
      } else {
        HasFirstFailure(Failure(head.index, head.elapsed, head.result.error), Failed(rest), k);
        assert [] + Succeeded(rest) == Succeeded(rest);
      }
    }
  }

  lemma NothingThere(k: nat)
    ensures !HasImage([], k) && !HasFailure([], k) && !Made([], k) && !Missed([], k)
  {
  }

  /**
   * The indices of the images and of the failures ascend, and every index of the batch is in exactly one of the two.
   */
  lemma Partition(outputs: seq<Output>, k: nat)
    requires Complete(outputs)
    ensures var b := TakeAll(EMPTY, outputs);
      && (forall i, j :: 0 <= i < j < |b.images| ==> b.images[i].index < b.images[j].index)
      && (forall i, j :: 0 <= i < j < |b.failures| ==> b.failures[i].index < b.failures[j].index)
      && (HasImage(b.images, k) <==> k < |outputs| && outputs[k].result.Ok?)
      && (HasFailure(b.failures, k) <==> k < |outputs| && outputs[k].result.Err?)
  {
    hide Succeeded, Failed, TakeAll, HasImage, HasFailure, Made, Missed;
    TakeAllParts(EMPTY, outputs);
    assert [] + Succeeded(outputs) == Succeeded(outputs) && [] + Failed(outputs) == Failed(outputs);
    PartsAscend(outputs, 0);
    PartsMembers(outputs, k);
    MadeAt(outputs, k);
  }

  lemma MadeAt(outputs: seq<Output>, k: nat)
    requires Complete(outputs)
    ensures Made(outputs, k) <==> k < |outputs| && outputs[k].result.Ok?
    ensures Missed(outputs, k) <==> k < |outputs| && outputs[k].result.Err?
  {
    assert forall o :: o in outputs && o.index == k ==> k < |outputs| && o == outputs[k];
    if k < |outputs| {
      assert outputs[k] in outputs;
    }
  }

  /** The images and failures of a batch with all they carry: nothing is mixed up between two outputs. */
  lemma {:induction false} PartsIff(outputs: seq<Output>, image: Image, failure: Failure)
    ensures image in Succeeded(outputs) <==>
      exists o :: o in outputs && o.result.Ok? && image == Image(o.index, o.elapsed, o.result.value.image)
    ensures failure in Failed(outputs) <==>
      exists o :: o in outputs && o.result.Err? && failure == Failure(o.index, o.elapsed, o.result.error)
    decreases |outputs|
  {
    if outputs != [] {
      PartsIff(outputs[1..], image, failure);
      assert forall o :: o in outputs <==> o == outputs[0] || o in outputs[1..];
    }
  }

  // ----- what becomes of a batch

  /** The revised prompt of the last output that has one. */
  ghost predicate LastRevised(outputs: seq<Output>, revised: Option<string>) {
    match revised
    case None => forall o :: o in outputs && o.result.Ok? ==> o.result.value.revised == None
    case Some(_) =>
      exists k ::
        && 0 <= k < |outputs| && outputs[k].result.Ok? && outputs[k].result.value.revised == revised
        && forall j :: k < j < |outputs| && outputs[j].result.Ok? ==> outputs[j].result.value.revised == None
  }

  lemma {:induction false} TakeAllRest(b: Batch, outputs: seq<Output>)
    ensures var t := TakeAll(b, outputs);
      && (t.retried <==> b.retried || exists o :: o in outputs && o.result.Ok? && o.result.value.attempts > 1)
      && (if t.revised.Some? && LastRevised(outputs, t.revised) then true
          else LastRevised(outputs, None) && t.revised == b.revised)
    decreases |outputs|
  {
    if outputs != [] {
      var first, rest := outputs[0], outputs[1..];
      TakeAllRest(Take(b, first), rest);
      assert forall o :: o in outputs <==> o == first || o in rest;
      var t := TakeAll(b, outputs);
      if t.revised.Some? && LastRevised(rest, t.revised) {
        LaterRevised(outputs, t.revised);
      } else if first.result.Ok? && first.result.value.revised.Some? {
        FirstRevised(outputs);
      }
    }
  }

  lemma LaterRevised(outputs: seq<Output>, revised: Option<string>)
    requires outputs != [] && LastRevised(outputs[1..], revised) && revised.Some?
    ensures LastRevised(outputs, revised)
  {
    var rest := outputs[1..];
    var k :| 0 <= k < |rest| && rest[k].result.Ok? && rest[k].result.value.revised == revised
      && forall j :: k < j < |rest| && rest[j].result.Ok? ==> rest[j].result.value.revised == None;
    assert outputs[k + 1] == rest[k];
    forall j | k + 1 < j < |outputs| && outputs[j].result.Ok? ensures outputs[j].result.value.revised == None {
      assert outputs[j] == rest[j - 1];
    }
  }

  lemma FirstRevised(outputs: seq<Output>)
    requires outputs != [] && outputs[0].result.Ok? && LastRevised(outputs[1..], None)
    ensures outputs[0].result.value.revised.Some? ==> LastRevised(outputs, outputs[0].result.value.revised)
  {
    forall j | 0 < j < |outputs| && outputs[j].result.Ok? ensures outputs[j].result.value.revised == None {
      assert outputs[j] in outputs[1..];
    }
  }

  /**
   * With best effort, whatever the order of arrival: a batch fails exactly when every output failed, with the first
   * one's error, or when no output has the revised prompt that is required; else it holds just what its outputs made.
   */
  lemma BestEffortMeaning(outputs: seq<Output>, arrivals: seq<Output>, parallel: nat, wanted: RevisedPromptPolicy)
    requires Complete(outputs) && outputs != [] && multiset(arrivals) == multiset(outputs)
    ensures var r := Assemble(arrivals, |outputs|, parallel, BestEffort, wanted);
      if forall o :: o in outputs ==> o.result.Err?
      then r == Err(AllFailed(outputs[0].result.error, 0, |outputs|))
      else if wanted.Require? && forall o :: o in outputs && o.result.Ok? ==> o.result.value.revised == None
      then r == Err(NoRevisedPrompt)
      else
        && r.Ok? && r.value.images == Succeeded(outputs) && r.value.failures == Failed(outputs)
        && (if wanted.Omit? then r.value.revised == None else LastRevised(outputs, r.value.revised))
        && (r.value.retried <==> exists o :: o in outputs && o.result.Ok? && o.result.value.attempts > 1)
  {
    hide TakeAll, Succeeded, Failed, LastRevised, Assemble;
    OrderIndependent(outputs, arrivals, parallel, wanted);
    TakeAllParts(EMPTY, outputs);
    TakeAllRest(EMPTY, outputs);
    assert [] + Succeeded(outputs) == Succeeded(outputs) && [] + Failed(outputs) == Failed(outputs);
    PartsFirst(outputs);
    RevisedNone(outputs, TakeAll(EMPTY, outputs).revised);
  }

  lemma RevisedNone(outputs: seq<Output>, revised: Option<string>)
    requires LastRevised(outputs, revised)
    ensures revised == None <==> forall o :: o in outputs && o.result.Ok? ==> o.result.value.revised == None
  {
  }

  lemma {:induction false} PartsFirst(outputs: seq<Output>)
    ensures Succeeded(outputs) == [] <==> forall o :: o in outputs ==> o.result.Err?
    ensures outputs != [] && outputs[0].result.Err? ==>
      Failed(outputs) != []
      && Failed(outputs)[0] == Failure(outputs[0].index, outputs[0].elapsed, outputs[0].result.error)
    decreases |outputs|
  {
    if outputs != [] {
      PartsFirst(outputs[1..]);
      assert forall o :: o in outputs <==> o == outputs[0] || o in outputs[1..];
    }
  }

  /**
   * Failing fast, a batch with a failed output is given up for the one that fails first; with more than one output, and
   * others under way or made, its error may no longer be retried.
   */
  lemma FailFastMeaning(arrivals: seq<Output>, n: nat, parallel: nat, wanted: RevisedPromptPolicy, k: nat)
    requires k < |arrivals| && arrivals[k].result.Err? && forall i :: 0 <= i < k ==> arrivals[i].result.Ok?
    ensures var error := arrivals[k].result.error; var others := n > 1 && (parallel > 1 || k > 0);
      Assemble(arrivals, n, parallel, FailFast, wanted) ==
        Err(Aborted(if others then Error(error.code, false, true) else error, arrivals[k].index))
  {
  }

  // ----- the usage of a batch

  datatype Tokens = InputTokens | OutputTokens | TotalTokens

  function CountOf(usage: Usage, tokens: Tokens): Option<nat> {
    match tokens
    case InputTokens => usage.input
    case OutputTokens => usage.output
    case TotalTokens => usage.total
  }

  function OrZero(n: Option<nat>): nat {
    if n.Some? then n.value else 0
  }

  /** What an output says it used. */
  function UsedBy(o: Output, tokens: Tokens): Option<nat> {
    if o.result.Ok? then CountOf(o.result.value.usage, tokens) else None
  }

  /** The exact sum of one count over the outputs. */
  function Sum(outputs: seq<Output>, tokens: Tokens): nat {
    if outputs == [] then 0 else OrZero(UsedBy(outputs[0], tokens)) + Sum(outputs[1..], tokens)
  }

  predicate AnyGiven(outputs: seq<Output>, tokens: Tokens) {
    outputs != [] && (UsedBy(outputs[0], tokens).Some? || AnyGiven(outputs[1..], tokens))
  }

  function Capped(n: nat): nat {
    if n <= U64_MAX then n else U64_MAX
  }

  lemma TakeUsage(b: Batch, o: Output, tokens: Tokens)
    ensures CountOf(Take(b, o).usage, tokens) ==
      if o.result.Ok? then AddOptional(CountOf(b.usage, tokens), UsedBy(o, tokens)) else CountOf(b.usage, tokens)
  {
  }

  /** Each count is the sum of those given, at most the greatest 64-bit number, and absent only when none is given. */
  lemma {:induction false} UsageIsSum(b: Batch, outputs: seq<Output>, tokens: Tokens)
    requires OrZero(CountOf(b.usage, tokens)) <= U64_MAX
    ensures var before, after := CountOf(b.usage, tokens), CountOf(TakeAll(b, outputs).usage, tokens);
      && (after.Some? <==> before.Some? || AnyGiven(outputs, tokens))
      && OrZero(after) == Capped(OrZero(before) + Sum(outputs, tokens))
    decreases |outputs|
  {
    hide Take, CountOf;
    if outputs != [] {
      TakeUsage(b, outputs[0], tokens);
      UsageIsSum(Take(b, outputs[0]), outputs[1..], tokens);
    }
  }

  // ----- retrying one output

  /** A failure after which the provider has surely done nothing, and may do it when asked again. */
  predicate WorthRetrying(error: Error) {
    match error.code
    case RateLimited => error.retryable && !error.unknown
    case Overloaded => error.retryable && !error.unknown
    case Upstream => error.retryable && !error.unknown
    case _ => false
  }

  predicate SafeTransientRetry(error: Error) {
    error.retryable && !error.unknown
    && error.code in {CircuitBreakers.RateLimited, CircuitBreakers.Overloaded, CircuitBreakers.Upstream}
  }

  datatype Attempted = Attempted(result: Result<Call, Error>, attempts: nat)

  /**
   * What the world does: the answer to each call, the time left when it has failed, and whether the wait is
   * cancelled.
   */
  datatype Script = Script(answer: nat -> Result<Call, Error>, left: nat -> nat, cancelled: nat -> bool)

  const CANCELLED := Error(CircuitBreakers.Cancelled, false, false)
  const NO_ATTEMPT := Error(CircuitBreakers.Internal, false, false)

  /** Another attempt follows: the failure is worth it, and there is time for the wait. */
  predicate Follows(script: Script, attempt: nat, maximum: nat, backoff: nat) {
    && attempt < maximum && script.answer(attempt).Err? && WorthRetrying(script.answer(attempt).error)
    && script.left(attempt) > backoff * attempt
  }

  /**
   * The calls made are 1 up to the first after which none may follow; every call but the last failed in a way that is
   * safe to retry, and there are never more than the maximum.
   */
  method CallResilient(script: Script, maximum: nat, backoff: nat) returns (r: Attempted)
    ensures maximum == 0 ==> r == Attempted(Err(NO_ATTEMPT), 0)
    ensures maximum > 0 ==>
      && 1 <= r.attempts <= maximum
      && (Follows(script, r.attempts, maximum, backoff) ==> script.cancelled(r.attempts))
      && forall k :: 1 <= k < r.attempts ==> Follows(script, k, maximum, backoff) && !script.cancelled(k)
    ensures maximum > 0 ==>
      match script.answer(r.attempts)
      case Ok(call) => r.result == Ok(call.(attempts := r.attempts))
      case Err(error) =>
        r.result == Err(if Follows(script, r.attempts, maximum, backoff) then CANCELLED else error)
  {
    assert !Follows(script, maximum, maximum, backoff);
    var attempt := 1;
    while attempt <= maximum
      invariant 1 <= attempt <= maximum + 1
      invariant forall k :: 1 <= k < attempt ==> Follows(script, k, maximum, backoff) && !script.cancelled(k)
    {
      match script.answer(attempt) {
        case Ok(call) =>
          return Attempted(Ok(call.(attempts := attempt)), attempt);
        case Err(error) =>
          if !(attempt < maximum && SafeTransientRetry(error)) {
            return Attempted(Err(error), attempt);
          }
          if script.left(attempt) <= backoff * attempt {
            return Attempted(Err(error), attempt);
          }
          if script.cancelled(attempt) {
            return Attempted(Err(CANCELLED), attempt);
          }
      }
      attempt := attempt + 1;
    }
    return Attempted(Err(NO_ATTEMPT), 0);
  }
}
