/** What becomes of a task that keeps raising: claimed, started and raising, over and
    over, until its policy or its budget gives it up. */
module Retries {
  import opened Optional
  import opened TaskModel
  import opened Claiming

  /** One execution: who claims it, whether the exception it raises is a known one, and
      what the thread's end writes. */
  datatype Attempt = Attempt(worker: WorkerId, runner: RunnerId, known: bool, retryAt: Option<int>, trace: Payload)

  /** A pending row claimed, started and raised; any other row is left alone. */
  function Tried(t: Task, a: Attempt): Task {
    if !t.state.Pending? then t
    else
      match Effect(Start(a.runner), Assign(t, a.worker, a.runner))
      case None => t
      case Some(running) =>
        match Effect(ThreadRaised(a.runner, a.known, a.retryAt, a.trace), running)
        case None => running
        case Some(t') => t'
  }

  function AfterAttempts(t: Task, attempts: seq<Attempt>): Task {
    if attempts == [] then t else Tried(AfterAttempts(t, attempts[..|attempts| - 1]), attempts[|attempts| - 1])
  }

  /** Attempt k is followed by another one: the budget has room after k retries, and the
      policy retries any failure, or known ones and this is one. */
  predicate Another(t: Task, attempts: seq<Attempt>, k: nat)
    requires k < |attempts|
  {
    && t.retryCount + k < t.maxRetries
    && match t.policy
       case NoRetry => false
       case RetryKnown => attempts[k].known
       case RetryAny => true
  }

  /** Attempt k is the first with no other after it. */
  predicate GivesUpAt(t: Task, attempts: seq<Attempt>, k: int) {
    0 <= k < |attempts| && !Another(t, attempts, k) && forall j :: 0 <= j < k ==> Another(t, attempts, j)
  }

  /** What t has become after the attempts: pending, for one more, as long as every one
      so far allows another; otherwise failed with the trace of the first that does not,
      and charged for those before it. */
  ghost predicate Ends(t: Task, attempts: seq<Attempt>, t': Task) {
    && t'.policy == t.policy && t'.maxRetries == t.maxRetries
    && (t'.state.Pending? || t'.state.Failed?)
    && (t'.state.Pending? <==> forall k :: 0 <= k < |attempts| ==> Another(t, attempts, k))
    && (t'.state.Pending? ==> t'.retryCount == t.retryCount + |attempts|)
    && forall k :: GivesUpAt(t, attempts, k) ==> Failed(t, attempts, k, t')
  }

  predicate Failed(t: Task, attempts: seq<Attempt>, k: nat, t': Task)
    requires k < |attempts|
  {
    t'.state.Failed? && t'.retryCount == t.retryCount + k && t'.error == Some(attempts[k].trace)
  }

  /** A task that raises at every attempt fails with the first one that its policy or
      its budget does not let be followed by another. */
  lemma {:induction false} FailsWithLastAllowed(t: Task, attempts: seq<Attempt>)
    requires t.state.Pending?
    ensures Ends(t, attempts, AfterAttempts(t, attempts))
    decreases |attempts|
  {
    if attempts != [] {
      FailsWithLastAllowed(t, attempts[..|attempts| - 1]);
      OneMore(t, attempts, AfterAttempts(t, attempts[..|attempts| - 1]));
    }
  }

  lemma OneMore(t: Task, attempts: seq<Attempt>, mid: Task)
    requires t.state.Pending? && attempts != [] && Ends(t, attempts[..|attempts| - 1], mid)
    ensures Ends(t, attempts, Tried(mid, attempts[|attempts| - 1]))
  {
    var last := |attempts| - 1;
    SameAnother(t, attempts);
    if mid.state.Pending? {
      AttemptDecides(mid, attempts[last]);
      assert Another(mid, [attempts[last]], 0) == Another(t, attempts, last);
      assert forall j :: 0 <= j < last ==> Another(t, attempts[..last], j);
    } else {
      var j :| 0 <= j < last && !Another(t, attempts[..last], j);
      assert !Another(t, attempts, j);
      forall k | GivesUpAt(t, attempts, k) ensures Failed(t, attempts, k, mid) {
        forall l | 0 <= l < k ensures Another(t, attempts[..last], l) { assert Another(t, attempts, l); }
        assert GivesUpAt(t, attempts[..last], k) && attempts[..last][k] == attempts[k];
      }
    }
  }

  lemma SameAnother(t: Task, attempts: seq<Attempt>)
    requires attempts != []
    ensures forall k :: 0 <= k < |attempts| - 1 ==>
              Another(t, attempts[..|attempts| - 1], k) == Another(t, attempts, k)
  {
  }

  lemma AttemptDecides(t: Task, a: Attempt)
    requires t.state.Pending?
    ensures var t' := Tried(t, a);
            && t'.policy == t.policy && t'.maxRetries == t.maxRetries
            && if Another(t, [a], 0) then t'.state.Pending? && t'.retryCount == t.retryCount + 1
               else t'.state.Failed? && t'.retryCount == t.retryCount && t'.error == Some(a.trace)
  {
    var running := Assign(t, a.worker, a.runner).(state := Running, progress := 0);
    RaisedRetriesIff(running, a.runner, a.known, a.retryAt, a.trace);
  }
}
