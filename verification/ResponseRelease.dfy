/// `ReleaseOnComplete` in `crates/hamsy-proxy/src/upstream.rs`: when a response
/// body gives its sender back, and what that means for the pool.

module ResponseRelease {
  import Pool
  import PoolProtocol

  /// What polling the wrapped body yields.
  datatype Polled = Pending | Frame | Failed | End

  /// One poll, and whether the body reports its end right after it.
  datatype Poll = Poll(polled: Polled, atEnd: bool)

  /// The polls on which `poll_frame` gives the sender back.
  predicate Completes(p: Poll) {
    p.polled == End || (p.polled == Frame && p.atEnd)
  }

  /// The wrapper; `releases` counts the calls of `Connector::release`.
  class ReleaseOnComplete {
    var holdsSender: bool
    var releases: nat

    /// A body that is already at its end gives the sender back at once.
    constructor (complete: bool)
      ensures holdsSender == !complete && releases == if complete then 1 else 0
    {
      holdsSender, releases := true, 0;
      new;
      if complete {
        Finish();
      }
    }

    method Finish()
      modifies this
      ensures !holdsSender && releases == old(releases) + if old(holdsSender) then 1 else 0
    {
      if holdsSender {
        holdsSender := false;
        releases := releases + 1;
      }
    }

    method PollFrame(p: Poll)
      modifies this
      ensures holdsSender == (old(holdsSender) && !Completes(p))
      ensures releases == old(releases) + if old(holdsSender) && Completes(p) then 1 else 0
    {
      if p.polled == End || (p.polled == Frame && p.atEnd) {
        Finish();
      }
    }
  }

  predicate SomeCompletes(polls: seq<Poll>) {
    exists i | 0 <= i < |polls| :: Completes(polls[i])
  }

  predicate SomeFails(polls: seq<Poll>) {
    exists i | 0 <= i < |polls| :: polls[i].polled == Failed
  }

  /// A life of the wrapper gives its sender back.
  predicate GivesBack(complete: bool, polls: seq<Poll>) {
    complete || SomeCompletes(polls)
  }

  /// Poll `i` is the first failure, and nothing completed before it.
  predicate FailsFirst(polls: seq<Poll>, i: nat)
    requires i < |polls|
  {
    polls[i].polled == Failed && !SomeFails(polls[..i]) && !SomeCompletes(polls[..i])
  }

  predicate CompletesAfter(polls: seq<Poll>, i: nat) {
    exists j | i < j < |polls| :: Completes(polls[j])
  }

  /// Nothing completed before the first failure, and something does after it.
  predicate DespiteFailure(polls: seq<Poll>) {
    exists i: nat | i < |polls| :: FailsFirst(polls, i) && CompletesAfter(polls, i)
  }

  lemma SomeSnoc(polls: seq<Poll>, k: nat)
    requires k < |polls|
    ensures SomeCompletes(polls[..k + 1]) <==> SomeCompletes(polls[..k]) || Completes(polls[k])
    ensures SomeFails(polls[..k + 1]) <==> SomeFails(polls[..k]) || polls[k].polled == Failed
  {
    assert polls[..k + 1] == polls[..k] + [polls[k]];
    assert forall i | 0 <= i < k :: polls[..k + 1][i] == polls[..k][i];
    assert polls[..k + 1][k] == polls[k];
  }

  /// The first failure, if there is one that nothing completed before.
  lemma FirstFailure(polls: seq<Poll>, k: nat)
    requires k <= |polls| && SomeFails(polls[..k]) && !SomeCompletes(polls[..k])
    ensures exists i: nat | i < k :: FailsFirst(polls, i)
    decreases k
  {
    SomeSnoc(polls, k - 1);
    if SomeFails(polls[..k - 1]) {
      FirstFailure(polls, k - 1);
    } else {
      assert FailsFirst(polls, k - 1);
    }
  }

  /// A whole life of the wrapper, up to its drop: the sender goes back once or
  /// never, and it goes back despite an earlier failed poll exactly when nothing
  /// completed before the first failure and some poll after it does.
  method Drive(complete: bool, polls: seq<Poll>) returns (releases: nat, afterFailure: bool)
    ensures releases == if GivesBack(complete, polls) then 1 else 0
    ensures afterFailure <==> !complete && DespiteFailure(polls)
  {
    var body := new ReleaseOnComplete(complete);
    var failed := false;
    afterFailure := false;
    ghost var at := 0;
    for k := 0 to |polls|
      invariant fresh(body)
      invariant body.holdsSender == !GivesBack(complete, polls[..k])
      invariant body.releases == if body.holdsSender then 0 else 1
      invariant failed <==> SomeFails(polls[..k])
      invariant !body.holdsSender && !complete ==> at < k && Completes(polls[at]) && !SomeCompletes(polls[..at])
      invariant body.holdsSender || complete ==> !afterFailure
      invariant !body.holdsSender && !complete ==> (afterFailure <==> SomeFails(polls[..at]))
    {
      SomeSnoc(polls, k);
      var held := body.holdsSender;
      body.PollFrame(polls[k]);
      if held && !body.holdsSender {
        afterFailure := failed;
        at := k;
      }
      if polls[k].polled == Failed {
        failed := true;
      }
    }
    assert polls[..|polls|] == polls;
    releases := body.releases;
    if !complete {
      if !body.holdsSender {
        DespiteFailureIff(polls, at);
      }
    }
  }

  lemma SomeIn(polls: seq<Poll>, at: nat, i: nat)
    requires at < i <= |polls|
    ensures Completes(polls[at]) ==> SomeCompletes(polls[..i])
    ensures polls[at].polled == Failed ==> SomeFails(polls[..i])
  {
    assert polls[..i][at] == polls[at];
  }

  /// With `at` the first completing poll.
  lemma DespiteFailureIff(polls: seq<Poll>, at: nat)
    requires at < |polls| && Completes(polls[at]) && !SomeCompletes(polls[..at])
    ensures SomeFails(polls[..at]) <==> DespiteFailure(polls)
  {
    forall i: nat | at < i < |polls| ensures !FailsFirst(polls, i) {
      SomeIn(polls, at, i);
    }
    if SomeFails(polls[..at]) {
      FirstFailure(polls, at);
    }
    if DespiteFailure(polls) {
      var i: nat :| i < |polls| && FailsFirst(polls, i) && CompletesAfter(polls, i);
      if i < at {
        SomeIn(polls, i, at);
      }
    }
  }

  // ----- What it means for the pool -----

  /// How a lease ends whose response body has this life.
  function EndOf(l: PoolProtocol.LeaseId, complete: bool, polls: seq<Poll>): PoolProtocol.Step {
    if GivesBack(complete, polls) then PoolProtocol.Finish(l) else PoolProtocol.Fail(l)
  }

  method EndLease(l: PoolProtocol.LeaseId, complete: bool, polls: seq<Poll>) returns (step: PoolProtocol.Step)
    ensures step == EndOf(l, complete, polls)
  {
    var releases, afterFailure := Drive(complete, polls);
    step := if releases == 1 then PoolProtocol.Finish(l) else PoolProtocol.Fail(l);
  }

  /// An HTTP/1 connection is in the pool after its response exactly if the body
  /// gave the sender back and the connection was open then; otherwise nobody
  /// holds it any more.
  lemma BackInPoolIff(w: PoolProtocol.World, l: PoolProtocol.LeaseId, complete: bool, polls: seq<Poll>)
    requires PoolProtocol.Inv(w) && l in w.leases && w.leases[l].id in w.conns && !w.conns[w.leases[l].id].http2
    ensures var id, v := w.leases[l].id, PoolProtocol.Next(w, EndOf(l, complete, polls));
            && (PoolProtocol.IsPooled(v.conns, v.buckets, id) <==> GivesBack(complete, polls) && !w.conns[id].closed)
            && (PoolProtocol.Gone(v, id) <==> !PoolProtocol.IsPooled(v.conns, v.buckets, id))
  {
    var lease := w.leases[l];
    assert PoolProtocol.LeaseOk(w.conns, lease) && !PoolProtocol.IsPooled(w.conns, w.buckets, lease.id);
    if GivesBack(complete, polls) && !w.conns[lease.id].closed {
      PushedIsLast(w, lease.key, lease.id);
    }
  }

  lemma PushedIsLast(w: PoolProtocol.World, key: Pool.PoolKey, id: Pool.ConnId)
    ensures var swept := Pool.Swept(w.conns, w.buckets, w.now);
            var bucket := if key in swept then swept[key] else [];
            var pushed := Pool.Pushed(bucket, Pool.Pooled(id, w.now));
            pushed != [] && pushed[|pushed| - 1].id == id
  {
  }

  /// A response that fails and is polled no further keeps its HTTP/1 connection
  /// out of the pool and of every lease for good.
  lemma FailedResponseKeepsOut(w: PoolProtocol.World, l: PoolProtocol.LeaseId, polls: seq<Poll>, later: seq<PoolProtocol.Step>)
    requires PoolProtocol.Inv(w) && PoolProtocol.IdsApart(w)
    requires l in w.leases && w.leases[l].id in w.conns && !w.conns[w.leases[l].id].http2
    requires polls != [] && FailsFirst(polls, |polls| - 1)
    requires PoolProtocol.Runs(PoolProtocol.Next(w, EndOf(l, false, polls)), later)
    ensures PoolProtocol.Gone(PoolProtocol.Final(PoolProtocol.Next(w, EndOf(l, false, polls)), later), w.leases[l].id)
  {
    SomeSnoc(polls, |polls| - 1);
    assert polls[..|polls|] == polls;
    assert EndOf(l, false, polls) == PoolProtocol.Fail(l);
    PoolProtocol.FailedConnectionNeverReturns(w, l, later);
  }

  /// Polled on until it ends, the same response gives its open connection back.
  lemma PolledOnGivesBack(w: PoolProtocol.World, l: PoolProtocol.LeaseId)
    requires PoolProtocol.Inv(w) && l in w.leases && w.leases[l].id in w.conns
    requires !w.conns[w.leases[l].id].http2 && !w.conns[w.leases[l].id].closed
    ensures var polls := [Poll(Failed, false), Poll(End, false)];
            var v := PoolProtocol.Next(w, EndOf(l, false, polls));
            FailsFirst(polls, 0) && PoolProtocol.IsPooled(v.conns, v.buckets, w.leases[l].id)
  {
    var polls := [Poll(Failed, false), Poll(End, false)];
    assert polls[..0] == [] && Completes(polls[1]);
    BackInPoolIff(w, l, false, polls);
  }
}
