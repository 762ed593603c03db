/** BlobsCleanupAgent: the scheduled agent that runs every configured cleaner in turn. */
module CleanupAgents {
  import opened Wrappers
  import opened Exceptions
  import opened BlobStorage
  import opened Storage
  import opened Cleaning
  import Sequences

  /** Each cleaner's sweep, in list order: the snapshot a run works from. */
  function Sweeps(cleaners: seq<BlobCleaner>, provider: AzureBlobStorageProvider, store: Store, now: int)
    : (r: seq<Result<seq<BlobItem>, Error>>)
    reads provider`cloudBlobContainer, store`containers, store`order, store`blobs
    ensures |r| == |cleaners|
    decreases |cleaners|
  {
    if cleaners == [] then []
    else Sweeps(cleaners[..|cleaners| - 1], provider, store, now)
         + [cleaners[|cleaners| - 1].Sweep(provider, store, now)]
  }

  /** Whether each cleaner's sweep completes, in list order. */
  function Verdicts(cleaners: seq<BlobCleaner>, provider: AzureBlobStorageProvider, store: Store, now: int)
    : (r: seq<bool>)
    reads provider`cloudBlobContainer, store`containers, store`order, store`blobs
  {
    var sweeps := Sweeps(cleaners, provider, store, now);
    seq(|sweeps|, k requires 0 <= k < |sweeps| => sweeps[k].Ok?)
  }

  /** Each cleaner's own delete requests, in list order. */
  function RequestLists(cleaners: seq<BlobCleaner>, provider: AzureBlobStorageProvider, store: Store, now: int)
    : (r: seq<seq<BlobRef>>)
    reads provider`cloudBlobContainer, store`containers, store`order, store`blobs
  {
    var sweeps := Sweeps(cleaners, provider, store, now);
    seq(|sweeps|, k requires 0 <= k < |sweeps| => if sweeps[k].Ok? then Refs(sweeps[k].value) else [])
  }

  /** The i-th entry of the run's snapshot is the i-th cleaner's own sweep. */
  lemma {:induction false} SweepAt(cleaners: seq<BlobCleaner>, i: nat, provider: AzureBlobStorageProvider, store: Store, now: int)
    requires i < |cleaners|
    ensures Sweeps(cleaners, provider, store, now)[i] == cleaners[i].Sweep(provider, store, now)
    decreases |cleaners|
  {
    var n := |cleaners| - 1;
    var prior := Sweeps(cleaners[..n], provider, store, now);
    var last := cleaners[n].Sweep(provider, store, now);
    assert Sweeps(cleaners, provider, store, now) == prior + [last];
    if i < n {
      SweepAt(cleaners[..n], i, provider, store, now);
      assert cleaners[..n][i] == cleaners[i];
      assert (prior + [last])[i] == prior[i];
    } else {
      assert i == n;
      assert (prior + [last])[n] == last;
    }
  }

  /** The i-th entry of the run's verdicts is the i-th cleaner's own. */
  lemma VerdictAt(cleaners: seq<BlobCleaner>, i: nat, provider: AzureBlobStorageProvider, store: Store, now: int)
    requires i < |cleaners|
    ensures |Verdicts(cleaners, provider, store, now)| == |cleaners|
    ensures Verdicts(cleaners, provider, store, now)[i] == cleaners[i].Sweep(provider, store, now).Ok?
  {
    SweepAt(cleaners, i, provider, store, now);
  }

  /** The i-th entry of the run's request lists is the i-th cleaner's own. */
  lemma RequestsAt(cleaners: seq<BlobCleaner>, i: nat, provider: AzureBlobStorageProvider, store: Store, now: int)
    requires i < |cleaners|
    ensures |RequestLists(cleaners, provider, store, now)| == |cleaners|
    ensures RequestLists(cleaners, provider, store, now)[i] == cleaners[i].Requests(provider, store, now)
  {
    SweepAt(cleaners, i, provider, store, now);
  }

  /** A run reports a pass for exactly the cleaners whose sweep completes. */
  lemma VerdictsMeaning(cleaners: seq<BlobCleaner>, provider: AzureBlobStorageProvider, store: Store, now: int)
    ensures forall i :: 0 <= i < |cleaners| ==>
      (Verdicts(cleaners, provider, store, now)[i] <==> cleaners[i].Sweep(provider, store, now).Ok?)
  {
    forall i | 0 <= i < |cleaners|
      ensures Verdicts(cleaners, provider, store, now)[i] <==> cleaners[i].Sweep(provider, store, now).Ok?
    {
      VerdictAt(cleaners, i, provider, store, now);
    }
  }

  /** Every delete request of a run names a blob that exists, in the provider's container. */
  lemma {:induction false} RequestedBlobsExist(cleaners: seq<BlobCleaner>, provider: AzureBlobStorageProvider, store: Store, now: int)
    ensures forall b :: b in Sequences.Flatten(RequestLists(cleaners, provider, store, now)) ==>
      b in store.blobs && provider.cloudBlobContainer == Some(b.container)
    decreases |cleaners|
  {
    if cleaners != [] {
      var n := |cleaners| - 1;
      RequestedBlobsExist(cleaners[..n], provider, store, now);
      cleaners[n].RequestsExist(provider, store, now);
      RequestsAt(cleaners, n, provider, store, now);
      var lists := RequestLists(cleaners, provider, store, now);
      assert Sweeps(cleaners, provider, store, now)
        == Sweeps(cleaners[..n], provider, store, now) + [cleaners[n].Sweep(provider, store, now)];
      assert lists[..n] == RequestLists(cleaners[..n], provider, store, now);
      Sequences.FlattenStep(lists, n);
      assert lists[..n + 1] == lists;
    }
  }

  class BlobsCleanupAgent {
    var blobsCleaners: seq<BlobCleaner>
    /** The JobsCount.TasksFileCleanups performance counter. */
    var completedRuns: nat

    constructor ()
      ensures blobsCleaners == [] && completedRuns == 0
    {
      blobsCleaners := [];
      completedRuns := 0;
    }

    /** AddCommand: one new cleaner built from the node's attributes, at the end of the list. */
    method AddCommand(patternAttribute: Option<string>, parsedMaxAge: Option<int>)
      modifies this`blobsCleaners
      ensures |blobsCleaners| == |old(blobsCleaners)| + 1
      ensures blobsCleaners[..|old(blobsCleaners)|] == old(blobsCleaners)
      ensures var added := blobsCleaners[|blobsCleaners| - 1];
        && fresh(added)
        && added.blobSearchPattern == SearchPatternFrom(patternAttribute)
        && added.maxAge == MaxAgeFrom(parsedMaxAge)
    {
      var cleaner := new BlobCleaner(patternAttribute, parsedMaxAge);
      blobsCleaners := blobsCleaners + [cleaner];
    }

    /** Run, as written: every cleaner executes once, in list order; a failing cleaner is
        logged and the next one still runs, and the counter goes up by one at the end. The
        log message reads the cleaner's ContainerName, which fails when the provider's
        container is null: that failure escapes the handler, so Run stops after the first
        cleaner and the counter is not incremented. `outcomes[i]` is what the i-th
        cleaner's Execute ended with. */
    method Run(provider: AzureBlobStorageProvider, store: Store, now: int)
      returns (outcomes: seq<Outcome<Error>>, o: Outcome<Error>)
      modifies this`completedRuns, store`deleteRequests
      ensures blobsCleaners == old(blobsCleaners)
      ensures o.Fail? <==> provider.cloudBlobContainer.None? && |blobsCleaners| > 0
      ensures o.Fail? ==> && o.error == NullReference && outcomes == [Fail(NullReference)]
                          && completedRuns == old(completedRuns)
                          && store.deleteRequests == old(store.deleteRequests)
      ensures o.Pass? ==> && completedRuns == old(completedRuns) + 1
                          && |outcomes| == |blobsCleaners|
                          && (forall i :: 0 <= i < |blobsCleaners| ==>
                                (outcomes[i].Pass? <==> old(Verdicts(blobsCleaners, provider, store, now))[i]))
                          && store.deleteRequests == old(store.deleteRequests)
                               + Sequences.Flatten(old(RequestLists(blobsCleaners, provider, store, now)))
    {
      var escaped;
      outcomes, escaped := ExecuteAll(blobsCleaners, provider, store, now);
      if escaped.Some? {
        return outcomes, Fail(escaped.value);
      }
      completedRuns := completedRuns + 1;
      o := Pass;
    }

    /** Run as its handler intends: every cleaner executes once, in list order, whatever
        the previous one ended with, and the counter goes up by one at the end. */
    method RunIsolating(provider: AzureBlobStorageProvider, store: Store, now: int) returns (outcomes: seq<Outcome<Error>>)
      modifies this`completedRuns, store`deleteRequests
      ensures blobsCleaners == old(blobsCleaners)
      ensures completedRuns == old(completedRuns) + 1
      ensures |outcomes| == |blobsCleaners|
      ensures forall i :: 0 <= i < |blobsCleaners| ==>
        (outcomes[i].Pass? <==> old(Verdicts(blobsCleaners, provider, store, now))[i])
      ensures store.deleteRequests
        == old(store.deleteRequests) + Sequences.Flatten(old(RequestLists(blobsCleaners, provider, store, now)))
    {
      outcomes := ExecuteAllIsolating(blobsCleaners, provider, store, now);
      completedRuns := completedRuns + 1;
    }
  }

  /** Without a provider container every cleaner fails, and so does the handler's read of
      the first one's container name: the isolating run reports every cleaner as failed,
      while the run as written stops at the first. */
  lemma NullContainerEscapesHandler(cleaners: seq<BlobCleaner>, provider: AzureBlobStorageProvider, store: Store, now: int)
    requires provider.cloudBlobContainer.None? && |cleaners| > 0
    ensures forall i :: 0 <= i < |cleaners| ==> !Verdicts(cleaners, provider, store, now)[i]
    ensures cleaners[0].ContainerName(provider) == Err(NullReference)
  {
    VerdictsMeaning(cleaners, provider, store, now);
  }

  /** The loop of Run as written: each cleaner's Execute in turn; a failure is handled by a
      log message naming the cleaner's container, and a failure of that read escapes. */
  method ExecuteAll(cleaners: seq<BlobCleaner>, provider: AzureBlobStorageProvider, store: Store, now: int)
    returns (outcomes: seq<Outcome<Error>>, escaped: Option<Error>)
    modifies store`deleteRequests
    ensures escaped.Some? <==> provider.cloudBlobContainer.None? && |cleaners| > 0
    ensures escaped.Some? ==> && escaped.value == NullReference && outcomes == [Fail(NullReference)]
                              && store.deleteRequests == old(store.deleteRequests)
    ensures escaped.None? ==>
      && |outcomes| == |cleaners|
      && (forall i :: 0 <= i < |cleaners| ==> (outcomes[i].Pass? <==> old(Verdicts(cleaners, provider, store, now))[i]))
      && store.deleteRequests == old(store.deleteRequests) + Sequences.Flatten(old(RequestLists(cleaners, provider, store, now)))
  {
    ghost var sweeps := Sweeps(cleaners, provider, store, now);
    ghost var verdicts := Verdicts(cleaners, provider, store, now);
    ghost var requests := RequestLists(cleaners, provider, store, now);
    outcomes, escaped := [], None;
    var i := 0;
    while i < |cleaners|
      invariant 0 <= i <= |cleaners|
      invariant provider.cloudBlobContainer.None? ==> i == 0
      invariant |outcomes| == i
      invariant sweeps == Sweeps(cleaners, provider, store, now)
      invariant forall j :: 0 <= j < i ==> (outcomes[j].Pass? <==> verdicts[j])
      invariant store.deleteRequests == old(store.deleteRequests) + Sequences.Flatten(requests[..i])
    {
      var o := ExecuteAt(cleaners, i, provider, store, now);
      if o.Fail? {
        var name := cleaners[i].ContainerName(provider);
        if name.Err? {
          assert outcomes == [];
          return [o], Some(name.error);
        }
      }
      Sequences.FlattenStep(requests, i);
      Sequences.AppendAssoc(old(store.deleteRequests), Sequences.Flatten(requests[..i]), requests[i]);
      OutcomesStep(outcomes, o, verdicts);
      outcomes := outcomes + [o];
      i := i + 1;
    }
    assert requests[..i] == requests;
  }

  /** The loop of the isolating Run: each cleaner's Execute in turn, whatever the previous
      one ended with. */
  method ExecuteAllIsolating(cleaners: seq<BlobCleaner>, provider: AzureBlobStorageProvider, store: Store, now: int)
    returns (outcomes: seq<Outcome<Error>>)
    modifies store`deleteRequests
    ensures |outcomes| == |cleaners|
    ensures forall i :: 0 <= i < |cleaners| ==> (outcomes[i].Pass? <==> old(Verdicts(cleaners, provider, store, now))[i])
    ensures store.deleteRequests
      == old(store.deleteRequests) + Sequences.Flatten(old(RequestLists(cleaners, provider, store, now)))
  {
    ghost var sweeps := Sweeps(cleaners, provider, store, now);
    ghost var verdicts := Verdicts(cleaners, provider, store, now);
    ghost var requests := RequestLists(cleaners, provider, store, now);
    outcomes := [];
    var i := 0;
    while i < |cleaners|
      invariant 0 <= i <= |cleaners|
      invariant |outcomes| == i
      invariant sweeps == Sweeps(cleaners, provider, store, now)
      invariant forall j :: 0 <= j < i ==> (outcomes[j].Pass? <==> verdicts[j])
      invariant store.deleteRequests == old(store.deleteRequests) + Sequences.Flatten(requests[..i])
    {
      var o := ExecuteAt(cleaners, i, provider, store, now);
      Sequences.FlattenStep(requests, i);
      Sequences.AppendAssoc(old(store.deleteRequests), Sequences.Flatten(requests[..i]), requests[i]);
      OutcomesStep(outcomes, o, verdicts);
      outcomes := outcomes + [o];
      i := i + 1;
    }
    assert requests[..i] == requests;
  }

  /** Appending the outcome of the next cleaner keeps the outcomes in step with the verdicts. */
  lemma OutcomesStep(outcomes: seq<Outcome<Error>>, o: Outcome<Error>, verdicts: seq<bool>)
    requires |outcomes| < |verdicts|
    requires forall j :: 0 <= j < |outcomes| ==> (outcomes[j].Pass? <==> verdicts[j])
    requires o.Pass? == verdicts[|outcomes|]
    ensures forall j :: 0 <= j <= |outcomes| ==> ((outcomes + [o])[j].Pass? <==> verdicts[j])
  {
    assert forall j :: 0 <= j < |outcomes| ==> (outcomes + [o])[j] == outcomes[j];
  }

  /** One pass of Run's loop: the i-th cleaner's Execute, which leaves the run's snapshot as
      it is. Without a provider container it fails with NullReference and asks for nothing. */
  method ExecuteAt(cleaners: seq<BlobCleaner>, i: nat, provider: AzureBlobStorageProvider, store: Store, now: int)
    returns (o: Outcome<Error>)
    requires i < |cleaners|
    modifies store`deleteRequests
    ensures Sweeps(cleaners, provider, store, now) == old(Sweeps(cleaners, provider, store, now))
    ensures o.Pass? == old(Verdicts(cleaners, provider, store, now))[i]
    ensures store.deleteRequests == old(store.deleteRequests) + old(RequestLists(cleaners, provider, store, now))[i]
    ensures provider.cloudBlobContainer.None? ==> o == Fail(NullReference) && store.deleteRequests == old(store.deleteRequests)
  {
    VerdictAt(cleaners, i, provider, store, now);
    RequestsAt(cleaners, i, provider, store, now);
    o := cleaners[i].Execute(provider, store, now);
  }
}
