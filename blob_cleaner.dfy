/** BlobCleaner: the retention sweep over the provider's container. Times are DateTime
    ticks (100 ns) on the UTC clock, which is passed in as `now`. */
module Cleaning {
  import opened Wrappers
  import opened Exceptions
  import opened BlobStorage
  import opened Storage
  import Sequences

  const TicksPerDay := 864_000_000_000
  /** DateTime.MaxValue.Ticks; DateTime.MinValue has 0 ticks. */
  const MaxTicks := 3_155_378_975_999_999_999
  const DefaultMaxAge := 7 * TicksPerDay

  /** The BlobSearchPattern the constructor settles on: a missing or empty attribute
      becomes "*". */
  function SearchPatternFrom(attribute: Option<string>): (r: string)
    ensures r != ""
    ensures attribute.Some? && attribute.value != "" ==> r == attribute.value
    ensures attribute.None? || attribute.value == "" ==> r == "*"
  {
    var pattern := GetString(attribute, "");
    if pattern == "" then "*" else pattern
  }

  /** The maxAge the constructor settles on; `parsed` is the attribute as a time span,
      None when it is missing or cannot be parsed. */
  function MaxAgeFrom(parsed: Option<int>): (r: int)
    ensures parsed.None? ==> r == DefaultMaxAge
    ensures parsed.Some? ==> r == parsed.value
  {
    parsed.GetOr(DefaultMaxAge)
  }

  /** GetBlobLastModifiedDate: the reported last-modified time, or the clock when the
      service reported none. */
  function LastModifiedOrNow(item: BlobItem, now: int): (r: int)
    ensures item.lastModified.Some? ==> r == item.lastModified.value
    ensures item.lastModified.None? ==> r == now
  {
    item.lastModified.GetOr(now)
  }

  /** GetBlobAge: the time since the last modification. */
  function BlobAge(item: BlobItem, now: int): (r: int)
    ensures item.lastModified.None? ==> r == 0
    ensures item.lastModified.Some? ==> r + item.lastModified.value == now
  {
    now - LastModifiedOrNow(item, now)
  }

  /** DateTime.Add(TimeSpan): fails when the sum leaves the DateTime range. */
  function AddTicks(t: int, span: int): (r: Result<int, Error>)
    ensures r.Ok? <==> 0 <= t + span <= MaxTicks
    ensures r.Ok? ==> r.value - span == t
    ensures r.Err? ==> r.error == ArgumentOutOfRange
  {
    if 0 <= t + span <= MaxTicks then Ok(t + span) else Err(ArgumentOutOfRange)
  }

  /** The test in GetCandidateBlobs: is `now` past the last modification plus maxAge? */
  function IsOutOfDate(item: BlobItem, maxAge: int, now: int): (r: Result<bool, Error>)
    ensures r.Err? <==> AddTicks(LastModifiedOrNow(item, now), maxAge).Err?
    ensures r.Err? ==> r.error == ArgumentOutOfRange
    ensures r.Ok? ==> (r.value <==> BlobAge(item, now) > maxAge)
    ensures item.lastModified.None? && maxAge >= 0 ==> r != Ok(true)
  {
    var maxTime := AddTicks(LastModifiedOrNow(item, now), maxAge);
    if maxTime.Err? then Err(maxTime.error) else Ok(now > maxTime.value)
  }

  /** The candidates of a listing: the out-of-date items, in listing order; the first item
      whose time cannot be computed makes the whole selection fail. */
  function Candidates(items: seq<BlobItem>, maxAge: int, now: int): (r: Result<seq<BlobItem>, Error>)
    ensures r.Ok? ==> Sequences.IsSubsequence(r.value, items)
    ensures r.Ok? ==> forall it :: it in r.value <==> it in items && IsOutOfDate(it, maxAge, now) == Ok(true)
    ensures r.Err? <==> exists it :: it in items && IsOutOfDate(it, maxAge, now).Err?
    ensures r.Err? ==> r.error == ArgumentOutOfRange
    decreases |items|
  {
    if items == [] then Ok([])
    else
      var init, last := items[..|items| - 1], items[|items| - 1];
      assert items == init + [last];
      var prior := Candidates(init, maxAge, now);
      if prior.Err? then prior
      else
        var outOfDate := IsOutOfDate(last, maxAge, now);
        if outOfDate.Err? then Err(outOfDate.error)
        else
          Sequences.SubsequenceSnoc(prior.value, init, last);
          if outOfDate.value then Ok(prior.value + [last]) else Ok(prior.value)
  }

  /** A longer maximum age selects a subsequence of what a shorter one selects. */
  lemma {:induction false} CandidatesShrinkWithMaxAge(items: seq<BlobItem>, shorter: int, longer: int, now: int)
    requires shorter <= longer
    requires Candidates(items, shorter, now).Ok? && Candidates(items, longer, now).Ok?
    ensures Sequences.IsSubsequence(Candidates(items, longer, now).value, Candidates(items, shorter, now).value)
    decreases |items|
  {
    if items != [] {
      var init, last := items[..|items| - 1], items[|items| - 1];
      CandidatesShrinkWithMaxAge(init, shorter, longer, now);
      var a, b := Candidates(init, shorter, now).value, Candidates(init, longer, now).value;
      Sequences.SubsequenceSnoc(b, a, last);
    }
  }

  /** With a maximum age of seven days, a blob last modified ten days ago is selected and
      one modified a day ago is not. */
  lemma SevenDayExample(c: string, name: string)
    ensures var now := 100 * TicksPerDay;
      var old10 := BlobItem(BlobRef(c, name), Some(now - 10 * TicksPerDay));
      var old1 := BlobItem(BlobRef(c, name + "1"), Some(now - TicksPerDay));
      Candidates([old10, old1], DefaultMaxAge, now) == Ok([old10])
  {
    var now := 100 * TicksPerDay;
    var old10 := BlobItem(BlobRef(c, name), Some(now - 10 * TicksPerDay));
    var old1 := BlobItem(BlobRef(c, name + "1"), Some(now - TicksPerDay));
    assert [old10, old1][..1] == [old10];
    assert [old10][..0] == [];
    assert Candidates([], DefaultMaxAge, now) == Ok([]);
    assert IsOutOfDate(old10, DefaultMaxAge, now) == Ok(true);
    assert [] + [old10] == [old10];
    assert Candidates([old10], DefaultMaxAge, now) == Ok([old10]);
    assert IsOutOfDate(old1, DefaultMaxAge, now) == Ok(false);
  }

  /** The blobs of a list of listing items. */
  function Refs(items: seq<BlobItem>): (r: seq<BlobRef>)
    ensures |r| == |items| && forall i :: 0 <= i < |items| ==> r[i] == items[i].blob
  {
    seq(|items|, i requires 0 <= i < |items| => items[i].blob)
  }

  lemma RefsMembers(items: seq<BlobItem>)
    ensures forall b :: b in Refs(items) ==> exists it :: it in items && it.blob == b
  {
    forall b | b in Refs(items)
      ensures exists it :: it in items && it.blob == b
    {
      var i :| 0 <= i < |items| && Refs(items)[i] == b;
      assert items[i] in items;
    }
  }

  class BlobCleaner {
    const blobSearchPattern: string
    const maxAge: int

    /** BlobCleaner(configNode), given the node's two attributes. */
    constructor (patternAttribute: Option<string>, parsedMaxAge: Option<int>)
      ensures blobSearchPattern == SearchPatternFrom(patternAttribute)
      ensures maxAge == MaxAgeFrom(parsedMaxAge)
    {
      blobSearchPattern := SearchPatternFrom(patternAttribute);
      maxAge := MaxAgeFrom(parsedMaxAge);
    }

    /** The ContainerName property: the name of the provider's container, read through
        LogStorageManager.DefaultContainer, which fails when that container is null. */
    function ContainerName(provider: AzureBlobStorageProvider): (r: Result<string, Error>)
      reads provider`cloudBlobContainer
      ensures r.Err? <==> provider.cloudBlobContainer.None?
      ensures r.Err? ==> r.error == NullReference
      ensures r.Ok? ==> r.value == provider.cloudBlobContainer.value
    {
      if provider.cloudBlobContainer.None? then Err(NullReference) else Ok(provider.cloudBlobContainer.value)
    }

    /** What one Execute selects for deletion: nothing when the provider's container does
        not exist; otherwise the out-of-date blobs of its filtered listing. */
    function Sweep(provider: AzureBlobStorageProvider, store: Store, now: int): (r: Result<seq<BlobItem>, Error>)
      reads provider`cloudBlobContainer, store`containers, store`order, store`blobs
      ensures provider.cloudBlobContainer.None? ==> r == Err(NullReference)
      ensures provider.cloudBlobContainer.Some? && provider.cloudBlobContainer.value !in store.containers ==> r == Ok([])
      ensures r.Err? ==> r.error in {NullReference, ArgumentOutOfRange}
    {
      if provider.cloudBlobContainer.None? then Err(NullReference)
      else
        var c := provider.cloudBlobContainer.value;
        if c !in store.containers then Ok([])
        else Candidates(ListBlobsOf(store, WebRoleRelativeAddress(provider.role), c, blobSearchPattern).value, maxAge, now)
    }

    /** Everything a sweep selects is a blob of the provider's container whose name matches
        the search pattern and which is older than the maximum age. */
    lemma SweepSelects(provider: AzureBlobStorageProvider, store: Store, now: int)
      ensures var r := Sweep(provider, store, now);
        r.Ok? ==> forall it :: it in r.value ==>
          && it.blob.container == provider.cloudBlobContainer.value
          && it.blob in store.blobs
          && MatchesSearchPattern(it.blob.name, blobSearchPattern)
          && BlobAge(it, now) > maxAge
    {
    }

    /** The blobs one Execute asks to delete: those of the sweep, none when it fails. */
    function Requests(provider: AzureBlobStorageProvider, store: Store, now: int): (r: seq<BlobRef>)
      reads provider`cloudBlobContainer, store`containers, store`order, store`blobs
      ensures Sweep(provider, store, now).Err? ==> r == []
      ensures Sweep(provider, store, now).Ok? ==> |r| == |Sweep(provider, store, now).value|
    {
      var sweep := Sweep(provider, store, now);
      if sweep.Ok? then Refs(sweep.value) else []
    }

    /** Every blob Execute asks to delete exists, in the provider's container. */
    lemma RequestsExist(provider: AzureBlobStorageProvider, store: Store, now: int)
      ensures forall b :: b in Requests(provider, store, now) ==>
        b in store.blobs && provider.cloudBlobContainer == Some(b.container)
    {
      var sweep := Sweep(provider, store, now);
      if sweep.Ok? {
        SweepSelects(provider, store, now);
        RefsMembers(sweep.value);
      }
    }

    /** Execute: the sweep over the provider's container, skipped when it does not exist. */
    method Execute(provider: AzureBlobStorageProvider, store: Store, now: int) returns (o: Outcome<Error>)
      modifies store`deleteRequests
      ensures o.Pass? <==> old(Sweep(provider, store, now)).Ok?
      ensures o.Fail? ==> o.error == old(Sweep(provider, store, now)).error
      ensures store.deleteRequests == old(store.deleteRequests) + old(Requests(provider, store, now))
    {
      if provider.cloudBlobContainer.None? {
        return Fail(NullReference);
      }
      var c := provider.cloudBlobContainer.value;
      if !store.ContainerExists(c) {
        assert Refs([]) == [];
        return Pass;
      }
      o := Cleanup(provider, store, c, now);
    }

    /** In an existing container, the sweep is the selection over the filtered listing. */
    lemma SweepOfExisting(provider: AzureBlobStorageProvider, store: Store, c: string, now: int)
      requires provider.cloudBlobContainer == Some(c) && c in store.containers
      ensures var listing := ListBlobsOf(store, WebRoleRelativeAddress(provider.role), c, blobSearchPattern);
        && listing.Ok?
        && Sweep(provider, store, now) == Candidates(listing.value, maxAge, now)
    {
    }

    /** Cleanup: deletes the candidates, if there are any. */
    method Cleanup(provider: AzureBlobStorageProvider, store: Store, c: string, now: int) returns (o: Outcome<Error>)
      requires provider.cloudBlobContainer == Some(c) && c in store.containers
      modifies store`deleteRequests
      ensures o.Pass? <==> old(Sweep(provider, store, now)).Ok?
      ensures o.Fail? ==> o.error == old(Sweep(provider, store, now)).error
      ensures store.deleteRequests == old(store.deleteRequests) + old(Requests(provider, store, now))
    {
      ghost var sweep := Sweep(provider, store, now);
      ghost var requests := Requests(provider, store, now);
      SweepOfExisting(provider, store, c, now);
      var candidates := GetCandidateBlobs(provider, store, c, blobSearchPattern, now);
      assert candidates == sweep;
      if candidates.Err? {
        return Fail(candidates.error);
      }
      assert requests == Refs(candidates.value);
      if |candidates.value| > 0 {
        DeleteBlobs(store, candidates.value);
      } else {
        assert Refs(candidates.value) == [];
      }
      o := Pass;
    }

    /** GetCandidateBlobs: walks the filtered listing and keeps the out-of-date blobs. */
    method GetCandidateBlobs(provider: AzureBlobStorageProvider, store: Store, c: string, searchPattern: string, now: int)
      returns (r: Result<seq<BlobItem>, Error>)
      ensures var listing := ListBlobsOf(store, WebRoleRelativeAddress(provider.role), c, searchPattern);
        && (listing.Err? ==> r == Err(listing.error))
        && (listing.Ok? ==> r == Candidates(listing.value, maxAge, now))
    {
      var listing := ListBlobsOf(store, WebRoleRelativeAddress(provider.role), c, searchPattern);
      if listing.Err? {
        return Err(listing.error);
      }
      var blobList := listing.value;
      var candidateBlobList: seq<BlobItem> := [];
      var i := 0;
      while i < |blobList|
        invariant 0 <= i <= |blobList|
        invariant Candidates(blobList[..i], maxAge, now) == Ok(candidateBlobList)
      {
        var outOfDate := IsOutOfDate(blobList[i], maxAge, now);
        CandidatesStep(blobList, i, maxAge, now);
        if outOfDate.Err? {
          CandidatesFailOnce(blobList, i + 1, maxAge, now);
          return Err(outOfDate.error);
        }
        if outOfDate.value {
          candidateBlobList := candidateBlobList + [blobList[i]];
        }
        i := i + 1;
      }
      assert blobList[..i] == blobList;
      r := Ok(candidateBlobList);
    }

    /** DeleteBlobs: one delete request per blob, in order. */
    method DeleteBlobs(store: Store, blobsList: seq<BlobItem>)
      modifies store`deleteRequests
      ensures store.deleteRequests == old(store.deleteRequests) + Refs(blobsList)
    {
      var i := 0;
      while i < |blobsList|
        invariant 0 <= i <= |blobsList|
        invariant store.deleteRequests == old(store.deleteRequests) + Refs(blobsList[..i])
      {
        store.RequestDelete(blobsList[i].blob);
        assert Refs(blobsList[..i + 1]) == Refs(blobsList[..i]) + [blobsList[i].blob];
        i := i + 1;
      }
      assert blobsList[..i] == blobsList;
    }
  }

  /** One more listing item extends the selection by that item when it is out of date. */
  lemma CandidatesStep(items: seq<BlobItem>, i: nat, maxAge: int, now: int)
    requires i < |items|
    ensures var prior := Candidates(items[..i], maxAge, now);
      var outOfDate := IsOutOfDate(items[i], maxAge, now);
      prior.Ok? && outOfDate.Ok? ==>
        Candidates(items[..i + 1], maxAge, now) == Ok(if outOfDate.value then prior.value + [items[i]] else prior.value)
    ensures Candidates(items[..i], maxAge, now).Ok? && IsOutOfDate(items[i], maxAge, now).Err? ==>
      Candidates(items[..i + 1], maxAge, now).Err?
  {
    assert items[..i + 1][..i] == items[..i];
  }

  /** A failure in a prefix of the listing is a failure of the whole listing. */
  lemma CandidatesFailOnce(items: seq<BlobItem>, k: nat, maxAge: int, now: int)
    requires k <= |items| && Candidates(items[..k], maxAge, now).Err?
    ensures Candidates(items, maxAge, now) == Err(ArgumentOutOfRange)
  {
    var it :| it in items[..k] && IsOutOfDate(it, maxAge, now).Err?;
    assert it in items;
  }
}
