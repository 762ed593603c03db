/** AzureBlobStorageAppender: a log4net appender that writes each rendered event as one
    committed block of a block blob named after the date the appender was created. */
module Appenders {
  import opened Wrappers
  import opened Exceptions
  import opened Text
  import opened Calendar
  import opened BlobStorage
  import opened Storage

  const DefaultBlobUri := "log.{date}.txt"
  const DatePlaceholder := "{date}"

  /** ConstructBlobNameByDate: every "{date}" of the template becomes the date as "yyyyMMdd". */
  function BlobNameByDate(blobUri: string, date: DateTime): (r: string)
    requires Valid(date)
    ensures !Contains(r, DatePlaceholder)
    ensures !Contains(blobUri, DatePlaceholder) ==> r == blobUri
  {
    var digits := FormatDate(date);
    assert forall ch :: ch in DatePlaceholder ==> ch !in digits;
    assert DatePlaceholder[0] !in DatePlaceholder[1..];
    ReplaceAllRemovesAll(blobUri, DatePlaceholder, digits);
    var r := ReplaceAll(blobUri, DatePlaceholder, digits);
    assert !Contains(blobUri, DatePlaceholder) ==> r == blobUri by {
      if !Contains(blobUri, DatePlaceholder) {
        ReplaceAllWithoutMatch(blobUri, DatePlaceholder, digits);
      }
    }
    r
  }

  /** The default template names a day's log "log.yyyyMMdd.txt". */
  lemma DefaultBlobNameByDate(date: DateTime)
    requires Valid(date)
    ensures BlobNameByDate(DefaultBlobUri, date) == "log." + FormatDate(date) + ".txt"
  {
    var digits := FormatDate(date);
    ReplaceAllPlainPrefix("log.", "{date}.txt", DatePlaceholder, digits);
    assert "log." + "{date}.txt" == DefaultBlobUri;
    assert ("{date}.txt")[..6] == DatePlaceholder && ("{date}.txt")[6..] == ".txt";
    assert ReplaceAll(".txt", DatePlaceholder, digits) == ".txt";
  }

  /** ConstructBlobNameByDateTime: "." and the time as "HHmmss" inserted before the last
      '.' of the date name, which is returned as it is when it has no '.'. */
  function BlobNameByDateTime(blobUri: string, date: DateTime): (r: string)
    requires Valid(date)
    ensures var name := BlobNameByDate(blobUri, date);
      && ('.' !in name ==> r == name)
      && ('.' in name ==> InsertedBeforeLastDot(r, name, "." + FormatTime(date)))
  {
    var name := BlobNameByDate(blobUri, date);
    InsertTime(name, "." + FormatTime(date))
  }

  /** `r` is `name` with `t` inserted right before its last '.': one can take `t` out again,
      and the extension after the last '.' is the same. */
  predicate InsertedBeforeLastDot(r: string, name: string, t: string)
    requires '.' in name
  {
    var dot := LastIndexOf(name, '.');
    && |r| == |name| + |t|
    && r[dot..dot + |t|] == t
    && r[..dot] + r[dot + |t|..] == name
    && AfterLast(r, '.') == AfterLast(name, '.')
  }

  function InsertTime(name: string, t: string): (r: string)
    requires |t| > 0
    ensures '.' !in name ==> r == name
    ensures '.' in name ==> InsertedBeforeLastDot(r, name, t) && r != name
  {
    var dot := LastIndexOf(name, '.');
    if dot < 0 then name
    else
      InsertKeepsExtension(name, t, dot);
      InsertRemovable(name, t, dot);
      name[..dot] + t + name[dot..]
  }

  /** Text inserted before the last '.' leaves the extension after it. */
  lemma InsertKeepsExtension(name: string, t: string, dot: int)
    requires 0 <= dot < |name| && name[dot] == '.' && '.' !in name[dot + 1..]
    ensures AfterLast(name[..dot] + t + name[dot..], '.') == name[dot + 1..]
  {
    var head, ext := name[..dot], name[dot + 1..];
    assert name[dot..] == ['.'] + ext;
    assert head + t + name[dot..] == (head + t) + ['.'] + ext;
    AfterLastOfJoin(head + t, '.', ext);
  }

  /** The inserted text stands at `dot`, and removing it gives the name back. */
  lemma InsertRemovable(name: string, t: string, dot: int)
    requires 0 <= dot < |name|
    ensures var r := name[..dot] + t + name[dot..];
      r[dot..dot + |t|] == t && r[..dot] + r[dot + |t|..] == name
  {
    var r := name[..dot] + t + name[dot..];
    assert r[..dot] == name[..dot];
    assert r[dot..dot + |t|] == t;
    assert r[dot + |t|..] == name[dot..];
  }

  /** With the default template, the date-time name is "log.yyyyMMdd.HHmmss.txt". */
  lemma DefaultBlobNameByDateTime(date: DateTime)
    requires Valid(date)
    ensures BlobNameByDateTime(DefaultBlobUri, date) == "log." + FormatDate(date) + "." + FormatTime(date) + ".txt"
  {
    DefaultBlobNameByDate(date);
    InsertIntoLogName(FormatDate(date), "." + FormatTime(date));
  }

  lemma InsertIntoLogName(d: string, t: string)
    requires |d| == 8 && |t| > 0
    ensures InsertTime("log." + d + ".txt", t) == "log." + d + t + ".txt"
  {
    var name := "log." + d + ".txt";
    assert name[12] == '.' && name[13..] == "txt";
    LastIndexOfAt(name, '.', 12);
    assert name[..12] == "log." + d && name[12..] == ".txt";
  }

  /** The block id made of a Guid: its text with the dashes removed. */
  function NewBlockId(guid: string): (r: string)
    ensures '-' !in r
    ensures forall ch :: ch != '-' ==> multiset(r)[ch] == multiset(guid)[ch]
  {
    RemoveChar(guid, '-')
  }

  /** What LogStorageManager.GetBlob(name) gives when the bound blob's container is gone:
      the blob of that name in the provider's container, which is recreated when needed. */
  function Refetch(provider: AzureBlobStorageProvider, store: Store, name: string): (r: Result<BlobRef, Error>)
    reads provider`cloudBlobContainer, store`containers, store`deleting, store`blobs
    ensures provider.cloudBlobContainer.None? ==> r == Err(NullReference)
    ensures r.Ok? ==> r.value == BlobRef(provider.cloudBlobContainer.value, name) && r.value in store.blobs
  {
    if provider.cloudBlobContainer.None? then Err(NullReference)
    else if !Creatable(store, provider.cloudBlobContainer.value) then Err(ContainerBeingDeletedConflict)
    else if BlobRef(provider.cloudBlobContainer.value, name) in store.blobs then Ok(BlobRef(provider.cloudBlobContainer.value, name))
    else Err(NotFound)
  }

  class AzureBlobStorageAppender {
    var blobUri: string
    /** The moment the appender was created; nothing else assigns it. */
    var currentDate: DateTime
    var cloudBlockBlob: Option<BlobRef>

    predicate Valid()
      reads this`currentDate
    {
      Calendar.Valid(currentDate)
    }

    constructor (now: DateTime)
      requires Calendar.Valid(now)
      ensures Valid()
      ensures blobUri == DefaultBlobUri && currentDate == now && cloudBlockBlob == None
    {
      blobUri := DefaultBlobUri;
      currentDate := now;
      cloudBlockBlob := None;
    }

    /** The blob GetNewBlob settles on: the date-named blob, or the date-time-named one
        when the date-named blob exists already. The provider fails for a null container,
        and for a gone container whose name is still being deleted. */
    function NewBlob(provider: AzureBlobStorageProvider, store: Store): (r: Result<BlobRef, Error>)
      requires Valid()
      reads this`blobUri, this`currentDate, provider`cloudBlobContainer, store`containers, store`deleting, store`blobs
      ensures provider.cloudBlobContainer.None? ==> r == Err(NullReference)
      ensures provider.cloudBlobContainer.Some? ==>
        (r.Err? <==> !Creatable(store, provider.cloudBlobContainer.value))
      ensures r.Err? && provider.cloudBlobContainer.Some? ==> r.error == ContainerBeingDeletedConflict
      ensures r.Ok? ==> r.value.container == provider.cloudBlobContainer.value
      ensures r.Ok? ==> var address := WebRoleRelativeAddress(provider.role);
        var byDate := BlobRef(r.value.container, BlobPath(address, BlobNameByDate(blobUri, currentDate)));
        (byDate !in store.blobs ==> r.value == byDate)
        && (byDate in store.blobs ==> r.value.name == BlobPath(address, BlobNameByDateTime(blobUri, currentDate)))
    {
      if provider.cloudBlobContainer.None? then Err(NullReference)
      else if !Creatable(store, provider.cloudBlobContainer.value) then Err(ContainerBeingDeletedConflict)
      else
        var address := WebRoleRelativeAddress(provider.role);
        var byDate := BlobRef(provider.cloudBlobContainer.value, BlobPath(address, BlobNameByDate(blobUri, currentDate)));
        if byDate !in store.blobs then Ok(byDate)
        else Ok(BlobRef(provider.cloudBlobContainer.value, BlobPath(address, BlobNameByDateTime(blobUri, currentDate))))
    }

    /** Since the creation date is never updated, once the day's blob exists every later
        rotation, on whatever day, settles on the same name built from the creation moment. */
    lemma RotationNamesFromCreationDate(provider: AzureBlobStorageProvider, store: Store)
      requires Valid() && store.Valid() && blobUri == DefaultBlobUri && provider.cloudBlobContainer.Some?
      requires var address := WebRoleRelativeAddress(provider.role);
        BlobRef(provider.cloudBlobContainer.value, BlobPath(address, "log." + FormatDate(currentDate) + ".txt")) in store.blobs
      ensures var address := WebRoleRelativeAddress(provider.role);
        NewBlob(provider, store) == Ok(BlobRef(provider.cloudBlobContainer.value,
          BlobPath(address, "log." + FormatDate(currentDate) + "." + FormatTime(currentDate) + ".txt")))
    {
      DefaultBlobNameByDate(currentDate);
      DefaultBlobNameByDateTime(currentDate);
    }

    /** GetNewBlob: a reference to the date-named blob, or to the date-time-named blob when
        the former exists; the provider recreates its container when it is gone. */
    method GetNewBlob(provider: AzureBlobStorageProvider, store: Store, draws: seq<int>) returns (r: Result<BlobRef, Error>)
      requires Valid() && provider.Valid() && store.Valid() && RandomDraws(draws)
      modifies store`containers
      ensures store.Valid()
      ensures r == old(NewBlob(provider, store))
      ensures r.Ok? ==> && r.value.container in store.containers
                        && store.containers == WithContainer(old(store.containers), r.value.container, provider.publicAccessType)
      ensures r.Err? ==> store.containers == old(store.containers)
    {
      r := provider.CreateBlob(store, BlobNameByDate(blobUri, currentDate), draws);
      if r.Ok? && store.Exists(r.value) {
        r := provider.CreateBlob(store, BlobNameByDateTime(blobUri, currentDate), draws);
      }
    }

    /** The blob the Blob getter settles on at `now`, judged on the state before the call. */
    function BlobChoice(provider: AzureBlobStorageProvider, store: Store, now: DateTime): (r: Result<BlobRef, Error>)
      requires Valid()
      reads this`cloudBlockBlob, this`blobUri, this`currentDate, provider`cloudBlobContainer,
        store`containers, store`deleting, store`blobs
      ensures cloudBlockBlob.Some? && cloudBlockBlob.value.container in store.containers && SameDay(currentDate, now) ==>
        r == Ok(cloudBlockBlob.value)
      ensures r.Ok? && store.Valid() ==> r.value.container in store.containers || Creatable(store, r.value.container)
    {
      if cloudBlockBlob.None? then NewBlob(provider, store)
      else if cloudBlockBlob.value.container !in store.containers then Refetch(provider, store, cloudBlockBlob.value.name)
      else if SameDay(currentDate, now) then Ok(cloudBlockBlob.value)
      else NewBlob(provider, store)
    }

    /** The Blob getter: binds a new blob on first use; re-fetches the same name from the
        provider when the blob's container is gone; binds a new blob when `now` is on
        another day than the creation date; otherwise keeps the blob. A failure leaves the
        handle as it was. */
    method Blob(provider: AzureBlobStorageProvider, store: Store, now: DateTime, draws: seq<int>) returns (r: Result<BlobRef, Error>)
      requires Valid() && provider.Valid() && store.Valid() && RandomDraws(draws)
      modifies this`cloudBlockBlob, store`containers
      ensures Valid() && store.Valid()
      ensures currentDate == old(currentDate) && blobUri == old(blobUri)
      ensures r == old(BlobChoice(provider, store, now))
      ensures r.Ok? ==> cloudBlockBlob == Some(r.value) && r.value.container in store.containers
      ensures r.Ok? ==> store.containers == WithContainer(old(store.containers), r.value.container, provider.publicAccessType)
      ensures r.Err? ==> cloudBlockBlob == old(cloudBlockBlob)
      ensures r.Err? && r.error != NotFound ==> store.containers == old(store.containers)
      ensures r.Err? && r.error == NotFound ==>
        provider.cloudBlobContainer.Some? &&
        store.containers == WithContainer(old(store.containers), provider.cloudBlobContainer.value, provider.publicAccessType)
      ensures old(cloudBlockBlob).None? ==> r == old(NewBlob(provider, store))
      ensures old(cloudBlockBlob).Some? && old(cloudBlockBlob).value.container !in old(store.containers) ==>
        && (provider.cloudBlobContainer.None? ==> r == Err(NullReference))
        && (provider.cloudBlobContainer.Some? && old(Creatable(store, provider.cloudBlobContainer.value)) ==>
              var again := BlobRef(provider.cloudBlobContainer.value, old(cloudBlockBlob).value.name);
              && (r.Ok? <==> again in store.blobs)
              && (r.Ok? ==> r.value == again)
              && (r.Err? ==> r.error == NotFound))
        && (provider.cloudBlobContainer.Some? && !old(Creatable(store, provider.cloudBlobContainer.value)) ==>
              r == Err(ContainerBeingDeletedConflict))
      ensures old(cloudBlockBlob).Some? && old(cloudBlockBlob).value.container in old(store.containers) ==>
        && (SameDay(currentDate, now) ==> r == Ok(old(cloudBlockBlob).value) && store.containers == old(store.containers))
        && (!SameDay(currentDate, now) ==> r == old(NewBlob(provider, store)))
    {
      if cloudBlockBlob.None? {
        r := GetNewBlob(provider, store, draws);
      } else if !store.ContainerExists(cloudBlockBlob.value.container) {
        r := provider.GetBlob(store, cloudBlockBlob.value.name, draws);
      } else if !SameDay(currentDate, now) {
        r := GetNewBlob(provider, store, draws);
      } else {
        r := Ok(cloudBlockBlob.value);
      }
      if r.Ok? {
        cloudBlockBlob := Some(r.value);
      }
    }

    /** AddMessageToBlock: the message is put as a block with a fresh id, then the blob's
        committed ids (none when it does not exist) followed by that id are committed. */
    method AddMessageToBlock(store: Store, blob: BlobRef, message: string, guid: string, serverTime: int)
      returns (o: Outcome<Error>)
      requires store.Valid()
      modifies store`blobs, store`order, store`uncommitted
      ensures store.Valid()
      ensures o.Pass? <==> blob.container in store.containers
      ensures o.Fail? ==> o.error == ContainerNotFound && store.blobs == old(store.blobs)
      ensures store.uncommitted == if o.Pass? then old(store.uncommitted) - {blob} else old(store.uncommitted)
      ensures store.order == if o.Pass? && blob !in old(store.blobs) then old(store.order) + [blob] else old(store.order)
      ensures o.Pass? ==> store.BlockIds(blob) == old(store.BlockIds(blob)) + [NewBlockId(guid)]
      ensures o.Pass? ==> forall r :: r != blob ==> (r in store.blobs <==> r in old(store.blobs))
                                                    && (r in store.blobs ==> store.blobs[r] == old(store.blobs[r]))
      ensures o.Pass? && NewBlockId(guid) !in old(store.BlockIds(blob))
              && (forall id :: id in old(store.BlockIds(blob)) ==> id !in old(store.Staged(blob))) ==>
              store.Content(blob) == old(store.Content(blob)) + [message]
    {
      var blockIds: seq<string> := [];
      if store.Exists(blob) {
        var listed := store.DownloadBlockList(blob);
        blockIds := listed.value;
      }
      ghost var committed := store.Committed(blob);
      ghost var staged := store.Staged(blob);
      assert blockIds == Ids(committed);
      var blockId := NewBlockId(guid);
      blockIds := blockIds + [blockId];
      o := store.PutBlock(blob, blockId, message);
      if o.Fail? {
        return;
      }
      StagedThenDiscarded(old(store.uncommitted), blob, staged[blockId := message]);
      AppendResolves(committed, staged, blockId, message);
      ghost var resolved := ResolveBlocks(blockIds, staged[blockId := message], committed).value;
      o := store.PutBlockList(blob, blockIds, serverTime);
      assert store.Committed(blob) == resolved;
    }

    /** Append: the rendered event goes to the blob the getter returns. On success that
        blob's committed ids gain the new block id and no other blob changes; a failing
        getter commits nothing. */
    method Append(provider: AzureBlobStorageProvider, store: Store, now: DateTime, message: string,
                  guid: string, serverTime: int, draws: seq<int>) returns (o: Outcome<Error>)
      requires Valid() && provider.Valid() && store.Valid() && RandomDraws(draws)
      modifies this`cloudBlockBlob, store`containers, store`blobs, store`order, store`uncommitted
      ensures Valid() && store.Valid()
      ensures currentDate == old(currentDate) && blobUri == old(blobUri)
      ensures var choice := old(BlobChoice(provider, store, now));
        && (o.Pass? <==> choice.Ok?)
        && (o.Fail? ==> && o.error == choice.error && cloudBlockBlob == old(cloudBlockBlob)
                        && store.blobs == old(store.blobs) && store.uncommitted == old(store.uncommitted)
                        && store.order == old(store.order)
                        && (o.error != NotFound ==> store.containers == old(store.containers))
                        && (o.error == NotFound ==>
                              provider.cloudBlobContainer.Some? &&
                              store.containers == WithContainer(old(store.containers), provider.cloudBlobContainer.value,
                                                                provider.publicAccessType)))
        && (o.Pass? ==>
              var b := choice.value;
              && cloudBlockBlob == Some(b) && b.container in store.containers
              && store.containers == WithContainer(old(store.containers), b.container, provider.publicAccessType)
              && store.uncommitted == old(store.uncommitted) - {b}
              && store.order == (if b !in old(store.blobs) then old(store.order) + [b] else old(store.order))
              && store.BlockIds(b) == old(store.BlockIds(b)) + [NewBlockId(guid)]
              && (forall r :: r != b ==> (r in store.blobs <==> r in old(store.blobs))
                                         && (r in store.blobs ==> store.blobs[r] == old(store.blobs[r])))
              && (NewBlockId(guid) !in old(store.BlockIds(b))
                  && (forall id :: id in old(store.BlockIds(b)) ==> id !in old(store.Staged(b))) ==>
                  store.Content(b) == old(store.Content(b)) + [message]))
    {
      var blob := Blob(provider, store, now, draws);
      if blob.Err? {
        return Fail(blob.error);
      }
      o := AddMessageToBlock(store, blob.value, message, guid, serverTime);
    }

    /** On the creation day, an event whose block id is new to the blob the getter settles
        on, where no committed id of that blob has a staged block, becomes the last block of
        that blob; the handle is bound to it and it is left with no staged blocks. */
    method AppendFreshBlock(provider: AzureBlobStorageProvider, store: Store, now: DateTime, message: string,
                            guid: string, serverTime: int, draws: seq<int>) returns (o: Outcome<Error>)
      requires Valid() && provider.Valid() && store.Valid() && RandomDraws(draws)
      requires SameDay(currentDate, now) && BlobChoice(provider, store, now).Ok?
      requires var b := BlobChoice(provider, store, now).value;
        && NewBlockId(guid) !in store.BlockIds(b)
        && (forall id :: id in store.BlockIds(b) ==> id !in store.Staged(b))
      modifies this`cloudBlockBlob, store`containers, store`blobs, store`order, store`uncommitted
      ensures Valid() && store.Valid() && currentDate == old(currentDate)
      ensures var b := old(BlobChoice(provider, store, now)).value;
        && o.Pass? && cloudBlockBlob == Some(b) && b.container in store.containers
        && store.Staged(b) == map[]
        && store.BlockIds(b) == old(store.BlockIds(b)) + [NewBlockId(guid)]
        && store.Content(b) == old(store.Content(b)) + [message]
    {
      o := Append(provider, store, now, message, guid, serverTime, draws);
    }

    /** Two events appended in turn on the creation day, with fresh and distinct block ids,
        land in the same blob in the order they were appended. */
    method AppendInTurn(provider: AzureBlobStorageProvider, store: Store, now: DateTime,
                        first: string, firstGuid: string, firstTime: int,
                        second: string, secondGuid: string, secondTime: int, draws: seq<int>)
      returns (o1: Outcome<Error>, o2: Outcome<Error>)
      requires Valid() && provider.Valid() && store.Valid() && RandomDraws(draws)
      requires SameDay(currentDate, now) && BlobChoice(provider, store, now).Ok?
      requires var b := BlobChoice(provider, store, now).value;
        && NewBlockId(firstGuid) != NewBlockId(secondGuid)
        && NewBlockId(firstGuid) !in store.BlockIds(b) && NewBlockId(secondGuid) !in store.BlockIds(b)
        && (forall id :: id in store.BlockIds(b) ==> id !in store.Staged(b))
      modifies this`cloudBlockBlob, store`containers, store`blobs, store`order, store`uncommitted
      ensures Valid() && store.Valid()
      ensures var b := old(BlobChoice(provider, store, now)).value;
        && o1.Pass? && o2.Pass? && cloudBlockBlob == Some(b)
        && store.Content(b) == old(store.Content(b)) + [first, second]
    {
      ghost var b := BlobChoice(provider, store, now).value;
      ghost var before := store.Content(b);
      ghost var ids := store.BlockIds(b);
      o1 := AppendFreshBlock(provider, store, now, first, firstGuid, firstTime, draws);
      assert BlobChoice(provider, store, now) == Ok(b);
      assert NewBlockId(secondGuid) !in ids + [NewBlockId(firstGuid)];
      o2 := AppendFreshBlock(provider, store, now, second, secondGuid, secondTime, draws);
      assert before + [first] + [second] == before + [first, second];
    }
  }
}
