/** The remote blob service, reduced to what the core observes: containers with their
    public-access level, block blobs as ordered lists of committed blocks, uncommitted
    (staged) blocks, and a log of delete requests that have been sent but not confirmed. */
module BlobStorage {
  import opened Wrappers
  import opened Exceptions
  import opened Text
  import Sequences

  /** BlobContainerPublicAccessType. */
  datatype PublicAccess = Off | Container | Blob

  /** A blob's address: its container and its full name inside that container. */
  datatype BlobRef = BlobRef(container: string, name: string)

  datatype Block = Block(id: string, data: string)

  /** A committed block blob; `lastModified` is the server's clock at the last commit. */
  datatype StoredBlob = StoredBlob(blocks: seq<Block>, lastModified: int)

  /** One entry of a blob listing, with its `Properties.LastModified` (absent when the
      service did not report it). */
  datatype BlobItem = BlobItem(blob: BlobRef, lastModified: Option<int>)

  function Ids(blocks: seq<Block>): (r: seq<string>)
    ensures |r| == |blocks| && forall i :: 0 <= i < |blocks| ==> r[i] == blocks[i].id
  {
    seq(|blocks|, i requires 0 <= i < |blocks| => blocks[i].id)
  }

  function Data(blocks: seq<Block>): (r: seq<string>)
    ensures |r| == |blocks| && forall i :: 0 <= i < |blocks| ==> r[i] == blocks[i].data
  {
    seq(|blocks|, i requires 0 <= i < |blocks| => blocks[i].data)
  }

  /** The data of the first committed block called `id`. */
  function FindBlock(blocks: seq<Block>, id: string): (r: Option<string>)
    ensures r.Some? <==> id in Ids(blocks)
    ensures r.Some? ==> Block(id, r.value) in blocks
  {
    if blocks == [] then None
    else if blocks[0].id == id then Some(blocks[0].data)
    else
      var r := FindBlock(blocks[1..], id);
      assert Ids(blocks) == [blocks[0].id] + Ids(blocks[1..]);
      r
  }

  lemma DataSnoc(blocks: seq<Block>, b: Block)
    ensures Data(blocks + [b]) == Data(blocks) + [b.data]
  {
    assert forall i :: 0 <= i < |blocks| ==> (blocks + [b])[i] == blocks[i];
  }

  /** Blocks that share an id share their data, as one block id names one block. */
  predicate Consistent(blocks: seq<Block>) {
    forall i, j :: 0 <= i < |blocks| && 0 <= j < |blocks| && blocks[i].id == blocks[j].id ==> blocks[i].data == blocks[j].data
  }

  /** The data an id names under "latest" lookup: the uncommitted block first, the committed one second. */
  function Latest(staged: map<string, string>, committed: seq<Block>, id: string): Option<string> {
    if id in staged then Some(staged[id]) else FindBlock(committed, id)
  }

  /** Put Block List in "latest" mode: each id is looked up among the uncommitted blocks
      first and among the committed ones second; one unknown id fails the whole list. */
  function ResolveBlocks(ids: seq<string>, staged: map<string, string>, committed: seq<Block>): (r: Option<seq<Block>>)
    ensures r.Some? <==> forall id :: id in ids ==> Latest(staged, committed, id).Some?
    ensures r.Some? ==> Ids(r.value) == ids
    ensures r.Some? ==> forall b :: b in r.value ==> Latest(staged, committed, b.id) == Some(b.data)
  {
    if ids == [] then Some([])
    else
      var init, x := ids[..|ids| - 1], ids[|ids| - 1];
      assert ids == init + [x];
      var prior := ResolveBlocks(init, staged, committed);
      var data := Latest(staged, committed, x);
      if prior.None? || data.None? then None
      else
        var r := prior.value + [Block(x, data.value)];
        assert Ids(r) == Ids(prior.value) + [x];
        Some(r)
  }

  /** A resolved block list is consistent: an id repeated in the list resolves to the same
      data each time. */
  lemma ResolvedConsistent(ids: seq<string>, staged: map<string, string>, committed: seq<Block>)
    requires ResolveBlocks(ids, staged, committed).Some?
    ensures Consistent(ResolveBlocks(ids, staged, committed).value)
  {
    var blocks := ResolveBlocks(ids, staged, committed).value;
    forall i, j | 0 <= i < |blocks| && 0 <= j < |blocks| && blocks[i].id == blocks[j].id
      ensures blocks[i].data == blocks[j].data
    {
      assert blocks[i] in blocks && blocks[j] in blocks;
    }
  }

  /** Resolving one more id appends the block it names. */
  lemma {:induction false} ResolveSnoc(ids: seq<string>, x: string, staged: map<string, string>, committed: seq<Block>)
    requires ResolveBlocks(ids, staged, committed).Some? && Latest(staged, committed, x).Some?
    ensures ResolveBlocks(ids + [x], staged, committed)
            == Some(ResolveBlocks(ids, staged, committed).value + [Block(x, Latest(staged, committed, x).value)])
  {
    assert (ids + [x])[..|ids|] == ids;
  }

  /** Committing the committed ids plus a newly staged one always resolves; when no
      committed id is shadowed by a staged block, it keeps the committed blocks and adds
      the new one at the end. */
  lemma AppendResolves(committed: seq<Block>, staged: map<string, string>, id: string, data: string)
    requires Consistent(committed)
    ensures ResolveBlocks(Ids(committed) + [id], staged[id := data], committed).Some?
    ensures id !in Ids(committed) && (forall x :: x in Ids(committed) ==> x !in staged) ==>
      ResolveBlocks(Ids(committed) + [id], staged[id := data], committed) == Some(committed + [Block(id, data)])
    ensures id !in Ids(committed) && (forall x :: x in Ids(committed) ==> x !in staged) ==>
      Data(ResolveBlocks(Ids(committed) + [id], staged[id := data], committed).value) == Data(committed) + [data]
  {
    var newStaged := staged[id := data];
    if id !in Ids(committed) && (forall x :: x in Ids(committed) ==> x !in staged) {
      forall i | 0 <= i < |committed| ensures committed[i].id !in newStaged {
        assert committed[i].id == Ids(committed)[i];
      }
      ResolveCommitted(committed, newStaged);
      ResolveSnoc(Ids(committed), id, newStaged, committed);
      DataSnoc(committed, Block(id, data));
    } else {
      assert forall x :: x in Ids(committed) ==> FindBlock(committed, x).Some?;
    }
  }

  /** Resolving ids that are not staged keeps the committed blocks they name. */
  lemma {:induction false} ResolveCommitted(blocks: seq<Block>, staged: map<string, string>)
    requires forall i :: 0 <= i < |blocks| ==> blocks[i].id !in staged
    requires Consistent(blocks)
    ensures ResolveBlocks(Ids(blocks), staged, blocks) == Some(blocks)
  {
    forall i | 0 <= i < |blocks|
      ensures Latest(staged, blocks, blocks[i].id) == Some(blocks[i].data)
    {
      FirstWithId(blocks, i);
    }
    ResolveCommittedPrefix(blocks, |blocks|, staged);
    assert Ids(blocks)[..|blocks|] == Ids(blocks) && blocks[..|blocks|] == blocks;
  }

  lemma {:induction false} ResolveCommittedPrefix(blocks: seq<Block>, k: nat, staged: map<string, string>)
    requires k <= |blocks|
    requires forall i :: 0 <= i < |blocks| ==> Latest(staged, blocks, blocks[i].id) == Some(blocks[i].data)
    ensures ResolveBlocks(Ids(blocks)[..k], staged, blocks) == Some(blocks[..k])
  {
    var ids := Ids(blocks)[..k];
    if k == 0 {
      assert ids == [] && blocks[..k] == [];
    } else {
      ResolveCommittedPrefix(blocks, k - 1, staged);
      var x := blocks[k - 1].id;
      Sequences.PrefixSnoc(Ids(blocks), k - 1);
      assert ids == Ids(blocks)[..k - 1] + [x];
      ResolveSnoc(Ids(blocks)[..k - 1], x, staged, blocks);
      Sequences.PrefixSnoc(blocks, k - 1);
    }
  }

  /** In consistent blocks, FindBlock returns the data at any position holding the id. */
  lemma {:induction false} FirstWithId(blocks: seq<Block>, k: nat)
    requires k < |blocks| && Consistent(blocks)
    ensures FindBlock(blocks, blocks[k].id) == Some(blocks[k].data)
  {
    if blocks[0].id != blocks[k].id {
      assert Consistent(blocks[1..]) by {
        forall i, j | 0 <= i < |blocks| - 1 && 0 <= j < |blocks| - 1 && blocks[1..][i].id == blocks[1..][j].id
          ensures blocks[1..][i].data == blocks[1..][j].data
        {
          assert blocks[1..][i] == blocks[i + 1] && blocks[1..][j] == blocks[j + 1];
        }
      }
      FirstWithId(blocks[1..], k - 1);
    }
  }

  /** The service's own consistency: every blob lives in an existing container, the listing
      order names each blob exactly once, and every committed block list is consistent. */
  ghost predicate Coherent(containers: map<string, PublicAccess>, blobs: map<BlobRef, StoredBlob>, order: seq<BlobRef>) {
    && (forall r :: r in blobs ==> r.container in containers)
    && (forall r :: r in order <==> r in blobs)
    && (forall r :: multiset(order)[r] <= 1)
    && (forall r :: r in blobs ==> Consistent(blobs[r].blocks))
  }

  /** Committing a consistent block list to a blob of an existing container keeps the
      service consistent; a new blob goes to the end of the listing order. */
  lemma CommitCoherent(containers: map<string, PublicAccess>, blobs: map<BlobRef, StoredBlob>, order: seq<BlobRef>,
                       r: BlobRef, stored: StoredBlob)
    requires Coherent(containers, blobs, order)
    requires r.container in containers && Consistent(stored.blocks)
    ensures Coherent(containers, blobs[r := stored], if r in blobs then order else order + [r])
  {
    if r !in blobs {
      assert forall x :: multiset(order + [r])[x] == multiset(order)[x] + multiset([r])[x];
    }
  }

  /** Staging a block and then committing discards the blob's staged blocks as if none
      had been staged. */
  lemma StagedThenDiscarded(uncommitted: map<BlobRef, map<string, string>>, r: BlobRef, staged: map<string, string>)
    ensures uncommitted[r := staged] - {r} == uncommitted - {r}
  {
  }

  /** The blobs outside container `c`. */
  function BlobsOutside(blobs: map<BlobRef, StoredBlob>, c: string): (r: map<BlobRef, StoredBlob>)
    ensures forall b :: b in r <==> b in blobs && b.container != c
    ensures forall b :: b in r ==> r[b] == blobs[b]
  {
    map b | b in blobs && b.container != c :: blobs[b]
  }

  /** The listing order without the blobs of container `c`. */
  function OrderOutside(order: seq<BlobRef>, c: string): (r: seq<BlobRef>)
    ensures forall b :: b in r <==> b in order && b.container != c
    ensures forall b :: multiset(r)[b] <= multiset(order)[b]
  {
    Sequences.Filter(order, (b: BlobRef) => b.container != c)
  }

  /** Dropping a container together with its blobs, from the map and from the listing order,
      keeps the service consistent. */
  lemma DropContainerCoherent(containers: map<string, PublicAccess>, blobs: map<BlobRef, StoredBlob>, order: seq<BlobRef>, c: string)
    requires Coherent(containers, blobs, order)
    ensures Coherent(containers - {c}, BlobsOutside(blobs, c), OrderOutside(order, c))
  {
    var remaining := BlobsOutside(blobs, c);
    var kept := OrderOutside(order, c);
    assert forall r :: r in remaining ==> r.container in containers - {c};
    assert forall r :: r in kept <==> r in remaining;
    assert forall r :: multiset(kept)[r] <= 1 by {
      forall r ensures multiset(kept)[r] <= 1 {
        assert multiset(kept)[r] <= multiset(order)[r];
      }
    }
  }

  /** The blobs of `c` whose names begin with `prefix`, in `order`
      (CloudBlobContainer.ListBlobs(prefix, useFlatBlobListing: true)). */
  function ListingOf(order: seq<BlobRef>, blobs: map<BlobRef, StoredBlob>, c: string, prefix: string): (r: seq<BlobItem>)
    ensures forall it :: it in r ==>
      it.blob in order && it.blob in blobs && it.blob.container == c && StartsWith(it.blob.name, prefix)
      && it.lastModified == Some(blobs[it.blob].lastModified)
    ensures forall b :: b in order && b in blobs && b.container == c && StartsWith(b.name, prefix) ==>
      BlobItem(b, Some(blobs[b].lastModified)) in r
  {
    if order == [] then []
    else
      var b := order[0];
      var rest := ListingOf(order[1..], blobs, c, prefix);
      assert forall x :: x in order <==> x == b || x in order[1..];
      if b in blobs && b.container == c && StartsWith(b.name, prefix)
      then [BlobItem(b, Some(blobs[b].lastModified))] + rest
      else rest
  }

  class Store {
    var containers: map<string, PublicAccess>
    var blobs: map<BlobRef, StoredBlob>
    /** Blobs in the order the service lists them. */
    var order: seq<BlobRef>
    var uncommitted: map<BlobRef, map<string, string>>
    /** Containers whose deletion the service has accepted but not finished; their names
        cannot be used again until it has. */
    var deleting: set<string>
    /** Deletes that were sent without waiting for the service to confirm them. */
    var deleteRequests: seq<BlobRef>

    ghost predicate Valid()
      reads this
    {
      Coherent(containers, blobs, order)
    }

    constructor ()
      ensures Valid()
      ensures containers == map[] && blobs == map[] && order == [] && uncommitted == map[] && deleteRequests == []
      ensures deleting == {}
    {
      containers, blobs, order, uncommitted, deleteRequests := map[], map[], [], map[], [];
      deleting := {};
    }

    function ContainerExists(c: string): bool
      reads this`containers
    {
      c in containers
    }

    /** ICloudBlob.Exists. */
    function Exists(r: BlobRef): bool
      reads this`blobs
    {
      r in blobs
    }

    /** The committed blocks of `r`; none when it does not exist. */
    function Committed(r: BlobRef): seq<Block>
      reads this`blobs
    {
      if r in blobs then blobs[r].blocks else []
    }

    function BlockIds(r: BlobRef): seq<string>
      reads this`blobs
    {
      Ids(Committed(r))
    }

    /** What downloading `r` returns, one element per committed block. */
    function Content(r: BlobRef): seq<string>
      reads this`blobs
    {
      Data(Committed(r))
    }

    function Staged(r: BlobRef): map<string, string>
      reads this`uncommitted
    {
      if r in uncommitted then uncommitted[r] else map[]
    }

    function Listing(c: string, prefix: string): seq<BlobItem>
      reads this`order, this`blobs
    {
      ListingOf(order, blobs, c, prefix)
    }

    /** One Create Container request of CloudBlobContainer.CreateIfNotExists(accessType):
        a new container gets `access` (Ok(true)); an existing one is left as it is (Ok(false));
        a name whose deletion is still in progress is refused with 409 ContainerBeingDeleted. */
    method CreateIfNotExists(c: string, access: PublicAccess) returns (r: Result<bool, Error>)
      requires Valid()
      modifies this`containers
      ensures Valid()
      ensures r.Err? <==> c !in old(containers) && c in deleting
      ensures r.Err? ==> r.error == ContainerBeingDeletedConflict && containers == old(containers)
      ensures r.Ok? ==> r.value == (c !in old(containers))
                        && containers == if r.value then old(containers)[c := access] else old(containers)
    {
      if c in containers {
        return Ok(false);
      }
      if c in deleting {
        return Err(ContainerBeingDeletedConflict);
      }
      containers := containers[c := access];
      r := Ok(true);
    }

    /** Deleting a container (done from outside the core) removes its blobs and their
        staged blocks with it; the service keeps the name until the deletion completes. */
    method DeleteContainer(c: string)
      requires Valid()
      modifies this`containers, this`blobs, this`order, this`uncommitted, this`deleting
      ensures Valid()
      ensures containers == old(containers) - {c}
      ensures blobs == BlobsOutside(old(blobs), c)
      ensures order == OrderOutside(old(order), c)
      ensures uncommitted == map r | r in old(uncommitted) && r.container != c :: old(uncommitted)[r]
      ensures deleting == old(deleting) + {c}
    {
      DropContainerCoherent(containers, blobs, order, c);
      containers := containers - {c};
      blobs := BlobsOutside(blobs, c);
      order := OrderOutside(order, c);
      uncommitted := map r | r in uncommitted && r.container != c :: uncommitted[r];
      deleting := deleting + {c};
    }

    /** The service finishes deleting container `c`; its name is free again. */
    method CompleteDeletion(c: string)
      modifies this`deleting
      ensures deleting == old(deleting) - {c}
    {
      deleting := deleting - {c};
    }

    /** CloudBlockBlob.DownloadBlockList(): the committed block ids, in order. */
    method DownloadBlockList(r: BlobRef) returns (res: Result<seq<string>, Error>)
      ensures res.Ok? <==> r in blobs
      ensures res.Ok? ==> res.value == Ids(blobs[r].blocks)
      ensures res.Err? ==> res.error == NotFound
    {
      if r in blobs {
        res := Ok(Ids(blobs[r].blocks));
      } else {
        res := Err(NotFound);
      }
    }

    /** CloudBlockBlob.PutBlock: stages `data` under `id`, replacing a staged block of that id. */
    method PutBlock(r: BlobRef, id: string, data: string) returns (o: Outcome<Error>)
      modifies this`uncommitted
      ensures o == if r.container in containers then Pass else Fail(ContainerNotFound)
      ensures uncommitted == if o.Pass? then old(uncommitted)[r := old(Staged(r))[id := data]] else old(uncommitted)
    {
      if r.container !in containers {
        return Fail(ContainerNotFound);
      }
      uncommitted := uncommitted[r := Staged(r)[id := data]];
      o := Pass;
    }

    /** CloudBlockBlob.PutBlockList: commits exactly the listed blocks, in the listed order,
        creating the blob if needed; the blob's staged blocks are discarded. */
    method PutBlockList(r: BlobRef, ids: seq<string>, now: int) returns (o: Outcome<Error>)
      requires Valid()
      modifies this`blobs, this`order, this`uncommitted
      ensures Valid()
      ensures var resolved := ResolveBlocks(ids, old(Staged(r)), old(Committed(r)));
        && o == (if r.container !in containers then Fail(ContainerNotFound)
                 else if resolved.None? then Fail(InvalidBlockList) else Pass)
        && (o.Pass? ==> blobs == old(blobs)[r := StoredBlob(resolved.value, now)]
                        && uncommitted == old(uncommitted) - {r})
        && (o.Fail? ==> blobs == old(blobs) && uncommitted == old(uncommitted))
      ensures order == if o.Pass? && r !in old(blobs) then old(order) + [r] else old(order)
    {
      if r.container !in containers {
        return Fail(ContainerNotFound);
      }
      var resolved := ResolveBlocks(ids, Staged(r), Committed(r));
      if resolved.None? {
        return Fail(InvalidBlockList);
      }
      ResolvedConsistent(ids, Staged(r), Committed(r));
      CommitCoherent(containers, blobs, order, r, StoredBlob(resolved.value, now));
      if r !in blobs {
        order := order + [r];
      }
      blobs := blobs[r := StoredBlob(resolved.value, now)];
      uncommitted := uncommitted - {r};
      o := Pass;
    }

    /** ICloudBlob.DeleteAsync without awaiting: the request is recorded, the blob stays
        until the service acts on it. */
    method RequestDelete(r: BlobRef)
      modifies this`deleteRequests
      ensures deleteRequests == old(deleteRequests) + [r]
    {
      deleteRequests := deleteRequests + [r];
    }
  }
}
