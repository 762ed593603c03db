/** AzureBlobStorageProvider: the configured container, the container-name normalisation,
    the role-relative blob names and the search-pattern filter over container listings. */
module Storage {
  import opened Wrappers
  import opened Exceptions
  import opened Text
  import opened BlobStorage
  import Sequences
  import RetryPolicies

  const DefaultContainerName := "sitecore-logs"
  const MinContainerNameLength := 3
  const MaxContainerNameLength := 63

  /** System.Text.Encoding instances the provider can be configured with. */
  datatype TextEncoding = ASCII | BigEndianUnicode | Default | Unicode | UTF32 | UTF7 | UTF8

  /** The Azure role environment: whether it is available, the deployment id and the id
      of the current role instance. */
  datatype RoleEnvironment = RoleEnvironment(isAvailable: bool, deploymentId: string, instanceId: string)

  /** The first three steps of the normalisation: spaces become dashes, leading and
      trailing dashes go, letters are lower-cased. */
  function CleanContainerName(source: string): string {
    ToLower(Trim(ReplaceChar(source, ' ', '-'), '-'))
  }

  /** NormalizeContainerName; `current` is the CloudBlobContainerName held (None for null).
      A cleaned name shorter than 3 falls back to `current`; a longer one than 63 is cut. */
  function NormalizeContainerName(source: string, current: Option<string>): (r: Option<string>)
    ensures |CleanContainerName(source)| < MinContainerNameLength ==> r == current
    ensures |CleanContainerName(source)| >= MinContainerNameLength ==>
      && r.Some? && StartsWith(CleanContainerName(source), r.value)
      && MinContainerNameLength <= |r.value| <= MaxContainerNameLength
      && ' ' !in r.value
      && (forall c :: c in r.value ==> !IsUpper(c))
      && r.value[0] != '-'
    ensures MinContainerNameLength <= |CleanContainerName(source)| <= MaxContainerNameLength ==>
      r == Some(CleanContainerName(source)) && r.value[|r.value| - 1] != '-'
  {
    CleanNameShape(source);
    FitContainerName(CleanContainerName(source), current)
  }

  /** The last step of the normalisation: the length checks on the cleaned name `s`. */
  function FitContainerName(s: string, current: Option<string>): (r: Option<string>)
    ensures |s| < MinContainerNameLength ==> r == current
    ensures |s| >= MinContainerNameLength ==>
      && r.Some? && StartsWith(s, r.value)
      && MinContainerNameLength <= |r.value| <= MaxContainerNameLength
      && (forall c :: c in r.value ==> c in s)
      && r.value[0] == s[0]
    ensures MinContainerNameLength <= |s| <= MaxContainerNameLength ==> r == Some(s)
    ensures |s| > MaxContainerNameLength ==> r == Some(s[..MaxContainerNameLength])
  {
    if |s| < MinContainerNameLength then current
    else if |s| > MaxContainerNameLength then
      var cut := s[..MaxContainerNameLength];
      assert forall c :: c in cut ==> c in s;
      Some(cut)
    else Some(s)
  }

  /** A cleaned name has no space, no upper-case letter and no dash at either end. */
  lemma CleanNameShape(source: string)
    ensures var s := CleanContainerName(source);
      && ' ' !in s
      && (forall c :: c in s ==> !IsUpper(c))
      && (s == [] || (s[0] != '-' && s[|s| - 1] != '-'))
  {
    var spaced := ReplaceChar(source, ' ', '-');
    var trimmed := Trim(spaced, '-');
    assert ' ' !in trimmed;
    LowerKeepsShape(trimmed);
  }

  /** Lower-casing keeps a name free of spaces and of dashes at its ends. */
  lemma LowerKeepsShape(t: string)
    requires ' ' !in t && (t == [] || (t[0] != '-' && t[|t| - 1] != '-'))
    ensures var s := ToLower(t);
      && ' ' !in s
      && (forall c :: c in s ==> !IsUpper(c))
      && (s == [] || (s[0] != '-' && s[|s| - 1] != '-'))
  {
    ToLowerKeepsNonLetters(t, ' ');
  }

  /** A name the normalisation accepts as it is: 3 to 63 characters, no space, no upper-case
      letter, no dash at either end. */
  predicate IsNormalName(s: string) {
    && MinContainerNameLength <= |s| <= MaxContainerNameLength
    && ' ' !in s
    && (forall c :: c in s ==> !IsUpper(c))
    && s[0] != '-' && s[|s| - 1] != '-'
  }

  /** Normalising a name that is already normal returns it unchanged. */
  lemma NormalNameUnchanged(s: string, current: Option<string>)
    requires IsNormalName(s)
    ensures NormalizeContainerName(s, current) == Some(s)
  {
    assert ReplaceChar(s, ' ', '-') == s;
    assert ToLower(s) == s;
  }

  lemma DefaultContainerNameIsNormal()
    ensures IsNormalName(DefaultContainerName)
    ensures forall current :: NormalizeContainerName(DefaultContainerName, current) == Some(DefaultContainerName)
  {
    forall current: Option<string> ensures NormalizeContainerName(DefaultContainerName, current) == Some(DefaultContainerName) {
      NormalNameUnchanged(DefaultContainerName, current);
    }
  }

  /** Normalisation is not idempotent: when cutting a long clean name at 63 leaves a
      trailing dash, a second normalisation trims it. */
  lemma NormalizationNotIdempotent(s: string)
    requires |s| > MaxContainerNameLength && s[MaxContainerNameLength - 1] == '-'
    requires ' ' !in s && (forall c :: c in s ==> !IsUpper(c)) && s[0] != '-' && s[|s| - 1] != '-'
    ensures var once := NormalizeContainerName(s, None);
      once == Some(s[..MaxContainerNameLength]) && NormalizeContainerName(once.value, None) != once
  {
    assert ReplaceChar(s, ' ', '-') == s;
    assert Trim(s, '-') == s;
    assert ToLower(s) == s;
    assert CleanContainerName(s) == s;
    var cut := s[..MaxContainerNameLength];
    assert NormalizeContainerName(s, None) == Some(cut);
    var again := NormalizeContainerName(cut, None);
    CleanNameShape(cut);
    var cleaned := CleanContainerName(cut);
    assert |cleaned| <= |cut| by {
      assert |ReplaceChar(cut, ' ', '-')| == |cut|;
    }
    if again == Some(cut) {
      assert false;
    }
  }

  /** A name that normalisation changes twice: 62 letters, a dash and one more letter. */
  lemma NormalizationNotIdempotentExample()
    ensures var s := seq(62, i => 'a') + "-b";
      NormalizeContainerName(NormalizeContainerName(s, None).value, None) != NormalizeContainerName(s, None)
  {
    var s := seq(62, i => 'a') + "-b";
    assert forall c :: c in s ==> c == 'a' || c == '-' || c == 'b';
    NormalizationNotIdempotent(s);
  }

  /** The BlobContainerPublicAccessType setter. */
  function PublicAccessFor(value: string): (r: PublicAccess)
    ensures r == Blob <==> value == "Blob"
    ensures r == Container <==> value == "Container"
    ensures r == Off <==> value != "Blob" && value != "Container"
  {
    match value
    case "Blob" => Blob
    case "Container" => Container
    case _ => Off
  }

  /** The Encoding setter: the six other names select their encoding, anything else UTF-8. */
  function EncodingFor(value: string): (r: TextEncoding)
    ensures value == "ASCII" <==> r == ASCII
    ensures value == "BigEndianUnicode" <==> r == BigEndianUnicode
    ensures value == "Default" <==> r == Default
    ensures value == "Unicode" <==> r == Unicode
    ensures value == "UTF32" <==> r == UTF32
    ensures value == "UTF7" <==> r == UTF7
    ensures r == UTF8 <==> value !in {"ASCII", "BigEndianUnicode", "Default", "Unicode", "UTF32", "UTF7"}
  {
    match value
    case "ASCII" => ASCII
    case "BigEndianUnicode" => BigEndianUnicode
    case "Default" => Default
    case "Unicode" => Unicode
    case "UTF32" => UTF32
    case "UTF7" => UTF7
    case _ => UTF8
  }

  /** StringUtil.GetString(value, default): a null or empty setting gives the default. */
  function GetString(value: Option<string>, default: string): (r: string)
    ensures value.Some? && value.value != "" ==> r == value.value
    ensures value.None? || value.value == "" ==> r == default
  {
    if value.None? || value.value == "" then default else value.value
  }

  /** The value of `key` in a configuration collection (null when absent). */
  function Setting(config: map<string, string>, key: string): Option<string> {
    if key in config then Some(config[key]) else None
  }

  function DeploymentRelativeAddress(role: RoleEnvironment): string {
    if role.isAvailable then role.deploymentId else ""
  }

  /** GetWebRoleRelativeAddress: "{DeploymentId}/{RoleInstanceId}", or empty outside a role. */
  function WebRoleRelativeAddress(role: RoleEnvironment): (r: string)
    ensures DeploymentRelativeAddress(role) == "" ==> r == ""
    ensures DeploymentRelativeAddress(role) != "" ==> r == role.deploymentId + "/" + role.instanceId
  {
    var deployment := DeploymentRelativeAddress(role);
    if deployment == "" then "" else deployment + "/" + role.instanceId
  }

  /** The name CreateBlob gives a blob: the bare name, or "{address}/{name}". */
  function BlobPath(address: string, name: string): (r: string)
    ensures address == "" ==> r == name
    ensures address != "" ==> r == address + "/" + name
  {
    if address == "" then name else address + "/" + name
  }

  /** Uri.Segments.Last() of a blob: the text after the blob name's last '/'. */
  function LastSegment(name: string): string {
    AfterLast(name, '/')
  }

  /** A prefixed name starts with its address and its last segment is the bare name. */
  lemma BlobPathParts(address: string, name: string)
    requires '/' !in name
    ensures StartsWith(BlobPath(address, name), address)
    ensures LastSegment(BlobPath(address, name)) == name
  {
    if address != "" {
      AfterLastOfJoin(address, '/', name);
      assert BlobPath(address, name)[..|address|] == address;
    }
  }

  /** The ListBlobs filter for one blob: its last segment starts with the pattern's text
      before the first '*' and ends with the text after the last '*'. */
  predicate MatchesSearchPattern(name: string, pattern: string) {
    var segment := LastSegment(name);
    StartsWith(segment, BeforeFirst(pattern, '*')) && EndsWith(segment, AfterLast(pattern, '*'))
  }

  /** The ListBlobs filter over a listing. */
  function FilterBlobs(items: seq<BlobItem>, pattern: string): (r: seq<BlobItem>)
    ensures Sequences.IsSubsequence(r, items)
    ensures forall it :: it in r <==> it in items && MatchesSearchPattern(it.blob.name, pattern)
  {
    Sequences.Filter(items, (it: BlobItem) => MatchesSearchPattern(it.blob.name, pattern))
  }

  /** The pattern "*" keeps the whole listing. */
  lemma StarKeepsAll(items: seq<BlobItem>)
    ensures FilterBlobs(items, "*") == items
  {
    assert BeforeFirst("*", '*') == [] by {
      assert IndexOf("*", '*') == 0;
    }
    assert AfterLast("*", '*') == [];
    forall it | it in items
      ensures MatchesSearchPattern(it.blob.name, "*")
    {
      assert LastSegment(it.blob.name)[..0] == [];
      assert LastSegment(it.blob.name)[|LastSegment(it.blob.name)|..] == [];
    }
    Sequences.FilterAll(items, (it: BlobItem) => MatchesSearchPattern(it.blob.name, "*"));
  }

  /** Only the text before the first '*' and after the last '*' is used: whatever stands
      between two '*' (the "log" of "*log*.txt") does not change which names match. */
  lemma MiddleOfPatternIgnored(name: string, before: string, middle: string, after: string)
    requires '*' !in before && '*' !in after
    ensures MatchesSearchPattern(name, before + "*" + middle + "*" + after)
        <==> MatchesSearchPattern(name, before + "*" + after)
  {
    var full := before + "*" + middle + "*" + after;
    var short := before + "*" + after;
    assert full == before + ['*'] + (middle + "*" + after);
    BeforeFirstOfJoin(before, '*', middle + "*" + after);
    assert full == (before + "*" + middle) + ['*'] + after;
    AfterLastOfJoin(before + "*" + middle, '*', after);
    BeforeFirstOfJoin(before, '*', after);
    AfterLastOfJoin(before, '*', after);
  }

  /** ListBlobs(container, pattern) on a container that is known to exist: the container's
      blobs under `address`, filtered, or nothing for an empty listing. A missing container
      makes the service answer 404. */
  function ListBlobsOf(store: Store, address: string, c: string, pattern: string): (r: Result<seq<BlobItem>, Error>)
    reads store`containers, store`order, store`blobs
    ensures r.Err? <==> c !in store.containers
    ensures r.Err? ==> r.error == ContainerNotFound
    ensures r.Ok? ==> forall it :: it in r.value <==> it in store.Listing(c, address) && MatchesSearchPattern(it.blob.name, pattern)
    ensures r.Ok? ==> Sequences.IsSubsequence(r.value, store.Listing(c, address))
  {
    if c !in store.containers then Err(ContainerNotFound)
    else
      var listing := store.Listing(c, address);
      if |listing| > 0 then Ok(FilterBlobs(listing, pattern)) else Ok([])
  }

  /** A committed blob that CreateBlob named, whose bare name matches the pattern, is in
      the filtered listing of its container. */
  lemma CreatedBlobIsListed(store: Store, address: string, c: string, name: string, pattern: string)
    requires store.Valid() && '/' !in name
    requires BlobRef(c, BlobPath(address, name)) in store.blobs
    requires MatchesSearchPattern(name, pattern)
    ensures var r := BlobRef(c, BlobPath(address, name));
      var listed := ListBlobsOf(store, address, c, pattern);
      listed.Ok? && BlobItem(r, Some(store.blobs[r].lastModified)) in listed.value
  {
    var r := BlobRef(c, BlobPath(address, name));
    BlobPathParts(address, name);
    assert r.container in store.containers && r in store.order;
    var item := BlobItem(r, Some(store.blobs[r].lastModified));
    assert item in store.Listing(c, address);
    assert MatchesSearchPattern(r.name, pattern);
  }

  /** The values `Random.Next` returns during one request, one per attempt, each within
      the range the default retry policy draws from. */
  predicate RandomDraws(draws: seq<int>) {
    && |draws| > RetryPolicies.DefaultMaxRetryAttempts
    && forall k :: 0 <= k < |draws| ==> RetryPolicies.ValidDraw(RetryPolicies.DefaultPolicy(), draws[k])
  }

  /** Whether CreateIfNotExists can succeed for `c`: it exists, or its name is not held by
      a deletion in progress. */
  predicate Creatable(store: Store, c: string)
    reads store`containers, store`deleting
  {
    c in store.containers || c !in store.deleting
  }

  /** The containers after `c` is ensured to exist with `access`. */
  function WithContainer(containers: map<string, PublicAccess>, c: string, access: PublicAccess): (r: map<string, PublicAccess>)
    ensures c in r && r.Keys == containers.Keys + {c}
    ensures forall x :: x in containers ==> r[x] == containers[x]
    ensures c !in containers ==> r[c] == access
  {
    if c in containers then containers else containers[c := access]
  }

  class AzureBlobStorageProvider {
    const role: RoleEnvironment
    /** ProviderBase state: set once by Initialize. */
    var initialized: bool
    var name: string
    var cloudBlobContainerName: Option<string>
    /** The container reference, held as the name it was created for. */
    var cloudBlobContainer: Option<string>
    var publicAccessType: PublicAccess
    var textEncoding: Option<TextEncoding>

    /** The container reference always belongs to the container name held. */
    predicate Valid()
      reads this`cloudBlobContainerName, this`cloudBlobContainer
    {
      cloudBlobContainer == cloudBlobContainerName
    }

    constructor (role: RoleEnvironment)
      ensures Valid()
      ensures this.role == role && !initialized && name == ""
      ensures cloudBlobContainerName == None && cloudBlobContainer == None
      ensures publicAccessType == Off && textEncoding == None
    {
      this.role := role;
      initialized, name := false, "";
      cloudBlobContainerName, cloudBlobContainer := None, None;
      publicAccessType, textEncoding := Off, None;
    }

    /** The ContainerName setter. A null or white-space value changes nothing; otherwise the
        normalised name and a reference to it are stored; a null name cannot be referenced. */
    method SetContainerName(value: Option<string>) returns (o: Outcome<Error>)
      requires Valid()
      modifies this`cloudBlobContainerName, this`cloudBlobContainer
      ensures Valid()
      ensures IsNullOrWhiteSpace(value) ==> o == Pass && unchanged(this)
      ensures !IsNullOrWhiteSpace(value) ==>
        && cloudBlobContainerName == NormalizeContainerName(value.value, old(cloudBlobContainerName))
        && (o.Fail? <==> cloudBlobContainerName.None?)
        && (o.Fail? ==> o.error == ArgumentNull)
    {
      if IsNullOrWhiteSpace(value) {
        return Pass;
      }
      cloudBlobContainerName := NormalizeContainerName(value.value, cloudBlobContainerName);
      if cloudBlobContainerName.None? {
        return Fail(ArgumentNull);
      }
      cloudBlobContainer := cloudBlobContainerName;
      o := Pass;
    }

    method SetPublicAccessType(value: string)
      modifies this`publicAccessType
      ensures publicAccessType == PublicAccessFor(value)
    {
      publicAccessType := PublicAccessFor(value);
    }

    method SetEncoding(value: string)
      modifies this`textEncoding
      ensures textEncoding == Some(EncodingFor(value))
    {
      textEncoding := Some(EncodingFor(value));
    }

    /** Initialize(name, config): an empty name or a second call fails before anything is
        set; otherwise the container name (default "sitecore-logs"), the public access and
        the encoding are configured in that order, and a failing container name stops the rest. */
    method Initialize(providerName: string, config: map<string, string>) returns (o: Outcome<Error>)
      requires Valid()
      modifies this`initialized, this`name, this`cloudBlobContainerName, this`cloudBlobContainer,
        this`publicAccessType, this`textEncoding
      ensures Valid()
      ensures providerName == "" ==> o == Fail(ArgumentNull) && unchanged(this)
      ensures providerName != "" && old(initialized) ==> o == Fail(InvalidOperation) && unchanged(this)
      ensures providerName != "" && !old(initialized) ==>
        var requested := GetString(Setting(config, "blobContainerName"), DefaultContainerName);
        && initialized && name == providerName
        && (IsNullOrWhiteSpace(Some(requested)) ==> cloudBlobContainerName == old(cloudBlobContainerName))
        && (!IsNullOrWhiteSpace(Some(requested)) ==>
              cloudBlobContainerName == NormalizeContainerName(requested, old(cloudBlobContainerName)))
        && (o.Fail? <==> cloudBlobContainerName.None? && !IsNullOrWhiteSpace(Some(requested)))
        && (o.Pass? ==> && publicAccessType == PublicAccessFor(GetString(Setting(config, "blobContainerPublicAccess"), ""))
                        && textEncoding == Some(EncodingFor(GetString(Setting(config, "textEncoding"), ""))))
        && (o.Fail? ==> publicAccessType == old(publicAccessType) && textEncoding == old(textEncoding))
    {
      if providerName == "" {
        return Fail(ArgumentNull);
      }
      if initialized {
        return Fail(InvalidOperation);
      }
      initialized, name := true, providerName;
      o := SetContainerName(Some(GetString(Setting(config, "blobContainerName"), DefaultContainerName)));
      if o.Fail? {
        return;
      }
      SetPublicAccessType(GetString(Setting(config, "blobContainerPublicAccess"), ""));
      SetEncoding(GetString(Setting(config, "textEncoding"), ""));
    }

    /** GetContainer(containerName): the container, created with the configured public
        access when it does not exist, under a ContainerBeingDeletedRetryPolicy. The storage
        client asks the policy for a fresh instance, sends the request, and after each 409
        ContainerBeingDeleted answer consults ShouldRetry: it waits the interval and sends
        again, or gives up and throws. `waits` are the intervals waited. */
    method GetContainer(store: Store, containerName: string, draws: seq<int>)
      returns (r: Result<string, Error>, waits: seq<int>)
      requires store.Valid() && RandomDraws(draws)
      modifies store`containers
      ensures store.Valid()
      ensures r.Ok? <==> old(Creatable(store, containerName))
      ensures r.Ok? ==> && r.value == containerName && waits == []
                        && store.containers == WithContainer(old(store.containers), containerName, publicAccessType)
      ensures r.Err? ==> && r.error == ContainerBeingDeletedConflict
                         && store.containers == old(store.containers)
                         && |waits| == RetryPolicies.DefaultMaxRetryAttempts
      ensures forall k :: 0 <= k < |waits| ==> RetryPolicies.MinBackoffMs <= waits[k] <= RetryPolicies.MaxBackoffMs
    {
      var policy := RetryPolicies.CreateInstance(RetryPolicies.DefaultPolicy());
      var count := 0;
      waits := [];
      while true
        invariant 0 <= count <= policy.maxRetryAttempts && |waits| == count
        invariant store.Valid() && store.containers == old(store.containers)
        invariant count > 0 ==> !Creatable(store, containerName)
        invariant forall k :: 0 <= k < |waits| ==> RetryPolicies.MinBackoffMs <= waits[k] <= RetryPolicies.MaxBackoffMs
        decreases policy.maxRetryAttempts - count
      {
        var created := store.CreateIfNotExists(containerName, publicAccessType);
        if created.Ok? {
          return Ok(containerName), waits;
        }
        var exception := RetryPolicies.StorageException(Some(RetryPolicies.ContainerBeingDeleted));
        var decision := RetryPolicies.ShouldRetry(policy, count, RetryPolicies.Conflict, exception, draws[count]);
        if decision.Err? || !decision.value.retry {
          return Err(created.error), waits;
        }
        waits := waits + [decision.value.intervalMs];
        count := count + 1;
      }
    }

    /** CreateBlob(blobName): a reference to "{address}/{blobName}" in the configured
        container, recreating the container first when it is gone. */
    method CreateBlob(store: Store, blobName: string, draws: seq<int>) returns (r: Result<BlobRef, Error>)
      requires store.Valid() && Valid() && RandomDraws(draws)
      modifies store`containers
      ensures store.Valid()
      ensures cloudBlobContainer.None? ==> r == Err(NullReference) && unchanged(store)
      ensures cloudBlobContainer.Some? && old(Creatable(store, cloudBlobContainer.value)) ==>
        && r == Ok(BlobRef(cloudBlobContainer.value, BlobPath(WebRoleRelativeAddress(role), blobName)))
        && store.containers == WithContainer(old(store.containers), cloudBlobContainer.value, publicAccessType)
      ensures cloudBlobContainer.Some? && !old(Creatable(store, cloudBlobContainer.value)) ==>
        r == Err(ContainerBeingDeletedConflict) && store.containers == old(store.containers)
    {
      var path := BlobPath(WebRoleRelativeAddress(role), blobName);
      if cloudBlobContainer.None? {
        return Err(NullReference);
      }
      var c := cloudBlobContainer.value;
      if !store.ContainerExists(c) {
        var got, _ := GetContainer(store, cloudBlobContainerName.value, draws);
        if got.Err? {
          return Err(got.error);
        }
        c := got.value;
      }
      r := Ok(BlobRef(c, path));
    }

    /** GetBlob(blobName): the existing blob of that exact name (no address prefix) in the
        configured container; a container that is gone is recreated empty, so the blob is not found. */
    method GetBlob(store: Store, blobName: string, draws: seq<int>) returns (r: Result<BlobRef, Error>)
      requires store.Valid() && Valid() && RandomDraws(draws)
      modifies store`containers
      ensures store.Valid()
      ensures cloudBlobContainer.None? ==> r == Err(NullReference) && unchanged(store)
      ensures cloudBlobContainer.Some? && old(Creatable(store, cloudBlobContainer.value)) ==>
        && (r.Ok? <==> BlobRef(cloudBlobContainer.value, blobName) in store.blobs)
        && (r.Ok? ==> r.value == BlobRef(cloudBlobContainer.value, blobName))
        && (r.Err? ==> r.error == NotFound)
        && store.containers == WithContainer(old(store.containers), cloudBlobContainer.value, publicAccessType)
      ensures cloudBlobContainer.Some? && !old(Creatable(store, cloudBlobContainer.value)) ==>
        r == Err(ContainerBeingDeletedConflict) && store.containers == old(store.containers)
    {
      if cloudBlobContainer.None? {
        return Err(NullReference);
      }
      var c := cloudBlobContainer.value;
      if !store.ContainerExists(c) {
        var got, _ := GetContainer(store, cloudBlobContainerName.value, draws);
        if got.Err? {
          return Err(got.error);
        }
        c := got.value;
      }
      r := if store.Exists(BlobRef(c, blobName)) then Ok(BlobRef(c, blobName)) else Err(NotFound);
    }

    /** GetBlob(containerName, blobName): the container is created if needed, then the blob looked up. */
    method GetBlobIn(store: Store, containerName: string, blobName: string, draws: seq<int>) returns (r: Result<BlobRef, Error>)
      requires store.Valid() && RandomDraws(draws)
      modifies store`containers
      ensures store.Valid()
      ensures old(Creatable(store, containerName)) ==>
        && store.containers == WithContainer(old(store.containers), containerName, publicAccessType)
        && (r.Ok? <==> BlobRef(containerName, blobName) in store.blobs)
        && (r.Ok? ==> r.value == BlobRef(containerName, blobName))
        && (r.Err? ==> r.error == NotFound)
      ensures !old(Creatable(store, containerName)) ==>
        r == Err(ContainerBeingDeletedConflict) && store.containers == old(store.containers)
    {
      var got, _ := GetContainer(store, containerName, draws);
      if got.Err? {
        return Err(got.error);
      }
      var c := got.value;
      r := if store.Exists(BlobRef(c, blobName)) then Ok(BlobRef(c, blobName)) else Err(NotFound);
    }

    /** ListBlobs(searchPattern) over the configured container, which is not created. */
    function ListBlobs(store: Store, searchPattern: string): (r: Result<seq<BlobItem>, Error>)
      reads this`cloudBlobContainer, store`containers, store`order, store`blobs
      ensures cloudBlobContainer.None? ==> r == Err(ArgumentNull)
      ensures cloudBlobContainer.Some? ==>
        r == ListBlobsOf(store, WebRoleRelativeAddress(role), cloudBlobContainer.value, searchPattern)
    {
      if cloudBlobContainer.None? then Err(ArgumentNull)
      else ListBlobsOf(store, WebRoleRelativeAddress(role), cloudBlobContainer.value, searchPattern)
    }

    /** ListBlobs(containerName, searchPattern): the container is created if needed. */
    method ListBlobsIn(store: Store, containerName: string, searchPattern: string, draws: seq<int>)
      returns (r: Result<seq<BlobItem>, Error>)
      requires store.Valid() && RandomDraws(draws)
      modifies store`containers
      ensures store.Valid()
      ensures old(Creatable(store, containerName)) ==>
        && store.containers == WithContainer(old(store.containers), containerName, publicAccessType)
        && r == ListBlobsOf(store, WebRoleRelativeAddress(role), containerName, searchPattern) && r.Ok?
      ensures !old(Creatable(store, containerName)) ==>
        r == Err(ContainerBeingDeletedConflict) && store.containers == old(store.containers)
    {
      var got, _ := GetContainer(store, containerName, draws);
      if got.Err? {
        return Err(got.error);
      }
      r := ListBlobsOf(store, WebRoleRelativeAddress(role), got.value, searchPattern);
    }
  }
}
