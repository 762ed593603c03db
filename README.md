# Sitecore Azure Diagnostics: a Dafny model of the log-to-blob core

Sitecore Azure Diagnostics sends Sitecore's log4net output to Azure Blob Storage. It also
removes old log blobs on a schedule. This project models, and proves properties of, the
decision logic of five parts:

- **The storage provider** (`Storage`, `storage_provider.dfy`). It holds the configured
  container name, normalised from the configuration. It also holds the container's public
  access level and the text encoding. It prefixes blob names with the web role's
  `{DeploymentId}/{RoleInstanceId}` address and filters container listings by a `*` search
  pattern. Its configuration setters and `Initialize` are methods of the class
  `AzureBlobStorageProvider`. The string logic is module functions.
- **The appender** (`Appenders`, `appender.dfy`). Each rendered log event becomes one block
  of a block blob whose name comes from the `log.{date}.txt` template. The `Blob` getter
  keeps a cached blob handle and refreshes it in three cases:
  - the handle is not yet bound;
  - the handle's container has gone;
  - the day has changed.

  `AddMessageToBlock` puts a block, then commits the blob's existing block ids followed by
  the new id.
- **The conflict retry policy** (`RetryPolicies`, `retry_policy.dfy`). It decides whether to
  retry a request that failed because its container is still being deleted. It also
  computes the randomised, exponentially growing wait, bounded to [5 s, 120 s].
- **The blob cleaner** (`Cleaning`, `blob_cleaner.dfy`). It lists the configured container's
  blobs that match its search pattern. It selects those last modified more than `maxAge`
  ago and requests their deletion.
- **The cleanup agent** (`CleanupAgents`, `cleanup_agent.dfy`). It runs every configured
  cleaner once, in order, and logs a failing cleaner before going on to the next one. At
  the end of each run the agent increments a counter. The log message reads the cleaner's
  container name, and that read fails when the provider has no container; the failure
  escapes the handler, so the run stops after the first cleaner and the counter is not
  incremented (see "Findings").

The Azure Storage service is modelled by the class `BlobStorage.Store` (`blob_store.dfy`). It
keeps the containers with their public access level, and the committed block list and
last-modified time of each blob. It also keeps each blob's uncommitted (staged) blocks, the
order in which blobs are listed, and a log of delete requests. Its methods carry the
contracts of the SDK calls the core makes:

- `CreateIfNotExists`, which answers 409 "ContainerBeingDeleted" for an absent container
  whose deletion is still in progress;
- `Exists`;
- `DownloadBlockList`;
- `PutBlock`;
- `PutBlockList`, in "latest" mode;
- `DeleteAsync`, which is only requested.

`Store.DeleteContainer` stands for a container deleted from outside the core, the case the
appender's getter recovers from. It starts a deletion that `Store.CompleteDeletion` ends.
`GetContainer` runs `CreateIfNotExists` under the conflict retry policy, as the SDK's retry
executor does: on each 409 answer it asks `ShouldRetry`, then waits and tries again or gives
up. Supporting modules:

- `Text` (`text.dfy`): the .NET string operations the core uses;
- `Calendar` (`calendar.dfy`): dates and the formats `yyyyMMdd` and `HHmmss`;
- `Sequences` (`sequences.dfy`): subsequences, filtering, flattening;
- `Wrappers` and `Exceptions` (`wrappers.dfy`): `Option`, `Result`, `Outcome` and the
  exceptions the code can raise.

A null reference is `None`. An exception is an `Err`/`Fail` value naming the exception. The
wall clock, `Guid.NewGuid()` and the `Random` draws are parameters. `LogStorageManager`, a
static forwarder to a global provider, is replaced by an explicit provider parameter.

The code differs from the system's specification in two places, and the model follows the code:

- **Container-name normalisation is not idempotent.** The specification says the result
  always matches Azure's container-name grammar and that normalising twice changes nothing.
  The code (`AzureBlobStorageProvider.cs:384-413`) does neither:
  - characters Azure forbids, such as '_' or '.', pass through;
  - inner double dashes survive;
  - cutting a name at 63 characters can leave a trailing dash, which a second
    normalisation trims.

  `Storage.NormalizationNotIdempotent` proves the trailing-dash case, and
  `Storage.NormalizationNotIdempotentExample` gives a concrete name.
- **The rotation date is never updated.** The specification says the appender rotates when
  the local date differs from its current date. The code compares with `CurrentDate`, which
  only the constructor sets (`AzureBlobStorageAppender.cs:90`). So from the second day on,
  every append tests "another day" and calls `GetNewBlob` again. Once the day's blob exists,
  that call keeps settling on the name built from the creation moment, as
  `Appenders.AzureBlobStorageAppender.RotationNamesFromCreationDate` proves.

## Model

| member | source | states |
|---|---|---|
| Text.ReplaceChar | src/Sitecore.Azure.Diagnostics/Storage/AzureBlobStorageProvider.cs:390 | every occurrence of the character is replaced and all other characters stay where they are |
| Text.Trim | src/Sitecore.Azure.Diagnostics/Storage/AzureBlobStorageProvider.cs:393 | the result is a contiguous piece of the input with only the trimmed character before and after it; it neither starts nor ends with that character, and is the input itself when the input neither starts nor ends with it |
| Text.ToLower | src/Sitecore.Azure.Diagnostics/Storage/AzureBlobStorageProvider.cs:396 | same length, no upper-case letter left, every other character unchanged at its position |
| Storage.NormalizeContainerName | src/Sitecore.Azure.Diagnostics/Storage/AzureBlobStorageProvider.cs:384-413 | a cleaned name shorter than 3 gives back the name held; otherwise the result is a prefix of the cleaned name of 3 to 63 characters, with no space, no upper-case letter and no leading dash; a cleaned name of 3 to 63 characters is returned whole, without a trailing dash |
| Storage.FitContainerName | src/Sitecore.Azure.Diagnostics/Storage/AzureBlobStorageProvider.cs:398-412 | the length step: below 3 falls back to the held name, above 63 is cut to its first 63 characters, in between is kept |
| Storage.CleanNameShape | src/Sitecore.Azure.Diagnostics/Storage/AzureBlobStorageProvider.cs:389-396 | after replace, trim and lower-casing there is no space, no upper-case letter and no dash at either end |
| Storage.NormalNameUnchanged | src/Sitecore.Azure.Diagnostics/Storage/AzureBlobStorageProvider.cs:384-413 | a lower-case, space-free name of 3 to 63 characters without a dash at either end is returned unchanged |
| Storage.DefaultContainerNameIsNormal | src/Sitecore.Azure.Diagnostics/Storage/AzureBlobStorageProvider.cs:25 | "sitecore-logs" is such a name, so normalising it returns it |
| Storage.NormalizationNotIdempotent | src/Sitecore.Azure.Diagnostics/Storage/AzureBlobStorageProvider.cs:407-410 | a clean name longer than 63 whose 63rd character is a dash is cut there, and normalising the cut name changes it again |
| Storage.NormalizationNotIdempotentExample | src/Sitecore.Azure.Diagnostics/Storage/AzureBlobStorageProvider.cs:393-410 | 62 letters, a dash and a letter: normalising twice differs from normalising once |
| Storage.PublicAccessFor | src/Sitecore.Azure.Diagnostics/Storage/AzureBlobStorageProvider.cs:129-143 | "Blob" gives Blob, "Container" gives Container, each exactly when named; any other string gives Off |
| Storage.EncodingFor | src/Sitecore.Azure.Diagnostics/Storage/AzureBlobStorageProvider.cs:157-187 | each of the six names gives its encoding and only that name does; every other string gives UTF-8 |
| Storage.GetString | src/Sitecore.Azure.Diagnostics/Storage/AzureBlobStorageProvider.cs:207-209 | a missing or empty setting yields the default, any other value itself |
| Storage.WebRoleRelativeAddress | src/Sitecore.Azure.Diagnostics/Storage/AzureBlobStorageProvider.cs:360-371 | empty when the deployment address is empty (no role environment), otherwise deployment id, "/", role instance id |
| Storage.BlobPath | src/Sitecore.Azure.Diagnostics/Storage/AzureBlobStorageProvider.cs:242-245 | the bare name under an empty address, otherwise address + "/" + name |
| Storage.BlobPathParts | src/Sitecore.Azure.Diagnostics/Storage/AzureBlobStorageProvider.cs:242-245 | a prefixed name starts with its address and its last URI segment is the bare name again |
| Storage.FilterBlobs | src/Sitecore.Azure.Diagnostics/Storage/AzureBlobStorageProvider.cs:327-338 | keeps, in listing order, exactly the items whose last segment starts with the text before the first '*' and ends with the text after the last '*' |
| Storage.StarKeepsAll | src/Sitecore.Azure.Diagnostics/Storage/AzureBlobStorageProvider.cs:331-335 | the pattern "*" keeps the whole listing |
| Storage.MiddleOfPatternIgnored | src/Sitecore.Azure.Diagnostics/Storage/AzureBlobStorageProvider.cs:331-335 | whatever stands between the first and the last '*' does not change which names match |
| Storage.ListBlobsOf | src/Sitecore.Azure.Diagnostics/Storage/AzureBlobStorageProvider.cs:319-339 | a missing container fails with ContainerNotFound; otherwise the result is a subsequence of the container's listing under the address holding exactly its matching items (an empty listing gives an empty result) |
| Storage.CreatedBlobIsListed | src/Sitecore.Azure.Diagnostics/Storage/AzureBlobStorageProvider.cs:238-339 | a committed blob named by CreateBlob whose bare name matches the pattern appears in the filtered listing of its container |
| Storage.AzureBlobStorageProvider.constructor | src/Sitecore.Azure.Diagnostics/Storage/AzureBlobStorageProvider.cs:40-60 | a new provider holds no container name, no container, Off access and no encoding, and is not initialised |
| Storage.AzureBlobStorageProvider.SetContainerName | src/Sitecore.Azure.Diagnostics/Storage/AzureBlobStorageProvider.cs:95-102 | a null value, or one made only of .NET white space (space, line and paragraph separators, U+0009 to U+000D, U+0085), changes nothing; otherwise the normalised name is stored and the container reference follows it, failing with ArgumentNull when the name is null |
| Storage.AzureBlobStorageProvider.SetPublicAccessType | src/Sitecore.Azure.Diagnostics/Storage/AzureBlobStorageProvider.cs:125-145 | the access level becomes the one the value maps to |
| Storage.AzureBlobStorageProvider.SetEncoding | src/Sitecore.Azure.Diagnostics/Storage/AzureBlobStorageProvider.cs:153-189 | the encoding becomes the one the value maps to |
| Storage.AzureBlobStorageProvider.Initialize | src/Sitecore.Azure.Diagnostics/Storage/AzureBlobStorageProvider.cs:200-210 | an empty name or a second initialisation fails and changes nothing; otherwise the container name comes from "blobContainerName" with "sitecore-logs" as default, and then access and encoding come from their settings; a failing container name stops the rest |
| Storage.AzureBlobStorageProvider.GetContainer | src/Sitecore.Azure.Diagnostics/Storage/AzureBlobStorageProvider.cs:217-231 | succeeds exactly when the container exists or is not being deleted, without waiting, and then exactly that container is added with the configured access when absent; while the container is being deleted it retries five times, each wait between 5 and 120 s, and fails with the 409 conflict leaving the containers unchanged |
| Storage.AzureBlobStorageProvider.CreateBlob | src/Sitecore.Azure.Diagnostics/Storage/AzureBlobStorageProvider.cs:238-252 | the reference names the configured container and the address-prefixed name; the container is recreated when gone; a null container fails with NullReference, a container being deleted with the 409 conflict and no change |
| Storage.AzureBlobStorageProvider.GetBlob | src/Sitecore.Azure.Diagnostics/Storage/AzureBlobStorageProvider.cs:260-269 | succeeds exactly when a blob of that unprefixed name exists in the configured container, else NotFound; a gone container is recreated; a container being deleted fails with the 409 conflict and no change |
| Storage.AzureBlobStorageProvider.GetBlobIn | src/Sitecore.Azure.Diagnostics/Storage/AzureBlobStorageProvider.cs:278-284 | unless the container is being deleted (409 conflict, no change), it exists afterwards and the call succeeds exactly when the blob exists in it |
| Storage.AzureBlobStorageProvider.ListBlobs | src/Sitecore.Azure.Diagnostics/Storage/AzureBlobStorageProvider.cs:291-296 | the filtered listing of the configured container; a null container fails with ArgumentNull |
| Storage.AzureBlobStorageProvider.ListBlobsIn | src/Sitecore.Azure.Diagnostics/Storage/AzureBlobStorageProvider.cs:304-311 | unless the container is being deleted (409 conflict, no change), it exists afterwards and the result is its filtered listing |
| Text.ReplaceAllRemovesAll | src/Sitecore.Azure.Diagnostics/Appenders/AzureBlobStorageAppender.cs:164 | replacing every occurrence of a placeholder by text that cannot form it leaves no occurrence |
| Appenders.BlobNameByDate | src/Sitecore.Azure.Diagnostics/Appenders/AzureBlobStorageAppender.cs:162-165 | no "{date}" is left in the name; a template without one is returned unchanged |
| Appenders.DefaultBlobNameByDate | src/Sitecore.Azure.Diagnostics/Appenders/AzureBlobStorageAppender.cs:89-164 | the default template gives "log." + yyyyMMdd + ".txt" |
| Calendar.FormatDateRoundTrip | src/Sitecore.Azure.Diagnostics/Appenders/AzureBlobStorageAppender.cs:164 | reading the digits of "yyyyMMdd" back gives year, month and day |
| Calendar.FormatTimeRoundTrip | src/Sitecore.Azure.Diagnostics/Appenders/AzureBlobStorageAppender.cs:183 | reading the digits of "HHmmss" back gives hour, minute and second |
| Calendar.FormatDateSameDay | src/Sitecore.Azure.Diagnostics/Appenders/AzureBlobStorageAppender.cs:68 | two moments give the same date name exactly when day, month and year agree |
| Appenders.InsertTime | src/Sitecore.Azure.Diagnostics/Appenders/AzureBlobStorageAppender.cs:176-183 | without a '.' the name is returned as it is; otherwise the text stands right before the last '.', taking it out gives the name back, and the extension is kept |
| Appenders.BlobNameByDateTime | src/Sitecore.Azure.Diagnostics/Appenders/AzureBlobStorageAppender.cs:173-184 | the date name with "." + HHmmss standing right before its last '.' and nothing else changed, or the date name itself when it has no '.' |
| Appenders.DefaultBlobNameByDateTime | src/Sitecore.Azure.Diagnostics/Appenders/AzureBlobStorageAppender.cs:173-184 | the default template gives "log." + yyyyMMdd + "." + HHmmss + ".txt" |
| Appenders.NewBlockId | src/Sitecore.Azure.Diagnostics/Appenders/AzureBlobStorageAppender.cs:128 | the block id has no '-' and keeps every other character of the Guid text with its count |
| Appenders.AzureBlobStorageAppender.constructor | src/Sitecore.Azure.Diagnostics/Appenders/AzureBlobStorageAppender.cs:87-91 | the template is "log.{date}.txt", the current date is the moment of creation, no blob is bound |
| Appenders.AzureBlobStorageAppender.NewBlob | src/Sitecore.Azure.Diagnostics/Appenders/AzureBlobStorageAppender.cs:144-154 | in the provider's container: the date-named blob when it does not exist, else the date-time-named one; a null container fails with NullReference, a container being deleted with the 409 conflict |
| Appenders.AzureBlobStorageAppender.RotationNamesFromCreationDate | src/Sitecore.Azure.Diagnostics/Appenders/AzureBlobStorageAppender.cs:144-154 | once the creation day's blob exists, every new blob is the one named by the creation moment's date and time |
| Appenders.AzureBlobStorageAppender.GetNewBlob | src/Sitecore.Azure.Diagnostics/Appenders/AzureBlobStorageAppender.cs:144-154 | returns exactly what NewBlob describes; on success its container exists and is the only container added; on failure the containers are unchanged |
| Appenders.Refetch | src/Sitecore.Azure.Diagnostics/Appenders/AzureBlobStorageAppender.cs:59-63 | LogStorageManager.GetBlob with the handle's name: a null container fails with NullReference; a success is that name in the provider's container, and the blob exists |
| Appenders.AzureBlobStorageAppender.BlobChoice | src/Sitecore.Azure.Diagnostics/Appenders/AzureBlobStorageAppender.cs:52-77 | a bound handle whose container exists is kept on the same day; whatever the getter returns lives in an existing container or one that can be created |
| Appenders.AzureBlobStorageAppender.Blob | src/Sitecore.Azure.Diagnostics/Appenders/AzureBlobStorageAppender.cs:50-78 | returns exactly what BlobChoice describes, in each of its four branches; on success the handle becomes the result, and the only container that can appear is the result's own, created with the configured access when it was gone; a failure leaves the handle, and leaves the containers unless the refetch recreated the provider's container before answering NotFound; the current date and the template never change |
| Appenders.AzureBlobStorageAppender.AddMessageToBlock | src/Sitecore.Azure.Diagnostics/Appenders/AzureBlobStorageAppender.cs:116-136 | the committed ids become the previous ones followed by the new id, and with a fresh id the content becomes the previous content followed by the message; the blob's staged blocks are discarded and a newly created blob is listed last; other blobs, staged blocks and listing positions are unchanged; a gone container fails and changes nothing |
| Appenders.AzureBlobStorageAppender.Append | src/Sitecore.Azure.Diagnostics/Appenders/AzureBlobStorageAppender.cs:101-109 | passes exactly when the getter finds a blob; a failure carries the getter's error and leaves the handle, the blobs, the staged blocks and the listing order as they were, and the containers too unless the refetch recreated the provider's container; on a pass, in every branch of the getter, the new id is committed last on the chosen blob, whose staged blocks are discarded, a new blob is listed last, only the chosen blob's container can appear, no other blob changes, and with a fresh id the message becomes its last block |
| Appenders.AzureBlobStorageAppender.AppendFreshBlock | src/Sitecore.Azure.Diagnostics/Appenders/AzureBlobStorageAppender.cs:101-136 | on the creation day, an event whose block id is new to the blob the getter settles on becomes that blob's last block; the handle is bound to it and no staged block is left on it |
| Appenders.AzureBlobStorageAppender.AppendInTurn | src/Sitecore.Azure.Diagnostics/Appenders/AzureBlobStorageAppender.cs:101-136 | two events appended in turn on the creation day, with distinct fresh block ids, both pass and end in the same blob as its last two blocks, in call order |
| BlobStorage.ListingOf | src/Sitecore.Azure.Diagnostics/Storage/AzureBlobStorageProvider.cs:325 | the listing of a container under a prefix holds exactly its blobs whose names start with the prefix, with their last-modified times |
| BlobStorage.Store.CreateIfNotExists | src/Sitecore.Azure.Diagnostics/Storage/AzureBlobStorageProvider.cs:228 | an existing container is untouched and reports false; an absent one being deleted fails with the 409 ContainerBeingDeleted conflict and changes nothing; any other absent one is created with the access level and reports true |
| BlobStorage.Store.DeleteContainer | src/Sitecore.Azure.Diagnostics/Appenders/AzureBlobStorageAppender.cs:59-63 | the container, exactly its blobs, their listing entries and their staged blocks disappear, and its deletion is in progress; everything else stays |
| BlobStorage.Store.CompleteDeletion | src/Sitecore.Azure.Diagnostics/Storage/RetryPolicies/ContainerBeingDeletedRetryPolicy.cs:123-124 | the service finishes deleting the container: it is no longer being deleted, and nothing else changes |
| BlobStorage.Store.DownloadBlockList | src/Sitecore.Azure.Diagnostics/Appenders/AzureBlobStorageAppender.cs:123-126 | the ids of the committed blocks in order, or NotFound for an absent blob |
| BlobStorage.Store.PutBlock | src/Sitecore.Azure.Diagnostics/Appenders/AzureBlobStorageAppender.cs:133 | stages the data under the id, or fails when the container is gone |
| BlobStorage.ResolveBlocks | src/Sitecore.Azure.Diagnostics/Appenders/AzureBlobStorageAppender.cs:134 | a block list resolves exactly when every id names a staged or committed block; the result has exactly those ids, each with its latest data |
| BlobStorage.Store.PutBlockList | src/Sitecore.Azure.Diagnostics/Appenders/AzureBlobStorageAppender.cs:134 | commits exactly the resolved blocks in list order, creating the blob if needed and listing a new blob last; an unknown id or a gone container fails and changes nothing |
| BlobStorage.AppendResolves | src/Sitecore.Azure.Diagnostics/Appenders/AzureBlobStorageAppender.cs:121-134 | the committed ids followed by a newly staged id always resolve, to the committed blocks followed by the new one |
| BlobStorage.ResolveCommitted | src/Sitecore.Azure.Diagnostics/Appenders/AzureBlobStorageAppender.cs:125 | re-listing a blob's committed ids with no conflicting staged block resolves to its committed blocks |
| BlobStorage.Store.RequestDelete | src/Sitecore.Azure.Diagnostics/Tasks/BlobCleaner.cs:186 | the delete request is recorded at the end of the log; the blob itself stays |
| RetryPolicies.DefaultPolicy | src/Sitecore.Azure.Diagnostics/Storage/RetryPolicies/ContainerBeingDeletedRetryPolicy.cs:54-57 | 5 000 ms delta back-off and 5 attempts |
| RetryPolicies.CreateInstance | src/Sitecore.Azure.Diagnostics/Storage/RetryPolicies/ContainerBeingDeletedRetryPolicy.cs:80-83 | whatever policy it is called on, the result is the default one |
| RetryPolicies.ToInt32 | src/Sitecore.Azure.Diagnostics/Storage/RetryPolicies/ContainerBeingDeletedRetryPolicy.cs:127 | the unchecked (int) cast: a value in the int range is kept, any other becomes int.MinValue; the result is always an int |
| RetryPolicies.ShouldRetry | src/Sitecore.Azure.Diagnostics/Storage/RetryPolicies/ContainerBeingDeletedRetryPolicy.cs:96-134 | no retry once the count reaches the maximum, for a status other than 409, for any exception not exactly a storage exception, or for another error code; no retry means a zero interval; it retries exactly for a 409 "ContainerBeingDeleted" storage exception under the maximum whose int-cast draw bounds are ordered, waiting 5 to 120 s, exactly 5 s on the first error |
| RetryPolicies.DrawIsNonNegative | src/Sitecore.Azure.Diagnostics/Storage/RetryPolicies/ContainerBeingDeletedRetryPolicy.cs:127 | when both bounds fit in an int, any draw Random.Next can return for them is non-negative |
| RetryPolicies.RetryInterval | src/Sitecore.Azure.Diagnostics/Storage/RetryPolicies/ContainerBeingDeletedRetryPolicy.cs:126-128 | when both bounds fit in an int, a retry waits min(120 s, 5 s + (2^count - 1) * draw); the 120 s branch for a negative term is never taken |
| RetryPolicies.NonNegativeDrawInterval | src/Sitecore.Azure.Diagnostics/Storage/RetryPolicies/ContainerBeingDeletedRetryPolicy.cs:127-128 | whatever the bounds, a non-negative draw gives the wait min(120 s, 5 s + (2^count - 1) * draw) |
| RetryPolicies.UpperBoundOverflowThrows | src/Sitecore.Azure.Diagnostics/Storage/RetryPolicies/ContainerBeingDeletedRetryPolicy.cs:127 | a delta whose upper bound (1.2 times it) overflows an int while the lower one does not makes Random.Next throw ArgumentOutOfRange for a retryable conflict |
| RetryPolicies.OverflowedBoundsWaitLongest | src/Sitecore.Azure.Diagnostics/Storage/RetryPolicies/ContainerBeingDeletedRetryPolicy.cs:127-128 | when both bounds overflow, both casts give int.MinValue, the draw is int.MinValue, and a retry waits 5 s on the first error and 120 s after it |
| RetryPolicies.IntervalGrows | src/Sitecore.Azure.Diagnostics/Storage/RetryPolicies/ContainerBeingDeletedRetryPolicy.cs:127-128 | with the same draw a later retry never waits less than an earlier one |
| RetryPolicies.DefaultGivesUpAfterFive | src/Sitecore.Azure.Diagnostics/Storage/RetryPolicies/ContainerBeingDeletedRetryPolicy.cs:103-106 | the default policy gives up from the sixth error on, whatever the error |
| RetryPolicies.DefaultIntervalRange | src/Sitecore.Azure.Diagnostics/Storage/RetryPolicies/ContainerBeingDeletedRetryPolicy.cs:126-130 | under the default policy the draw is in [4000, 6000) and each of the five retries happens with that interval |
| Cleaning.SearchPatternFrom | src/Sitecore.Azure.Diagnostics/Tasks/BlobCleaner.cs:44-49 | a missing or empty attribute becomes "*", any other value is kept; never empty |
| Cleaning.MaxAgeFrom | src/Sitecore.Azure.Diagnostics/Tasks/BlobCleaner.cs:51 | a missing or unparsable age becomes 7 days, a parsed one is kept |
| Cleaning.LastModifiedOrNow | src/Sitecore.Azure.Diagnostics/Tasks/BlobCleaner.cs:169-174 | the reported last-modified time, or the clock when none is reported |
| Cleaning.BlobAge | src/Sitecore.Azure.Diagnostics/Tasks/BlobCleaner.cs:157-162 | the time since the last modification; zero when none is reported |
| Cleaning.AddTicks | src/Sitecore.Azure.Diagnostics/Tasks/BlobCleaner.cs:135 | adding the maximum age succeeds exactly when the sum stays in the DateTime range, else ArgumentOutOfRange |
| Cleaning.IsOutOfDate | src/Sitecore.Azure.Diagnostics/Tasks/BlobCleaner.cs:135-137 | out of date exactly when the age exceeds the maximum age; fails only when the deadline leaves the DateTime range; a blob without a time is never out of date for a non-negative age |
| Cleaning.Candidates | src/Sitecore.Azure.Diagnostics/Tasks/BlobCleaner.cs:129-149 | a subsequence of the listing, in listing order, holding exactly its out-of-date items; fails exactly when some item's deadline cannot be computed |
| Cleaning.CandidatesShrinkWithMaxAge | src/Sitecore.Azure.Diagnostics/Tasks/BlobCleaner.cs:135-140 | a longer maximum age selects a subsequence of what a shorter one selects |
| Cleaning.SevenDayExample | src/Sitecore.Azure.Diagnostics/Tasks/BlobCleaner.cs:135-140 | with 7 days, a blob modified 10 days ago is selected and one modified a day ago is not |
| Cleaning.CandidatesStep | src/Sitecore.Azure.Diagnostics/Tasks/BlobCleaner.cs:131-142 | one more listing item extends the selection by that item exactly when it is out of date |
| Cleaning.CandidatesFailOnce | src/Sitecore.Azure.Diagnostics/Tasks/BlobCleaner.cs:131-142 | a failure on a prefix of the listing is a failure of the whole selection |
| Cleaning.BlobCleaner.constructor | src/Sitecore.Azure.Diagnostics/Tasks/BlobCleaner.cs:38-56 | the search pattern and maximum age are the configured ones with their defaults |
| Cleaning.BlobCleaner.Sweep | src/Sitecore.Azure.Diagnostics/Tasks/BlobCleaner.cs:80-92 | nothing is selected when the container does not exist; a null container fails; failures are only NullReference or ArgumentOutOfRange |
| Cleaning.BlobCleaner.SweepSelects | src/Sitecore.Azure.Diagnostics/Tasks/BlobCleaner.cs:121-150 | every selected blob exists in the provider's container, matches the pattern and is older than the maximum age |
| Cleaning.BlobCleaner.Requests | src/Sitecore.Azure.Diagnostics/Tasks/BlobCleaner.cs:102-113 | one delete per selected blob; none when the sweep fails |
| Cleaning.BlobCleaner.RequestsExist | src/Sitecore.Azure.Diagnostics/Tasks/BlobCleaner.cs:180-192 | every blob a cleaner asks to delete exists, in the provider's container |
| Cleaning.BlobCleaner.Execute | src/Sitecore.Azure.Diagnostics/Tasks/BlobCleaner.cs:80-92 | passes exactly when the sweep completes, failing with the sweep's error; the delete log grows by exactly the sweep's requests, none for a missing container |
| Cleaning.BlobCleaner.Cleanup | src/Sitecore.Azure.Diagnostics/Tasks/BlobCleaner.cs:102-113 | in an existing container, deletes exactly the candidates, and nothing when there are none |
| Cleaning.BlobCleaner.GetCandidateBlobs | src/Sitecore.Azure.Diagnostics/Tasks/BlobCleaner.cs:121-150 | the loop's result is the selection over the filtered listing, or the listing's failure |
| Cleaning.BlobCleaner.DeleteBlobs | src/Sitecore.Azure.Diagnostics/Tasks/BlobCleaner.cs:180-192 | exactly one delete request per blob, in order |
| Cleaning.BlobCleaner.ContainerName | src/Sitecore.Azure.Diagnostics/Tasks/BlobCleaner.cs:65-71 | the name of the provider's container, failing with NullReference exactly when that container is null |
| CleanupAgents.SweepAt | src/Sitecore.Azure.Diagnostics/Tasks/BlobsCleanupAgent.cs:45-50 | the i-th sweep of a run's snapshot is the i-th cleaner's own |
| CleanupAgents.VerdictAt | src/Sitecore.Azure.Diagnostics/Tasks/BlobsCleanupAgent.cs:47-54 | a run's i-th verdict is whether the i-th cleaner's sweep completes, and there is one verdict per cleaner |
| CleanupAgents.VerdictsMeaning | src/Sitecore.Azure.Diagnostics/Tasks/BlobsCleanupAgent.cs:45-55 | the i-th verdict of a run is whether the i-th cleaner's sweep completes |
| CleanupAgents.RequestsAt | src/Sitecore.Azure.Diagnostics/Tasks/BlobsCleanupAgent.cs:45-55 | the i-th request list of a run is the i-th cleaner's own |
| CleanupAgents.RequestedBlobsExist | src/Sitecore.Azure.Diagnostics/Tasks/BlobsCleanupAgent.cs:45-55 | every delete a run requests names an existing blob of the provider's container |
| CleanupAgents.BlobsCleanupAgent.constructor | src/Sitecore.Azure.Diagnostics/Tasks/BlobsCleanupAgent.cs:28-32 | no cleaners and a zero counter |
| CleanupAgents.BlobsCleanupAgent.AddCommand | src/Sitecore.Azure.Diagnostics/Tasks/BlobsCleanupAgent.cs:66-72 | exactly one new cleaner, configured from the node, at the end; the existing ones unchanged |
| CleanupAgents.BlobsCleanupAgent.Run | src/Sitecore.Azure.Diagnostics/Tasks/BlobsCleanupAgent.cs:41-60 | as written: with cleaners and no provider container the first cleaner fails, the handler's read of its container name throws NullReference out of Run, and the counter and delete log are unchanged; otherwise every cleaner runs once, in list order, each reporting its own outcome, the deletes are the cleaners' requests concatenated in order, and the counter goes up by exactly one |
| CleanupAgents.BlobsCleanupAgent.RunIsolating | src/Sitecore.Azure.Diagnostics/Tasks/BlobsCleanupAgent.cs:41-60 | as the handler intends: every cleaner runs once, in list order, each reporting its own outcome whatever the earlier ones did; the deletes are the cleaners' requests concatenated in order; the list is unchanged and the counter goes up by exactly one |
| CleanupAgents.NullContainerEscapesHandler | src/Sitecore.Azure.Diagnostics/Tasks/BlobsCleanupAgent.cs:49-53 | with no provider container every cleaner's sweep fails and the handler's read of the first cleaner's container name fails with NullReference |
| CleanupAgents.ExecuteAll | src/Sitecore.Azure.Diagnostics/Tasks/BlobsCleanupAgent.cs:45-55 | the loop as written: the handler's read escapes exactly when there are cleaners and no provider container, after one failed outcome and no delete; otherwise outcome i passes exactly when cleaner i's sweep completes, and the deletes are the concatenation of the cleaners' requests |
| CleanupAgents.ExecuteAllIsolating | src/Sitecore.Azure.Diagnostics/Tasks/BlobsCleanupAgent.cs:45-55 | the intended loop: outcome i passes exactly when cleaner i's sweep completes, and the deletes are the concatenation of the cleaners' requests |
| CleanupAgents.ExecuteAt | src/Sitecore.Azure.Diagnostics/Tasks/BlobsCleanupAgent.cs:47-54 | one pass runs the i-th cleaner: it passes exactly when that sweep completes, appends exactly its requests, leaves every cleaner's sweep as it was, and without a provider container fails with NullReference and appends nothing |

## Left out

- Connection-string parsing and the storage account in the provider's constructor (`AzureBlobStorageProvider.cs:69-76`) are left out, as is the lazily filled `CloudBlobClient` cache. Both are SDK plumbing with no decision in them. A container reference is the container's name.
- `Encoding.GetBytes`: messages are stored as strings, one per block. The configured encoding is recorded but bytes are not modelled.
- Logging (`Log.Warn`, `Log.Info`, `Log.Error`, `LogInfo`) is left out. The `JobsCount.TasksFileCleanups` counter is kept as a natural number.
- `DateUtil.ParseTimeSpan` is outside this model. The cleaner's constructor takes its result as an optional parsed value (`None` for missing or unparsable).
- `StringUtil.GetString` is outside this model. It is assumed to give the default for a null or empty value and the value itself otherwise.
- RetryPolicies.ShouldRetry: `Math.Pow` and the interval arithmetic on doubles are replaced by exact integers in milliseconds. The `(int)` casts truncate toward zero when the value fits in an int; a value outside the int range becomes int.MinValue, which is what an unchecked conversion gives on x86 and x64 (C# leaves the result unspecified). Double rounding is not modelled.
- RetryPolicies.ShouldRetry: the `Random.Next` result is a parameter constrained to the range that call can return. A `Random.Next` whose lower bound exceeds its upper bound fails with ArgumentOutOfRange.
- Storage.AzureBlobStorageProvider.GetContainer: the draws of the retries are a parameter, `draws`, each in the range `Random.Next` can return. The service state does not change while the executor waits, so a container being deleted stays so through all five retries; the waits are returned, not slept.
- The clock and `Guid.NewGuid()` are parameters.
- Cleaning.BlobCleaner.Execute: the code reads `DateTime.UtcNow` separately for each blob. The model uses one `now` for the whole sweep.
- The null check on listing entries in `GetCandidateBlobs` (`BlobCleaner.cs:133`) is left out. The provider's filter has already dereferenced every entry, so a null entry cannot reach it.
- The service lists blobs in lexicographic name order. The model lists them in creation order, and "listing order" in the contracts means that order.
- URI escaping is left out. The last URI segment of a blob is the text after the last '/' of its name.
- Concurrency, multi-writer races on one blob, and the asynchronous completion of `DeleteAsync` are left out. A delete is only recorded as requested.
- The `as CloudBlockBlob` cast in `Append` is left out. Every blob the appender obtains is a block blob.
- Text.ToLower covers only the letters A-Z; culture-specific casing is not modelled.
- Storage.MatchesSearchPattern: the code's `StartsWith` and `EndsWith` compare with the current culture; the model compares characters ordinally, so culture-specific equivalences (ignorable characters, ligatures) are not modelled. The same holds for Storage.FilterBlobs, which uses it.
- Calendar.FormatDate and Calendar.FormatTime: the formats use the proleptic Gregorian calendar with ASCII digits. A culture whose default calendar is not Gregorian (Thai Buddhist, Hijri) would give other year, month and day digits; that is not modelled.
- Text.IsWhiteSpace follows the .NET definition for the Unicode version it encodes; later additions to the space categories are not tracked.
- `LogStorageManager` and `AzureBlobStorageProviderCollection` are static registries. They are replaced by the provider passed explicitly. `IBlobCleaner` has no behaviour: the agent holds `BlobCleaner`s.
- The UI and web files (log viewer, blob lister, download page, blob handle) are presentation code, outside the core.
- Azure's full container-name grammar is not enforced, because the code does not enforce it either.
- CleanupAgents.BlobsCleanupAgent.Run: its contract describes each cleaner's outcome and deletes against the store as it was when the run began. This is exact because a cleaner changes only the delete log, which no sweep reads.
- Appenders.AzureBlobStorageAppender.AddMessageToBlock: the content is stated only when the new block id is not already used by the blob and no committed id has a staged block of its own. A Guid clash, or a block staged by another writer, could change what the committed ids name. The committed ids are stated in every case.

## Findings

| source | as written | input that shows it | evidently intended | confidence | as-written member | corrected member |
|---|---|---|---|---|---|---|
| src/Sitecore.Azure.Diagnostics/Tasks/BlobsCleanupAgent.cs:51-53 | the handler for a failing cleaner logs `cleaner.ContainerName`, which reads `LogStorageManager.DefaultContainer.Name` (BlobCleaner.cs:69) and throws when the provider's container is null, so the exception escapes Run, the remaining cleaners are skipped and the counter is not incremented | a provider initialised with `blobContainerName` set to "   " (no container) and at least one cleaner | log the failure, run the remaining cleaners and increment the counter | medium; not executed | CleanupAgents.BlobsCleanupAgent.Run, CleanupAgents.NullContainerEscapesHandler | CleanupAgents.BlobsCleanupAgent.RunIsolating |
