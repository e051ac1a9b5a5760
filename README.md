# s3Proxy in Dafny

A model of the core of s3Proxy, an HTTP gateway in front of an S3-compatible
bucket. The gateway does two things:

- It lists the bucket's objects as JSON or as an HTML page grouped by
  directory. Folder markers and suspicious keys are hidden.
- It answers a request for an object path. It resolves the path to a stored
  key and then either redirects to a presigned URL (the layered version) or
  streams the object itself (the legacy server).

Resolution tries these tiers in order:

1. the exact key;
2. the percent-decoded key;
3. a case-insensitive match;
4. a fuzzy match on the file name, which scores how alike the folder parts are.

The model covers two versions of the gateway:

- **The layered version.**
  - The `S3Object` entity's classifiers (`objects.dfy`).
  - The `ObjectCollection` filters, lookups, fuzzy scorer and grouping (`collection.dfy`, `grouping.dfy`, `sorting.dfy`).
  - The storage adapter's listing conversion and tiered resolver (`repository.dfy`).
  - The proxy use case, with its expiry setting and host check (`proxyusecase.dfy`).
  - The listing use case (`listusecase.dfy`).
  - The HTTP handlers (`handlers.dfy`).
- **The legacy server.**
  - The storage client's listing and three-pass resolver (`legacyminio.dfy`).
  - The HTML listing (`legacylist.dfy`).
  - The streaming object endpoint, with its bucket-from-path mode, content-type table and Content-Disposition file name (`legacyproxy.dfy`).
  - Its record types (`legacytypes.dfy`).

How the model represents the system:

- **Strings.** A Go string is a `string`, one `char` per byte.
- **Case folding.** `strings.ToLower` and `strings.EqualFold` are ASCII folding (`Text.Lower`, `Text.EqualFold`).
- **Store listing.** The store's listing channel is a sequence of `ListEntry`. Each entry is an object or an error in its place.
- **Library codecs.** `url.QueryUnescape`, `url.QueryEscape`, `html.EscapeString` and the host parser are function parameters. So are the store's presign, stat and fetch calls.
- **Sorting.** `sort.Strings` and `sort.Slice` are not stable. They are modelled by `Sorting.SortBy`, which is proved to return a permutation of its input sorted by the key. No caller relies on anything more.
- **Mutable state.** Objects with mutable state are classes:
  - `ObjectCollection`, whose `objects` field `Add` appends to;
  - `ProxyFileUseCase`, whose `expiryMinutes` field is set by `SetExpiryMinutes`;
  - the legacy bucket `Settings`, which the legacy proxy rewrites in bucket-from-path mode.

Four observations from the proofs:

- **The `maxLen > 0` guard never fails.** In the positional branch of the folder score (domain/entity/collection.go:112-125 and pkg/minio.go:253-267) the guard is always true. An empty folder is contained in every other folder, so a comparison involving one never reaches the positional branch (`Collections.EmptyFolderScore`).
- **A real `Root` directory is merged.** A real directory named `Root` shares the group of the keys without a `/`. Both are labelled "Root Directory".
- **The two resolvers disagree in the exact and in the case-insensitive pass.** Each legacy pass checks the raw and the decoded path object by object, so an earlier match on the decoded path wins over a later match on the raw path. The layered resolver tries the raw path against the whole listing first, in both passes (`LegacyMinio.DecodedMatchFirst`, `LegacyMinio.FoldDecodedMatchFirst`).
- **The layered service decodes twice.** The proxy use case percent-decodes the request path, and the repository's `FindObject` decodes what it receives once more; a request for `%2541` is served the object `A` (`ProxyUseCase.DoubleDecode`).

## Model

| member | source | states |
|---|---|---|
| Objects.IsFolder | domain/entity/s3object.go:27-61 | true exactly for a non-empty key ending in `/`, or a zero-size object whose last component is empty or has no `.` |
| Objects.UndottedName | domain/entity/s3object.go:40-56 | the zero-size branch: true exactly when the text after the last `/` is empty or has no `.` |
| Objects.FolderMarkerCases | domain/entity/s3object.go:30-60 | the folder rule case by case: never the empty key; always a key ending in `/`; otherwise never a non-zero size, and for size zero exactly when the file name has no `.` |
| Objects.GetFilename | domain/entity/s3object.go:64-85 | the text after the last `/` (the whole key when there is none, empty for the empty key); it has no `/`, the key ends with it, and the key is its directory, `/`, and it |
| Objects.ScanLastSlash | domain/entity/s3object.go:70-76 | the backward scan finds the index of the last `/`, or -1, with no `/` after it |
| Objects.GetDisplayURL | domain/entity/s3object.go:88-94 | empty exactly for the empty key; otherwise the base URL, `/`, and the escaped key |
| Objects.IsSuspicious | domain/entity/s3object.go:97-101 | true exactly when the key contains `..` or `//`, i.e. two adjacent dots or two adjacent slashes |
| Objects.ContainsRune | domain/entity/s3object.go:104-111 | true exactly when the character occurs in the string |
| Objects.ContainsSubstring | domain/entity/s3object.go:113-124 | true exactly when the substring occurs contiguously; false when it is longer than the string |
| Objects.ContainsDouble | domain/entity/s3object.go:97-101 | containing a two-character run `cc` is the same as having two adjacent `c` |
| Collections.ObjectCollection.constructor | domain/entity/collection.go:14-18 | a new collection is empty |
| Collections.ObjectCollection.Add | domain/entity/collection.go:21-23 | appends the object and changes nothing else |
| Collections.ObjectCollection.FilterFolders | domain/entity/collection.go:26-36 | a fresh collection holding, in order, exactly the objects that are not folder markers |
| Collections.ObjectCollection.FilterSuspicious | domain/entity/collection.go:39-49 | a fresh collection holding, in order, exactly the objects whose key is not suspicious |
| Collections.NonFoldersMembers | domain/entity/collection.go:26-36 | an object survives the folder filter exactly when it was listed and is no folder marker |
| Collections.NonSuspiciousMembers | domain/entity/collection.go:39-49 | an object survives the suspicious-key filter exactly when it was listed and its key is not suspicious |
| Collections.ObjectCollection.FindByPath | domain/entity/collection.go:52-59 | the object at `ExactIndex`: the first object whose key equals the path, or nothing when no key equals it |
| Collections.ObjectCollection.FindByCaseInsensitivePath | domain/entity/collection.go:62-69 | the object at `FoldIndex`: the first object whose key equals the path up to case, or nothing when none does |
| Collections.ExactIndex | domain/entity/collection.go:52-59 | -1 or the index of a key equal to the path, with no equal key before it (none at all for -1) |
| Collections.FoldIndex | domain/entity/collection.go:62-69 | -1 or the index of a key equal to the path up to case, with none before it (none at all for -1) |
| Collections.ExactImpliesFold | domain/entity/collection.go:52-69 | whenever the exact lookup finds something, the case-insensitive one finds something no later |
| Collections.FolderScore | domain/entity/collection.go:106-126 | a score in [0, 100]; 100 exactly when the folders are equal; any score other than 100 and 50 is at most 40 |
| Collections.Similar | domain/entity/collection.go:113-120 | the count of agreeing positions never exceeds the number compared |
| Collections.ScoreFolders | domain/entity/collection.go:106-126 | the scoring switch and its positional loop compute `FolderScore` |
| Collections.PositionalScore | domain/entity/collection.go:112-125 | the positional-agreement score lies in [0, 40] |
| Collections.ScaledBound | domain/entity/collection.go:122-125 | `(similar * 40) / maxLen` lies in [0, 40] when `similar <= maxLen` and `maxLen > 0` |
| Collections.EmptyFolderScore | domain/entity/collection.go:110-111 | when either folder is empty the score is at least 50 (the containment branch or equality), so the positional branch always has `maxLen > 0` |
| Collections.ContainsEmpty | domain/entity/collection.go:110 | the empty string is contained in every string |
| Collections.BestScoreRange | domain/entity/collection.go:129-136 | with candidate scores in [0, 100] the best score lies in [0, 100] and is 0 exactly when nothing was selected |
| Collections.BestWinner | domain/entity/collection.go:98-132 | the selected object is a candidate and the score returned is its own |
| Collections.BestMaximal | domain/entity/collection.go:129-132 | no candidate scores above the score returned |
| Collections.BestEarliest | domain/entity/collection.go:129-132 | the strict `>` update keeps the earliest of equal scores: every earlier candidate scores strictly less |
| Collections.FuzzySpec | domain/entity/collection.go:73-137 | the fuzzy lookup's whole promise: score in [0, 100], 0 iff no match, the match is a candidate (a `/` in its key, last component equal up to case) scoring the score, no candidate scores more, earlier candidates score less |
| Collections.FuzzyNeedsSlash | domain/entity/collection.go:75-78 | a path without `/` has no fuzzy match |
| Collections.FuzzyStep | domain/entity/collection.go:87-133 | one loop step of the fuzzy scan replaces the best only on a strictly higher candidate score |
| Collections.ScoreObject | domain/entity/collection.go:87-126 | one object of the fuzzy loop: a candidate exactly when the key has a `/` and its file name equals the requested one up to case, and then the score is the candidate score |
| Collections.FuzzyAdvance | domain/entity/collection.go:128-132 | the loop's strict-improvement update keeps the best match and score in step with the scan over one more object |
| Collections.FuzzyFound | domain/entity/collection.go:73-137 | after the whole scan the best match and score are the lookup's result, the score in [0, 100] and 0 exactly when nothing was found |
| Collections.FuzzyRange | domain/entity/collection.go:73-137 | the fuzzy score lies in [0, 100] and is 0 exactly when nothing was found |
| Collections.ObjectCollection.FindByFilenameFuzzy | domain/entity/collection.go:73-137 | returns the object and score of the fuzzy scan; score in [0, 100], nil exactly when 0, nil for a path without `/` |
| Collections.ObjectCollection.OrganizeByDirectory | domain/entity/collection.go:140-163 | one map entry per directory of the listing; each holds a permutation of that directory's objects, sorted by lowercased key |
| Collections.ObjectCollection.DirectoryNames | domain/entity/collection.go:166-187 | exactly the directories of the listing, strictly ascending (so without duplicates) |
| Collections.SortGroups | domain/entity/collection.go:155-160 | every group of the map is replaced by a sorted permutation of itself, keys unchanged |
| Collections.KeysOf | domain/entity/collection.go:177-181 | the map's keys, each once |
| Collections.SortStrictly | domain/entity/collection.go:184 | sorting duplicate-free strings yields the same strings in strictly ascending order |
| Sorting.SortByCorrect | domain/entity/collection.go:155-160 | the sort returns a permutation of its input, sorted by the key |
| Grouping.KeyDirectory | domain/entity/collection.go:145-149 | the directory computed by the grouping loops is the key's group: the text before the last `/`, else `Root` |
| Grouping.DirOfSplits | domain/entity/collection.go:144-152 | a key with `/` is its directory, `/`, and its file name; a key without one is in the `Root` group |
| Grouping.SumDirsAppendInside | domain/entity/collection.go:143-153 | appending an object in one of a list of distinct directories adds it to their groups exactly once |
| Grouping.SumDirsAppendOutside | domain/entity/collection.go:143-153 | appending an object outside every listed directory leaves their groups unchanged |
| Grouping.PartitionByDirs | domain/entity/collection.go:140-163 | the groups of a list of distinct directories covering every directory together hold exactly the listing |
| Grouping.GroupsSnoc | domain/entity/collection.go:149-153 | appending an object to its directory's group keeps the map equal to the grouping of the longer listing |
| Grouping.DirsSnoc | domain/entity/collection.go:169-176 | appending an object adds exactly its directory to the directory set |
| Grouping.GroupsPartition | application/usecase/listfilesusecase.go:64-103 | groups in strictly ascending directory order, one per directory, partition the listing |
| Repository.S3Repository.constructor | infrastructure/repository/s3repository.go:176-183 | the bucket and endpoint fields, which the accessors return, are those given at construction |
| Repository.S3Repository.ListObjects | infrastructure/repository/s3repository.go:61-86 | a fresh collection of every non-error entry in channel order with key and size unchanged, and no error |
| Repository.ConvertedMembers | infrastructure/repository/s3repository.go:70-83 | an object is in the converted listing exactly when it was listed |
| Repository.Resolve | infrastructure/repository/s3repository.go:89-155 | empty for an empty path; any non-empty answer is the key of a listed object |
| Repository.FuzzyTier | infrastructure/repository/s3repository.go:143-151 | the fuzzy tier answers a listed key or nothing |
| Repository.S3Repository.FindObject | infrastructure/repository/s3repository.go:89-155 | returns the tiered resolution of the path against the converted listing, with no error |
| Repository.ResolvedIsListed | infrastructure/repository/s3repository.go:89-155 | a non-empty resolved key is the key of an entry of the listing |
| Repository.ExactDominates | infrastructure/repository/s3repository.go:106-110 | a non-empty path equal to a listed key resolves to itself |
| Repository.CaseInsensitiveTier | infrastructure/repository/s3repository.go:120-124 | with no exact match and no distinct decode, a unique case-insensitive match is the answer |
| Repository.DecodeOnlyWhenDistinct | infrastructure/repository/s3repository.go:113-141 | the decoded tiers and analysis path matter only when decoding succeeded and changed the path |
| Repository.TierOrder | infrastructure/repository/s3repository.go:106-151 | exact raw, exact decoded, case-insensitive raw, case-insensitive decoded, fuzzy; each answers only when the earlier ones found nothing; the fuzzy answer is a candidate for the analysis path and is given exactly when its score exceeds 30 |
| ProxyUseCase.ProxyFileUseCase.constructor | application/usecase/proxyfileusecase.go:20-25 | a new use case has an expiry of 60 minutes |
| ProxyUseCase.ProxyFileUseCase.SetExpiryMinutes | application/usecase/proxyfileusecase.go:28-32 | the expiry changes to the argument when it is positive, and is unchanged otherwise |
| ProxyUseCase.CheckHost | application/usecase/proxyfileusecase.go:98-105 | the host is valid exactly when it equals an allowed host or ends with `.` and an allowed host |
| ProxyUseCase.EndpointHostDropsPort | application/usecase/proxyfileusecase.go:95-96 | the endpoint host of `host:port` is `host` |
| ProxyUseCase.SubdomainAccepted | application/usecase/proxyfileusecase.go:100 | any subdomain of the endpoint host is accepted |
| ProxyUseCase.LookalikeRefused | application/usecase/proxyfileusecase.go:100 | any host made of a non-empty prefix not ending in `.` followed by the endpoint host is refused |
| ProxyUseCase.ProxyFileUseCase.Execute | application/usecase/proxyfileusecase.go:41-113 | the result is `Outcome` with the current expiry: suspicious raw or decoded paths yield SuspiciousPath and empty ones ObjectNotFound, with no repository call; otherwise the decoded path is resolved, resolver errors pass through, an empty key is ObjectNotFound, the key is presigned with the current expiry, presign and parse errors pass through, and the URL is returned unchanged exactly when its host matches the endpoint host, else InvalidHost |
| ListUseCase.ListableMembers | application/usecase/listfilesusecase.go:35 | an object is listed exactly when it is in the listing, is no folder marker and has no suspicious key |
| ProxyUseCase.OutcomeSuccess | application/usecase/proxyfileusecase.go:41-113 | a request succeeds exactly when both paths are clean and non-empty, the decoded path resolves to a non-empty key, presigning it succeeds and the URL's host is the endpoint host or a subdomain; the answer is then the presigned URL |
| ProxyUseCase.RepositoryOutcome | application/usecase/proxyfileusecase.go:48-80 | over the repository's storage, a clean non-empty request resolves its once-decoded path with that path's own decode as the repository's second try: an empty answer is not found, and a success presigns exactly the resolved key |
| ProxyUseCase.DoubleDecode | infrastructure/repository/s3repository.go:89-118 | with only `A` listed, `%2541` becomes `%41` in the use case and the repository's second decode finds `A` |
| ListUseCase.Execute | application/usecase/listfilesusecase.go:24-50 | on a listing error, Error=true with "Failed to list objects: " and the error; otherwise the objects are exactly the listable objects in order, Name the key and Url the base URL, `/`, and the escaped key |
| ListUseCase.BuildFiles | application/usecase/listfilesusecase.go:77-87 | one file entry per object in order: full key, link, and escaped file name |
| ListUseCase.BuildDirectories | application/usecase/listfilesusecase.go:73-103 | one directory entry per name in order, each with its label, count and files |
| ListUseCase.AssembledView | application/usecase/listfilesusecase.go:64-103 | the sorted groups, the ascending directory names and the directory entries built from them make up the view: one entry per directory, sorted permutations, a partition of the listing |
| ListUseCase.BuildView | application/usecase/listfilesusecase.go:61-103 | the view of a filtered collection, as `ListUseCase.AssembledView` states it |
| ListUseCase.ExecuteForView | application/usecase/listfilesusecase.go:53-106 | on a listing error, the error; otherwise one entry per distinct directory, ascending; each group is a sorted permutation of its directory's objects; the groups partition the listable objects; "Root" is labelled "Root Directory" and others html-escaped; FileCount equals the number of files; each file has its full key, link and escaped file name |
| Handlers.ProxyStatus | interfaces/http/handler/handlers.go:70-80 | ObjectNotFound is 404, SuspiciousPath 400, InvalidHost 403, and exactly the other errors are 500 |
| Handlers.ListFiles | interfaces/http/handler/handlers.go:28-44 | an Accept header containing "text/html" selects the view; a listing failure answers 500 with Error=true and "Failed to list files: " (JSON) or "Failed to prepare list view: " (view); otherwise the JSON list with Error=false, no message, and one entry per listable object in order (its key and the base URL, `/`, and the escaped key), or the view of those objects |
| Handlers.RenderHTMLList | interfaces/http/handler/handlers.go:47-60 | a view-model failure answers 500 with Error=true and "Failed to prepare list view: "; otherwise the view of the listable objects is rendered |
| Handlers.ProxyReply | interfaces/http/handler/handlers.go:69-84 | a redirect exactly on success, with status 302 to exactly the returned URL; otherwise the error's status |
| Handlers.ProxyFile | interfaces/http/handler/handlers.go:63-85 | the reply to the use case's outcome with the current expiry: a 302 to the URL exactly on success, otherwise the error's status; a path suspicious raw or decoded answers 400; a redirect goes to the URL presigned for the resolved key |
| Handlers.ProxyFileRefusals | interfaces/http/handler/handlers.go:63-85 | for a path that passed the traversal filter: empty, or resolved to no key, answers 404; a presigned URL whose host fails validation answers 403 and is never redirected to |
| Handlers.ErrorHandler | interfaces/http/handler/handlers.go:88-113 | the framework error's code or else 500, always with Error=true and the error's message; logged only with a user agent and an IP and never for 404 or 405 |
| LegacyMinio.List | pkg/minio.go:81-130 | the legacy listing: kept entries in order, Name the key and Url the base URL, `/`, and the escaped key |
| LegacyMinio.Keeps | pkg/minio.go:85-118 | the checks of the listing loop accept exactly the entries the legacy keep rule admits |
| LegacyMinio.ListingStep | pkg/minio.go:84-127 | one more entry extends the listing by its item exactly when it is kept |
| LegacyMinio.ListingMembers | pkg/minio.go:84-126 | an item is listed exactly when some kept entry produces it |
| LegacyMinio.KeptAgainstEntityRules | pkg/minio.go:91-118 | for a non-empty key the legacy filter keeps exactly the non-folder-markers without `..`; the empty key is kept exactly when its size is non-zero |
| LegacyMinio.DoubleSlashKept | pkg/minio.go:91-118 | a key with `//` and no `..`, no trailing `/`, and (at size zero) a dotted file name is listed, though the entity rules call it suspicious |
| LegacyMinio.DoubleSlashExample | pkg/minio.go:115-118 | for instance `a//b.txt` is listed and suspicious |
| LegacyMinio.FirstMatchSpec | pkg/minio.go:158-195 | a pass answers the key of the first entry matching the raw or the decoded path, and nothing exactly when no entry matches |
| LegacyMinio.ScanPass | pkg/minio.go:157-195 | the pass loop returns the first accepted key |
| LegacyMinio.EntriesAdvance | pkg/minio.go:222-276 | one more listing entry moves the running best key and score in step with the scan: a readable candidate whose score is strictly higher takes over, anything else leaves them as they were |
| LegacyMinio.FuzzyPass | pkg/minio.go:198-276 | the fuzzy loop returns the best strictly-improving candidate's key and score |
| LegacyMinio.FuzzyEntriesSpec | pkg/minio.go:222-276 | the fuzzy score is in [0, 100] and 0 iff nothing is found; the match is a listed candidate scoring the score; no candidate scores more |
| LegacyMinio.FindObject | pkg/minio.go:145-286 | returns the legacy resolution of the path over the three listings |
| LegacyMinio.LegacyResolveSpec | pkg/minio.go:152-282 | empty for an empty path; else the first exact hit, else the first case-insensitive hit, else a listed candidate of the analysis path scoring above 30 and no lower than any other candidate |
| LegacyMinio.LegacyResolveListed | pkg/minio.go:166-281 | any non-empty answer is the key of an object listed by one of the passes |
| LegacyMinio.DecodedMatchFirst | pkg/minio.go:163-173 | with listing [`a b`, `a+b`], request `a+b` decoding to `a b`: the legacy resolver answers `a b`, the tiered resolver `a+b` |
| LegacyMinio.FoldDecodedMatchFirst | pkg/minio.go:176-195 | with listing [`a b`, `a+b`], request `A+B` decoding to `A B`: the legacy case-insensitive pass answers `a b`, the tiered resolver `a+b` |
| LegacyList.Infos | server/list.go:41-51 | one file entry per listed item, each the item with its escaped file name |
| LegacyList.FilesOf | server/list.go:82-86 | the files of each directory entry, in order |
| LegacyList.FileEntry | server/list.go:34-51 | the directory of one listed item and its file entry with the escaped file name |
| LegacyList.GroupFiles | server/list.go:31-55 | the map holds, for each directory of the listing, its file entries in listing order, and nothing else |
| LegacyList.BuildDirectories | server/list.go:64-87 | one entry per name in order, its files a sorted permutation of the group, labelled "Root Directory" for `Root` and html-escaped otherwise, FileCount the number of files |
| LegacyList.AssembledView | server/list.go:57-87 | the grouped map, the ascending directory names and the directory entries built from them make up the view: one group per directory, sorted permutations, a partition of the entries |
| LegacyList.RenderHTMLList | server/list.go:29-93 | one group per distinct directory, ascending; each a sorted permutation of that directory's entries; FileCount the group size; the groups partition the entries |
| LegacyList.List | server/list.go:13-27 | without "text/html" in Accept, JSON with Error=false and the legacy listing; with it, the view of the listing's entries: one group per directory, ascending, each a sorted permutation of its entries, the groups a partition |
| LegacyProxy.Settings.constructor | server/proxy.go:47-50 | the bucket setting and the bucket-from-path flag are those given |
| LegacyProxy.SplitBucket | server/proxy.go:47-58 | the bucket is the text before the first `/` and the object path the rest, or `""` when there is no `/` |
| LegacyProxy.ContentTypeFor | server/proxy.go:93-111 | a stored type other than empty or `application/octet-stream` is kept |
| LegacyProxy.ContentTypeByTable | server/proxy.go:96-110 | when replaceable, a key whose lowercased form ends with a table suffix gets that suffix's type, whatever the case order |
| LegacyProxy.ContentTypeUnknown | server/proxy.go:93-111 | when no table suffix matches, the stored type is kept |
| LegacyProxy.UpperCaseSuffix | server/proxy.go:96-108 | `Report.PDF` is served as `application/pdf` |
| LegacyProxy.DispositionFilename | server/proxy.go:114-120 | the Content-Disposition file name is the key's last component: no `/`, and the key ends with it |
| LegacyProxy.Proxy | server/proxy.go:16-131 | suspicious raw or decoded paths answer 400 and empty ones 404 before the bucket changes; in bucket-from-path mode the bucket becomes the first path segment; the rest is resolved in that bucket; an unresolved, undescribed or unfetchable object answers 404; otherwise 200 with the key, the content type, the Content-Disposition file name and the size; anything streamed is listed in the bucket |

## Left out

- Client construction and its once-initialised singletons (`InitMinio`, `NewMinio`, `NewS3Repository`, the global `Client`) concern process-wide state and concurrency. They are not modelled.
- The store calls are parameters of the model, not computations in it:
  - presigning (`GetPresignedURL`, `PresignedUrl`);
  - `StatObject` and `GetObject`.

  The listing channel is a sequence of entries. Copying the object body to the response (`io.Copy`) is not modelled.
- The library codecs (`url.QueryUnescape`, `url.QueryEscape`, `url.Parse` with `Hostname`, and `html.EscapeString`) are function parameters. Their own behaviour, such as percent-decoding, is not modelled.
- Unicode is not modelled:
  - Case folding is ASCII only.
  - Each `char` stands for one byte.
  - The legacy positional loop ranges over rune offsets. It agrees with the byte loop only on ASCII, which is what the model assumes.
- Logging, the Fiber application, routing, template rendering, configuration loading, `cleanenv.UpdateEnv` and signal handling are out of scope. The legacy proxy's write to the process-wide bucket setting is modelled as a field of `Settings`.
- The definition of the bucket-from-path flag (`types.IsEmptyBucket`) is not part of this model; the flag is given to `LegacyProxy.Settings` at construction.
- Object fields other than key and size (`LastModified`, `ETag`, `ContentType` of the entity) play no part in the core and are not modelled.
- Collections.ObjectCollection.Size, Repository.S3Repository.GetBucketName and Repository.S3Repository.GetEndpoint are plain accessors. They carry no contract of their own; the constructors state what the fields hold.
- Sorting.SortByCorrect: the library sorts are unstable, so the order of keys that are equal once lowercased is not specified. Only "sorted and a permutation" is modelled.
- LegacyProxy.Proxy: the legacy resolver calls the listing three times. The model takes one listing of the bucket for all three passes. `LegacyMinio.FindObject` itself takes three listings.
- ListUseCase.ExecuteForView and LegacyList.RenderHTMLList: the template rendering of the view is not modelled, only the view model handed to it.
