# AioLM verification

Models of the parts of AioLM whose correctness rests on invariants rather than on I/O, with proofs
that the invariants hold. `dafny verify dfyconfig.toml` verifies everything.

## What is modelled

**Conversation store** (`Base64`, `Conversation`, `Threads`, `ThreadFiles`, `ConversationStore`,
`ConversationMap`).
The disk is a map from folder names to files. `FileSystem` changes it one atomic step at a time and
records every state in `trail`, so a property of every element of the trail is a property of every
crash point. A write may fail at its first step, half-way through its temporary file, or at the
rename; a rename that fails replaces nothing. SHA-256 is a function that does not collide on the
contents and ids the store meets (`CollisionFree`); the JSON printer and parser satisfy
parse(print(j)) = j and nothing else (`Lawful`), with floats as the bits of finite doubles. `LawfulWorlds`
builds a printer with an inverse, for any hashes, and shows that all hypotheses hold together. A save
either leaves the conversation a reader sees or replaces it whole (`CrashAtomicity`), and under any
sequence of saves, imports, deletions and clears the folders refine a map from ids to conversations that
loading returns exactly (class `Conversations`). `ThreadFiles` says how a folder reads from the bytes and
fields of its files alone, in whatever way they came there, without the reader's steps.

The format uses the keys `file` and `mediaType` of an image itself. After a save, a conversation can be
read exactly when each of its images is moved to a file, has no `file` key, or has one that names a file
the same save wrote, with a valid media type (`ReadsAfterSave`); the refinement holds for all of these. It
comes back as it was saved, up to the case of media types, exactly when no image has a `file` key of its
own and no moved image a `mediaType` key (`ReloadedExactlyAsSaved`). `OwnFileIsNotCarried` gives a
conversation that is saved and then cannot be read.

**GGUF reader** (`LittleEndian`, `GgufReader`, `GgufStream`, `GgufScan`, `GgufModel`, `GgufPrinter`, `GgufFacts`,
`GgufLimits`, `GgufRoundTrip`, `TensorNames`, `TensorSizes`, `TensorTable`). Every reader and skipper is a function on the stream
state, and a method of `Reader` that updates the fields, proved to be that function. `ValueEnd` says
where a value ends by the grammar of the GGUF specification ("File Structure"), independently of any
reader; all of them stop there. The tensor table is sized by gaps between sorted offsets with 64-bit
saturating sums, which are proved never to saturate when a table is sized. The printer writes every type of
value, any alignment and both versions; printer and reader are inverse for everything within the reader's
limits, and what is beyond a limit is refused. What the scan reports is told from the fields (`GgufFacts`) and
from the texts of the tensors' names (`TensorNames`), not from the steps of the scan.

**Gateway** (`ResponseHistory`, `EventStream`). Reference counts are fields of a heap of nodes and a
handle is a strong reference from outside; each step of the iterative drop is one atomic decrement, so
`ReleaseKeepsCounts` holds in any interleaving. The stream splitter works on decoded text with UTF-8
lengths; whether a payload is JSON is a parameter.

**Locked state machines** (`AttachmentDrop`, `LaunchJobs`). Each operation runs under one lock, so
interleavings are sequences of operations. Fresh UUIDs and clock readings are parameters; clock
readings need not increase. Dropping a job is two operations, because its flag goes up outside the lock.

**Cores** (`Safetensors`, `GpuRemap`, `ShardGroups`, `ServerArgs`, `InstallerDownload`). `Outcomes`,
`Strings`, `Decimals`, `Sorting` and `Sets` hold what the models share; `Decimals` says which texts spell a number.

Where the code turned out not to have a property in full, a lemma states exactly when it does:

- a repeated cancellation does not renew an id's place in the queue (`LatestCancel`,
  `GuaranteeIsExact`), so counting from the latest cancellation is right only when it queued the id or
  the id was last; `RepeatedCancelIsNotEnough` is a run in which it is neither;
- a remapped GPU selection can exceed the 256 bytes that validation allows, exactly when a matched
  device's reported name leaves no room for its scope (`RemapValidExactlyWhenShort`); a report line whose
  number is padded with 236 zeros does it (`LongNameBreaksValidity`);
- switching back restores a placement exactly when no selection named a device of the target already
  (`RoundTrip`, `TargetSelectionDoesNotReturn`);
- the last line of a stream is trimmed on both sides while complete lines are not, so JSON behind leading
  white space is delivered exactly when its line is not terminated (`LastLineTerminated`,
  `SpacedLineLosesItsPayload`);
- the folders of two different ids coincide exactly when both ids are hashed and their truncated hashes coincide
  (`FolderNameCollisions`).

## Model

| member | source | states |
|---|---|---|
| Base64.DecodeEncode | src-tauri/src/conversations.rs:398-423 | Strict decoding undoes encoding for every byte string. |
| Base64.EncodeDecode | src-tauri/src/conversations.rs:398-423 | Every payload the strict decoder takes is the canonical encoding of what it returns. |
| Base64.OracleAgreesWithDecoder | src-tauri/src/conversations.rs:425-470 | The length computed without decoding exists exactly when decoding succeeds, and is the decoded length. |
| Base64.LengthOracle | src-tauri/src/conversations.rs:425-470 | The computed length is n exactly when the payload is the canonical encoding of some n-byte string. |
| Conversation.DecodeIsBounded | src-tauri/src/conversations.rs:398-423 | A data URL is rejected exactly when it is an image over the bound; anything malformed stays as it is. |
| Conversation.UrlRoundTrip | src-tauri/src/conversations.rs:398-423 | An image written back as a data URL is read as the same image. |
| Conversation.CanonicalUrl | src-tauri/src/conversations.rs:267-304 | Writing an image back changes only the case of its media type. |
| Conversation.UrlIsRead | src-tauri/src/conversations.rs:398-423 | A text stands for an image exactly when it is "data:", a media type in any case, ";base64," and the canonical payload of its bytes, at least one. |
| Conversation.MediaTypeIsRead | src-tauri/src/conversations.rs:472-480 | A media type is "image/" and 1 to 64 letters, digits, dots, plus signs and dashes, and nothing else is. |
| Conversation.ExtensionIsListed | src-tauri/src/conversations.rs:482-495 | Which extension each media type has; all others share "bin". |
| Conversation.WrittenNamesAreFollowed | src-tauri/src/conversations.rs:497-508 | Every attachment reference the store writes is one it follows. |
| Conversation.SameFileSameDigest | src-tauri/src/conversations.rs:267-304 | Two images share an attachment file only when their digests are equal. |
| Conversation.FollowedNamesStayInside | src-tauri/src/conversations.rs:497-508 | A reference that is followed names a file directly in the attachments folder. |
| Conversation.ImageRoundTrip | src-tauri/src/conversations.rs:267-304 | An image stored and restored is the image up to the case of its media type, exactly when it has no key of its own that the format uses. |
| Threads.MessagesRoundTrip | src-tauri/src/conversations.rs:362-388 | The same for all messages of a conversation at once, with the attachments present. |
| Threads.RestoreImages | src-tauri/src/conversations.rs:362-388 | The loop over a message's images restores each of them in order, or fails at the first that cannot be restored. |
| Threads.ThreadRoundTrip | src-tauri/src/conversations.rs:51-70 | The typed form of a conversation survives its JSON form. |
| Threads.ValueRoundTrip | src-tauri/src/conversations.rs:51-70 | Every field of the JSON form survives, fields the type does not know included. |
| Threads.ReadStored | src-tauri/src/conversations.rs:114-130 | A folder holding the file and images of a conversation reads as that conversation exactly when the format carries its images. |
| Threads.MessagesReadExactly | src-tauri/src/conversations.rs:362-388 | Stored messages can be restored exactly when each image is moved, has no `file` key, or names one of the files there with a valid media type. |
| Threads.SavedReadsExactly | src-tauri/src/conversations.rs:114-130 | A saved folder with exactly the conversation's images can be read exactly under that condition. |
| Threads.SavedReadsReloaded | src-tauri/src/conversations.rs:114-130 | A readable conversation reads the same whatever other attachments lie beside its images. |
| Threads.ReloadedExactlyAsSaved | src-tauri/src/conversations.rs:362-388 | What comes back is what was saved, up to media type case, exactly when the format carries the images. |
| Threads.OwnFileIsNotCarried | src-tauri/src/conversations.rs:362-388 | A saved conversation with the image {"file": "x"}, which names no attachment, cannot be read, whatever files are there. |
| Threads.ReadGrown | src-tauri/src/conversations.rs:114-130 | New attachments change nothing about how a readable folder reads. |
| Threads.ReadVisible | src-tauri/src/config.rs:1304-1332 | Temporary files left by an interrupted write are never read. |
| ThreadFiles.ReadsAsWritten | src-tauri/src/conversations.rs:114-130 | How a folder reads, told from the bytes of thread.json and the fields of the JSON in it: nothing without the file, refused when over 256 MiB, unparsable or without a text id, refused as newer when its version is above 1, and otherwise the conversation of its fields with each image from its file. |
| ThreadFiles.ReadsOnce | src-tauri/src/conversations.rs:114-130 | That account leaves no choice: a folder reads as nothing else. |
| ThreadFiles.KnownFormatReads | src-tauri/src/conversations.rs:114-130 | A version of at most 1, or none, and no image with a `file` key: the folder reads with the id and messages of its file. |
| ThreadFiles.NameIsRead | src-tauri/src/conversations.rs:497-508 | An attachment reference is followed exactly when it is attachments/, 64 hexadecimal digits, a dot and 1 to 8 small letters or digits. |
| ThreadFiles.MessagesAreRead | src-tauri/src/conversations.rs:362-388 | Messages are restored exactly when each image with a `file` key names a file of at most 64 MiB and a media type, and comes back as its data URL. |
| ThreadFiles.MovedAreHeld | src-tauri/src/conversations.rs:267-304 | The images that become files are exactly those some message shows as a data URL. |
| Threads.FolderNameCollisions | src-tauri/src/conversations.rs:241-254 | Two ids share a folder exactly when they are equal or both are hashed to the same 32 hexadecimal digits. |
| Threads.FolderNamesStayInside | src-tauri/src/conversations.rs:241-254 | A folder name is not empty, at most 128 characters, and made of lower-case letters, digits, dashes and underscores. |
| Threads.PlainIdsNameTheirFolder | src-tauri/src/conversations.rs:241-261 | An id names its own folder exactly when it is 1 to 128 small letters, digits, dashes and underscores, does not start with "h-" and is no Windows device name; any other id has a hashed folder. |
| Threads.FolderIsNoDevice | src-tauri/src/conversations.rs:241-261 | No folder has the name of a Windows device. |
| ConversationStore.FileSystem.AtomicWrite | src-tauri/src/config.rs:1304-1332 | In every state of a write a reader sees the old file or the whole new one; a failed write replaces nothing. |
| ConversationStore.StoreImages | src-tauri/src/conversations.rs:267-304 | Images move to files in place; every state only adds attachments with the content their names stand for, and the created list names exactly the new ones. |
| ConversationStore.Rollback | src-tauri/src/conversations.rs:306-310 | Deleting the created files restores what a reader saw before the save. |
| ConversationStore.RemoveUnreferenced | src-tauri/src/conversations.rs:510-523 | Collection deletes exactly the visible attachments that are not kept, and keeps the others in every state. |
| ConversationStore.ReadGrew | src-tauri/src/conversations.rs:114-130 | A folder that only gained attachments during a save reads as before. |
| ConversationStore.ReadCommitted | src-tauri/src/conversations.rs:114-130 | Once the new file is in place the folder reads as the conversation reloaded, if it can be read, and as it was saved exactly when its images are carried. |
| ConversationStore.ReadsAfterSave | src-tauri/src/conversations.rs:141-176 | On the disk a successful save leaves, the conversation can be read exactly when each image is moved, has no `file` key, or names a file the save wrote. |
| ConversationStore.SaveThread | src-tauri/src/conversations.rs:141-176 | Every state of a save is old or new; a failed save leaves what a reader sees; a successful one leaves exactly the referenced attachments. It is refused exactly for an empty id, an image over the limit, or a printed conversation over the limit, in this order, unless a write fails. |
| ConversationStore.DeleteFolder | src-tauri/src/conversations.rs:206-239 | A folder is removed exactly when its bytes and fields are those of the conversation asked for; one of a newer format is refused as such and the disk stays as it was, and every other refusal means what it says of the bytes. |
| ConversationStore.Load | src-tauri/src/conversations.rs:79-112 | Loading lists each readable conversation in its own folder once, as its file's fields say, and reports every other folder with a thread.json, one of a newer format among them. |
| ConversationMap.CrashAtomicity | src-tauri/src/conversations.rs:141-176 | Whatever state a crash leaves, the disk refines the map from before the save or the map with the saved conversation, and the folder reads as one of the two. |
| ConversationMap.SaveKeepsIntact | src-tauri/src/conversations.rs:141-176 | In every state of a save each attachment still has the content its name stands for. |
| ConversationMap.ImportKeeps | src-tauri/src/conversations.rs:185-204 | An import keeps every stored entry, adds every new id, and adds nothing when repeated. |
| ConversationMap.FolderOfId | src-tauri/src/conversations.rs:241-254 | Reading the folder of an id gives the stored conversation of that id, or none. |
| ConversationMap.Conversations.constructor | src-tauri/src/conversations.rs:79-112 | The store can be opened on any intact disk that refines a map, such as one a crash left; disks with an unreadable or misnamed conversation are not covered. |
| ConversationMap.Conversations.Save | src-tauri/src/conversations.rs:141-176 | A save of a conversation that can be read changes one entry of the map or none, and every state it passes through refines the old or the new map. |
| ConversationMap.Conversations.Import | src-tauri/src/conversations.rs:185-204 | Every state of an import, and the one it stops in, is the map after some of the values; no stored entry changes, and a complete import adds and counts the first conversation of each new id. |
| ConversationMap.Conversations.Delete | src-tauri/src/conversations.rs:206-222 | Deleting removes exactly the entry of the id. |
| ConversationMap.Conversations.Clear | src-tauri/src/conversations.rs:224-239 | Clearing empties the map and the disk. |
| ConversationMap.Conversations.LoadAll | src-tauri/src/conversations.rs:79-112 | Loading returns every entry of the map once, nothing else, and no warning. |
| LittleEndian.FromToLe | src-tauri/src/gguf.rs:143-149 | Printing and reading a little-endian number are inverse within the width. |
| LittleEndian.ToFromLe | src-tauri/src/gguf.rs:143-149 | Every byte string is what its number prints as. |
| GgufReader.SkipValueFrames | src-tauri/src/gguf.rs:251-311 | Skipping a value ends where the grammar says it ends, with the consumed count equal to the position and within the span. |
| GgufReader.RawFrames | src-tauri/src/gguf.rs:854-908 | The typed integer and integer-array reader ends at the same place. |
| GgufReader.TextArrayFrames | src-tauri/src/gguf.rs:495-527 | The text-array reader ends at the same place. |
| GgufReader.EveryReadingFrames | src-tauri/src/gguf.rs:241-330 | So does every way of reading a value that a header scan uses. |
| GgufReader.ReadingsAgree | src-tauri/src/gguf.rs:241-330 | Two ways of reading one value that both succeed stop at the same byte. |
| GgufReader.ScansAgree | src-tauri/src/gguf.rs:383-466 | Scans that read different values and succeed see the same keys and types and end at the same byte. |
| GgufScan.ModelScanAgrees | src-tauri/src/gguf.rs:1150-1190 | The model scan is one of them: any other scan of the same entries sees the keys it sees and stops where it stops. |
| GgufStream.Reader.Text | src-tauri/src/gguf.rs:165-204 | The method moves the fields as the specified reader does: long texts are stepped over and budgets are charged first. |
| GgufStream.Reader.SkipArrayBody | src-tauri/src/gguf.rs:281-311 | The loop over text elements is the specified skipper. |
| GgufStream.Reader.Raw | src-tauri/src/gguf.rs:882-908 | The typed reader is the specified one. |
| GgufStream.Reader.TextArray | src-tauri/src/gguf.rs:495-527 | The text-array reader is the specified one. |
| TensorSizes.PleIsInput | src-tauri/src/gguf.rs:926-974 | The per-layer token embedding is an input tensor. |
| TensorNames.BucketOfName | src-tauri/src/gguf.rs:926-974 | The buckets a tensor counts in, told from the text of its name: "blk.", a spelling of a number below 4096 and one of eight expert markers, three dense markers or anything else; "token_embd.weight"; the six input bases and "hrm.z_l_init"; and output for all other names. |
| TensorNames.LayerTensors | src-tauri/src/gguf.rs:932-958 | Behind a printed layer number each expert marker gives expert bytes and each dense marker dense bytes, whatever follows. |
| TensorNames.LayerIsRead | src-tauri/src/gguf.rs:926-941 | A layer and a tail are read off a name exactly when it is put together from them, with any spelling of the number. |
| TensorSizes.TotalIsCapped | src-tauri/src/gguf.rs:769-777 | The saturating total is the true sum, capped. |
| TensorSizes.Absorb | src-tauri/src/gguf.rs:779-797 | The in-place loop over layers is the layer-by-layer saturating sum. |
| TensorSizes.AbsorbTotal | src-tauri/src/gguf.rs:769-797 | Absorbing a shard adds its total exactly, saturation included. |
| TensorSizes.AbsorbGroupsAndReorders | src-tauri/src/gguf.rs:779-797 | Grouping does not matter, and neither does order except for the first vocabulary seen. |
| TensorTable.ShardsAddUp | src-tauri/src/gguf.rs:779-797 | A model in several shards reports in every bucket the capped sum of the shards' buckets, the first vocabulary given, and an output table when some shard has one. |
| TensorSizes.ShardOrderIsIrrelevant | src-tauri/src/gguf.rs:779-797 | Folding shards in any order gives the same byte counts per layer and class. |
| TensorTable.SizeTensors | src-tauri/src/gguf.rs:1070-1116 | The loop over sorted offsets sizes each tensor by the gap to the next. |
| TensorTable.SizedExactlyWhenPlaced | src-tauri/src/gguf.rs:1070-1116 | Sizes are reported exactly when all offsets are distinct and inside the data. |
| TensorTable.SizesAreGaps | src-tauri/src/gguf.rs:1070-1116 | No addition saturates: each bucket is the exact sum of its gaps. |
| TensorTable.SizesTileTheData | src-tauri/src/gguf.rs:1070-1116 | The total is the data length minus the smallest offset, and per-layer embeddings are within the input bytes. |
| TensorTable.TableOrderIsIrrelevant | src-tauri/src/gguf.rs:1070-1116 | From one seed, permuting the table changes no byte count. |
| GgufScan.ScanOrderIsIrrelevant | src-tauri/src/gguf.rs:987-1133 | Permuting the tensors of a file changes nothing that is reported but the first vocabulary seen. |
| GgufScan.ReportedSizesTile | src-tauri/src/gguf.rs:1070-1133 | The same for a scanned table, with every tensor inside the file. |
| GgufScan.SizedByStart | src-tauri/src/gguf.rs:1070-1133 | Whether sizing fails, reports nothing or reports sizes, told by the first multiple of the alignment behind the header. |
| GgufScan.NotedVocabulary | src-tauri/src/gguf.rs:1055-1060 | The vocabulary is the second dimension of the first embedding or output table that has two. |
| GgufScan.PowersOfTwo | src-tauri/src/gguf.rs:1204-1207 | Every alignment that is taken is a power of two. |
| GgufScan.PowerIsTaken | src-tauri/src/gguf.rs:1204-1207 | Every power of two is taken as an alignment. |
| GgufFacts.FactsAreReported | src-tauri/src/gguf.rs:1155-1201 | Which field decides each header fact: the last text as architecture, the last natural number as alignment, the last count of parts, the last usable value under each of 26 keys, and a mark for each architecture with a recurrent key. |
| GgufPrinter.SkipPrinted | src-tauri/src/gguf.rs:241-311 | A printed value of any type is stepped over to its last byte. |
| GgufPrinter.RawPrinted | src-tauri/src/gguf.rs:849-908 | What a size-relevant key keeps of a printed value: a natural number of any integer type, up to 4096 of them, and nothing else. |
| GgufLimits.UnsignedPrinted | src-tauri/src/gguf.rs:313-333 | The unsigned reader takes the 32- and 64-bit integers that are not negative and steps over the rest. |
| GgufLimits.TextArrayPrinted | src-tauri/src/gguf.rs:495-527 | A printed list of texts is read text by text, and any other value as an empty list. |
| GgufLimits.ReadingIsBounded | src-tauri/src/gguf.rs:114-163 | Reads past 128 MiB or the end of the file and steps over 63 bits are refused, and nothing less is. |
| GgufLimits.TextIsBounded | src-tauri/src/gguf.rs:165-204 | Which texts are refused: after two million entries, beyond two million bytes kept, or too long to step over. |
| GgufLimits.ArraysAreBounded | src-tauri/src/gguf.rs:281-311 | Arrays of more than 16777216 elements, of arrays, or of unknown types are refused by every reader. |
| GgufLimits.UnknownTypesAreRefused | src-tauri/src/gguf.rs:251-279 | A type above 12 is refused by every reader. |
| GgufModel.Scan | src-tauri/src/gguf.rs:1140-1216 | The imperative scan of header and table is the specified scan, errors included; GgufRoundTrip, GgufLimits and TensorNames say what the specified scan accepts, refuses and reports. |
| GgufRoundTrip.FieldsPrinted | src-tauri/src/gguf.rs:1319-1362 | Printed metadata of any types is read back entry by entry. |
| GgufRoundTrip.TensorsPrinted | src-tauri/src/gguf.rs:1319-1362 | A printed tensor table is read back with its offsets. |
| GgufRoundTrip.LaidSizes | src-tauri/src/gguf.rs:1319-1362 | The laid-out offsets give each bucket the rounded sizes of the tensors named for it. |
| GgufRoundTrip.RoundTrip | src-tauri/src/gguf.rs:1319-1362 | Whatever fields and tensors are printed within the reader's limits, in version 2 or 3 and with any alignment, the scan accepts: it reports the facts of the fields, gives every bucket the sizes, rounded up to the alignment, of the tensors whose names are in it, and notes the vocabulary and the output table. |
| GgufRoundTrip.PreambleIsChecked | src-tauri/src/gguf.rs:361-381 | A file that does not start with GGUF, a version of 2 or 3, at most 4096 keys and at most 1048576 tensors is refused for the first of these it lacks. |
| GgufRoundTrip.BadAlignmentIsRefused | src-tauri/src/gguf.rs:1204-1207 | A file whose fields give an alignment that is no power of two is refused. |
| GgufRoundTrip.LongNameIsRefused | src-tauri/src/gguf.rs:1008-1011 | A tensor name over 256 bytes is refused. |
| GgufRoundTrip.ManyDimensionsAreRefused | src-tauri/src/gguf.rs:1028-1031 | A tensor of more than four dimensions is refused. |
| ResponseHistory.ReleaseKeepsCounts | src-tauri/src/gateway.rs:164-177 | One atomic release keeps every live node's count equal to its handles plus its live children. |
| ResponseHistory.AppendKeepsCounts | src-tauri/src/gateway.rs:138-145 | So does appending below a parent whose handle moves into the new node. |
| ResponseHistory.LiveIsHeld | src-tauri/src/gateway.rs:164-177 | With exact counts no live node is garbage. |
| ResponseHistory.FreesExactlyTheUnreachable | src-tauri/src/gateway.rs:164-177 | A drop frees exactly the nodes that no remaining handle reaches. |
| ResponseHistory.MessagesSurvive | src-tauri/src/gateway.rs:147-161 | A surviving node flattens to the messages it had. |
| ResponseHistory.MessagesAppended | src-tauri/src/gateway.rs:138-161 | A new turn is read after everything above it. |
| ResponseHistory.History.DropNode | src-tauri/src/gateway.rs:164-177 | The iterative drop keeps the counts exact and recurses at most two deep. |
| ResponseHistory.History.Drop | src-tauri/src/gateway.rs:164-177 | Giving up a handle leaves live exactly what the other handles reach, with links and turns unchanged. |
| ResponseHistory.History.Flatten | src-tauri/src/gateway.rs:147-161 | The two loops give the turns from the root down. |
| ResponseHistory.StillFlatten | src-tauri/src/gateway.rs:1013-1028 | Every response left in the table flattens to the same messages. |
| ResponseHistory.Responses.Resume | src-tauri/src/gateway.rs:765-787 | A known response's history is kept alive by one more handle; an unknown one is refused. |
| ResponseHistory.Responses.Abandon | src-tauri/src/gateway.rs:785-825 | A request that ends without an answer gives its handle up, and every remembered response keeps its messages. |
| ResponseHistory.Responses.Answer | src-tauri/src/gateway.rs:829-830 | The answer's history is the resumed history followed by the request's turn. |
| ResponseHistory.Responses.Remember | src-tauri/src/gateway.rs:1013-1028 | The table holds at most 128 responses, evicts no more than it must, and every response left keeps its value and messages. |
| EventStream.LinesConcat | src-tauri/src/gateway.rs:124-130 | Cutting a text anywhere and carrying the rest over gives the same lines. |
| EventStream.CutAnywhere | src-tauri/src/gateway.rs:1055-1082 | A text hands on what its first part does, followed by what the carried rest and its second part do. |
| EventStream.WrittenStream | src-tauri/src/gateway.rs:1062-1082 | Whatever lines a server writes, events and anything else, the payloads handed on are those of the events, in order. |
| EventStream.TakeLine | src-tauri/src/gateway.rs:124-130 | The next complete line is taken without its carriage returns, and the cursor moves past its newline. |
| EventStream.Drain | src-tauri/src/gateway.rs:1062-1075 | The payloads of all complete lines are handed on, and what follows the last newline stays. |
| EventStream.RestHasNoNewline | src-tauri/src/gateway.rs:1076-1079 | What stays in the buffer after a chunk holds no newline. |
| EventStream.Stream | src-tauri/src/gateway.rs:1051-1090 | However the text is cut, a completed stream hands on exactly the payloads of the whole text; it stops early at the first unreadable or overlong chunk only. |
| EventStream.FinerCutsFit | src-tauri/src/gateway.rs:1058-1061 | Cutting a chunk in two never makes the buffer overflow. |
| EventStream.LastLineTerminated | src-tauri/src/gateway.rs:1084-1090 | The unterminated last line hands on what it would if terminated, unless its text holds JSON behind leading white space (or the end marker were JSON). |
| EventStream.NewlineHidesPayload | src-tauri/src/gateway.rs:1062-1090 | JSON behind leading white space is handed on at the end of the stream, and not when a newline follows. |
| EventStream.SpacedLineLosesItsPayload | src-tauri/src/gateway.rs:1062-1090 | The line " data:{}" is such a line. |
| AttachmentDrop.CheckPaths | src-tauri/src/attachment_drop.rs:56-63 | The running check accepts exactly the lists whose paths are absolute, bounded, and bounded together. |
| AttachmentDrop.PlainIsSafe | src-tauri/src/attachment_drop.rs:12-16 | Safe paths are absolute, of at most 65536 bytes each and 262144 together. |
| AttachmentDrop.Conservation | src-tauri/src/attachment_drop.rs:46-155 | In every reachable state a live batch is its completed paths, the one in flight and the pending ones, in order, and it is never drained. |
| AttachmentDrop.SoundAfterClaim | src-tauri/src/attachment_drop.rs:81-110 | A claim keeps the accounts of all batches, and its ticket names this claim alone. |
| AttachmentDrop.SoundAfterComplete | src-tauri/src/attachment_drop.rs:115-133 | A completion keeps the accounts and removes the batch exactly when nothing is left of it. |
| AttachmentDrop.ClaimIsByClock | src-tauri/src/attachment_drop.rs:81-156 | By the clock alone: a batch captured less than 120 seconds ago gives out its next path unless one is in flight, an older one is unavailable and gone, and every other batch stays exactly while it is younger than that. |
| AttachmentDrop.CompleteIsByClock | src-tauri/src/attachment_drop.rs:115-156 | The same for a completion: it succeeds exactly for the last ticket of a batch younger than 120 seconds, which goes when nothing is left of it. |
| AttachmentDrop.AttachmentDrops.Capture | src-tauri/src/attachment_drop.rs:46-79 | A batch is stored exactly when window, count and paths allow and fewer than eight batches are younger than 120 seconds; no younger batch is evicted. |
| AttachmentDrop.AttachmentDrops.Claim | src-tauri/src/attachment_drop.rs:81-110 | A claim gives out the first path no ticket has named, exactly for a batch captured less than 120 seconds ago with nothing in flight; every other batch goes exactly when it is that old. |
| AttachmentDrop.AttachmentDrops.Complete | src-tauri/src/attachment_drop.rs:115-133 | A completion succeeds exactly while its batch is younger than 120 seconds and waits for this ticket, and at most once for a ticket. |
| AttachmentDrop.AttachmentDrops.Discard | src-tauri/src/attachment_drop.rs:135-150 | Discarding removes the batch, is never refused for belonging to another window, and keeps exactly the other batches younger than 120 seconds. |
| LaunchJobs.RunKeepsSound | src-tauri/src/launch_jobs.rs:36-94 | In every run the queue lists each cancelled id once, none of them active, at most 256; at most 64 jobs are active, each with its own flag. |
| LaunchJobs.OnlyOwnFlag | src-tauri/src/launch_jobs.rs:58-94 | An active job's flag goes up by its own cancellation, by cancelling all or by its owner, and by nothing else. |
| LaunchJobs.CancelBeforeBegin | src-tauri/src/launch_jobs.rs:37-76 | A job whose id was queued by a cancellation, not begun since, with fewer than 256 other ids cancelled after it, begins cancelled. |
| LaunchJobs.QueuedWasCancelled | src-tauri/src/launch_jobs.rs:37-76 | An id is queued only by a cancellation while inactive with no begin since. |
| LaunchJobs.StaysQueued | src-tauri/src/launch_jobs.rs:58-76 | An id stays queued while those behind it and those cancelled since number fewer than 256. |
| LaunchJobs.NewcomersEvict | src-tauri/src/launch_jobs.rs:67-74 | As many new ids as there is room behind it push an id out. |
| LaunchJobs.GuaranteeIsExact | src-tauri/src/launch_jobs.rs:58-76 | A queued id survives every run that cancels at most k others exactly when k and the entries behind it are fewer than 256. |
| LaunchJobs.LatestCancel | src-tauri/src/launch_jobs.rs:65-74 | The latest cancellation covers 255 others exactly when it queued the id or found it last. |
| LaunchJobs.RepeatedCancelIsNotEnough | src-tauri/src/launch_jobs.rs:65-74 | After cancelling "a" and "b", cancelling "a" again does not cover 255 others. |
| LaunchJobs.PreflightJobs.Begin | src-tauri/src/launch_jobs.rs:37-56 | A job begins exactly for a valid inactive id with fewer than 64 active, with a new flag that is set when the id was queued. |
| LaunchJobs.PreflightJobs.Cancel | src-tauri/src/launch_jobs.rs:58-76 | Cancelling an active id raises its flag; an inactive one joins the queue, and the oldest give way. |
| LaunchJobs.PreflightJobs.CancelAll | src-tauri/src/launch_jobs.rs:78-84 | Every active job's flag goes up and no other. |
| LaunchJobs.PreflightJobs.Remove | src-tauri/src/launch_jobs.rs:87-94 | Dropping a job removes its own entry and no other job's. |
| Safetensors.ChainedExactlyWhenTiled | scripts/model-repair/reindex_snapshot.py:96-102 | Walking the sorted ranges succeeds exactly when every byte is in one range and no empty range splits another. |
| Safetensors.TilingPermutes | scripts/model-repair/reindex_snapshot.py:96-102 | Header order is irrelevant. |
| Safetensors.HeaderIsRead | scripts/model-repair/reindex_snapshot.py:64-76 | A header is found exactly where the layout puts it: behind its length, 2 to 16777216 bytes, an object in which no object repeats a key. |
| Safetensors.UniqueEverywhere | scripts/model-repair/reindex_snapshot.py:55-61 | No object that occurs anywhere in the header repeats a key, and nothing else is refused for it. |
| Safetensors.TensorIsRead | scripts/model-repair/reindex_snapshot.py:77-95 | A descriptor is accepted exactly when it has a name, a known type, a shape and two offsets in order inside the data, as far apart as its elements times its type's width. |
| Safetensors.ShardIsRead | scripts/model-repair/reindex_snapshot.py:64-103 | The accepted files are the laid-out ones whose tensors, at least one, tile the data. |
| Safetensors.DataSizeIsNeeded | scripts/model-repair/reindex_snapshot.py:90-102 | The data size of an accepted file is the sum of its shape-times-width products. |
| Safetensors.TensorInventory | scripts/model-repair/reindex_snapshot.py:64-103 | A file is accepted exactly when its header is sound, every tensor is well formed, there is one, and the ranges tile the data; names come in header order. |
| Safetensors.Reindex | scripts/model-repair/reindex_snapshot.py:113-136 | The index exists exactly for verified, complete, separate shards; it sends each tensor to its shard and totals all products. |
| Safetensors.OneShardPerTensor | scripts/model-repair/reindex_snapshot.py:131-134 | No tensor of an indexed snapshot is in two shards. |
| GpuRemap.ParsedAreClean | src-tauri/src/gpu.rs:163-184 | Device names parsed from a report are not empty and hold no NUL. |
| GpuRemap.DeviceIsRead | src-tauri/src/gpu.rs:163-184 | A report line is taken exactly when it is a device name, a colon and a description, with white space around them; the name is the prefix, or "Metal" for its short form, and a spelling of a 64-bit number. |
| GpuRemap.PrefixIsListed | src-tauri/src/gpu.rs:45-55 | Which backends have device names, and how these start. |
| GpuRemap.IdentityGivesName | src-tauri/src/gpu.rs:325-341 | A name comes back from the card it stands for. |
| GpuRemap.NameGivesIdentity | src-tauri/src/gpu.rs:325-341 | A card comes back from its name when names are unique. |
| GpuRemap.ConvertIsOneToOne | src-tauri/src/gpu.rs:375-385 | Distinct selections stay distinct. |
| GpuRemap.EveryLossIsNamed | src-tauri/src/gpu.rs:387-415 | The dropped list names exactly the selections without a counterpart, and a valid placement never loses its main device silently. |
| GpuRemap.RemapValidExactlyWhenShort | src-tauri/src/gpu.rs:387-415 | Remapping keeps a placement valid exactly when each matched target device's name and the target's scope take at most 256 bytes. |
| GpuRemap.UnpaddedNumbersAreShort | src-tauri/src/gpu.rs:163-184 | Without zero padding a device number that parses has at most twenty digits. |
| GpuRemap.LongNameBreaksValidity | src-tauri/src/config.rs:226-258 | A device reported as "Vulkan" with n zeros keeps the card's selection valid exactly while n is at most 235. |
| GpuRemap.RoundTrip | src-tauri/src/gpu.rs:353-415 | Switching there and back restores a placement exactly when no selection was the target's already, if nothing was dropped. |
| GpuRemap.TargetSelectionDoesNotReturn | src-tauri/src/gpu.rs:353-415 | The selection "runtime:vulkan:Vulkan0" does not survive a switch from ROCm to Vulkan and back. |
| GpuRemap.MainIndexSurvives | src-tauri/src/gpu.rs:280-293 | The main device keeps its index among the selected ones. |
| GpuRemap.MainIndexIsFirst | src-tauri/src/gpu.rs:280-293 | The index is that of the first selected device with the id, none if there is none, and the runtime's own if nothing is selected. |
| GpuRemap.RemapByConversions | src-tauri/src/gpu.rs:353-415 | A remapped placement told from the conversions alone: the converted ids in order, the ratios kept exactly when every selected id has a conversion, the split mode always, the main device only among the selected, and the dropped ids in order. |
| GpuRemap.RemapRuntimeDevices | src-tauri/src/gpu.rs:353-415 | The loop and the updates after it compute the remapping these lemmas are about, so its result is what the conversions say. |
| ShardGroups.PrintedPartParses | src-tauri/src/discover.rs:697-718 | The name printed for a part parses back to it. |
| ShardGroups.ParsedPartPrints | src-tauri/src/discover.rs:697-718 | A name that parses is the printed name of its part. |
| ShardGroups.PartIsInItsGroup | src-tauri/src/discover.rs:697-718 | Every accepted name lies in its own group, at its own number. |
| ShardGroups.MembersAgree | src-tauri/src/discover.rs:697-718 | All members of a group list the same group, without repetition. |
| ShardGroups.AbsentAreListed | src-tauri/src/discover.rs:731-757 | The missing parts are those of the group without a file in the folder, in the order of the group. |
| ShardGroups.MissingShards | src-tauri/src/discover.rs:731-757 | The memo table keyed by the first member gives what direct recomputation gives. |
| ShardGroups.InstalledFiles | src-tauri/src/discover.rs:788-802 | Every row is what direct recomputation gives. |
| ShardGroups.RowsAreListed | src-tauri/src/discover.rs:788-802 | There is one row for each listed file with a safe path that is there, in the order of the list, with its size and its missing parts. |
| ShardGroups.PlanIsTheSameFromAnyPart | src-tauri/src/discover.rs:993-1018 | A request for any part plans the same files in the same order, and no path twice. |
| ShardGroups.PlanHoldsPath | src-tauri/src/discover.rs:993-1018 | A plan holds the path it was asked for, unless its only slash is in front. |
| ShardGroups.LastListed | src-tauri/src/discover.rs:998-1001 | Of several files listed under a path the last one counts. |
| ShardGroups.FirstUnlisted | src-tauri/src/discover.rs:1002-1018 | A plan fails for the first of its paths that is not listed. |
| ServerArgs.NamesAgree | src-tauri/src/config.rs:808-816 | Migration and the configuration check read the same option name off every argument. |
| ServerArgs.ManagedIsNoValue | src-tauri/src/config.rs:925-936 | A managed option is never taken for the value of the option before it. |
| ServerArgs.TakenExactly | src-tauri/src/config.rs:925-955 | The argument behind a managed option goes with it exactly when the option has no equals sign and is no switch, and the argument does not start with a dash or is a number. |
| ServerArgs.NumberIsRead | src-tauri/src/config.rs:931-932 | Which texts are numbers: a sign, then digits with a point and an exponent, an infinity or not-a-number. |
| ServerArgs.SettingIsRead | src-tauri/src/config.rs:976-1036 | The texts that give each field a value: the nine cache types by name, and spellings of the integers in the field's range. |
| ServerArgs.ManagedIsListed | src-tauri/src/config.rs:34-121 | The managed options are the spellings of the twelve fields and four lists of others. |
| ServerArgs.NoneKeptIsManaged | src-tauri/src/config.rs:963-1045 | No argument that stays is one the configuration check refuses. |
| ServerArgs.OthersStayInOrder | src-tauri/src/config.rs:963-1045 | Every argument that is neither managed nor a managed option's value stays, in order. |
| ServerArgs.MigrationIsIdempotent | src-tauri/src/config.rs:963-1045 | Migrating again changes nothing. |
| ServerArgs.WrittenMigrates | src-tauri/src/config.rs:963-1045 | Whatever options, switches and other arguments were written, the others stay in order and each field the file lacked ends as its last option says. |
| ServerArgs.OneOptionMigrates | src-tauri/src/config.rs:963-1045 | Each spelling of each field with each of its values, negative ones included, in two arguments or joined, sets that field to that value, no other field, and leaves no argument. |
| ServerArgs.ServerConfig.MigrateServerArgs | src-tauri/src/config.rs:963-1045 | The loop keeps exactly those arguments and sets each of the twelve fields to its last parsable occurrence exactly when the file lacked it; on a written list that is what the items say. |
| InstallerDownload.WriteInstaller | src-tauri/src/app_update.rs:552-621 | Reports are strictly increasing confirmed counts within the limit, the last one is the confirmed count, nothing new to show is withheld, no confirmed bytes wait an interval at any moment the clock is read, and their number is at most 102 (2 without a percentage) plus elapsed time over a positive interval. |
| InstallerDownload.ChargedBound | src-tauri/src/app_update.rs:600-612 | Reports are charged to the first bytes, to the percentages shown and to whole intervals, which bounds their number. |
| InstallerDownload.ConfirmedIsWritten | src-tauri/src/app_update.rs:585-600 | The confirmed count is the sum of the chunks, up to the largest 64-bit number. |
| InstallerDownload.QuietPercent | src-tauri/src/app_update.rs:600-612 | With a positive total the percentage of the last report is that of the confirmed bytes. |

## Left out

- The GGUF scan's tensor-type collection, the strict string budget that goes with it, the filter that drops blank texts from text arrays, and the projection of facts by suffix: each is a filter on what the modelled scan already reads.
- UTF-8: GGUF texts are one character per byte and streamed text arrives decoded; lossy decoding is not modelled.
- SHA-256 and JSON: a hash that does not collide on the values in play, and a parser that inverts the printer on every value; how floats are printed and the recursion limit of the parser are not modelled.
- Directories as such: links, permissions, empty leftover folders and the forms of Windows paths. File deletions are assumed to succeed.
- ConversationMap.Conversations.Delete: the states a crash may leave in the middle of removing a folder are not related to the map; removal is not atomic in the program either.
- ConversationMap.Conversations.Save: refinement is stated for conversations that can be read after they were saved; ReadsAfterSave says which those are. An unreadable one is no entry of the map.
- ConversationMap.Conversations.constructor: folders that loading would report (unreadable or misnamed ones) are not part of the refinement; ConversationStore.Load covers them.
- ResponseHistory.History.DropNode: a drop runs to its end before the next one starts; interleavings of several drops are covered by ReleaseKeepsCounts and FreesExactlyTheUnreachable, one release at a time.
- EventStream.Stream: payloads are handed on as text; what the response state makes of them, and a client that leaves, are not modelled.
- The gateway's other streaming endpoint, its block indexes, and the translation of request and response fields.
- AttachmentDrop: lock contention on the native callback, which only refuses the drop.
- LaunchJobs: a poisoned lock.
- Safetensors.Reindex: copying, publishing and auditing the derived snapshot; weight files are given in sorted order.
- GpuRemap: condensing a device description to its identity is a parameter, and so is matching stable hardware ids to devices.
- ShardGroups.InstalledFiles: path safety, where a path is stored and which files exist are parameters that do not change during a query.
- ServerArgs.ServerConfig.MigrateServerArgs: the twelve typed fields are one map from field to value; the rest of the configuration is not part of this model.
- InstallerDownload.WriteInstaller: the percentage is any monotone function into 0..100 instead of a floating-point quotient, and a failing final flush is not modelled.
- HTTP, sockets, windows events, processes, provider catalogues, session normalisation and the user interface.
