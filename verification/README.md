# Premises, modelled and verified

Premises runs a Minecraft server on demand: a control plane accepts launches, and a runner prepares the world,
starts the game, watches over it and sends the world back. This project models the parts of it whose correctness
spans whole inputs or whole runs, and proves what they are for.

| file | what it models |
|---|---|
| `NbtFormat`, `NbtTarget`, `NbtTheorems`, `NbtLayout`, `NbtDecoder` | the NBT decoder: full trees with an encoder and a parser, Go values as targets, what decoding means, what every tag looks like byte by byte, and the decoder itself, consuming its reader in place |
| `Paths`, `Trees`, `Extraction`, `Streaming`, `WorldArchive` | archive names and paths, directory trees, streaming extraction with its temporary directory, and the archive writer |
| `WorldCache`, `WorldMiddleware`, `StateRepository`, `ServerJar` | the world kept on disk between launches, as a step machine and as the code that takes the steps; the concrete state repository below it; the clearing of the data directory beside it |
| `DependencyGraph`, `Scheduler` | the start-up task scheduler, under every map order and completion order |
| `InstanceLock`, `Launcher` | the lock every launch takes, as a step machine over interleaved launches, and the launcher's methods path by path |
| `VarInt`, `Handshake`, `Deliveries`, `Chunking`, `Proxy` | the Minecraft protocol reader over a connection that delivers in chunks, exactly which chunkings cut a field short, and the replay of what was buffered |
| `Framing`, `Rpc` | packets with header lines, and JSON-RPC calls and notifications from client to server and back |
| `Watchdogs`, `WatchdogRuns` | the monitoring loop with its three watchdogs, and what holds over whole runs of ticks |
| `Json`, `JsonReader`, `Events`, `EventReader`, `Outbound` | JSON texts and reading them back, the runner's events and reading them back, their batches, and both ends of posting them |
| `Generations` | pruning stored world generations and finding the latest one |
| `Retry` | doubling intervals with jitter |
| `Bytes`, `Options` | byte strings, big-endian integers, and an optional value |

Things outside the code are inputs or nondeterministic steps: what a connection delivers and in which chunks, which
store operation fails and whether it had taken effect, what the player list says at a tick, which post arrives, in
which order a map is walked. `dafny verify dfyconfig.toml` checks the whole project.

## How the pieces fit

Each stateful part has a class with the fields of the original and methods in its shape, each tied by its `ensures` to
a function of the old state. What the part is for is then proved about those functions, or about all runs of them.

* Decoding into a target is parsing the whole tag and then storing the tree (`DecodeIsParseThenStore`), and parsing is
  the inverse of an independently written encoder, in both directions. Everything else about the decoder follows:
  skipping agrees with decoding, the depth limit is exact, a struct target gets the projection of the compound.
* Streaming extraction keeps the output and the temporary directory in step with the entries read so far (`Streamed`).
  From that follow the exact condition under which any archive extracts and what it then leaves (`ExtractionIsExact`),
  and for archives of distinct entries that streaming does what two passes would. `RestoredExactly` composes this with
  the archive writer.
* The world cache, the launch lock and the watchdogs are state machines with an invariant over every reachable state.
  The code's methods record every state they pass through, with steps of others in between, and what they record is a
  run of the machine. Generations in the cache are archives: uploading writes one, and downloading extracts one.
* Beside these, each format and each rule is stated once more in literal terms: bytes, names, keys, codes, times. These
  statements (`NbtLayout`, `ExtractionByName`, `VarIntLayout`, `PacketLayout`, `EventLayout`, `PruningIsByAge` and
  others) use none of the functions that the code is proved against.
* The protocol reader is a function of what the connection delivers, chunk by chunk, so that a claim about all chunkings
  is a claim about all sequences of deliveries.

## What the code does that one might not expect

* The concrete state repository writes the JSON text of a value and hands back that text, quotes included
  (`SetThenGet`). So a stored world key never equals a generation that can be downloaded, and with this repository no
  launch skips its download; likewise a launch of the same version as the one before clears the data directory again
  (`LaunchTwice`). The cache's theorems are about the repository's interface.
* The world cache ignores the error of removing its key. If a removal can fail, a launch can start from another
  generation than it selected (`UnreliableRemovalBreaksCache`).
* When the game asks for a restart and the upload fails, the joined error still asks for the restart. The key is gone by
  then, so the next launch replaces the world that could not be uploaded (`RestartUnsavedWorld`).
* A user's upload of a world reuses a fixed key, so the generation under it can be replaced after a launch has
  downloaded it (`UserUploadReplaces`). What a launch has uploaded itself is not replaced that way, and only such a
  generation is ever the cached one (`CachedWorldIsItsGeneration`).
* A launch for a world whose name has a slash in it runs, but its world is never saved: the control plane refuses the
  upload (`backend/ctrlplane/common/handler/runner.go:242`), and nothing checks the name before. Nor can the latest
  generation of such a name be asked for. `Wrap` says so.
* The cached world equals what downloading its generation would give exactly if it has a level.dat file at its top;
  any other world is uploaded and cached as well (`CachedWorldIsItsGeneration`).
* A user may upload a world as a .tar.gz, but no launch can download it (`GzipIsNotDownloadable`): a launch that selects
  it clears the disk and then fails (`Fetch`).
* An archive entry before the first level.dat replaces a later one of the same path (`EarlierCopyStays`).
* Handling a runner's shutdown twice lets two launches be prepared at once (`CleaningTwiceBreaksLock`). The second
  report must still find the runner's key, so the first cleanup must be under way, or have stopped before deleting it:
  the cookie could not be read, the server was not available, could not be stopped or not be deleted, or the deletion
  failed. After a complete cleanup it cannot happen (`CompleteCleanupIsLast`), nor for a shutdown that is reported only
  once (`CleanupsFollowShutdowns`). Nothing else lets two launches hold the lock (`TwoHoldExactly`).
* A world without a level.dat file at its top is archived without complaint and does not come back as it was
  (`ArchiveAndExtract` says so with an if-and-only-if).
* Pruning groups generations by the part of their key before the first slash, but the latest generation is looked up
  by the whole world name. For a name with a slash in it, pruning can therefore remove the last generation; for any
  other name it never does (`LatestSurvivesExactlyForPlainNames`). Uploads refuse such names
  (`backend/ctrlplane/common/handler/runner.go:242`), so the key must have been put into the bucket by other means.
* The protocol reader refills its buffer at most once a call and reports a full read regardless. A field comes out padded
  with zeros exactly if two refills in a row end within it (`HandshakeIsCutExactly`; `AddressComesOutPadded` is an
  example). What the reader has taken off the connection it always keeps, so the replay is exact even then.
* A remote method that returns nil to a caller who wants a result makes the call fail.
* A status event without a status makes the handler panic, so the rest of its batch is not handled.

## Model

| member | source | states |
|---|---|---|
| NbtFormat.ParseUndoesEncode | backend/common/mc/nbt/decoder.go:201-295 | for every well-formed tree within the depth limit and any trailing bytes, parsing the encoder's output gives the tree back and leaves the trailing bytes |
| NbtFormat.ParseAcceptsOnlyEncodings | backend/common/mc/nbt/decoder.go:66-390 | whatever is accepted is the encoding of the tree it is read as, and that tree is well formed and within the limit |
| NbtFormat.DepthLimitIsExact | backend/common/mc/nbt/decoder.go:249-252 | a well-formed tree is accepted if and only if no path nests more compounds than the limit allows; lists do not count, a limit of 0 or less means none |
| NbtTarget.DecodeIsParseThenStore | backend/common/mc/nbt/decoder.go:66-390 | for every input and every target: decoding succeeds exactly when the whole tag parses and its tree matches the target, consumes the same bytes, and stores what storing the full tree stores |
| NbtTheorems.SkipAgreesWithDecode | backend/common/mc/nbt/decoder.go:66-343 | if a tag decodes into some target, skipping it succeeds too and consumes exactly the same bytes |
| NbtTheorems.DecodeUndoesEncode | backend/common/mc/nbt/decoder.go:392-416 | an encoded document decodes if and only if it is within the limit and matches the target; the tree is then stored and the bytes behind it are left alone |
| NbtTheorems.DecodeAcceptsOnlyDocuments | backend/common/mc/nbt/decoder.go:392-407 | nothing but an encoded, named document within the limit decodes, although the name's error is ignored |
| NbtTheorems.StructTargetAccepts | backend/common/mc/nbt/decoder.go:249-295 | a compound with distinct names goes into a struct if and only if every entry matches the field it names, if it names one |
| NbtTheorems.StructTargetIsProjection | backend/common/mc/nbt/decoder.go:258-292 | each field of the struct then holds the value of the entry with the field's key, or what it held before if there is none |
| NbtTheorems.WideEnoughKeepsValue | backend/common/mc/nbt/decoder.go:66-123 | a number keeps its value in every Go integer at least as wide as its tag |
| NbtLayout.DocumentLayout | backend/common/mc/nbt/decoder.go:345-407 | a document is a tag, the length of its name in two bytes with the upper one first, the name, and the payload |
| NbtLayout.UnknownTag | backend/common/mc/nbt/decoder.go:359-390 | a tag outside 1 to 12 is an error |
| NbtLayout.ByteLayout | backend/common/mc/nbt/decoder.go:66-78 | tag 1 takes one byte and stores its two's complement, cut to the target's width, in an integer only; with no byte it is the end of input |
| NbtLayout.ShortLayout | backend/common/mc/nbt/decoder.go:80-93 | tag 2 takes two bytes, the upper one first, and stores the 16-bit two's complement in an integer only |
| NbtLayout.IntLayout | backend/common/mc/nbt/decoder.go:95-108 | tag 3 takes four bytes and stores the 32-bit two's complement in an integer only |
| NbtLayout.LongLayout | backend/common/mc/nbt/decoder.go:110-123 | tag 4 takes eight bytes and stores the 64-bit two's complement in an integer only |
| NbtLayout.FloatLayout | backend/common/mc/nbt/decoder.go:125-139 | tag 5 takes four bytes, the bits of a float, and only a float takes it |
| NbtLayout.DoubleLayout | backend/common/mc/nbt/decoder.go:141-155 | tag 6 takes eight bytes, the bits of a double, and only a float takes it |
| NbtLayout.StringLayout | backend/common/mc/nbt/decoder.go:181-199 | tag 8 takes a length in two bytes and as many bytes, and only a string takes it |
| NbtLayout.ByteArrayLayout | backend/common/mc/nbt/decoder.go:157-179 | tag 7 takes a length in four bytes and as many bytes, and only a slice of bytes takes it |
| NbtLayout.IntArrayLayout | backend/common/mc/nbt/decoder.go:297-319 | tag 11 takes a length in four bytes and as many times four, and only a slice of 32-bit integers takes it |
| NbtLayout.LongArrayLayout | backend/common/mc/nbt/decoder.go:321-343 | tag 12 takes a length in four bytes and as many times eight, and only a slice of 64-bit integers takes it |
| NbtLayout.ListLayout | backend/common/mc/nbt/decoder.go:201-222 | tag 9 begins with the tag of its elements and their number in four bytes; an empty list leaves the target as it is, whatever tag it names |
| NbtLayout.IntListLayout | backend/common/mc/nbt/decoder.go:224-244 | a list of numbers is read one after the other into a slice |
| NbtLayout.NewElementIsZero | backend/common/mc/nbt/decoder.go:234-240 | what an element of a list leaves out is zero, whatever the slice held before |
| NbtLayout.CompoundLayout | backend/common/mc/nbt/decoder.go:249-295 | a compound is entries laid out like documents up to a zero byte; a number goes into the last field with its `nbt` key, or its name if it has none, and everything else stays |
| NbtLayout.NestedLayout | backend/common/mc/nbt/decoder.go:249-252 | n + 1 compounds inside one another are within a limit if and only if n is below it |
| NbtDecoder.Decoder.constructor | backend/common/mc/nbt/decoder.go:38-45 | a new decoder has no depth limit |
| NbtDecoder.Decoder.WithDepthLimit | backend/common/mc/nbt/decoder.go:47-51 | a decoder with the given limit |
| NbtDecoder.Decoder.ReadByte | backend/common/mc/nbt/decoder.go:202-205 | the next byte is taken, or the end of the input is reported |
| NbtDecoder.Decoder.ReadFull | backend/common/mc/nbt/decoder.go:82-84 | exactly n bytes are taken; a short read fails and takes what there was |
| NbtDecoder.Decoder.ReadInteger | backend/common/mc/nbt/decoder.go:207-211 | the next bytes, read as one big-endian number of that width |
| NbtDecoder.Decoder.ReadName | backend/common/mc/nbt/decoder.go:345-357 | a length and as many bytes, as the parser reads them |
| NbtDecoder.Decoder.ReadNumber | backend/common/mc/nbt/decoder.go:66-155 | the number readers store the two's complement value, truncated to the target's width, or the bits of a float; other targets are a mismatch |
| NbtDecoder.Decoder.ReadPacked | backend/common/mc/nbt/decoder.go:157-179 | the array readers consume exactly the announced elements and store them only in a slice of the matching element type |
| NbtDecoder.Decoder.ReadItems | backend/common/mc/nbt/decoder.go:305-311 | the element loop consumes its reader as the parser for that many elements does |
| NbtDecoder.Decoder.ReadString | backend/common/mc/nbt/decoder.go:181-199 | a string is consumed whole and stored only in a string |
| NbtDecoder.Decoder.ReadList | backend/common/mc/nbt/decoder.go:201-247 | a list is consumed and stored as decoding says; an empty one leaves the target untouched whatever its element tag |
| NbtDecoder.Decoder.ReadElems | backend/common/mc/nbt/decoder.go:224-244 | the element loop collects one new value per element at the list's own level, and none when skipping |
| NbtDecoder.Decoder.GetStructFields | backend/common/mc/nbt/decoder.go:53-64 | every key maps to the last field with that key, and nothing else is in the map |
| NbtDecoder.Decoder.ReadCompound | backend/common/mc/nbt/decoder.go:249-295 | a compound is consumed up to its end tag and stored field by field, within the limit and only in a struct |
| NbtDecoder.Decoder.ReadEntry | backend/common/mc/nbt/decoder.go:273-291 | one entry goes into the field of its name, or is skipped if there is none |
| NbtDecoder.Decoder.ReadPayload | backend/common/mc/nbt/decoder.go:359-390 | the reader chosen for a tag does what decoding that tag says, and terminates on every input |
| NbtDecoder.Decoder.Decode | backend/common/mc/nbt/decoder.go:392-416 | the decoder as a whole agrees with document decoding in its result, its error and the bytes left |
| Paths.BelowIsPrefixTest | backend/runner/commands/mclauncher/middleware/world/service/extract.go:59-64 | the extractor's string prefix test means "below the root" for paths, and trimming the prefix leaves the spelling of the components behind the root |
| Paths.TrimSuffixOfLast | backend/runner/commands/mclauncher/middleware/world/service/extract.go:53-56 | cutting level.dat off an entry's name spells the directory it is in, or leaves the name if it is spelled with a slash |
| Paths.ComponentsOfSpelling | backend/runner/commands/mclauncher/middleware/world/service/extract.go:51-63 | joining a spelled path yields its components and does not lead out of the directory |
| Paths.LastInName | backend/runner/commands/mclauncher/middleware/world/service/extract.go:51-53 | a path's last component is a given name if and only if its spelling, below any directory, ends in a slash and that name |
| Extraction.MoveAll | backend/runner/fs/copy.go:76-87 | the move succeeds if and only if no file meets a directory; then the output holds the moved tree over what it held, and the source is gone |
| Extraction.WalkAndMove | backend/runner/fs/copy.go:38-69 | the walk merges the tree into the output, whatever parents-first order it takes |
| Streaming.FileCreator.CreateFile | backend/runner/commands/mclauncher/middleware/world/service/extract.go:50-71 | one entry moves the extraction on by exactly one step of its specification, or fails when that does |
| Streaming.FileCreator.Finalize | backend/runner/commands/mclauncher/middleware/world/service/extract.go:73-84 | what the temporary directory holds of the world is merged into the output; without a level.dat, or with a file at the root or above it, it fails |
| Streaming.FileCreator.Run | backend/runner/commands/mclauncher/middleware/world/service/extract.go:194-251 | for every archive: extraction succeeds exactly when its specification does, and leaves exactly that tree |
| Streaming.ExtractIsStreamed | backend/runner/commands/mclauncher/middleware/world/service/extract.go:50-71 | over every archive, entry by entry, extraction gets on exactly as long as no two entries in the same place clash, and output and temporary directory stay in step with the entries read |
| Streaming.MergedRepresents | backend/runner/commands/mclauncher/middleware/world/service/extract.go:73-84 | merging the two halves leaves what the entries of both describe, with those of the temporary directory last |
| Streaming.MergeFailsOnClash | backend/runner/commands/mclauncher/middleware/world/service/extract.go:73-84 | the end fails exactly if an entry before the first level.dat clashes with one of the world after it |
| Streaming.ExtractionIsExact | backend/runner/commands/mclauncher/middleware/world/service/extract.go:50-84 | for every archive: extraction succeeds if and only if some entry is named level.dat and none of the entries it uses is a file where another has a directory; the output is then exactly what those entries describe below the root |
| Streaming.StreamingIsTwoPass | backend/runner/commands/mclauncher/middleware/world/service/extract.go:50-84 | for every order of distinct entries with nothing below a file: it succeeds if and only if some entry is named level.dat, and the output is exactly the entries below the first one's directory, prefix stripped, contents unchanged |
| Streaming.FirstLevelDatByName | backend/runner/commands/mclauncher/middleware/world/service/extract.go:50-56 | the root is the directory of the first entry whose name, below any directory, ends in "/level.dat" |
| Streaming.ExtractionByName | backend/runner/commands/mclauncher/middleware/world/service/extract.go:50-84 | an archive of distinct entries is extracted if and only if such an entry exists, at whatever depth and at the top as well, and leaves what is in that entry's directory |
| Streaming.EarlierCopyStays | backend/runner/commands/mclauncher/middleware/world/service/extract.go:73-84 | with a path repeated, the last copy before the first level.dat stays, whatever copies follow |
| WorldArchive.WriteTar | backend/runner/commands/mclauncher/middleware/world/service/service.go:124-248 | it succeeds if and only if the world is there and has no directory named level.dat at its top; the archive then lists every path of the world once, its own level.dat in second place |
| WorldArchive.ArchiveLayout | backend/runner/commands/mclauncher/middleware/world/service/service.go:124-248 | an archive has exactly one entry for each path of the world, with the directory's name in front and the world's content, level.dat right behind the directory |
| WorldArchive.DownloadableByName | backend/runner/commands/mclauncher/middleware/world/service/service.go:68-91 | a generation can be downloaded if and only if its key ends in ".zip", ".tar.xz" or ".tar.zst" |
| WorldArchive.GzipIsNotDownloadable | backend/ctrlplane/common/handler/api.go:533-546 | a world uploaded as a .tar.gz cannot be |
| WorldArchive.RestoredTree | backend/runner/commands/mclauncher/middleware/world/service/service.go:131-178 | with a level.dat file at the top the extractor finds the root where the writer put it, whatever subdirectories hold, and restores the tree |
| WorldArchive.NotRestoredTree | backend/runner/commands/mclauncher/middleware/world/service/service.go:180-241 | without one, whatever the extractor takes for the root, what it leaves is not the tree |
| WorldArchive.RestoredExactly | backend/runner/commands/mclauncher/middleware/world/service/service.go:124-248 | extracting any archive the writer can produce of a world gives the very same world if and only if it has a level.dat file at its top |
| WorldArchive.ArchiveAndExtract | backend/runner/commands/mclauncher/middleware/world/service/service.go:89-248 | writing a world and extracting it again gives the very same world if and only if it has a level.dat file at its top |
| WorldCache.StepKeepsInv | backend/runner/commands/mclauncher/middleware/world/world.go:44-95 | every step of a launch, every failure or crash between two steps and every outside change, a user's upload that replaces a stored generation included, keeps the cache sound |
| WorldCache.CachedWorldIsItsGeneration | backend/runner/commands/mclauncher/middleware/world/world.go:57-90 | in every reachable state, if the stored key is k and generation k still exists, it is an archive of the world on disk; and downloading it would give that very world if and only if the world has a level.dat file at its top |
| WorldCache.LaunchStartsFromSelected | backend/runner/commands/mclauncher/middleware/world/world.go:63-80 | a launch that has downloaded starts from exactly what the archive it downloaded extracts to; one that skipped the download starts from the world its generation was made of, which the generation extracts to if and only if the world has a level.dat file at its top |
| WorldCache.FetchedWasStored | backend/runner/commands/mclauncher/middleware/world/world.go:63-77 | the archive a launch has downloaded was stored under the key it selected, in the state just before the launch got ready |
| WorldCache.UserUploadReplaces | backend/ctrlplane/common/handler/api.go:515-562 | a user's upload reuses its key, so for every downloadable key a run exists in which the stored generation is no longer the one the launch has downloaded |
| WorldCache.NoKeyWhileRunning | backend/runner/commands/mclauncher/middleware/world/world.go:60-88 | from dropping the key until the upload is through, no key vouches for the world on disk |
| WorldCache.UnreliableRemovalBreaksCache | backend/runner/commands/mclauncher/middleware/world/world.go:60-61 | if removing the key can fail, then for any three distinct generations of the uploaded type a run exists in which a launch starts from another world than its generation extracts to |
| WorldCache.SomeKeys | backend/runner/commands/mclauncher/middleware/world/service/service.go:68-84 | there are such keys |
| WorldMiddleware.Middleware.Wrap | backend/runner/commands/mclauncher/middleware/world/world.go:44-95 | the middleware's effects are a run of the machine; a new world starts from an empty disk, any other from what was downloaded or from the disk as it was, and the download is skipped exactly for the key that was stored; a launch that ends well, or to be restarted, left the key of its own upload, or none; a restart whose upload failed stays a restart and leaves no key; under a world name with a slash nothing is uploaded, whatever happens, and a key is left only if the disk was not touched; without faults the outcome is settled by how the game ends, whether the world can be archived and whether its name has a slash, unless there was nothing to fetch: a generation that is missing, of another type or not extractable (`ExtractionByName` says which are), or the latest one of a name that has none or cannot be asked for |
| WorldMiddleware.Middleware.LaunchAgain | backend/runner/commands/mclauncher/middleware/world/world.go:44-95 | a launch of the generation that the launch before it kept downloads nothing and starts from the very world left on disk, whatever others do to the stored generations meanwhile |
| WorldMiddleware.Middleware.Select | backend/runner/commands/mclauncher/middleware/world/world.go:46-61 | the generation asked for, or for the latest one a newest listed generation of the world, is selected and the old key is gone from the store; without faults it fails if and only if the latest is asked for and there is none, or the name is empty or has a slash |
| WorldMiddleware.Middleware.GetRealResourceID | backend/ctrlplane/common/handler/runner.go:182-205 | the latest resource is a listed generation of the world that no other exceeds in whole seconds; any other is taken as it is; without faults the latest is found if and only if one is listed and the name is a path segment: not empty and without a slash |
| WorldMiddleware.Middleware.Prepare | backend/runner/commands/mclauncher/middleware/world/world.go:63-78 | the download is skipped exactly for a world that is not new and whose key is the one that was stored |
| WorldMiddleware.Middleware.Fetch | backend/runner/commands/mclauncher/middleware/world/world.go:70-77 | a cleaned disk gets what the selected generation extracts to, or stays empty for a new world; without faults it succeeds if and only if the generation is stored, extractable, and its key ends in ".zip", ".tar.xz" or ".tar.zst"; with another ending it fails in any case |
| WorldMiddleware.Middleware.LaunchAndUpload | backend/runner/commands/mclauncher/middleware/world/world.go:80-94 | only a launch that ended well or is to be restarted uploads, only an upload's key is stored, and a failed upload does not take back a request to restart; without faults the outcome is settled by how the game ends, whether the world can be archived and whether its name has a slash |
| WorldMiddleware.Middleware.KeepWorldKey | backend/runner/commands/mclauncher/middleware/world/world.go:84-90 | the key of the upload is stored or, if that fails or the process dies, no key is |
| WorldMiddleware.Middleware.Launch | backend/runner/commands/mclauncher/middleware/world/world.go:80-82 | the game does to the world what it likes, and only a good end or a restart counts as finished |
| WorldMiddleware.Middleware.UploadWorld | backend/ctrlplane/common/handler/runner.go:232-268 | only when the upload is answered does the launch know a key, which is the world's name, a slash, a time and ".tar.zst", and whose generation holds the world on disk under "world"; without faults it succeeds if and only if the world is there, has no directory named level.dat at its top, and its name has no slash |
| WorldMiddleware.Middleware.PutArchive | backend/runner/commands/mclauncher/middleware/world/service/service.go:286-325 | the archive written is the one stored under the key that comes back |
| WorldMiddleware.Middleware.RestartUnsavedWorld | backend/runner/commands/mclauncher/middleware/world/world.go:82-87 | the launch after a restart whose upload failed, for the latest generation or any other, starts from what it downloads of the generation it selects, not from the world left on disk |
| StateRepository.StateStore.Set | backend/runner/commands/exteriord/state.go:69-85 | it succeeds exactly if the file is readable and can be written, and then changes that one entry; otherwise nothing changes or no readable file is left, depending on where writing failed |
| StateRepository.StateStore.Get | backend/runner/commands/exteriord/state.go:87-97 | the entry, or the empty string if there is none; an error only if the file is unreadable |
| StateRepository.StateStore.Remove | backend/runner/commands/exteriord/state.go:99-115 | it succeeds exactly if the file is readable and can be written, and then drops that one entry |
| StateRepository.ExteriorStateRepository.SetState | backend/runner/commands/mclauncher/repository/state.go:24-34 | what is stored is the JSON text of the value; a call that is not lost succeeds exactly if the store does |
| StateRepository.ExteriorStateRepository.GetState | backend/runner/commands/mclauncher/repository/state.go:42-51 | what is read is the stored text as it is |
| StateRepository.SetThenGet | backend/runner/commands/mclauncher/repository/state.go:24-51 | reading back a value gives its JSON text, which is never the value |
| StateRepository.QuotedIsNoResource | backend/runner/commands/mclauncher/middleware/world/world.go:57-63 | no generation that can be downloaded equals any text this repository stores, so the comparison never skips a download |
| Json.QuoteIsLonger | backend/runner/commands/mclauncher/repository/state.go:24-28 | the JSON text of a string is longer than the string, so no string is its own |
| StateRepository.StateStore.Save | backend/runner/commands/exteriord/state.go:54-67 | the file is replaced as a whole, left as it was, or left unreadable, depending on where writing fails |
| ServerJar.ServerJarMiddleware.CleanupDataDir | backend/runner/commands/mclauncher/middleware/serverjar/serverjar.go:146-163 | exactly the entries other than "server.properties", "world" and those beginning with "ss@" are gone, unless their removal is refused; it fails if and only if the directory cannot be read or an entry that should go is refused |
| ServerJar.ServerJarMiddleware.Wrap | backend/runner/commands/mclauncher/middleware/serverjar/serverjar.go:166-184 | the directory is cleared exactly if the version read back is not the one asked for; what the store holds stays JSON texts; a launch that goes on and has its state stored leaves the JSON text of its version |
| ServerJar.VersionCanMatchExactly | backend/runner/commands/mclauncher/middleware/serverjar/serverjar.go:173-180 | over the texts this repository stores, the versions for which a launch finds its version stored are exactly the empty one and the JSON texts of strings |
| ServerJar.PlainVersionNeverMatches | backend/runner/commands/mclauncher/middleware/serverjar/serverjar.go:173-180 | a version that is not empty and does not begin with a quote is never found stored |
| ServerJar.ServerJarMiddleware.LaunchTwice | backend/runner/commands/mclauncher/middleware/serverjar/serverjar.go:166-184 | after a launch whose version was stored, a launch of any other text than that version's JSON text, the same version included, clears everything not spared |
| ServerJar.StoringKeepsJSON | backend/runner/commands/mclauncher/repository/state.go:24-34 | storing a version leaves only JSON texts under its key, wherever writing fails |
| ServerJar.WorldIsSpared | backend/runner/commands/mclauncher/middleware/serverjar/serverjar.go:153-156 | clearing never touches the cached world |
| DependencyGraph.StuckSetHasCycle | backend/runner/commands/exteriord/exterior/scheduler/scheduler.go:65-86 | a non-empty set of tasks in which each depends on another of them contains a cycle |
| DependencyGraph.NumberingRulesOutCycles | backend/runner/commands/exteriord/exterior/scheduler/scheduler.go:65-86 | tasks that can be numbered so that dependencies come first have no cycle |
| Scheduler.StartsAfterDependencies | backend/runner/commands/exteriord/exterior/scheduler/scheduler.go:66-78 | in every log the scheduler can produce, a task starts only after each of its dependencies has completed |
| Scheduler.HappensOnce | backend/runner/commands/exteriord/exterior/scheduler/scheduler.go:74-84 | no task starts twice or completes twice |
| Scheduler.CompletesAfterStart | backend/runner/commands/exteriord/exterior/scheduler/scheduler.go:49-52 | a task completes only after it has started |
| Scheduler.StuckMeansNotRunnable | backend/runner/commands/exteriord/exterior/scheduler/scheduler.go:65-86 | if nothing runs and nothing can be started but something is left, the dependencies have a cycle or dangle |
| Scheduler.FinishedMeansRunnable | backend/runner/commands/exteriord/exterior/scheduler/scheduler.go:65-86 | if everything completed, the dependencies were registered and without a cycle |
| Scheduler.Scheduler.RegisterTasks | backend/runner/commands/exteriord/exterior/scheduler/scheduler.go:54-58 | the tasks are exactly the old and the new ones; of the new ones the last with an ID is stored as it was given, and an old one that is not named stays |
| Scheduler.Scheduler.UncompletedDeps | backend/runner/commands/exteriord/exterior/scheduler/scheduler.go:67-72 | the count is zero if and only if every dependency has completed |
| Scheduler.Scheduler.StartEligible | backend/runner/commands/exteriord/exterior/scheduler/scheduler.go:66-79 | after the scan, in whatever order, every registered task whose dependencies have all completed has been started, and each start was legal |
| Scheduler.Scheduler.Run | backend/runner/commands/exteriord/exterior/scheduler/scheduler.go:60-86 | it ends, after exactly one completion of every task, if and only if the dependencies are registered and acyclic; otherwise it comes to wait with nothing running |
| Scheduler.RegisterAndRun | backend/runner/commands/exteriord/exterior/scheduler/scheduler.go:54-86 | tasks registered and run: each starts only after every dependency it was registered with has completed, and some task never starts if and only if the dependencies are not all registered or have a cycle |
| InstanceLock.StepKeepsInv | backend/ctrlplane/common/launcher/launcher.go:39-206 | every step of any interleaving of launches and cleanups, with store failures, keeps the lock's invariant |
| InstanceLock.AcquisitionsAlternate | backend/ctrlplane/common/launcher/launcher.go:39-62 | over every run acquisitions and releases strictly alternate, each release by the launch that acquired last |
| InstanceLock.AcceptedWhenFree | backend/ctrlplane/common/launcher/launcher.go:131-143 | a launch is accepted only when every earlier one has released |
| InstanceLock.OneLaunchAtATime | backend/ctrlplane/common/launcher/launcher.go:39-206 | there is at most one launch that is neither released nor given up, and as long as there is one the key is in the store |
| InstanceLock.HistoryNamesLaunchOnce | backend/ctrlplane/common/launcher/launcher.go:39-206 | no launch acquires twice or releases twice |
| InstanceLock.CleaningTwiceBreaksLock | backend/ctrlplane/common/launcher/launcher.go:145-146 | if a shutdown can be handled again after a cleanup that left the runner's key, a run exists with two launches being prepared |
| InstanceLock.TwoHoldExactly | backend/ctrlplane/common/launcher/launcher.go:39-206 | over every run, repeated cleanups included: two launches hold the lock in some state if and only if a repeated cleanup took the key from a launch beside which one was then accepted |
| InstanceLock.CompleteCleanupIsLast | backend/ctrlplane/common/handler/runner.go:270-287 | once a runner's key is deleted and no further cleanup is under way, its shutdown is never handled again |
| Launcher.KeyValueStore.GetSet | backend/ctrlplane/common/kvs/kvs.go:46-56 | the old value comes back and the new one is set in one step; a failed call may have set it |
| Launcher.KeyValueStore.Set | backend/ctrlplane/common/kvs/kvs.go:28-35 | one key is set; a failed call may have set it |
| Launcher.KeyValueStore.Get | backend/ctrlplane/common/kvs/kvs.go:37-44 | a missing key and a failure are told apart, and nothing changes |
| Launcher.KeyValueStore.Del | backend/ctrlplane/common/kvs/kvs.go:58-60 | the keys go; a failed call may have removed them |
| Launcher.LauncherService.LockInstance | backend/ctrlplane/common/launcher/launcher.go:39-54 | one atomic get-and-set that is the machine's accepting or refusing step; it accepts if and only if the key was absent and the store answered |
| Launcher.LauncherService.ReleaseInstance | backend/ctrlplane/common/launcher/launcher.go:56-62 | one attempt to delete the key that is the machine's releasing step and touches no other key |
| Launcher.LauncherService.Launch | backend/ctrlplane/common/launcher/launcher.go:131-143 | a launch is accepted if and only if it is valid, the key was absent and the store answered; an invalid one does not touch the store |
| Launcher.LauncherService.LaunchServer | backend/ctrlplane/common/launcher/launcher.go:64-129 | with any steps of other launches in between, and of the launch's own cleanup once it is handed over, it takes the launch from prepared to given up by one release, or hands it over and itself releases nothing; a launched server's cookie is what is stored for its cleanup, a runner that was not cleaned up after can authenticate itself, and without a server it is the setup script that is stored; which of these, and its messages, are settled by the configuration, the machine and the answers of the store |
| Launcher.LauncherService.Store | backend/ctrlplane/common/launcher/launcher.go:76-102 | one key, other than the lock's, gets the value and no other key changes |
| Launcher.LauncherService.LaunchAndClean | backend/ctrlplane/common/launcher/launcher.go:64-206 | a launch and its cleanup: what is stopped and then deleted is the server that was started |
| Launcher.LauncherService.StartRunner | backend/ctrlplane/common/launcher/launcher.go:88-129 | the launch goes to its runner, and its server's cookie or, without a server, its setup script is stored; the lock is held until the cleanup releases it |
| Launcher.LauncherService.GiveUpAndRelease | backend/ctrlplane/common/launcher/launcher.go:66-86 | a launch without a runner is given up by one release |
| Launcher.LauncherService.RegisterRunner | backend/ctrlplane/common/launcher/launcher.go:76 | a runner that is registered can authenticate itself: its key holds the runner's name; a failed registration may have stored its key |
| Launcher.LauncherService.HandOverToRunner | backend/ctrlplane/common/launcher/launcher.go:88-119 | once handed over, a launch is still there, with its runner's key, or being cleaned up after, whatever steps come in between |
| Launcher.LauncherService.Clean | backend/ctrlplane/common/launcher/launcher.go:145-206 | with other launches stepping in between, it takes the launch from handed over to released by exactly one release, its last store operation on every path; the server it stops and deletes is the one whose cookie is stored; after a complete cleanup the runner's keys are gone and its shutdown is not handled again |
| Launcher.LauncherService.CleanUp | backend/ctrlplane/common/launcher/launcher.go:148-205 | the cleanup proper leaves the lock held, deletes the runner's keys only after the server, if there is one, has been stopped and deleted, and publishes what its ending says, in order |
| Launcher.LauncherService.StopRunningServer | backend/ctrlplane/common/launcher/launcher.go:154-190 | the server of the cookie is stopped and then deleted; where that ends if it cannot be reached, stopped or deleted, and what has been published by then |
| Launcher.LauncherService.UnsetRunner | backend/ctrlplane/common/launcher/launcher.go:192-201 | the runner's four keys are deleted in one operation that leaves the lock held, and only a success is announced |
| Launcher.LauncherService.DeferredRelease | backend/ctrlplane/common/launcher/launcher.go:146 | the deferred release is the machine's releasing step and touches no other key |
| Launcher.CleaningReleasesNothing | backend/ctrlplane/common/launcher/launcher.go:148-205 | nothing a cleanup does before its deferred release releases the lock |
| VarInt.ReadUndoesWrite | backend/common/mc/protocol/protocol.go:58-102 | reading what was written gives the value and leaves what follows exactly for values below 2^35, and is an error for all others |
| VarInt.WriteIsShortest | backend/common/mc/protocol/protocol.go:58-102 | no accepted encoding of a value is shorter than the one written |
| VarInt.VarIntLayout | backend/common/mc/protocol/protocol.go:58-81 | of one to five bytes, each but the last of 128 and more, the number is the sum of their lower seven bits, the first lowest; a fifth byte of 128 or more is an error |
| VarInt.ParseVarInt | backend/common/mc/protocol/protocol.go:58-81 | at least one and at most five bytes are consumed |
| VarInt.WriteVarInt | backend/common/mc/protocol/protocol.go:83-102 | the loop ends for every value that is not negative and writes its encoding |
| Handshake.HandshakeRoundTrip | backend/common/mc/protocol/protocol.go:148-188 | an encoded handshake is read back field by field, and what follows it is left alone |
| Handshake.HandshakeLayout | backend/common/mc/protocol/protocol.go:148-188 | byte by byte: length, packet, version, the length of the address and the address, the port with its upper byte first, the next state |
| Handshake.AddressLimit | backend/common/mc/protocol/protocol.go:163-175 | an address of 255 bytes is read whole, one of 256 is an error |
| Handshake.ParseAddress | backend/common/mc/protocol/protocol.go:163-175 | no address over 255 bytes is accepted |
| Deliveries.NothingIsLost | backend/common/mc/protocol/protocol.go:25-37 | one read of a connection splits what is to come into what it gives and what it leaves |
| Deliveries.RefillIsBounded | backend/common/mc/protocol/protocol.go:24-43 | a read that finds enough in the buffer takes nothing off the connection, any other takes at most 512 bytes of one chunk, and an error drops what came with it |
| Deliveries.HandshakeKeeps | backend/common/mc/protocol/protocol.go:24-43 | after any successful handshake, under any chunking, the buffer is exactly what was taken off the connection |
| Deliveries.HandshakeParses | backend/common/mc/protocol/protocol.go:148-188 | unless some field was cut short, the packet is the one on the stream and reading goes on behind it |
| Chunking.TakeIsCutExactly | backend/common/mc/protocol/protocol.go:24-43 | a field is cut short if and only if two refills in a row end within it, that is, if what is buffered and the next refill fall short of it |
| Chunking.VarIntIsWhole | backend/common/mc/protocol/protocol.go:58-81 | a variable-length integer is never cut short while each chunk brings something |
| Chunking.HandshakeIsCutExactly | backend/common/mc/protocol/protocol.go:148-188 | for every chunking of a handshake and what follows it, in which each chunk brings something and the connection does not fail: some field is cut short if and only if two refills in a row end within the address or within the port; otherwise the packet is the one sent |
| Chunking.AddressComesOutPadded | backend/common/mc/protocol/protocol.go:171-175 | a handshake and a chunking of it for which the handshake succeeds with a zero in place of the last byte of the address |
| Chunking.OneChunkIsWhole | backend/common/mc/protocol/protocol.go:148-188 | a handshake that arrives in one chunk is read as sent |
| Proxy.Reader.Read | backend/common/mc/protocol/protocol.go:24-43 | one call does what its specification says: at most one refill of up to 512 bytes, then the buffered bytes, zeros for what is missing, or a panic behind the buffer |
| Proxy.Reader.ReadVarInt | backend/common/mc/protocol/protocol.go:58-81 | over the buffering reader the loop reads group by group what its specification says |
| Proxy.Reader.ReadAddress | backend/common/mc/protocol/protocol.go:163-175 | a length, at most 255, and one read of that many bytes |
| Proxy.Reader.ReadShort | backend/common/mc/protocol/protocol.go:104-111 | two bytes of one read, big-endian |
| Proxy.Reader.ReadHandshake | backend/common/mc/protocol/protocol.go:148-188 | for any deliveries the reader's result, its buffer and what is left of the connection are what the specification says |
| Proxy.Upstream.Write | backend/ctrlplane/common/proxy/proxy.go:266 | a write sends all or a prefix, and nothing after a failure |
| Proxy.Copy | backend/ctrlplane/common/proxy/proxy.go:268 | what was sent before and what is read goes upstream in order, until reading or writing fails; a client's connection that does not fail is read to its end |
| Proxy.Forward | backend/ctrlplane/common/proxy/proxy.go:263-272 | under any chunking, padded fields included, the server receives the client's stream byte for byte from its beginning: all that was read of it unless its connection broke, and all of it if the client's connection does not fail |
| Framing.ReadUndoesWrite | backend/runner/rpc/protocol.go:74-137 | for any body, traceparent and trailing bytes, with header lines below the line buffer, reading a written packet gives body and traceparent back, and the call's buffered reader stands at the trailing bytes |
| Framing.AtoiUndoesItoa | backend/runner/rpc/protocol.go:91-95 | a written length is read back if and only if it is below 2^63 |
| Framing.LineRoundTrip | backend/runner/rpc/protocol.go:80-86 | a header line that fits the buffer is read back whole |
| Framing.LineEndsAtNewline | backend/runner/rpc/protocol.go:80-83 | a line ends at the first newline within its first 4096 bytes, and loses the carriage return before it |
| Framing.LongLineIsCut | backend/runner/rpc/protocol.go:80-83 | without one it is cut after 4096 bytes, or before a carriage return there |
| Framing.HeaderRoundTrip | backend/runner/rpc/protocol.go:87-90 | a header splits into its name and its value, whatever colons the value holds |
| Framing.EqualFoldIsByLetter | backend/runner/rpc/protocol.go:91-98 | header names are compared letter by letter whatever the case, and in nothing else do they differ unnoticed |
| Framing.PacketLayout | backend/runner/rpc/protocol.go:120-137 | what is on the wire: the length line, the traceparent line if there is one, an empty line, and the body |
| Framing.LengthIsRequired | backend/runner/rpc/protocol.go:101-103 | a packet that does not announce its length is an error |
| Framing.ReceivePacket | backend/runner/rpc/protocol.go:74-118 | the header loop accepts exactly the packets of the specification and leaves the call's buffered reader at what follows them |
| Rpc.Exchange | backend/runner/rpc/server.go:182-199 | any request over the wire: nothing comes back if and only if it is a version-2.0 notification, and else one response of version 2.0 with its id, which has the handler's result, or an error: -32600 for another version, -32601 for an unknown method, -32000 with the handler's error |
| Rpc.Server.RegisterMethod | backend/runner/rpc/server.go:45-49 | the method table gets the entry, the other table and what was handled stay |
| Rpc.Server.RegisterNotifyMethod | backend/runner/rpc/server.go:51-55 | the notification table gets the entry, the other table and what was handled stay |
| Rpc.Server.HandleConnection | backend/runner/rpc/server.go:182-199 | one request in, its response or nothing out; a registered notification is delivered once, and a malformed packet does nothing |
| Rpc.HandleCall | backend/runner/rpc/client.go:50-82 | a call through client, wire and server returns exactly the handler's result or its error |
| Rpc.HandleNotify | backend/runner/rpc/client.go:84-90 | a notification gets nothing back and reaches a registered method once |
| Watchdogs.LivenessWatchdog.Check | backend/runner/commands/mclauncher/middleware/monitoring/watchdog/liveness.go:37-65 | the flag and the remembered flag after a check, by the cadence of 10 ticks online and 3 offline |
| Watchdogs.OneTimeInitWatchdog.Check | backend/runner/commands/mclauncher/middleware/monitoring/watchdog/onetimeinit.go:35-72 | the latch is set at the first online tick, before the commands run |
| Watchdogs.ActivenessWatchdog.Check | backend/runner/commands/mclauncher/middleware/monitoring/watchdog/activeness.go:30-70 | what is remembered and whether a stop is issued at this tick |
| Watchdogs.MonitoringMiddleware.RunTick | backend/runner/commands/mclauncher/middleware/monitoring/monitoring.go:53-79 | one round is one tick of the specification: the watchdogs in order, then a status event on a change |
| Watchdogs.MonitoringMiddleware.Run | backend/runner/commands/mclauncher/middleware/monitoring/monitoring.go:28-81 | the loop's state after any inputs is the one the specification reaches |
| WatchdogRuns.StatusesAlternate | backend/runner/commands/mclauncher/middleware/monitoring/monitoring.go:27-85 | over every run the status events alternate Loading and Running, Loading first, the last one saying whether the server is online |
| WatchdogRuns.InitialisedAtMostOnce | backend/runner/commands/mclauncher/middleware/monitoring/watchdog/onetimeinit.go:35-40 | one-time initialisation is attempted exactly once if the server was ever online and never otherwise |
| WatchdogRuns.ReportedExactly | backend/runner/commands/mclauncher/middleware/monitoring/watchdog/onetimeinit.go:35-72 | the start is reported if and only if the initialisation goes through at the first online tick |
| WatchdogRuns.ComesUpInThreeTicks | backend/runner/commands/mclauncher/middleware/monitoring/watchdog/liveness.go:44-62 | a server reachable for three ticks counts as online, and as long as it stays reachable |
| WatchdogRuns.GoesDownInTenTicks | backend/runner/commands/mclauncher/middleware/monitoring/watchdog/liveness.go:38-62 | a server unreachable for ten ticks counts as offline, and as long as it stays unreachable |
| WatchdogRuns.LastDialDecides | backend/runner/commands/mclauncher/middleware/monitoring/watchdog/liveness.go:37-65 | over every run, whether the server counts as online is what the last dial found, and it is dialled exactly at every tenth tick while online and every third while not |
| WatchdogRuns.LastActiveIsTracked | backend/runner/commands/mclauncher/middleware/monitoring/watchdog/activeness.go:41-60 | what the watchdog remembers is the later of the first online tick and the last tick at which players were seen |
| WatchdogRuns.StopsExactlyWhenIdle | backend/runner/commands/mclauncher/middleware/monitoring/watchdog/activeness.go:30-70 | over every run the stop command is issued at tick w if and only if w is a multiple of 60, the server is online, the list succeeds empty, and the last activity is at least 60(T+1) ticks back |
| WatchdogRuns.IdleServerIsStopped | backend/runner/commands/mclauncher/middleware/monitoring/watchdog/activeness.go:58-66 | a server that stays online and empty after a is stopped before a + 60(T+2) |
| WatchdogRuns.NoTimeoutNoStop | backend/runner/commands/mclauncher/middleware/monitoring/watchdog/activeness.go:31-34 | without a timeout nothing is ever stopped |
| Json.WritesNoControls | backend/runner/commands/exteriord/outbound/outbound.go:126-133 | no JSON text is empty or holds a control character (section 7 of RFC 8259), so the separator never occurs inside one |
| Json.TextLayout | backend/runner/commands/exteriord/outbound/outbound.go:126-133 | the text of each kind of value (sections 3 to 6 of RFC 8259), without white space |
| Json.QuoteLayout | backend/runner/commands/mclauncher/repository/state.go:24-28 | quotes are escaped, and so are line ends and angle brackets |
| JsonReader.ReadUndoesWrite | backend/ctrlplane/common/handler/runner.go:84-91 | any written text is read back as the value, whatever follows it |
| Events.SplitUndoesJoin | backend/ctrlplane/common/handler/runner.go:77-82 | splitting a posted body at NUL recovers exactly the texts of the batched events, in order, and one empty piece |
| Events.BatchLayout | backend/runner/commands/exteriord/outbound/outbound.go:126-139 | each text of a batch is followed by a zero byte, the last one too |
| EventReader.EventLayout | backend/common/entity/runner/entity.go:20-59 | the members of an event and of its parts, by name and in order |
| EventReader.UnmarshalUndoesMarshal | backend/ctrlplane/common/handler/runner.go:84-91 | the control plane reads back every event a runner reports |
| EventReader.PushedEventsArrive | backend/ctrlplane/common/handler/runner.go:77-122 | so, whatever is lost, what is handled was pushed, in that order and at most once, and no more cleanups are started than shutdowns were pushed |
| Outbound.ControlPlane.HandlePostStatus | backend/ctrlplane/common/handler/runner.go:58-128 | for any body, the events before the first that cannot be handled are handled in order, and a shutdown event starts one cleanup and ends the batch; the client gets an error if and only if handling an event that is reached fails |
| Outbound.EventsByType | backend/ctrlplane/common/handler/runner.go:96-114 | a status of code 1 is the shutdown, one without a status makes the handler panic, and hello and started events need the store |
| Outbound.HandledUpTo | backend/ctrlplane/common/handler/runner.go:79-122 | what is handled are the events of all pieces before the first that is unreadable, fails or reports the shutdown, and that one's unless it cannot be read or makes the handler panic |
| Outbound.HandledIsPrefix | backend/ctrlplane/common/handler/runner.go:79-122 | of a batch that is read back, a prefix is handled |
| Outbound.HandledIsAll | backend/ctrlplane/common/handler/runner.go:79-122 | all of it is, if its events are well formed, none reports the shutdown, and the store works |
| Outbound.Server.SendStatus | backend/runner/commands/exteriord/outbound/outbound.go:97-104 | the buffer is reset whether or not the post arrives |
| Outbound.Server.HandleMonitor | backend/runner/commands/exteriord/outbound/outbound.go:91-140 | for any interleaving of ticks and pushes and any loss of posts: the buffer holds what is pending, and what has been handled, and the cleanups started, are what the specification says |
| Outbound.PostedOrPending | backend/runner/commands/exteriord/outbound/outbound.go:106-139 | what was posted followed by what is pending is exactly what was pushed, in order: nothing is lost or duplicated in the buffer |
| Outbound.WhatIsPending | backend/runner/commands/exteriord/outbound/outbound.go:106-139 | what is pushed waits until a tick or a push that is to be sent at once, and then everything goes |
| Outbound.HandledInPushOrder | backend/ctrlplane/common/handler/runner.go:77-122 | over all runs, every event handled was pushed, in push order and at most once |
| Outbound.HandledWerePosted | backend/ctrlplane/common/handler/runner.go:77-122 | what is handled is a subsequence of what was posted, whichever posts are lost and wherever a batch stops |
| Outbound.CleanupsFollowShutdowns | backend/ctrlplane/common/handler/runner.go:96-105 | over all runs no more cleanups are started than shutdowns were pushed, so a runner that reports its shutdown once is cleaned up after at most once |
| Outbound.AllPostedAreHandled | backend/ctrlplane/common/handler/runner.go:77-122 | if nothing fails, what is handled is exactly what was posted |
| Generations.WorldService.ListObjects | backend/common/s3wrap/s3wrap.go:74-110 | every listed key with the prefix, once, with its time; keys ending in a slash are never listed |
| Generations.ListingByName | backend/common/s3wrap/s3wrap.go:74-110 | listed are the keys that begin with the prefix and do not end in a slash |
| Generations.WorldService.DeleteObjects | backend/common/s3wrap/s3wrap.go:112-153 | the named keys go, except those the storage refuses; without a refusal it succeeds |
| Generations.SortNewestFirst | backend/ctrlplane/common/world/world.go:147-149 | the same objects, newest second first |
| Generations.GroupByPrefix | backend/ctrlplane/common/world/world.go:128-140 | each world that occurs has exactly its objects, in listed order; keys without a slash are in no group |
| Generations.GenerationByName | backend/ctrlplane/common/world/world.go:128-140 | a generation of a world has the world's name, which has no slash, in front of a slash, and does not end in one |
| Generations.WorldService.PruneSlice | backend/ctrlplane/common/world/world.go:142-160 | of one world exactly min(k, n) generations stay, none older in whole seconds than one that goes; refused deletions stay as well |
| Generations.WorldService.Prune | backend/ctrlplane/common/world/world.go:171-187 | in any order of worlds, each world keeps exactly min(k, n) generations, none older in whole seconds than a deleted one of it, and nothing but generations of worlds is deleted |
| Generations.PruningKeepsCount | backend/ctrlplane/common/world/world.go:142-187 | of each world as many stay as are to be preserved, or all if there are fewer |
| Generations.PruningIsByAge | backend/ctrlplane/common/world/world.go:147-160 | no generation stays that is a full second or more older than one of the same world that goes |
| Generations.PruningIgnoresFractions | backend/ctrlplane/common/world/world.go:147-149 | of two generations from the same second the newer may go |
| Generations.WorldService.GetLatestWorldKey | backend/ctrlplane/common/world/world.go:95-110 | a listed key of the world that no other exceeds in whole seconds, or not found if and only if there is none |
| Generations.LatestIsNewest | backend/ctrlplane/common/world/world.go:95-110 | the latest generation is no full second older than any other of the world |
| Generations.LatestOfSameSecond | backend/ctrlplane/common/world/world.go:95-110 | of several from the same second any may be the latest |
| Generations.LatestSurvives | backend/ctrlplane/common/world/world.go:95-187 | for k at least 1 and a name without a slash, pruning keeps a latest generation with the same newest second |
| Generations.LatestIsAsNew | backend/ctrlplane/common/world/world.go:95-187 | any generation that may be answered after pruning has the second of any that might have been answered before |
| Generations.LatestSurvivesExactlyForPlainNames | backend/ctrlplane/common/world/world.go:95-140 | a world's last generation survives every pruning of every bucket if and only if its name has no slash |
| Retry.R.NextInterval | backend/common/retry/retry.go:18-36 | the interval with its jitter is accounted for, and the next one is doubled up to a minute |
| Retry.RetryUntil | backend/common/retry/retry.go:53-74 | it ends at the first success, or gives up at the first failure after more than failAfter of accounted waiting |
| Retry.GivesUpInTime | backend/common/retry/retry.go:18-40 | whatever the jitter, giving up overshoots failAfter by less than 60 s + 3 s |
| Retry.AttemptsAreFew | backend/common/retry/retry.go:18-74 | for failAfter of at least 63 s, at most 8 + (failAfter - 63 s)/60 s attempts are made |
| Retry.AttemptsBoundIsMet | backend/common/retry/retry.go:18-74 | without jitter, an attempt that gives up is no earlier than that bound: it cannot be improved |
| Retry.WaitedInMinutes | backend/common/retry/retry.go:30-33 | from the sixth wait on, the waiting adds up to 63 s and a minute for each further wait |
| Retry.IntervalsLevelOff | backend/common/retry/retry.go:30-33 | every interval before jitter lies between a second and a minute, and from the sixth on it is a minute |
| Retry.ElapsedBounds | backend/common/retry/retry.go:19-28 | jitter only lengthens the waiting, by less than 3 s a wait |

## Left out

- NbtTarget.StoreLeaf: floats are kept as bit patterns with their width, so the rounding of a double into a float32 field is not modelled, nor are named slice types or unexported fields.
- NbtTarget.DecodeIsParseThenStore: targets are finite Go types, so a struct type that contains slices of itself is not among them.
- NbtDecoder.Decoder.ReadFull: when decoding fails, the part of the target already written and the position of the reader are not modelled; lengths are taken as 32-bit unsigned numbers in an unbounded integer, as on a 64-bit machine.
- Streaming.FileCreator.Run: entry names are clean: without "..", "." and doubled slashes, and a regular file's without a slash behind it.
- WorldArchive.WriteTar: one directory is archived per call, as the caller does; symbolic links and other file types, which the code refuses, file modes, compression, and failing reads and writes of files are not modelled.
- Extraction.MoveAll: file operations fail only where a file meets a directory; a failing disk is not modelled.
- The ZIP unarchiver, which differs from the tar one only in how it finds the names, and decompression.
- WorldCache.CachedWorldIsItsGeneration: the removal of the key is taken to take effect, which the interface promises but the code does not check; the machine without that assumption is the subject of the counterexample.
- WorldCache.StepKeepsInv: a launch's upload can have the key of an earlier one of the same second, but an upload of the same key that takes effect after this one was answered is not modelled.
- Scheduler.Scheduler.Run: one run of a fresh scheduler, with the started flags kept as a set; what the tasks do is not modelled.
- InstanceLock.AcquisitionsAlternate: that each accepted launch is cleaned up after at most once is a condition on the runs; `Outbound.CleanupsFollowShutdowns` shows that it holds for a runner that reports its shutdown once.
- Launcher.LauncherService.LaunchServer: the messages of a cleanup that steps in between are not among those it is said to publish.
- Launcher.KeyValueStore.Set: entries do not expire; the setup script's does, after an hour.
- Launcher.LauncherService.Clean: other launches, in between, touch only the lock's key; what else is stored under the runner's keys meanwhile is not modelled.
- Proxy.Reader.Read: the moves of the position after an error, which ends the connection, are simplified.
- The status and ping packets, the dummy server and the direction from the game server to the client.
- Framing.ReadUndoesWrite: each call wraps the connection in a new buffered reader, so bytes that one call has read ahead are lost to the next; a connection carries one packet each way.
- Rpc.HandleCall: handlers are functions of their parameters, JSON is a codec that reads back the messages of the call, and the trace spans are left out.
- Watchdogs.MonitoringMiddleware.Run: ticks are counted, not timed, so a slow check that makes the ticker drop ticks is not modelled; the commands of the one-time initialisation are one input.
- Outbound.HandledInPushOrder: that the control plane reads back the JSON text of an event is a hypothesis here, which `EventReader.UnmarshalUndoesMarshal` proves of the reader there; strings are characters, so the replacement of invalid UTF-8 is not modelled; pushes are ordered as they enter the channel.
- JsonReader.ReadUndoesWrite: the reader accepts what the writer writes and not all of JSON: white space, fractions, exponents and escapes of surrogates are errors, and names of members are compared exactly.
- Generations.SortNewestFirst: one stable order stands for any sorting; every claim about pruning holds for whichever of two generations of the same second stays.
- Retry.RetryUntil: a cancelled context, which cuts waits short, is not modelled.
- Long-poll delivery of actions, the rendezvous in the proxy pool, undoing a snapshot, and the GetWorlds listing.
- User interface, configuration, migrations, telemetry, and the clients of ConoHa, S3, Redis and HTTP.
