# tinyimage-server: a verified model of the conversion bookkeeping

tinyimage-server is a small Go service (`main.go`) that converts uploaded images to
webp, png or jpg. It takes uploads on `POST /upload` (a multipart form) and on a
WebSocket (`/ws`, JSON messages carrying base64 data). Each request becomes a task
identified by a *process key*: the hex MD5 of the content, the normalised target
format, and the quality (1..100 for jpg, 0 otherwise). Three tables track tasks:

- `queue`: the tasks waiting or running, with the client's file name;
- `statusMap`: the last status of every task, one of queued, processing, done or failed;
- `processed`: the tasks that have completed.

A worker converts the input and writes `output/<md5>.<format>` (or
`output/<md5>.jpg_<quality>`). `GET /queue/<md5>` and `GET /status/<md5>` list
the tasks of one digest. `GET /download/<md5>` serves the first artifact found and
records it in an eviction ledger. A background sweep deletes every recorded artifact
once 50 downloads have accumulated. The configuration supplies the upload limit as a
size string (`10MB`, `1G`, ...) and the size of the worker pool.

This project models that bookkeeping in Dafny:

- `text.dfy`: the Go library behaviour the server relies on. This covers
  `strings.TrimSpace` with Go's white-space set, ASCII `ToLower`/`ToUpper`,
  `HasSuffix`/`TrimSuffix`, `%d` rendering, `fmt.Sscanf("%d")` into an int64,
  `strconv.Atoi`, and int64 wrap-around.
- `fingerprint.dfy`: format normalisation, the quality clamp, the process key and
  output paths.
- `size_config.dfy`: `parseSize`, the 10MB fallback and the worker-pool default.
- `storage.dfy`: the output directory (class `OutputStore`), the download probe
  (`ResolveDownload`, the loop of the download handler) and the eviction ledger
  (class `EvictionLedger`, with `RecordServed` and `Sweep`).
- `registry.dfy`: the three task tables as class `TaskRegistry`, with
  `markDone`, `markFailed`, the two lookups by digest, and `processTask`.
- `server.dfy`: the admission checks of both entry points and the registration
  each entry point performs. It also has the download handler and scenario
  methods that show how these pieces interact.

Where the code and its documentation differ, the model follows the code:

- The upload path deduplicates only *completed* tasks. An identical upload made
  while the first is queued, running or failed is registered and converted again,
  so no "processed at most once" property is claimed.
- The WebSocket path checks `processed` and registers in two separate critical
  sections, and it re-registers a completed key whose artifact can no longer be read.
- `markFailed` changes only the status: a failed task stays in `queue`.
- `/queue/<md5>` and `/status/<md5>` match the digest *exactly*, not as a prefix
  (`Registry.ListsOnlyExactDigest`).

## Model

| member | source | states |
|---|---|---|
| `Text.TrimSpace` | main.go:466 | the result has no white space (Go's `unicode.IsSpace` set) at either end |
| `Text.TrimSpaceIsSlice` | main.go:466 | the result is a slice `s[i..j]` of the input, and every character dropped before `i` and after `j` is white space |
| `Text.TrimSpacePadded` | main.go:551 | white space around trimmed, non-empty text is removed and the text itself kept |
| `Text.ToLower` | main.go:466 | same length, and each character is mapped by itself: ASCII upper-case letters to their lower case, everything else unchanged |
| `Text.ToUpper` | main.go:551 | same length, and each character is mapped by itself: ASCII lower-case letters to their upper case, everything else unchanged |
| `Text.TrimSuffix` | main.go:556 | with the suffix present the result plus the suffix is the input; otherwise the input unchanged |
| `Text.IntToDecimal` | main.go:479 | a non-negative number renders as non-empty digits; a negative one as a minus sign followed by digits |
| `Text.DecimalRoundTrip` | main.go:479 | reading back the `%d` rendering of a natural number gives the number |
| `Text.IntToDecimalInjective` | main.go:479 | distinct integers have distinct `%d` renderings |
| `Text.ScanInt64` | main.go:578 | a number is read only from text starting with a sign or a digit, is an int64, is negative only after a minus sign, and text without digits reads nothing |
| `Text.ScanRenderedNat` | main.go:578 | `Sscanf("%d")` reads back every rendered int64-sized natural number |
| `Text.Atoi` | main.go:114 | the result is an int64; it is negative only after a minus sign and non-zero only when a digit follows the sign; text with anything after the digits gives 0 unless the digits already overflow 64 bits |
| `Text.AtoiRoundTrip` | main.go:114 | `strconv.Atoi` reads back the `%d` rendering of every int64 |
| `Text.WrapInt64` | main.go:582 | the result is an int64 congruent to the input modulo 2^64, and equal to it when it fits |
| `Text.WrapInt64Once` | main.go:582 | a value at most one turn above the int64 range wraps to itself minus 2^64 |
| `Fingerprint.NormalizeFormat` | main.go:465-474 | the result is never empty and never "jpeg", and is trimmed and lower case |
| `Fingerprint.NormalizeFormatCases` | main.go:465-474 | blank text becomes webp, "jpeg" becomes jpg, anything else is its trimmed lower-case form |
| `Fingerprint.NormalizeFormatIdempotent` | main.go:465-474 | normalising twice is normalising once |
| `Fingerprint.SupportedFormatsAreNormal` | main.go:461-463 | each of webp, png and jpg is its own normal form |
| `Fingerprint.NormalizedFormatSupported` | main.go:461-463 | a format is accepted exactly when its trimmed lower-case text is blank, webp, png, jpg or jpeg |
| `Fingerprint.NormalizeFormatExample` | main.go:470-471 | a padded "JPEG" is normalised to jpg |
| `Fingerprint.EffectiveQuality` | main.go:300-307 | jpg keeps a requested quality in 1..100 and uses 80 otherwise; every other format gets 0 |
| `Fingerprint.KeyFor` | main.go:133 | the key carries the digest, the format and the effective quality: for jpg the requested value when it lies in 1..100 and 80 otherwise, 0 for any other format; a supported format gives a well-formed key |
| `Fingerprint.KeyForWellFormed` | main.go:133 | keys of supported formats are well formed; non-jpg keys ignore the requested quality; distinct valid jpg qualities give distinct keys |
| `Fingerprint.OutputPathLayout` | main.go:477-482 | the path is `output/`, the digest, a dot, then `jpg_<quality>` for jpg keys and the format otherwise |
| `Fingerprint.ArtifactPathInjective` | main.go:477-482 | for equal-length digests, `output/<md5>.<ext>` determines both the digest and the extension |
| `Fingerprint.JpgQualitiesGetDistinctPaths` | main.go:478-480 | jpg artifacts of one content at different qualities have different paths |
| `Fingerprint.OutputPathInjective` | main.go:477-482 | distinct valid keys write distinct output files |
| `SizeConfig.ParseSize` | main.go:550-583 | the parsed size is always an int64 |
| `SizeConfig.SplitUnit` | main.go:553-575 | the number part is the text with at most two characters removed from its end, and the multiplier is 1, 1KiB, 1MiB or 1GiB |
| `SizeConfig.SplitUnitCases` | main.go:553-575 | the suffix decides: GB, MB and KB drop two characters, G, M, K and a B not after them drop one, with the matching multiplier; any other ending is kept with multiplier 1 |
| `SizeConfig.CanonicalSplit` | main.go:551-575 | digits followed by a unit, upper-cased and trimmed, split back into the digits and the unit's multiplier |
| `SizeConfig.SplitRenderedUnit` | main.go:553-575 | digits followed by any unit suffix split back into the digits and that unit's multiplier |
| `SizeConfig.ParseSizeRendered` | main.go:550-583 | a decimal number followed by a unit parses to the number times the multiplier, wrapped to int64 |
| `SizeConfig.ParseSizeRenderedExact` | main.go:550-583 | when the product fits in an int64, it is the parsed size |
| `SizeConfig.ParseSizeOutOfRange` | main.go:578-581 | a number too large for an int64 makes `Sscanf` fail, so the size is 0 |
| `SizeConfig.ParseSizeWithoutDigits` | main.go:577-581 | text with no digit at all parses to 0 |
| `SizeConfig.ParseSizeIgnoresCaseAndSpace` | main.go:551-576 | white space around a size and the case of its unit do not change the parsed value |
| `SizeConfig.PaddedSizeIsCanonical` | main.go:551 | trimming and upper-casing a padded size with its unit in any case gives the canonical spelling |
| `SizeConfig.ParseSizePaddedAnyCase` | main.go:550-583 | a padded number followed by a unit in any case is that many units, when the product fits in an int64 |
| `SizeConfig.ParseSizeTenMB` | main.go:546 | "10MB" is 10 * 1024 * 1024 bytes |
| `SizeConfig.ParseSizeOverflowWraps` | main.go:582 | a count of G from 2^33 below 3 * 2^33 wraps to (n - 2^34) * 2^30 |
| `SizeConfig.MaxUploadBytes` | main.go:544-547 | the limit is always positive: the parsed size when positive, 10MB otherwise |
| `SizeConfig.OverflowingLimitFallsBack` | main.go:544-547 | a limit whose product overflows to a non-positive value falls back to 10MB |
| `SizeConfig.MaxConcurrentTasks` | main.go:86-88 | the pool size is at least 1: the configured value when positive, 3 otherwise |
| `Storage.OutputStore.Write` | main.go:518 | the written path now holds the data; every other file is unchanged |
| `Storage.CandidateIndex` | main.go:207-230 | every well-formed key's artifact is one of the 102 probed candidates of its digest |
| `Storage.CandidatesAreDigestArtifacts` | main.go:207-221 | the probed paths of a digest are exactly the artifact paths of the well-formed keys with that digest |
| `Storage.CandidatePath` | main.go:214-221 | the candidates are webp, png, then jpg_1 .. jpg_100, spelled as the probe spells them |
| `Storage.FirstExisting` | main.go:210-230 | none exactly when no candidate exists; otherwise an existing candidate |
| `Storage.FirstExistingIsFirst` | main.go:210-230 | an existing path preceded only by missing ones is the one found |
| `Storage.ProbeJpg` | main.go:212-219 | the jpg loop finds the first existing jpg_q, or reports none when webp, png and every jpg_q are missing |
| `Storage.ResolveDownload` | main.go:205-234 | the probe returns the first existing candidate in order, or none (the 404) |
| `Storage.DownloadFindsWrittenArtifact` | main.go:205-234 | a download finds something whenever an artifact of some key with that digest exists |
| `Storage.DownloadServesOnlyArtifact` | main.go:205-234 | when a key's artifact is the only one of its digest, the download serves exactly it |
| `Storage.DownloadServesKeyArtifact` | main.go:205-234 | whatever a download serves is the output path of a well-formed key of that digest |
| `Storage.EvictionLedger.RecordServed` | main.go:236-239 | a served path is appended to the ledger and the count goes up by one |
| `Storage.EvictionLedger.Sweep` | main.go:244-256 | at 50 or more downloads every recorded path that can be removed is deleted and the ledger emptied; below 50 nothing changes |
| `Registry.StatusText` | main.go:146 | queued, processing, done and failed are reported as "queued", "processing", "done" and "failed" |
| `Registry.StatusTextInjective` | main.go:146 | distinct statuses are reported with distinct words |
| `Registry.TaskRegistry.Enqueue` | main.go:323-326 | the file name is queued and the status becomes queued; processed is unchanged |
| `Registry.TaskRegistry.RegisterUpload` | main.go:135-147 | "already processed" exactly when the key has completed before, with nothing changed; otherwise queued again, even when already queued, running or failed |
| `Registry.TaskRegistry.BeginProcessing` | main.go:489-491 | only the task's status changes, to processing |
| `Registry.TaskRegistry.MarkFailed` | main.go:447-451 | only the status changes, to failed; the task stays in the queue |
| `Registry.TaskRegistry.MarkDone` | main.go:453-459 | the task leaves the queue, is marked done and joins processed |
| `Registry.TaskRegistry.QueueByDigest` | main.go:162-181 | none (the 404) exactly when no queued key has that digest; otherwise every such key once, with its file name |
| `Registry.TaskRegistry.StatusByDigest` | main.go:184-203 | none (the 404) exactly when no known key has that digest; otherwise every such key once, with its status |
| `Registry.EntriesWithDigest` | main.go:166-176 | the filter loop lists each key of the exact digest once, with its value, and nothing else |
| `Registry.ListsEntry` | main.go:167-175 | a listing holds every matching key with its value |
| `Registry.ListsOnlyExactDigest` | main.go:168 | a listing never holds a key of another digest, a prefix included |
| `Registry.CodecFor` | main.go:500-509 | pngquant exactly for png, JPEG at the key's quality exactly for jpg, WebP for everything else |
| `Registry.CodecQualityInRange` | main.go:503-504 | a well-formed jpg key always encodes at a quality in 1..100 |
| `Registry.TerminalStatus` | main.go:511-523 | a task ends done exactly when it completed, and failed otherwise |
| `Registry.ConversionOutcome` | main.go:493-523 | mkdir, conversion and write run in that order, and the first failure decides the outcome |
| `Registry.ProcessTask` | main.go:485-525 | the status passes through processing; on success the artifact is written, the task dequeued, marked done and recorded as processed; on a failure only the status changes, to failed (the WebSocket worker at main.go:330-384 does the same bookkeeping) |
| `Server.FormValue` | main.go:107 | an empty field is replaced by the default; a non-empty one is kept |
| `Server.AdmitUpload` | main.go:99-133 | missing file, too large and unsupported format are refused in that order (each exactly when it applies), and an upload passing all three checks is admitted; an admitted key is well formed, from the content digest, the normalised format and the clamped quality |
| `Server.AdmitSocketMessage` | main.go:277-308 | invalid JSON, unsupported format, bad base64 and oversize are refused in that order (each exactly when it applies), and a message passing all four checks is admitted; an admitted key is well formed and built like an upload's |
| `Server.BlankFormatMeansWebp` | main.go:107 | the upload's "webp" default for an empty format field agrees with normalising the empty format |
| `Server.QualityFieldAgrees` | main.go:114 | the form's quality text and the message's quality number select the same effective quality |
| `Server.EntryPointsAgreeOnKey` | main.go:282-308 | the same content, format and quality are admitted with the same key by both entry points |
| `Server.UnparsableQualityDefaults` | main.go:112-118 | a quality field that is empty or not a number (no digits after the sign, or anything else after them) gives a jpg task quality 80 |
| `Server.DefaultQualityField` | main.go:114 | the default quality text "80" reads as 80 |
| `Server.HandleUpload` | main.go:135-157 | a refusal changes nothing; a completed key is answered "already processed"; any other key is registered under the file name |
| `Server.RegisterSocketTask` | main.go:310-326 | a completed key whose artifact exists is answered with the file; otherwise, a completed key whose file is gone included, the key is queued again |
| `Server.HandleSocketMessage` | main.go:277-328 | a rejected message changes nothing; an admitted one is answered with its file exactly when its key has completed and the file is present, and is queued otherwise |
| `Server.HandleDownload` | main.go:205-241 | serves the first existing candidate of the digest and records it in the ledger; a miss records nothing |
| `Server.UploadsBeforeCompletionBothRegister` | main.go:135-147 | two identical uploads made before the first completes are both registered |
| `Server.CompleteTask` | main.go:485-525 | a registered upload whose conversion succeeds leaves only its artifact and only itself in processed, with an empty queue |
| `Server.CompletedUploadIsServedAndNotRerun` | main.go:136-144 | after completion the artifact is what a download serves, and a repeated upload is answered "already processed" |
| `Server.FailedTaskStaysQueuedAndIsRetried` | main.go:447-451 | a failed task is still listed by the queue lookup, and the same upload is registered again |
| `Server.RepeatDownloads` | main.go:236-239 | each download of the sole artifact appends its path to the ledger and counts once |
| `Server.CompleteThenEvict` | main.go:244-256 | fifty downloads of a completed artifact followed by a sweep leave the output directory empty, while the key stays processed |
| `Server.SweptArtifactIsRequeued` | main.go:310-326 | after eviction a download finds nothing; an upload is still answered "already processed"; a WebSocket request is queued again |

## Left out

- HTTP and WebSocket plumbing are not modelled. This covers routing, status codes,
  JSON replies, progress messages, `SendFile`, and connection handling.
  JSON and base64 decoding are inputs: `AdmitSocketMessage` takes the decoded
  request (or none) and a decoding function.
- The upload handler's "Failed to open file" and "Failed to read file" replies
  (main.go:120-129) are not modelled. The model takes the uploaded bytes as given.
- fiber's `BodyLimit` is not modelled: the framework rejects an oversized request
  before the handler runs.
- The codecs (bimg, pngquant, `image.Decode`) are not modelled. They are one
  function from codec and input to an optional output. Only the choice of codec
  and its quality are modelled.
- MD5 and hex encoding are a digest function given as a parameter.
  `Fingerprint.IsHexDigest` states the form of its result, which
  `OutputPathInjective` assumes.
- The file system is reduced to a map from path to contents.
  - Creating the output directory and writing a file succeed or fail as boolean
    inputs.
  - A failed write leaves no partial file.
  - `os.Stat` and `os.ReadFile` fail only for a missing file.
  - A removal the sweep cannot perform is an input set of undeletable paths.
- Concurrency is not modelled: goroutines, the task semaphore, the mutexes and the
  ten-second sleep of the sweep. Every handler step and every `processTask` step
  is one atomic operation on the tables. In particular `RegisterSocketTask` is one
  operation, although in Go its check of `processed` and its registration take
  the lock separately, so another request could run between them.
- Reading `config.yaml` through viper is not modelled: the configured values are
  parameters.
- `Text.ToLower` and `Text.ToUpper` map only ASCII letters. Go maps every Unicode
  letter. No non-ASCII letter maps onto a letter of webp, png, jpg, jpeg or the
  size units, so acceptance is unaffected. The refusal of an unsupported format
  does not echo the format text, so no reply differs either.
- Strings are sequences of runes, while Go's strings are bytes. `TrimSpace` and
  the suffix checks agree on valid UTF-8.
- `Server.AdmitSocketMessage` takes the JSON `quality` as an unbounded integer.
  Go refuses a JSON number outside the int range as invalid JSON, and that
  refusal is not modelled.
- `Server.HandleUpload` and `Server.HandleSocketMessage` take the admission result
  as a parameter and do not recompute it from the form or the message.
  `AdmitUpload` and `AdmitSocketMessage` state that admission.
