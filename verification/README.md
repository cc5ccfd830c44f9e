# Twitch-Utils in Dafny

A model of the pure core of Twitch-Utils, a set of Python tools for recording
Twitch streams and VODs and assembling the recorded parts. External programs
are replaced by input values: ffprobe and ffmpeg output, streamlink's log,
HTTP responses and the file listing. What remains is modelled as pure Dafny
functions, lemmas and a few methods.

- `results.dfy` (`Results`): `Option` and `Result`.
- `text.dfy` (`Text`): the Python `str` operations the program uses:
  `split` and `join` on one character, `strip`, `replace`, `startswith`,
  `in`, and `str()` of an integer.
- `clip.dfy` (`Clips`): `Clip.__init__`'s derivation of start, end and
  duration from probe entries, and the bounded `duration` setter. Also the
  keyframe cadence triple, the chunk windows of `Clip.slice`, and the
  positions `Clip.slice_generator` yields and how it finishes: run out,
  closed by its consumer, or raised at a slice with no chunk.
- `concat.py` → `concat.dfy` (`Concat`): `Timeline`.
  - A stable sort by start.
  - A cursor walk that picks the first clip covering the cursor and trims
    its predecessor's outpoint. It fails on a gap.
  - The ffconcat map text, and the ffmpeg flags `render` picks for an
    output name.
- `hls.dfy` (`Hls`): `SimpleHLS`.
  - The URL split.
  - The line parser of `reload` for the EXTINF, EXT-X-MAP,
    EXT-X-TARGETDURATION and EXT-X-ENDLIST tags (RFC 8216, sections
    4.3.2.1, 4.3.2.5, 4.3.3.1 and 4.3.3.4).
  - The segments `iterate` yields for a time window.
- `vod.dfy` (`Vod`): `parse_usher`. It reads a master playlist
  (EXT-X-STREAM-INF, RFC 8216 section 4.3.4.2) into an insertion-ordered
  quality → URL dictionary and adds `chunked` when it is missing.
- `record.dfy` (`Record`):
  - the streamlink command line of `Stream._args`;
  - the exit code `Stream.download` derives from streamlink's log;
  - part file names, the resume count, and `create_timeline`.
- `offset.dfy` (`Offset`): the selection rule of `find_offset` over given
  chunk scores.
- `mute.dfy` (`Mute`): the `[[HH:]MM:]SS` timestamps, the `START~END`
  ranges, the per-range delay, and the input count of the `amix` filter.
- `twitch.dfy` (`Twitch`): the session headers, the request URL with its
  query string, and the outcome of a request.

Two things are parameters:
- `float()` is `num: string -> Option<real>`, where `None` means
  `ValueError`;
- `str()` of a float is `show: real -> string`.

Times are Dafny `real`s, not IEEE doubles.

A timeline cuts each clip at the next clip's inpoint
(twitch_utils/concat.py:54). A gap is reported as the first cursor position
that no clip covers (twitch_utils/concat.py:33).

## Model

| member | source | states |
|---|---|---|
| Concat.SortByStartCorrect | twitch_utils/concat.py:36 | The sort orders the clips by start. It is stable: for every start time, the clips with that start keep their input order. |
| Concat.SortByStart | twitch_utils/concat.py:36 | Sorting keeps the same clips: the result is a permutation of the input. |
| Concat.MinStart | twitch_utils/concat.py:38 | The timeline start is at most every clip's start and equals one of them. |
| Concat.MaxEnd | twitch_utils/concat.py:39 | The timeline end is at least every clip's end and equals one of them. |
| Concat.BoundsOfPermutation | twitch_utils/concat.py:36-39 | Sorting first does not change the start or the end: both depend only on which clips there are. |
| Concat.FindClip | twitch_utils/concat.py:29-33 | Returns the first clip, in list order, with `start <= pos < end`. When none covers `pos` it returns nothing, and then no clip covers `pos`. |
| Concat.PendingShrinks | twitch_utils/concat.py:42-44 | Each step strictly decreases the number of clips ending after the cursor, so the walk terminates. |
| Concat.Walk | twitch_utils/concat.py:41-44 | Success gives a walk: every step picks the first clip covering a cursor still below the end, and the walk stops once the cursor reaches the end. Failure reports a position in `[pos, end)` that no clip covers. |
| Concat.WalkUnique | twitch_utils/concat.py:41-44 | Two walks over the same clips from the same cursor are equal, so the chosen clips are determined. |
| Concat.WalkIncreasing | twitch_utils/concat.py:41-44 | Over sorted clips the chosen indices strictly increase. So no clip is chosen twice, and the walk is no longer than the input. |
| Concat.WalkCovers | twitch_utils/concat.py:41-44 | Every instant between the start cursor and the end lies in some chosen clip. |
| Concat.CutContiguous | twitch_utils/concat.py:46-54 | After the cuts, each clip's outpoint is its successor's inpoint. Cutting changes nothing but outpoints. |
| Concat.Build | twitch_utils/concat.py:35-54 | An empty input fails, and only an empty input fails with `NoClips`. On success: start and end are the minimum start and maximum end; the clips are contiguous; each clip is an input clip with at most its outpoint moved; the last clip is unchanged. A gap is reported at a position inside the span that no input clip covers. |
| Concat.CutChain | twitch_utils/concat.py:41-54 | For sorted untrimmed clips, every adjacent pair satisfies `prev.outpoint == next.inpoint == next.start`, with the cut in `[prev.start, prev.end]`. Inpoints are never moved. The timeline is empty exactly when the start is not below the end. The first inpoint is the timeline start, and the last outpoint is the timeline end. |
| Concat.TimelineCoverage | twitch_utils/concat.py:35-54 | A successful build of probed clips is chained, enters its first clip at the start and leaves its last at the end. Every instant of `[start, end)` is played by exactly one clip. |
| Concat.BuildSucceeds | twitch_utils/concat.py:29-44 | A build succeeds exactly when there is a clip and every instant between the minimum start and the maximum end is covered by some clip. |
| Concat.BuildCovers | twitch_utils/concat.py:41-44 | A successful build's span is covered by the input clips. |
| Concat.BuildLength | twitch_utils/concat.py:41-44 | A timeline holds no more clips than the input. |
| Concat.FfconcatMapLines | twitch_utils/concat.py:56-60 | When no path and no printed time holds a newline, the map's lines are, clip by clip in timeline order, `file P`, `inpoint I`, `outpoint O` and a blank line. |
| Concat.BlockLines | twitch_utils/concat.py:58 | One clip's block is its four lines joined by newlines. |
| Concat.OutputFlags | twitch_utils/concat.py:78-84 | `-muxdelay` appears exactly for `.ts` or `-`, `mpegts` exactly for `-`, the genpts and faststart flags exactly for a non-TS `.mp4`, and no flag for any other name. |
| Concat.RenderCommand | twitch_utils/concat.py:70-86 | The command starts with `ffmpeg`, has `-copyts` right after it exactly for TS-like outputs, reads the map through the concat demuxer with stream copy, then carries exactly the output flags for the name, and ends with the output path. |
| Hls.SplitUrl | twitch_utils/hls.py:17-18 | The playlist name holds no `/` and the base URL ends in `/`. For a URL containing `/`, base + name is the URL. A URL without `/` is all name, with base `/`. |
| Hls.NewPlaylist | twitch_utils/hls.py:16-23 | Before the constructor's reload, a new playlist has no segments, a target duration of 10, and base + name equal to the URL when it contains a `/`. |
| Hls.Construct | twitch_utils/hls.py:16-24 | The constructor ends with a reload. A non-200 response leaves the playlist empty with a target duration of 10. On success, base + name is the URL when it contains a `/`. |
| Hls.ConstructRendered | twitch_utils/hls.py:16-69 | Constructing from a written media playlist keeps the URL's base and name and reads back the target duration and the segments a reload keeps. |
| Hls.TargetOf | twitch_utils/hls.py:42-43 | Only an EXT-X-TARGETDURATION line changes the target. The new value is the number after its first `:`. A missing field or a bad number is an error. |
| Hls.InitSegment | twitch_utils/hls.py:45-49 | EXT-X-MAP opens a non-final initialisation segment of duration 0, named by the second `=`-field with surrounding quotes stripped. |
| Hls.InfDuration | twitch_utils/hls.py:56 | The duration is the number between `#EXTINF:` and the first `,`. It is an error exactly when that text is not a number. |
| Hls.StepLaws | twitch_utils/hls.py:41-67 | The effect of each kind of line, in tag order. Before any segment is open, a line that opens none changes only the target. EXT-X-MAP drops the open segment and opens an init segment. EXTINF appends the open segment and opens a new one. A line not starting with `#`, blank included, renames the open segment. EXT-X-ENDLIST marks the open segment final, appends it and stops, and does nothing when none is open. Only EXT-X-TARGETDURATION changes the target. |
| Hls.ParseAppend | twitch_utils/hls.py:41-67 | Parsing two runs of lines is parsing the first and, unless it stopped at EXT-X-ENDLIST, going on with the second. |
| Hls.Reload | twitch_utils/hls.py:33-36 | A non-200 response leaves the playlist unchanged. A reload never changes the base URL or the playlist name. |
| Hls.MapLine | twitch_utils/hls.py:45-49 | A written EXT-X-MAP line opens exactly the initialisation segment it names. |
| Hls.MediaLines | twitch_utils/hls.py:51-62 | A written EXTINF line followed by a URI line appends the open segment and leaves exactly the written segment open. |
| Hls.HeaderLines | twitch_utils/hls.py:42-43 | The `#EXTM3U` and EXT-X-TARGETDURATION header lines set the target and open nothing. |
| Hls.BodyParse | twitch_utils/hls.py:41-62 | After the lines of written segments, every segment but the last is appended in order and the last is still open. |
| Hls.EndStep | twitch_utils/hls.py:64-67 | EXT-X-ENDLIST with a segment open appends it as final and ends the scan. |
| Hls.TailParse | twitch_utils/hls.py:41-69 | The segment lines and the closing EXT-X-ENDLIST, if any, leave the target unchanged and the kept segments appended. |
| Hls.RenderReload | twitch_utils/hls.py:26-69 | Reading back a written media playlist gives its target duration and its segments. Without EXT-X-ENDLIST the last segment, still open when the lines run out, is dropped. |
| Hls.Iterate | twitch_utils/hls.py:71-97 | The yielded segments are exactly the reference window: in playlist order, each pulled segment that is an init segment or brings the cumulative duration to at least `start`. |
| Hls.WindowRest | twitch_utils/hls.py:75-97 | Once the loop condition fails, or a yielded final segment stopped the iteration, no later segment is yielded. |
| Hls.FinalIsLast | twitch_utils/hls.py:94-97 | A yielded final segment is the last segment yielded. |
| Hls.EndCutoff | twitch_utils/hls.py:75 | With a truthy `end`, once the cumulative duration reaches `end`, no further segment is pulled. |
| Hls.ZeroEndUnbounded | twitch_utils/hls.py:75 | An `end` of 0 gives the same window as no `end`. |
| Hls.WholePlaylist | twitch_utils/hls.py:82-97 | With no end, a start at or before 0, non-negative durations and no final segment before the last, every segment is yielded in order. |
| Vod.VideoCapture | twitch_utils/vod.py:38-45 | The pattern fails exactly when no `VIDEO="` is followed by a quote. Otherwise the capture is the quote-free text after the last such `VIDEO="`, up to the next quote. |
| Vod.CaptureStreamLine | twitch_utils/vod.py:38-45 | The pattern captures a quote-free quality back from its EXT-X-STREAM-INF line. |
| Vod.Lookup | twitch_utils/vod.py:48 | A key is found exactly when it is in the dictionary, and then with a value stored under it. |
| Vod.Put | twitch_utils/vod.py:48 | Setting a key keeps the keys unique. An existing key keeps its position and a new key goes last. Entries under other keys are kept. |
| Vod.PutLookup | twitch_utils/vod.py:48 | After setting `k` to `v`, `k` maps to `v` and every other key maps to what it mapped to before. |
| Vod.LookupUnique | twitch_utils/vod.py:48 | With unique keys, a lookup finds `v` under `k` exactly when the pair is stored. |
| Vod.UsherStep | twitch_utils/vod.py:40-49 | Every line keeps the dictionary's keys unique and non-empty. |
| Vod.UsherStepLaws | twitch_utils/vod.py:40-49 | A matching EXT-X-STREAM-INF line sets the pending quality, and a non-matching one changes nothing. A line not starting with `#`, empty included, becomes the pending quality's URL and clears it, and is ignored when nothing is pending. Other `#` lines change nothing. |
| Vod.ParseUsher | twitch_utils/vod.py:34-55 | Success always has a `chunked` key and unique, non-empty keys. The call fails exactly when no stream was read. |
| Vod.ScanMaster | twitch_utils/vod.py:40-49 | The lines of distinct, non-empty, quote-free qualities with URLs not starting with `#` add exactly those entries, in order. |
| Vod.HeaderIgnored | twitch_utils/vod.py:40-49 | The `#EXTM3U` line changes nothing. |
| Vod.UsherRoundTrip | twitch_utils/vod.py:34-55 | Reading a written master playlist returns its entries in order. If none is `chunked`, it adds the first URL with its quality renamed to `chunked`. With no entries it fails. |
| Vod.UsherChunkedUrl | twitch_utils/vod.py:51-53 | When the first quality occurs once in its URL, as `a + quality + b`, the added `chunked` URL is `a + "chunked" + b`. |
| Record.Floor | twitch_utils/record.py:82 | `math.floor`: the greatest integer not above the value. |
| Record.Ceil | twitch_utils/record.py:85 | `math.ceil`: the least integer not below the value. |
| Record.Args | twitch_utils/record.py:87-89 | The arguments start with `-l debug --twitch-disable-ads`, end with the URL, the quality and `-O`, and carry 4 to 7 options between. |
| Record.ReadParams | twitch_utils/record.py:72-91 | Reading any option off the argument list gives the options dictionary's value. The fixed options come first, then the token, the start offset and the duration, each only when present. |
| Record.ArgsFixedOptions | twitch_utils/record.py:73-76 | Every command line passes timeouts of 60, 5 attempts and the thread count. |
| Record.ArgsToken | twitch_utils/record.py:78-79 | `--twitch-oauth-token` is passed, with the token, exactly when the token is non-empty. |
| Record.ArgsStartOffset | twitch_utils/record.py:81-82 | `--hls-start-offset` is passed, as the floor of the start, exactly when the start is positive. |
| Record.ArgsDuration | twitch_utils/record.py:84-85 | `--hls-duration` is passed, as the ceiling of end − start, exactly when the end is set and not 0. |
| Record.Download | twitch_utils/record.py:106-154 | The code is 0 exactly when the log is clean: no aborting line, and every completion after the first is the previous one + 1. It is 2 exactly when the first problem is the offline message. Otherwise it is 1. |
| Record.Advance | twitch_utils/record.py:120-130 | A queued line, an accepted completion or an ignored line keeps the log clean and tracks the last completed segment. |
| Record.Skipped | twitch_utils/record.py:129-135 | A completion that does not follow the previous one makes the log unclean. |
| Record.FailsAt | twitch_utils/record.py:131-140 | The first unclean line, unless it is the offline message, makes the whole log unclean without going offline. |
| Record.OfflineAt | twitch_utils/record.py:141-145 | The offline message right after a clean log makes the log go offline. |
| Record.FilenameInjective | twitch_utils/record.py:166-167 | A part's file name determines both the VOD id and the part number. |
| Record.NamesCount | twitch_utils/record.py:166-167 | Parts 0 .. n − 1 have n distinct file names. |
| Record.ResumeCount | twitch_utils/record.py:331-340 | The count is the number of consecutive existing part files from part 0: all parts below it exist and the next one does not. |
| Record.KeptOpens | twitch_utils/record.py:173-179 | A part is kept exactly when its file opens as a clip. |
| Record.Kept | twitch_utils/record.py:173 | Kept parts are below the part count and in strictly increasing order. |
| Record.CollectKept | twitch_utils/record.py:170-179 | The collected clips are, in part order, the kept parts' files, each probed from its own file. |
| Record.CollectEmpty | twitch_utils/record.py:170-179 | No clip is collected exactly when no part opens. |
| Record.CreateTimeline | twitch_utils/record.py:170-181 | The timeline fails for lack of clips exactly when no part opens. |
| Clips.FromProbe | twitch_utils/clip.py:40-55 | A missing start or duration is 0, and a missing format is `mpegts`. For the MP4 format name, `end` is the reported duration. Otherwise the duration is the reported one and `end = start + duration`. `end − start` is the duration, and inpoint/outpoint are start/end. |
| Clips.SetDuration | twitch_utils/clip.py:133-136 | A value up to the probed duration is stored, a larger one is ignored, and nothing else changes. |
| Clips.SetDurationsBounded | twitch_utils/clip.py:133-136 | However often the setter is used, the duration never exceeds the probed duration. |
| Clips.Keyframes | twitch_utils/clip.py:110-127 | Fewer than three frames give `(0, 0, False)`. Otherwise the result is the first frame, the first gap, and "evenly spaced" exactly when the second gap equals the first. |
| Clips.KeyframesReadsThree | twitch_utils/clip.py:110-113 | Frames after the third never matter. |
| Clips.ClampFits | twitch_utils/clip.py:165-167 | Clamping never lengthens the running duration. A chunk that ends within the clip is not clamped. A clamped chunk that is still positive ends at or before the clip's end. |
| Clips.SliceChunks | twitch_utils/clip.py:164-170 | The chunk loop yields at most the remaining chunk count. It yields at least one window exactly when a chunk remains and its clamped duration is positive. |
| Clips.SliceChunksWindows | twitch_utils/clip.py:164-179 | Every window of the chunk loop is non-empty and no longer than the running duration it started from. It is placed its index times its length after the slice start, and it ends within the clip. |
| Clips.SliceChunksClamped | twitch_utils/clip.py:164-173 | Every window is as long as the running duration before it, clamped at its chunk: the shrinking carries over from chunk to chunk. |
| Clips.SliceChunksStop | twitch_utils/clip.py:164-170 | The loop stops before the last chunk only where the clamped running duration is no longer positive. |
| Clips.Slice | twitch_utils/clip.py:150-170 | No windows when the start lies beyond the clip, and at most `chunks` windows. At least one window when the slice starts inside the clip with a positive duration; a falsy duration means the whole clip. |
| Clips.SliceWindows | twitch_utils/clip.py:150-179 | No window is empty or longer than the requested duration. Window k starts k of its own lengths after the slice start, and none ends past the clip. |
| Clips.SliceClamped | twitch_utils/clip.py:150-179 | Each window is the running duration clamped at its chunk. Fewer than `chunks` windows come out only where that clamped duration is no longer positive. |
| Clips.SliceOneChunk | twitch_utils/clip.py:150-179 | With one chunk, a slice starting inside the clip is the requested window, cut short at the clip's end. |
| Clips.HasChunkSlice | twitch_utils/clip.py:150-170 | A position has a chunk exactly when the one-chunk slice there is non-empty: it lies within the clip and the clamped duration is positive. |
| Clips.NegativeNoChunk | twitch_utils/clip.py:164-170 | A negative duration gives no chunk at any position. |
| Clips.NoChunkAtEnd | twitch_utils/clip.py:160-170 | A slice starting at the clip's end has no chunk, whatever its duration. |
| Clips.PositiveChunk | twitch_utils/clip.py:164-170 | A positive duration has a chunk at every position inside the clip; a chunk running past the end is clamped to what is left. |
| Clips.ForwardFirstYield | twitch_utils/clip.py:202-224 | The first forward yield is the start itself: the first round submits the slice at the start without moving, and only later rounds advance. |
| Clips.ReverseFirstYield | twitch_utils/clip.py:204-224 | The first reverse yield is `end − d`, where the loop starts; its first round submits the slice there without moving. |
| Clips.ZeroDurationChunk | twitch_utils/clip.py:150-170 | A zero duration means the whole clip, so a slice starting inside the clip has a chunk. |
| Clips.ForwardLoop | twitch_utils/clip.py:202-233 | The forward loop yields `start + k·d` for k = 0, 1, ..., each below `end` and each with a chunk. It stops at `end`, after `limit` yields, or raised at a position whose slice has no chunk. |
| Clips.ForwardPositions | twitch_utils/clip.py:202-233 | The yields are `start + k·d`, each below `end` with a chunk. The run is exhausted exactly when the next position reaches `end`, and raises exactly when that position is below `end` and its slice has no chunk. A positive `d` with a large enough `limit` always finishes, and within the clip it never raises. A non-positive `d` is never exhausted: a negative one raises before any yield, and a zero one from inside the clip yields until the consumer closes the generator. |
| Clips.ReverseLoop | twitch_utils/clip.py:204-233 | The reverse loop yields `end − k·d` for k = 1, 2, ..., each above `start` and each with a chunk. It stops at `start`, after `limit` yields, or raised at a position whose slice has no chunk, so the window clamped to `start` is never waited for. |
| Clips.ReversePositions | twitch_utils/clip.py:204-233 | The yields are `end − k·d`, k ≥ 1, each above `start` with a chunk. The run is exhausted exactly when the next position reaches `start`, and raises exactly when that position is above `start` and its slice has no chunk. A positive `d` with a large enough `limit` always finishes, and within the clip it never raises. A non-positive `d` is never exhausted: a negative one raises before any yield, a zero one raises at once from the clip's end, and a zero one from inside the clip yields until the consumer closes the generator. |
| Clips.SliceGeneratorPositions | twitch_utils/clip.py:190-233 | The positions for either direction, each with a chunk, up to a consumer's `limit`. A missing or zero `start` is 0, and a missing or zero `end` is the clip's duration. The run is exhausted exactly when the next position leaves the range, and raises exactly when it is in range with no chunk. A positive duration with a large enough `limit` always finishes, and never raises within the clip. A negative duration raises before the first yield. A zero duration forward from inside the clip never finishes on its own; reversed from the clip's end, it raises at once. |
| Offset.Update | twitch_utils/offset.py:72-83 | The best match is replaced only by a strictly better score. A rise over the previous score becomes the last best, and anything else the last worst. The previous score becomes this chunk's. |
| Offset.Exit | twitch_utils/offset.py:95-100 | A score at or above `max_score` exits with the chunk's relative offset. Otherwise the rule exits with the last best when the last worst and last best are positive and last worst × multiplier < last best. In every other case it goes on. |
| Offset.FindOffset | twitch_utils/offset.py:53-105 | No chunks give (0, 0). A search that runs out with its best below `min_score` gives (0, 0). |
| Offset.FirstExit | twitch_utils/offset.py:69-100 | The first chunk whose exit fires decides the result. |
| Offset.NoExit | twitch_utils/offset.py:69-100 | Without an exit, the search ends with the state after every chunk. |
| Offset.BestIsFirstMax | twitch_utils/offset.py:62-77 | The best kept is the first chunk with the largest score, with its position added, when that score is positive. Otherwise it is (0, 0). |
| Offset.LastRiseKept | twitch_utils/offset.py:72-81 | The last best is the latest chunk whose score rose over its predecessor's, the first chunk compared with 0. |
| Offset.LastFallKept | twitch_utils/offset.py:72-83 | The last worst is the score of the latest chunk that did not rise, or 0. |
| Offset.FindOffsetBest | twitch_utils/offset.py:62-105 | With no early exit, the result is the first strictly largest positive match with its position added, or (0, 0). A non-zero result meets `min_score`. |
| Offset.FindOffsetMaxScore | twitch_utils/offset.py:95-96 | The first chunk reaching `max_score` with no earlier exit returns its relative offset and score. |
| Mute.Numbers | twitch_utils/mute.py:29 | Each field's number, in order. The call fails exactly when some field is not a number, and names such a field. |
| Mute.PtimeHorner | twitch_utils/mute.py:28-30 | Weighting the i-th field from the right by 60^i is reading the fields left to right, multiplying by 60 at each step. |
| Mute.PtimeSeconds | twitch_utils/mute.py:28-30 | A timestamp without a colon is one number of seconds. |
| Mute.PtimeMinutes | twitch_utils/mute.py:28-30 | `M:S` is 60·M + S, with no bound on S: `1:75` is 135. |
| Mute.PieceTimes | twitch_utils/mute.py:38-39 | Every `~`-piece of a range is converted. The call fails exactly when some piece is a bad timestamp. |
| Mute.AllTimes | twitch_utils/mute.py:38-39 | Every range argument is converted, in order. The call fails exactly when one of them fails. |
| Mute.Pairs | twitch_utils/mute.py:47 | Unpacking succeeds exactly when every range has exactly two times, and gives those pairs. |
| Mute.ParseRangesOk | twitch_utils/mute.py:38-47 | The ranges parse exactly when every argument is two valid timestamps around one `~`, and then give each pair of times. |
| Mute.Trunc | twitch_utils/mute.py:71 | `int()` truncates toward zero. |
| Mute.Delay | twitch_utils/mute.py:71 | The delay is the range start in milliseconds, truncated toward zero: within one below it for a non-negative start, within one above it for a negative start. |
| Mute.MixConsistent | twitch_utils/mute.py:70-80 | The `amix` filter is told to expect exactly as many inputs as it receives labels, and every label names a distinct track. |
| Mute.StartsCount | twitch_utils/mute.py:58 | The tracks kept by start number at most the ranges, and equal them exactly when no two ranges start together. |
| Mute.InputsMatchMix | twitch_utils/mute.py:78-87 | ffmpeg receives at most as many extra inputs as `amix` expects, and exactly as many only when all starts differ. |
| Twitch.SessionHeaders | twitch_utils/twitch.py:6-11 | Of the headers the session sets, Client-ID is the fixed constant and Authorization is `Bearer ` + token, from which the token can be read back. The v5 media type goes under the misspelled `Acccept` name, so it is never sent as the `Accept` header. |
| Twitch.Url | twitch_utils/twitch.py:17-21 | The URL starts with the API root, the namespace, `/` and the method. |
| Twitch.QueryRoundTrip | twitch_utils/twitch.py:20 | Each `k=v` piece of a plain payload's query reads back as its pair, in order, and the query holds no `?`. |
| Twitch.UrlRoundTrip | twitch_utils/twitch.py:17-21 | With plain names and values, the path and every pair, in order, read back from the URL. The query is appended exactly when the payload is non-empty. |
| Twitch.QueryUrlParse | twitch_utils/twitch.py:19-21 | A `?`-free path, `?` and a non-empty plain query read back as the path and the payload. |
| Twitch.Get | twitch_utils/twitch.py:23-28 | A 200 response gives its decoded body. Any other status gives an error carrying the response text. |
| Twitch.Helix | twitch_utils/twitch.py:30-31 | A helix call requests the API root, `helix/`, the method and the query. Its outcome is decided by that response, as in `get`. |
| Text.Split | twitch_utils/hls.py:17-18 | `str.split` on one character: never empty, no piece holds the separator, and joining the pieces gives the string back. |
| Text.SplitJoin | twitch_utils/hls.py:17-18 | Splitting a join of separator-free pieces gives the pieces back. |
| Text.Strip | twitch_utils/hls.py:47 | `str.strip`: the input is the result with a run of the character on each side, and the result neither starts nor ends with it. |
| Text.StripQuoted | twitch_utils/hls.py:47 | Stripping the quotes around a quote-free name gives the name back. |
| Text.Replace | twitch_utils/vod.py:53 | `str.replace` leaves a string without the pattern unchanged. |
| Text.ReplaceSelf | twitch_utils/vod.py:53 | Replacing a pattern by itself changes nothing. |
| Text.ReplaceAt | twitch_utils/vod.py:53 | The text before the first occurrence of the pattern is kept, that occurrence becomes the replacement, and the scan goes on after it. |
| Text.ReplaceOnce | twitch_utils/vod.py:53 | A single occurrence of the pattern is replaced and nothing else changes. |
| Text.NatToStringInjective | twitch_utils/record.py:167 | Distinct part numbers print differently. |
| Text.ParseNatToString | twitch_utils/record.py:167 | The decimal form of a number reads back as that number. |
| Text.ContainsAt | twitch_utils/record.py:136-141 | Python's substring test holds exactly when the text occurs at some position. |

## Left out

- Subprocesses, the network and files are inputs: ffprobe, ffmpeg, streamlink, `Popen`, `requests`, `os.path.exists`, and `SimpleHLS.download`. Their results (probe entries, classified log lines, HTTP status and lines, the set of existing files) are parameters.
- `record()`, `find_vod`, vod.py's `resolve_playlist` and `main`, and every `main` with its docopt parsing are orchestration around I/O. twitch_utils/__init__.py, utils.py and setup.py are not part of this model.
- `float()` and `str()` of a float are the parameters `num` and `show`. Times are exact reals, not IEEE doubles.
- Concurrency: the `ThreadPool` prefetch of `slice_generator` (only its positions, and whether each slice it waits for has a chunk, are modelled) and the `Process` wrappers.
- The reload rate limit of `SimpleHLS.reload` (`sleep`, `time`) is left out.
- `res.content.decode().splitlines()` is left out: the reload is given its lines already split.
- Hls.Iterate: runs over a fixed segment list. Re-reloading when the list is exhausted is left out, and running out of segments ends the iteration.
- Hls.Reload: a parse error returns only the error. By then, the source has already stored any target duration read from an earlier line of the same response.
- Record.Download: takes streamlink's log lines already classified as queued or complete with a segment number. The two parse patterns are not modelled.
- Record.Download: segment numbers are natural numbers, because a negative one would collide with the `-1` sentinel.
- Record.Download: `expected` is left out, because only `print` reads it.
- `Stream.copy`, `_target_download` and `download_async` are left out.
- twitch_utils/record.py:44 imports `TimelineMissingRangeError` from the concat module, and record.py:355 calls `render` with a `force` argument. twitch_utils/concat.py defines neither, and its `find_clip` raises a plain `Exception` for one position (concat.py:33) where record.py:237-238 expects a range with `start` and `end`. The model follows concat.py. Record.CreateTimeline returns the concat model's `NotCovered(pos)` error, which carries one position, and the retry loop that catches the missing-range error is left out.
- Offset.FindOffset: the chunk scores are inputs, and the audio scoring of `c1.offset` is left out.
- twitch_utils/offset.py:69 is left out because the chunks are inputs. It passes `start` and `chunk_size` in the opposite order to `slice_generator`'s `(duration, start)` parameters. With the default `start` of 0 the generator gets a duration of 0. When `chunk_size` lies inside the clip, it then yields the position `chunk_size` forever, and only one of `find_offset`'s early returns ends the search.
- Clips.HasChunk: a slice with an output is taken to succeed; ffmpeg failing on it is left out. A slice with no chunk raises in the source, either from the ffmpeg run without an output or from reading its first chunk. The model records only that the generator raised, not which exception.
- Clips.ForwardPositions: the consumer's `limit` stands for closing the generator (twitch_utils/clip.py:232-233). A run that never finishes on its own is given as its first `limit` yields, finished as `Closed`.
- Twitch.SessionHeaders: only the three headers the source sets are modelled. The session's default headers from `requests` (such as `Accept: */*`) are left out, so the model does not state what `Accept` value the server receives.
- `c2.duration = end` (twitch_utils/offset.py:59-60) is left out because the chunks are inputs.
- Mute.MixConsistent: the filter-graph text beyond its labels and input count is left out: volume filters, `asetnsamples`, `adelay` strings. The Spleeter separation and the codec probe are left out too.
- Twitch.UrlRoundTrip: holds only for names and values free of `?`, `&` and `=`, because the source does no escaping.
- Twitch.Get: `res.json()` decoding is given as the response body, and its decoding errors are left out.
- Concat.TimelineCoverage: stated for clips as probing leaves them (inpoint = start, outpoint = end), which is how every caller builds a timeline.
- `clips.sort` mutates the caller's list in place, and the cut at twitch_utils/concat.py:54 overwrites `outpoint` on the caller's own clip objects. The model returns new values instead; no caller reuses the clips afterwards.
- Hls.RenderReload: stated for playlists a writer could emit. Only the last segment is final, an init section comes first with a name free of `"` and `=`, and printed durations read back as themselves. The source's behaviour on any other input is what Hls.StepLaws states line by line.
