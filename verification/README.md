# Surveillance client: verified core

The repository is the desktop client of a camera surveillance system. It plays FLV
recordings (`FlvPlayer.cpp`), pushes camera video over RTMP (`VideoSender.cpp`,
`VideoChannel.cpp`), pulls and decrypts device streams (`VideoCapture.cpp`,
`VideoCtrl.cpp`, `include/Crypto.hpp`), assigns windows to devices (`MainCtrl.cpp`) and
keeps a configuration file (`ConfigCtrl.cpp`). This project models that logic in Dafny
and proves what each part is for.

`dafny verify dfyconfig.toml` checks everything.

## How the parts fit

- **Record player.** `FlvContainer` and `FlvFormat` say which bytes a list of tags
  makes. `FlvPlayer` is the class that walks those bytes, with the file offset,
  `cur_idx`, the two buffers and the flags as fields. `FlvTimeline` is the same player
  on tag indices, with atomic feed and seek steps; each method of the class is proved
  to be such a step. The hard theorems (decodability, silent replay, seek targets) are
  proved there over every interleaving of the threads' steps, those on the single-step
  buttons in `FlvSteps`. `FlvRuns` brings them back to the bytes: `Run` takes any list
  of requested steps. `FlvCallbacks` says what the callbacks, and through them the
  decoders, are given.
- **Sender queue.** `SafeQueue` is the monitor and its class; `VideoSender` interleaves
  the push thread, a call of `stop` and any producers over it, one critical section at
  a time, and its class takes the same steps in place.
- **Video pipeline.** `VideoChannel` packs, `VideoCapture` unpacks, `VideoCtrl` feeds
  the decoder, `AnnexB` is the decoder's reading of its byte stream, `Pipeline` composes
  them. `ParameterSets` is the parsing loop that player and capture share.
- **Tables and files.** `MainCtrl`, `ConfigCtrl` and `Crypto`.

Specification functions that only compute (`FedTag`, `AfterSeek`, `Delivered`,
`Played`, `Stopped`, `Patched`, `Keystream`, `Loaded`, ...) have no row of their own: the
methods below are proved equal to them and the lemmas below say what they mean.

## Inputs taken as well formed

- A recording is one FLV header, a zero size field and a list of tags: types 8, 9 or
  0x12, at most 1 MiB of data, VIDEO tags with AVCPacketType 0 or 1, at most 31
  parameter sets of each kind, one length-prefixed NALU per frame tag.
- Parameter sets from the encoder carry four-byte start codes and fit their buffers (see
  below). A PPS has some SPS before it; the code reads an uninitialised length otherwise.
- Network, server, stream and file-open answers are inputs: `ok`, `accepted`, `found`,
  `opens`. So is the encoder's output, the list `nals`.

## What the code does not meet

Each item names the lemma with the exact condition and one with an input that fails it.

- `step_by_frame` does not always return: running off the end of a file without VIDEO
  tags it loops forever (FlvPlayer.cpp:78-83). The condition is
  `FlvTimeline.SeekReturnsExactly`, the precondition of the method; the input is
  `FlvTimeline.SeekLoopsForever`.
- A backward single step does not always show exactly its target. The pause, the seek
  and the step request are separate steps (FlvPlayer.cpp:116-121), and the feed thread
  may feed the target between the seek and the request: it may have passed its gate
  before the pause, or an earlier step may be pending. Outside a replay, the target alone
  is shown if and only if an I frame is at or before it, and not both the target was fed
  before the request and a later frame follows (`FlvSteps.StepBackward`). With the feed
  thread before its gate, no step pending and no replay running, that is: if and only if
  an I frame is at or before it (`FlvSteps.StepBackwardUnarmed`). The runs from `start`
  `FlvSteps.TwoFramesShown` and `FlvSteps.NothingShown` fail either half.
- Pressed while a silent replay runs, the backward button does not seek: its step is for
  the frame the replay leads to, and shows that frame alone if and only if not both the
  step pending from the earlier press took it before the request and a later frame
  follows (`FlvSteps.StepBackwardInReplay`, run `FlvSteps.TwoFramesInReplay`).
- A forward single step has the same gap between pause and request: the condition is
  `FlvSteps.StepForward`, a run that shows two frames `FlvSteps.TwoFramesForward`.
- The receiver gets the encoder's units unchanged exactly when SPS and PPS come in
  adjacent pairs (`VideoChannel.DeliversExactlyPairs`); `VideoChannel.SecondPpsRepeatsSps`
  is a list that is changed.
- A parameter set fits the 100-byte buffer that keeps it until its pair is complete
  (VideoChannel.cpp:95-105) exactly when it has at most 100 bytes
  (`VideoChannel.CopyFitsExactly`, `VideoChannel.LongSetDoesNotFit`). The code does not
  check, and the results on packets are about sets that fit.
- `crypt` loops forever on an empty key and a non-empty buffer
  (`Crypto.ChunkLoopEndsExactly`, `Crypto.EmptyKeyLoopsForever`). Both callers check the
  key's length first (VideoCtrl.cpp:22, RecordCtrl.cpp:21), so only a new caller would
  get there.
- A configuration survives being published and read exactly when its keys hold no
  whitespace, ':' or end-of-text character 0x1A, and its values no whitespace or 0x1A
  (`ConfigCtrl.RoundTripExactly`, `ConfigCtrl.SpacesDoNotSurvive`). The file is opened in
  Windows text mode (ConfigCtrl.cpp:34, 48), where 0x1A ends the input and newlines are
  stored as two characters; both are modelled.

## Model

| member | source | states |
|---|---|---|
| FlvTimeline.RunsAreDecodable | FlvPlayer.cpp:26-188 | in every state of every interleaving of feed iterations, seeks, pauses and step requests since `start`, each delivered frame has its whole group-of-pictures prefix (I frame first, consecutive frames of the file) delivered just before it |
| FlvTimeline.DecodableHasGopPrefix | FlvPlayer.cpp:234-248 | a log in which each frame is an I frame or directly follows its file predecessor consists of whole group-of-pictures prefixes |
| FlvTimeline.FeedKeepsInvariant | FlvPlayer.cpp:133-188 | a feed iteration keeps: the log is decodable, the decoder is in step with the position, and a running replay's count is positive and equals the VIDEO tags left before its target |
| FlvTimeline.SeekKeepsInvariant | FlvPlayer.cpp:56-108 | a whole `step_by_frame` keeps the same invariant and delivers nothing |
| FlvTimeline.RunKeepsInvariant | FlvPlayer.cpp:56-188 | every state of every interleaving keeps the invariant |
| FlvTimeline.RunsReplayOnCourse | FlvPlayer.cpp:90-107 | whenever `is_regulating` holds in a reachable state, `regulate_tag_count` is positive and equals the number of VIDEO tags in [cursor, target) |
| FlvTimeline.ReplayUnderInterleaving | FlvPlayer.cpp:90-184 | during a silent replay, however the threads interleave, exactly the tags from the I frame on are delivered in order with play off, and the replay ends exactly when no VIDEO tag is left before the target |
| FlvTimeline.ReplayEnds | FlvPlayer.cpp:178-183 | a replay ends after finitely many iterations, before the end of the file |
| FlvTimeline.ReplayReachesTarget | FlvPlayer.cpp:164-183 | every deliverable tag up to the target is delivered in order, first with play off, then on, and the target is the first VIDEO tag delivered with play on |
| FlvTimeline.TargetUnique | FlvPlayer.cpp:62-83 | a seek count and a start tag determine one target: the (c-1)-th frame after, the (1-c)-th frame before, or the last VIDEO tag, or the first tag |
| FlvTimeline.TargetExists | FlvPlayer.cpp:62-83 | that target exists if and only if the call returns |
| FlvSteps.SeekByTwo | FlvPlayer.cpp:62-77 | `step_by_frame(2)` goes to the next frame after the current tag |
| FlvSteps.SeekOneFurther | FlvPlayer.cpp:62-77 | one more on the count is one frame further |
| FlvSteps.SeekByNone | FlvPlayer.cpp:62-77 | `step_by_frame(0)` goes to the last frame before the current tag |
| FlvSteps.SeekOneBack | FlvPlayer.cpp:62-77 | one less on the count is one frame back |
| FlvTimeline.SeekReturnsExactly | FlvPlayer.cpp:70-83 | a seek that runs off the end gets out of its back-up loop if and only if the file has a VIDEO tag, or the walk never ran off |
| FlvTimeline.SeekLoopsForever | FlvPlayer.cpp:78-83 | an audio-only file on which no pass of the back-up loop is the last |
| FlvPlayer.FlvPlayer.BackPass | FlvPlayer.cpp:79-82 | in any file, each pass of that loop goes to the tag the condition speaks of, and leaves exactly at a VIDEO tag |
| FlvTimeline.NearestI | FlvPlayer.cpp:90-101 | the nearest I frame strictly before a tag, or -1 with none there |
| FlvTimeline.ScanBreaksOff | FlvPlayer.cpp:70-77 | the counting loop that breaks off is at the first tag, which is then the target, or has run off the end |
| FlvTimeline.ScanSucceeds | FlvPlayer.cpp:70-77 | the counting loop that counts down to zero stands on the target |
| FlvSteps.StepBackward | FlvPlayer.cpp:116-121 | for a press of the backward button outside a replay, with an earlier step pending or not, whatever the feed thread does before, between and after its three parts: the frames shown from the seek on, exactly; they are the target alone if and only if an I frame is at or before it, and not both it was fed before the step request and a later frame follows |
| FlvSteps.StepBackwardUnarmed | FlvPlayer.cpp:116-121 | pressed with the feed thread before its gate, no step pending and no replay running, the target alone is shown if and only if an I frame is at or before it |
| FlvSteps.StepBackwardInReplay | FlvPlayer.cpp:60 | pressed during a silent replay, with a step pending or not, the seek is refused and the frames shown are exactly the one the replay leads to and, if that was fed before the step request, the one after it |
| FlvSteps.RequestShows | FlvPlayer.cpp:138-184 | what any step request on a paused player shows, replaying or not, with an earlier step pending or not |
| FlvSteps.TwoFramesInReplay | FlvPlayer.cpp:116-145 | a run from `start` in which a second press, during the first one's replay, shows two frames |
| FlvSteps.TwoFramesShown | FlvPlayer.cpp:116-145 | a run from `start` in which one press of the backward button shows two frames |
| FlvSteps.TwoFramesForward | FlvPlayer.cpp:110-145 | a run from `start` in which one press of the forward button shows two frames |
| FlvSteps.NothingShown | FlvPlayer.cpp:102-107 | a run from `start` in which the press shows nothing |
| FlvSteps.StepForward | FlvPlayer.cpp:110-114 | for a press of the forward button, replaying or not, with an earlier step pending or not, whatever the feed thread does before, between and after: the frames shown from the pause on, exactly; they are the next frame (or the one a replay leads to) alone if and only if it need not wait for an I frame, and not both it was fed before the request and a later frame follows |
| FlvSteps.StepForwardUnarmed | FlvPlayer.cpp:110-114 | pressed with the feed thread before its gate and no step pending, exactly that frame is shown, or nothing if it must wait for an I frame |
| FlvSteps.StepShowsFrame | FlvPlayer.cpp:139-184 | with a step requested, the player comes to rest having shown exactly its next frame, or in a replay exactly its target: the step test comes before the replay count |
| FlvSteps.StepShowsNext | FlvPlayer.cpp:171-176 | outside a replay the step delivers and shows its next frame and idles; a frame that must wait for an I frame uses up the step undelivered |
| FlvSteps.FeedsWhilePaused | FlvPlayer.cpp:139-145 | paused with no step pending, the feed thread does at most the one iteration it is past its gate for |
| FlvTimeline.PlaysThrough | FlvPlayer.cpp:133-188 | with no seek, n+1 iterations deliver exactly the first n tags in order, all with play on, minus script data and frames before the first I frame |
| FlvTimeline.PlaysWholeFile | FlvPlayer.cpp:138-187 | enough passes of the loop deliver the whole file once and stay at its end |
| FlvTimeline.PassesReachIdle | FlvPlayer.cpp:138-142 | enough passes of a loop left alone amount to feeding until it idles or the file ends |
| FlvRuns.Step | FlvPlayer.cpp:48-188 | each thread step on the bytes of any file is the matching step of the index player, and is taken exactly when enabled; a seek that would loop forever is not enabled |
| FlvRuns.Run | FlvPlayer.cpp:56-188 | any list of requested steps, on the bytes of any file, makes a run of the index player whose callbacks are decodable |
| FlvPlayer.RawCarries | FlvPlayer.cpp:198-276 | the bytes of any valid tag are read back as its type, its I-frame test and its contents |
| FlvPlayer.FlvPlayer.constructor | FlvPlayer.cpp:26-34 | the player at the start of a file's bytes, waiting for an I frame |
| FlvPlayer.FlvPlayer.MoveForward | FlvPlayer.cpp:306-317 | from tag i it lands on the boundary of tag min(i+n, N), with the file offset equal to `cur_idx` |
| FlvPlayer.FlvPlayer.MoveBackward | FlvPlayer.cpp:319-333 | from tag i it lands on the boundary of tag max(i-n, 0); the zero size is the floor |
| FlvPlayer.FlvPlayer.BackOneTag | FlvPlayer.cpp:320-332 | one turn goes back one tag, and meets the floor exactly at the first tag |
| FlvPlayer.FlvPlayer.Move | FlvPlayer.cpp:291-304 | lands as the two walks do and reports VIDEO and I frame exactly for such tags, consuming nothing |
| FlvPlayer.FlvPlayer.Peek | FlvPlayer.cpp:296-303 | reads header and two data bytes and leaves the offset where it was |
| FlvPlayer.FlvPlayer.CountFramesFrom | FlvPlayer.cpp:67-77 | ends on the seek's target, or at the end of the file with too few frames |
| FlvPlayer.FlvPlayer.SeekTarget | FlvPlayer.cpp:67-83 | the search in either direction ends on the target |
| FlvPlayer.FlvPlayer.BackToLastVideo | FlvPlayer.cpp:78-83 | ends on the last VIDEO tag of the file |
| FlvPlayer.FlvPlayer.BackToIFrame | FlvPlayer.cpp:90-101 | ends on the nearest I frame, or on the first tag with none found, having counted the VIDEO tags passed |
| FlvPlayer.FlvPlayer.BackUpForDecoding | FlvPlayer.cpp:84-107 | final cursor, flags and replay count from the target on |
| FlvPlayer.FlvPlayer.StepByFrame | FlvPlayer.cpp:56-108 | the whole seek is an atomic seek step to the target; nothing is delivered |
| FlvPlayer.FlvPlayer.HandleSpsPps | FlvPlayer.cpp:214-232 | for `s` SPS and `p` PPS it adds `s + p` callbacks: the i-th gives SPS i, the (s+i)-th PPS i, with play off while replaying |
| FlvCallbacks.ConfigCallbacks | FlvPlayer.cpp:214-232 | the callbacks of a sequence header, index by index |
| FlvCallbacks.FrameCallbacks | FlvPlayer.cpp:234-247 | a frame tag gives the data after its nine-byte head, as IDR if and only if the first data byte is 0x17 |
| FlvCallbacks.AudioCallbacks | FlvPlayer.cpp:250-276 | an audio tag gives the data after two bytes: information if and only if byte 1 is 0, mono if and only if byte 0 is 0xAE |
| FlvCallbacks.PlaybackData | FlvPlayer.cpp:133-276 | played through, a file gives every parameter set and every frame from its first I frame on, and all its audio, in order |
| FlvCallbacks.DecoderGetsRecording | FlvPlayer.cpp:198-248 | put behind start codes, what the video callbacks were given splits into exactly those units |
| FlvPlayer.FlvPlayer.HandleFrame | FlvPlayer.cpp:234-248 | reports an I frame always and clears `need_I_frame`, another frame only if no I frame is awaited |
| FlvPlayer.FlvPlayer.HandleAudio | FlvPlayer.cpp:250-276 | reports the payload with its information kind and channel layout |
| FlvPlayer.FlvPlayer.HandleTag | FlvPlayer.cpp:198-212 | the callbacks of one tag, none for script data |
| FlvPlayer.FlvPlayer.IsFlvHeader | FlvPlayer.cpp:190-196 | true exactly for the nine header bytes with any fifth byte |
| FlvPlayer.FlvPlayer.ReadRestOfTag | FlvPlayer.cpp:156-163 | completes the header and brings exactly the tag's data into the buffer |
| FlvPlayer.FlvPlayer.CountTag | FlvPlayer.cpp:171-183 | step request and replay count after a tag, the step test first |
| FlvPlayer.FlvPlayer.FeedIteration | FlvPlayer.cpp:143-187 | one iteration on the bytes is one feed step on the tags, ends at a tag boundary and makes the callbacks of the tag |
| FlvPlayer.FlvPlayer.FeedTask | FlvPlayer.cpp:133-188 | played from the start, the bytes of a file make exactly its callbacks in order, carrying exactly its parameter sets, its frames from the first I frame on and its audio, and `cur_idx` ends at `total_bytes` |
| FlvPlayer.FlvPlayer.Pause | FlvPlayer.cpp:48-54 | toggles the pause and nothing else |
| FlvPlayer.FlvPlayer.StepOneFrameForward | FlvPlayer.cpp:110-114 | pauses and requests a step |
| FlvPlayer.FlvPlayer.StepOneFrameBackward | FlvPlayer.cpp:116-121 | pauses, seeks by -1, requests a step |
| FlvPlayer.FlvPlayer.StepBySeconds | FlvPlayer.cpp:123-131 | seeks by seconds times frame rate and ends unpaused |
| FlvContainer.FileIsLaid | FlvPlayer.cpp:146-186 | in the bytes of any tag list each tag's fields lie at its offset and end at the next tag's, with a zero size field before the first |
| FlvContainer.OffsetIsPrefixLength | FlvPlayer.cpp:306-317 | the offset reached by adding up sizes is the length of the bytes before the tag |
| FlvContainer.BoundaryTests | FlvPlayer.cpp:72-73 | the tests on byte positions for end of file and first tag are tests on the tag index |
| FlvContainer.PreviousTagSize | FlvPlayer.cpp:322-331 | the four bytes before a tag give the size of the tag before it, zero only before the first |
| FlvFormat.ConfigLayout | FlvPlayer.cpp:214-225 | where a sequence header keeps its counts and parameter sets |
| FlvFormat.SampleConfig | VideoChannel.cpp:119-143 | the bytes of a small sequence header |
| FlvFormat.SampleTag | FlvPlayer.cpp:159-186 | the bytes of a small audio tag |
| Bytes.BigEndian | FlvPlayer.cpp:236-240 | the 2-, 3- and 4-byte numbers are read most significant byte first |
| Bytes.WrittenBigEndian | VideoChannel.cpp:185-188 | and written so |
| FlvFormat.DataInBuffer | FlvPlayer.cpp:206-276 | a buffer that starts with a tag's data holds its contents where the handlers look |
| ParameterSets.ReportSets | VideoCapture.cpp:138-146 | for any counted array of up to 31 sets of up to 65535 bytes it reports exactly those sets in order and consumes exactly their bytes |
| ParameterSets.SetInBuffer | FlvPlayer.cpp:217-223 | set i and its length lie right after the first i sets |
| SafeQueue.HistoryKeeps | include/SafeQueue.hpp:24-78 | over every history: each pushed element is in exactly one of queued, popped, released; popped then queued elements keep the order of accepted pushes; no wake-up is lost |
| SafeQueue.ApplyConserves | include/SafeQueue.hpp:24-78 | each operation keeps the elements' conservation |
| SafeQueue.ApplyKeepsOrder | include/SafeQueue.hpp:24-78 | each operation keeps FIFO order among accepted pushes |
| SafeQueue.FreshIsKept | include/SafeQueue.hpp:20-21 | a new queue satisfies all three |
| SafeQueue.StaysEmpty | include/SafeQueue.hpp:24-52 | with the flag down and the queue empty, nothing enters until a non-zero `setWork` |
| SafeQueue.AcceptsExactly | include/SafeQueue.hpp:24-32 | from the history alone: accepted are exactly the pushes whose last `setWork` before was non-zero, in order |
| SafeQueue.NothingLost | include/SafeQueue.hpp:24-46 | without `clear`, popped followed by queued elements are all accepted pushes, in order, and released are exactly the others |
| SafeQueue.ReleasesExactly | include/SafeQueue.hpp:24-78 | released are the pushes made with the flag down and the elements `clear` found, no others |
| SafeQueue.SafeQueue.constructor | include/SafeQueue.hpp:20 | a new queue is empty with the flag down |
| SafeQueue.SafeQueue.Push | include/SafeQueue.hpp:24-32 | with the flag up the element joins the end of the queue and the consumer is notified; with the flag down it is released and the queue stays |
| SafeQueue.SafeQueue.PopSection | include/SafeQueue.hpp:34-46 | a pass under the lock sleeps exactly when the flag is up and the queue empty, else takes the front or returns 0 |
| SafeQueue.SafeQueue.SetWork | include/SafeQueue.hpp:48-52 | sets the flag and notifies |
| SafeQueue.SafeQueue.Clear | include/SafeQueue.hpp:70-78 | releases every queued element, oldest first |
| VideoSender.ShutdownIsSafe | VideoSender.cpp:93-151 | in every interleaving, after `stop`'s `setWork(0)` the consumer never sleeps without a pending notification, and after the thread's final `clear` the queue is empty with the flag down |
| VideoSender.StaysDrained | VideoSender.cpp:133-135 | from then on the queue stays empty whatever producers and `stop` do |
| VideoSender.StopCompletes | VideoSender.cpp:141-151 | after `setWork(0)` the push thread makes at most eight more steps in any interleaving |
| VideoSender.NeverStuck | VideoSender.cpp:96-135 | once `stop` has run `setWork(0)`, and until its end, the thread always has a step that waits for nobody |
| VideoSender.SessionsFollow | VideoSender.cpp:52-58 | once `stop` has returned, a further `push` on the same queue starts a session to which all of this applies again |
| VideoSender.RunKeepsInvariant | VideoSender.cpp:56-151 | flag, queue and program counters stay consistent over every run |
| VideoSender.RunKeepsPackets | VideoSender.cpp:96-151 | conservation, FIFO and no lost wake-up hold in every state of every interleaving |
| VideoSender.ProducedIsQueued | VideoSender.cpp:9-15 | in every run, a packet produced while the thread is in its loop is queued, until `stop` has run `setWork(0)` |
| VideoSender.LeavesExactly | VideoSender.cpp:61-119 | a step takes the thread out of its loop if and only if the network refused or `is_pushing` was found down |
| VideoSender.LeavesForAReason | VideoSender.cpp:61-119 | in every run, the thread has left only after such a step |
| VideoSender.PoppedAreSent | VideoSender.cpp:96-119 | in every run, the packets popped are handed to the network once each, in order |
| VideoSender.SendsQueue | VideoSender.cpp:96-119 | left alone with an accepting network, a running thread sends what is queued, in order, three steps a packet |
| VideoSender.VideoSender.Push | VideoSender.cpp:52-58 | launches the thread once |
| VideoSender.VideoSender.ThreadStep | VideoSender.cpp:61-138 | each section of the thread, on the real queue, is one step of the system |
| VideoSender.VideoSender.Stop | VideoSender.cpp:141-151 | each section of `stop` is one step of the system |
| VideoSender.VideoSender.OnPacket | VideoSender.cpp:9-15 | the packet callback is a producer step: the packet joins the queue if and only if the flag is up |
| VideoChannel.VideoChannel.FillLuma | VideoChannel.cpp:79-81 | for every size, Y(r,c) is the luma byte of pixel (r,c), in bounds |
| VideoChannel.VideoChannel.FillChroma | VideoChannel.cpp:82-87 | for every size, U(r,c) and V(r,c) come from the pixel pair at (2r,2c), in bounds |
| VideoChannel.PairInBuffer | VideoChannel.cpp:84-85 | the byte index of a chroma pair is that of pixel (2i,2j) and stays in the frame |
| VideoChannel.VideoChannel.SendSpsPps | VideoChannel.cpp:114-153 | the body, byte by byte, is the 1/1 decoder configuration record and fills exactly its computed size |
| VideoChannel.VideoChannel.SendFrame | VideoChannel.cpp:155-199 | strips a start code of either length; the body, byte by byte, is a frame a receiver reads back with its type |
| VideoChannel.VideoChannel.SendNal | VideoChannel.cpp:100-111 | an SPS is kept, a PPS goes out with the last SPS, other units go out alone |
| VideoChannel.VideoChannel.EncodeData | VideoChannel.cpp:76-112 | planes as above, and a receiver of the new packets gets exactly what the units amount to |
| VideoChannel.DeliversExactlyPairs | VideoChannel.cpp:100-111 | the receiver gets the encoder's units, all, in order and typed, if and only if SPS and PPS come in adjacent pairs |
| VideoChannel.SecondPpsRepeatsSps | VideoChannel.cpp:104-107 | a list for which it does not: a second PPS goes out with the same SPS again |
| VideoChannel.CopyFitsExactly | VideoChannel.cpp:95-106 | the copy of a parameter set stays inside its buffer if and only if the set has at most 100 bytes |
| VideoChannel.LongSetDoesNotFit | VideoChannel.cpp:95-106 | a set for which it does not |
| VideoChannel.DeliveredIsPaired | VideoChannel.cpp:100-107 | whatever the encoder puts out, a receiver sees SPS and PPS only in adjacent pairs |
| VideoCapture.VideoCapture.HandlePacket | VideoCapture.cpp:117-133 | a packet is reported as exactly its body's NALUs or audio unit |
| VideoCapture.VideoCapture.HandleSpsPpsPacket | VideoCapture.cpp:135-156 | for `s` SPS and `p` PPS it adds `s + p` NALUs: the i-th is SPS i, the (s+i)-th PPS i |
| VideoCapture.VideoCapture.HandleNaluFramePacket | VideoCapture.cpp:158-171 | one NALU, an IDR exactly if the first byte is 0x17 |
| VideoCapture.VideoCapture.HandleAudioPacket | VideoCapture.cpp:173-191 | payload, kind and channel layout |
| VideoCapture.VideoCapture.Pull | VideoCapture.cpp:97-115 | packets, video and audio in any order, are reported in order, each to its callback, the parameter sets of every record index by index |
| VideoCapture.SetsReported | VideoCapture.cpp:135-156 | the sets of a record come out together and in order, whatever packets are around it |
| VideoCapture.AudioLeavesVideoAlone | VideoCapture.cpp:117-133 | audio packets between the video packets change nothing for the NALU callback |
| AnnexB.SplitUndoesWrite | VideoCtrl.cpp:18-30 | units written behind start codes of either length split back into exactly those units (section B.1 of ITU-T H.264) |
| VideoCtrl.PipelineRoundTrip | VideoCtrl.cpp:18-30 | with decryption off the decoder's stream splits into exactly the encoder's units |
| VideoCtrl.DecryptedBeforeDecoding | VideoCtrl.cpp:19-29 | IDR units encrypted with the key reach the decoder plain |
| VideoCtrl.DecoderGetsUnits | VideoCtrl.cpp:18-30 | the decoder splits its stream into the received units, decrypted |
| VideoCtrl.HeaderDecodes | VideoCtrl.cpp:34-44 | the header built from a configuration decodes to its sampling index and low channel bits |
| VideoCtrl.HeaderExample | VideoCtrl.cpp:35-65 | the header bytes of a 44.1 kHz stereo stream, before and after a frame |
| VideoCtrl.PatchDecodes | VideoCtrl.cpp:56-65 | patching changes the frame length only, to 7+len modulo 2^13, with no trace of the old one |
| VideoCtrl.HeaderTracksConfig | VideoCtrl.cpp:32-69 | after any audio callbacks since a configuration the whole header decodes to it, with the length of the last frame played, or 0 before the first |
| VideoCtrl.VideoCtrl.OnAudioStream | VideoCtrl.cpp:32-69 | the header array after a configuration and any further callbacks and audio switches, in place |
| VideoCtrl.VideoCtrl.OnAudio | VideoCtrl.cpp:32-69 | each callback and each switch is one step of that account |
| VideoCtrl.AdtsSplitUndoesFeed | VideoCtrl.cpp:56-67 | a stream of frames behind patched headers splits, by decoded frame length, into exactly the frames, when 7+len fits thirteen bits |
| VideoCtrl.VideoCtrl.DecoderGetsFrames | VideoCtrl.cpp:54-68 | the AAC decoder's stream splits into exactly the frames played, in order |
| VideoCtrl.VideoCtrl.OnNalu | VideoCtrl.cpp:18-30 | a three-byte start code for IDR, a four-byte one otherwise, then the bytes; IDR data, and no other, decrypted in place when a key is set |
| VideoCtrl.VideoCtrl.OnAudioInfo | VideoCtrl.cpp:34-44 | the header array is rebuilt from the configuration |
| VideoCtrl.VideoCtrl.PatchHeader | VideoCtrl.cpp:56-65 | the length fields are replaced in place |
| VideoCtrl.VideoCtrl.OnAudioData | VideoCtrl.cpp:54-68 | header and frame are fed and count as played, unless audio is off |
| Pipeline.Transmit | VideoChannel.cpp:100-199 | one encoder output through a sender, a receiver and a player in use: the player receives what it amounts to |
| Pipeline.SessionRoundTrip | VideoCtrl.cpp:18-30 | over a session the decoder's stream splits into exactly the units of all encoder outputs, in order |
| Pipeline.Session | VideoCapture.cpp:97-115 | the same for any list of outputs through one sender, one receiver and one player without a key |
| Crypto.DecryptUndoesEncrypt | include/Crypto.hpp:11-17 | decrypt after encrypt is the identity |
| Crypto.Xor | include/Crypto.hpp:28-32 | a bit of the result is set if and only if the bits of the two bytes differ |
| Crypto.XorBitsAt | include/Crypto.hpp:28-32 | the same for every bit of numbers of any width |
| Crypto.ChunkLoopEndsExactly | include/Crypto.hpp:20-26 | some number of turns covers the buffer if and only if there is a key or nothing to do |
| Crypto.EmptyKeyLoopsForever | include/Crypto.hpp:20-26 | with an empty key no number of turns covers one byte |
| Crypto.Turn | include/Crypto.hpp:22-25 | a turn of the loop, with or without a key, moves on as that condition counts, and XORs its chunk only |
| Crypto.XorUnit | include/Crypto.hpp:28-32 | one chunk meets the key from its start, bit by bit by `Xor`, and nothing else changes |
| Crypto.Crypt | include/Crypto.hpp:20-26 | for every i, each bit of byte i is set if and only if those of the old byte and of key byte i mod key length differ; nothing behind `buf_len` changes |
| Crypto.Decrypt | include/Crypto.hpp:15-17 | the same bits, which `DecryptUndoesEncrypt` turns back |
| MainCtrl.RunsAreConsistent | MainCtrl.cpp:71-187 | over every run windows and devices form a partial bijection, and audio plays only with video |
| MainCtrl.ApplyKeeps | MainCtrl.cpp:71-266 | each operation keeps the two tables pointing at each other |
| MainCtrl.PlayCounts | MainCtrl.cpp:104-128 | a successful play adds one playing device on an idle window, keeps the count on evicting window 0; a failed one after eviction lowers it by one |
| MainCtrl.PlayShows | MainCtrl.cpp:119-127 | the device plays in the chosen window, the evicted device stops, nobody else changes |
| MainCtrl.ActivePlays | MainCtrl.cpp:106-128 | with a window and an accepting player a device starts to play if it is active and not playing, and otherwise nothing changes |
| MainCtrl.NowhereToPlay | MainCtrl.cpp:106-114 | an unknown device, or no window: nothing changes |
| MainCtrl.StatusSets | MainCtrl.cpp:252-261 | a status sets the activity of the first device with its key, active if and only if it says so, and nothing else |
| MainCtrl.StatusIgnored | MainCtrl.cpp:255-257 | a message without device or status, or about an unknown device, changes nothing |
| MainCtrl.StopUndoesPlay | MainCtrl.cpp:145-161 | stopping what was just played on an idle window restores both tables |
| MainCtrl.AudioSwitches | MainCtrl.cpp:50-55 | switching a playing window's audio is seen on that window and no other |
| MainCtrl.FindWindow | MainCtrl.cpp:177-187 | the first idle window, window 0 if all play, -1 if there is none |
| MainCtrl.MainCtrl.FindIdleWindow | MainCtrl.cpp:177-187 | the loop finds that window |
| MainCtrl.MainCtrl.AddDevice | MainCtrl.cpp:71-93 | appends an inactive, idle device without a window if the server knows it, else -1 |
| MainCtrl.MainCtrl.AddWindow | MainCtrl.cpp:95-102 | appends an idle window |
| MainCtrl.MainCtrl.PlayVideo | MainCtrl.cpp:104-128 | checks, eviction, assignment and the failure paths on both tables |
| MainCtrl.MainCtrl.StopVideo | MainCtrl.cpp:145-161 | frees the device and its window |
| MainCtrl.MainCtrl.PlayAudio | MainCtrl.cpp:130-143 | only on a playing window |
| MainCtrl.MainCtrl.StopAudio | MainCtrl.cpp:163-175 | on the window's device |
| MainCtrl.MainCtrl.HandleStatus | MainCtrl.cpp:247-266 | the first device with the key becomes active or inactive |
| ConfigCtrl.ReadBack | ConfigCtrl.cpp:32-76 | reading a published clean map overrides the map in memory by exactly it, in whatever order it was written |
| ConfigCtrl.RoundTripExactly | ConfigCtrl.cpp:32-76 | a map survives publishing and reading if and only if its keys have no whitespace, ':' or 0x1A and its values no whitespace or 0x1A |
| ConfigCtrl.SpacesDoNotSurvive | ConfigCtrl.cpp:65-75 | a map with a space in a key, and one with a space in a value, that do not |
| ConfigCtrl.TextOfDisk | ConfigCtrl.cpp:34-60 | text mode gives back what was written, up to the first 0x1A |
| ConfigCtrl.PrintedTokens | ConfigCtrl.cpp:39-65 | the whitespace tokens of a published clean map are its `key:value` pairs |
| ConfigCtrl.EnteredExactly | ConfigCtrl.cpp:66-74 | a token without ':' leaves the map as it was, any other enters what stands before and behind its first ':' |
| ConfigCtrl.PlainTokensIgnored | ConfigCtrl.cpp:65-70 | the tokens of a file without ':' might as well not be there |
| ConfigCtrl.SpaceExactly | ConfigCtrl.cpp:65 | tokens end at the six characters the default locale calls whitespace |
| ConfigCtrl.LoadedIsClean | ConfigCtrl.cpp:46-76 | whatever a file holds, loading it keeps a clean map clean |
| ConfigCtrl.ConfigCtrl.Publish | ConfigCtrl.cpp:32-44 | writes every entry once, one line each |
| ConfigCtrl.ConfigCtrl.ReadAll | ConfigCtrl.cpp:53-61 | the chunked read brings the whole text of the file |
| ConfigCtrl.ConfigCtrl.InitValues | ConfigCtrl.cpp:46-76 | enters every token that has a ':' , split at the first one |
| ConfigCtrl.ConfigCtrl.GetValue | ConfigCtrl.cpp:28-30 | an absent key reads as empty and is entered |
| ConfigCtrl.ConfigCtrl.SetValue | ConfigCtrl.cpp:24-26 | sets one entry |

## Left out

- FlvPlayer.FlvPlayer.StepByFrame: counts and byte positions are mathematical integers, so overflow of `count - 1`, of `sec * fps` and of a `long` position on files of 2 GiB or more is not modelled, and `-4-buf_len` is read as the negative number it means.
- FlvSteps.StepBackward: the press is handled by one thread; a second button or the detached thread of `step_by_seconds` acting in the middle of it is covered by the decodability theorem only.
- FlvRuns.Run: malformed files, further FLV headers in mid file and seeks before the header is consumed are outside its scope; a seek that would loop forever is passed over.
- Frame pacing (`need_sleep`, `fps`), `request_step`, `is_playing` and `stop` of the player: they decide when the loop runs, not what it delivers; `stop` during a replay is not modelled.
- Data races on the non-atomic flags, and memory ownership of packets and buffers; accesses are taken as sequentially consistent.
- VideoSender.VideoSender.Push: a `push` after the thread ended by itself, without `stop`, and audio start and stop are not modelled. RTMP calls are boolean inputs and timestamps are dropped.
- SafeQueue.SafeQueue.PopSection: the blocking `pop` is split at its wait into passes of one consumer; `empty`, `size` and `sync` are not modelled.
- VideoChannel.VideoChannel.FillLuma: image planes are taken to have no padding between rows, as the code does.
- VideoCtrl.VideoCtrl.OnAudioInfo: the audio output device, frame rendering, pixel-format conversion and local recording are not modelled; bit masks are written as arithmetic on bytes.
- MainCtrl.MainCtrl.PlayVideo: the window's own player is its answer only; names, URLs and keys of devices are dropped, as are talk, record download, login and JSON.
- ConfigCtrl.ConfigCtrl.Publish: the order of the lines is left open, and an empty file name counts as a file that does not open.
- ConfigCtrl.ConfigCtrl.GetValue: a NUL inside a value, at which `c_str()` would cut it.
- `encrypt` of include/Crypto.hpp: the same call as `decrypt`, used nowhere.
- RecordCtrl.cpp: its callbacks repeat those of VideoCtrl.cpp.
- AudioChannel.cpp, AACDecoder.cpp, H264Decoder.cpp, FFmpeg_Encode.cpp, CameraFilter.cpp, IPCClient.cpp: wrappers around libraries and devices.
