# speechd-ng: a Dafny model of the daemon's logic

speechd-ng is a speech daemon. It answers D-Bus calls and an SSIP socket,
speaks through text-to-speech backends (espeak, Piper), listens through
speech-to-text backends (Vosk, Whisper), and hands what it hears to a local
language model.

This project models the sequential logic around that audio path. Each
module follows one source file. The code the source runs as methods that
update state is modelled as Dafny classes and methods. The pure parts are
modelled as functions. Each method is proved against a specification
function, and the lemmas state what the source promises about that function.

- `Fingerprint` (src/fingerprint.rs) is the voice-correction store. It holds:
  - a table from a mis-heard word to the word meant, with count and
    confidence rules for manual and passive learning;
  - a 50-deep undo stack with rollback;
  - a 100-entry command history;
  - a 50-entry list of ignored commands, de-duplicated against the ten newest;
  - merge and replace import.
- `RateLimiter` (src/rate_limiter.rs) keeps one token bucket per (sender,
  category). A bucket is created full on first use, refilled at the
  per-minute limit capped at one minute's worth, and drained one token per
  admitted request. Idle buckets are dropped by age.
- `Ssip` (src/ssip.rs) is the SSIP shim. A session greets, then answers
  SET, SPEAK, QUIT and unknown commands line by line. SPEAK enters a data
  mode that ends at a line trimming to "." or at end of input. The bind loop
  tries at most six times.
- `Service` (src/service.rs) holds:
  - the `wpctl status` sink-list parser;
  - the default sink, and the default-sink id read from `wpctl inspect`;
  - the argument guards of `SetWakeWord`, `SetBrainModel` and `ManageBrain`;
  - the rate-limit check that `Speak` makes before speaking.
- `Proactive` (src/proactive.rs) holds:
  - the timer list and its expiry sweep;
  - the 30-second suppression window and its reset;
  - the prompt of each event;
  - the sentence chunker that speaks a streamed reply.
- `Cortex` (src/cortex.rs) is the bounded short-term memory and the prompt
  sent to the language model.
- `Chronicler` (src/chronicler.rs, the keyword implementation) stores memories
  under 8-byte big-endian timestamp keys. Its search scores, ranks and keeps
  the top k.
- `X11Context`, `WaylandContext` and `EnvironmentalContext` (src/context/)
  hold:
  - the parsing of the `xprop`, `swaymsg`, `hyprctl`, `gdbus` and `kdotool`
    outputs;
  - the compositor dispatch;
  - the Wayland-then-X11 fallback;
  - the prompt fragment.
- `Piper` (src/backends/piper.rs) holds the model file names, the voice
  metadata, the local voice listing, the sorted download catalog, the files
  a download fetches, and the `piper` invocation.
- `Whisper` (src/backends/whisper.rs) holds the tilde expansion, the language
  gate, the segment joining, the down-mix to mono and the resample gate.
- `ConfigLoader` (src/config_loader.rs) holds the default settings and
  `validate`.

Three modules support the others:

- `Wrappers` holds Option and Result.
- `Text` holds the Rust string operations the source uses: `trim`,
  `split_whitespace`, `lines`, `contains`, `find`, `split(..).nth(1)`, ASCII
  case mapping, and u32 parsing and printing.
- `Sorting` holds the stable sort behind `sort_by`.

Several things are parameters instead of effects:

- Time is a `real` number of seconds.
- Environment variables, command outputs and file contents are `Option`
  values.
- A parsed JSON document is a datatype holding the fields the code reads.
- The streamed reply of the language model is a function from the prompt to
  its tokens.

Integer widths are kept where they matter (u32 ids, i64 timestamp keys).

Points where the source behaves in a way that is easy to miss:

- The Whisper transcript appends each segment's raw text and a space, then
  trims the whole text once. It does not trim each segment.
- A passive correction of a new key gets confidence 1/10, because the
  inserted entry takes the counting branch. The configured initial
  confidence applies only when it overrides a different correction.
- `Memory::add` with `memory_size` 0 still keeps the newest entry.
- The timers due in one sweep are triggered one after another. Each trigger
  reads the clock afresh, after every earlier reply of the round has been
  streamed. While the round stays within 30 seconds, at most one of its
  timers is announced (`Proactive.AtMostOneTimerPerRound`). A timer that
  comes a full window after the previous trigger is announced
  (`Proactive.LaterTimerAdmittedAfterWait`).

## Model

| member | source | states |
|---|---|---|
| Fingerprint.PushCapped | src/fingerprint.rs:143-146 | the new entry is last; below the cap it is appended and nothing else changes; at the cap the oldest entry is dropped and the rest keep their order; a list within the cap stays within it |
| Fingerprint.Lookup | src/fingerprint.rs:96 | a pattern is found exactly when the key is present, and it is the stored one |
| Fingerprint.ManualUpdate | src/fingerprint.rs:149-166 | a new key gets count 1, confidence 0.8, source manual; the same correction again adds one to the count with confidence min(0.7 + 0.1·count, 1); a different correction resets to count 1, confidence 0.7, manual; confidence stays in [0.7, 1] |
| Fingerprint.PassiveUpdate | src/fingerprint.rs:100-119 | a new key gets count 1 and confidence 0.1; a repeat adds one to the count with confidence min(count/10, 1); a conflicting correction resets to count 1 with the configured initial confidence, source passive |
| Fingerprint.Restore | src/fingerprint.rs:181-188 | the undone key is back to its recorded pattern, or absent if it had none; every other key is unchanged |
| Fingerprint.RestoreUndoesUpdate | src/fingerprint.rs:144-188 | restoring with the undo record taken before an update gives back the table exactly |
| Fingerprint.Merge | src/fingerprint.rs:301-309 | the keys are the union; existing keys keep their pattern; imported keys fill only the gaps |
| Fingerprint.MergeCount | src/fingerprint.rs:301-318 | the count after a merge is the old count plus the number of imported keys that were missing |
| Fingerprint.MergeMissing | src/fingerprint.rs:303-309 | the merge loop yields exactly the merged table |
| Fingerprint.Recent | src/fingerprint.rs:336-340 | the ten newest ignored commands (all when fewer), as a suffix of the list |
| Fingerprint.WithoutHeard | src/fingerprint.rs:384 | keeps exactly the entries whose heard text differs up to case, in order |
| Fingerprint.WithoutHeardShrinks | src/fingerprint.rs:383-385 | the list gets shorter if and only if some entry matches up to case |
| Fingerprint.HintsAreConfidentAndDistinct | src/fingerprint.rs:208-223 | every hint names a word of the text whose pattern has confidence above 0.3, and no lower-cased word is hinted twice |
| Fingerprint.HintsEmptyIff | src/fingerprint.rs:210-230 | there are no hints if and only if no word of the text has a pattern above 0.3 |
| Fingerprint.HintsStep | src/fingerprint.rs:210-222 | one word either adds its hint and marks its key, or is skipped when already matched or not confident |
| Fingerprint.HintsFrom | src/fingerprint.rs:208-223 | never more hints than words; every hint is for a word of the text and has confidence above 0.3 |
| Fingerprint.Percent | src/fingerprint.rs:218-219 | a non-negative confidence prints as digits whose value is the percentage rounded to the nearest whole number; a value that rounds below zero prints with a leading "-" |
| Fingerprint.RenderPrompt | src/fingerprint.rs:225-230 | empty exactly when there are no hints; otherwise it starts with the corrections header and ends with a newline |
| Fingerprint.Stats | src/fingerprint.rs:234-244 | manual plus non-manual patterns add up to the table size; the third figure is the history length |
| Fingerprint.Store.constructor | src/fingerprint.rs:48-65 | the loaded data when a file parsed, empty data otherwise; the undo stack starts empty |
| Fingerprint.Store.PushUndo | src/fingerprint.rs:143-146 | the key's current pattern is recorded last on the undo stack, which never exceeds 50 |
| Fingerprint.Store.AddManualCorrection | src/fingerprint.rs:134-176 | refuses empty words and heard == meant, changing nothing; otherwise records the undo entry and sets the lower-cased key to the manual update; history and ignored list are untouched |
| Fingerprint.Store.AddPassiveCorrection | src/fingerprint.rs:83-130 | same guard; otherwise records the undo entry, applies the passive update and appends `meant` to the history, capped at 100 |
| Fingerprint.Store.PassiveLearn | src/fingerprint.rs:67-80 | learns passively only when exactly one word is missing from the final text and exactly one is new, then pushes the undo record of that key and appends the new word to the capped history; otherwise nothing changes; the ignored list is never touched |
| Fingerprint.Store.RollbackLastCorrection | src/fingerprint.rs:179-201 | false and no change on an empty stack; otherwise pops the newest record and restores its key, leaving every other key unchanged |
| Fingerprint.Store.GetCorrectionsPrompt | src/fingerprint.rs:203-231 | the prompt block for the hints of the text's words, in text order |
| Fingerprint.Store.GetStats | src/fingerprint.rs:234-244 | the first two figures add up to the table size; the third is the history length |
| Fingerprint.Store.ImportData | src/fingerprint.rs:282-319 | an unreadable file gives 0 and no change; merge fills missing keys only; replace makes the data the imported data with an empty undo stack; the result is the final pattern count |
| Fingerprint.Store.AddIgnoredCommand | src/fingerprint.rs:329-357 | empty text, or text equal to one of the ten newest entries, changes nothing; otherwise the entry is appended and the list is capped at 50, oldest first out |
| Fingerprint.Store.ClearIgnoredCommands | src/fingerprint.rs:368-375 | returns the number of entries and empties the list |
| Fingerprint.Store.CorrectIgnoredCommand | src/fingerprint.rs:379-399 | removes every entry equal up to case; true if and only if one was there; then learns the pair manually, with its undo record, when the pair is learnable; nothing is learned when none was there |
| Fingerprint.ManualThenRollback | src/fingerprint.rs:134-201 | a manual correction followed by a rollback leaves the table as it was |
| Fingerprint.LearnAndUndo | src/fingerprint.rs:134-201 | on a store, learning then rolling back restores the table, and the undo stack too when it was not full |
| Fingerprint.PassiveLearnAndUndo | src/fingerprint.rs:67-201 | a passive learn of a one-word correction is undone by one rollback: the table is restored, and the undo stack too when it was not full |
| RateLimiter.Elapsed | src/rate_limiter.rs:36 | elapsed time is never negative, and equals now minus the last update when that is not in the future |
| RateLimiter.Refilled | src/rate_limiter.rs:37 | the refilled level never exceeds capacity; it is either capacity or the level plus elapsed·rate; it never falls; with no time elapsed it is unchanged |
| RateLimiter.TokenBucket.constructor | src/rate_limiter.rs:14-21 | a new bucket is full, refills a minute's limit over sixty seconds and is stamped now |
| RateLimiter.TokenBucket.Refill | src/rate_limiter.rs:34-39 | the level is the refilled level, between the old level and capacity; the update time moves to now |
| RateLimiter.TokenBucket.TryConsume | src/rate_limiter.rs:23-32 | admits exactly when the refilled level covers the amount, then takes it; the level never goes negative; the update time advances either way |
| RateLimiter.Burst | src/rate_limiter.rs:26-31 | one admission result per request of a burst with no time passing |
| RateLimiter.BurstAdmitsLevel | src/rate_limiter.rs:26-31 | from a whole number m of tokens, exactly the first m requests of a burst are admitted |
| RateLimiter.WholeSecondsBelow | src/rate_limiter.rs:113 | comparing whole elapsed seconds with max_age is the same as comparing the elapsed time |
| RateLimiter.Limiter.constructor | src/rate_limiter.rs:63-71 | no buckets, and the four per-minute limits as given |
| RateLimiter.Limiter.Default | src/rate_limiter.rs:117-121 | limits of 30 TTS, 10 AI, 20 audio and 30 listen requests per minute |
| RateLimiter.Limiter.Check | src/rate_limiter.rs:75-94 | admits exactly when the key's level after refill (a full bucket when the key is new) is at least one token; the bucket is then debited by one token exactly when admitted and stamped now; a new key gets a fresh bucket whose capacity is its category's limit and whose rate is that limit per 60 s; every other bucket object is unchanged |
| RateLimiter.Limiter.LimitFor | src/rate_limiter.rs:75-81 | TTS, AI, audio and listen checks use their own per-minute limit |
| RateLimiter.Limiter.Admits | src/rate_limiter.rs:23-39 | a check is admitted exactly when the refilled level reaches one token; a new key is admitted exactly when its limit is at least one; a known key whose limit is at least one is admitted once 60/limit seconds have passed since its last update, however drained it was |
| RateLimiter.RefillAfterWait | src/rate_limiter.rs:14-39 | a bucket refilling a limit of at least one per minute regains a whole token after 60/limit seconds, from any level |
| RateLimiter.CheckAfterWait | src/rate_limiter.rs:75-94 | a check of a known sender made at least 60/limit seconds after its bucket was last updated is admitted, even when the bucket was drained |
| RateLimiter.Limiter.Remaining | src/rate_limiter.rs:98-106 | an unseen key reports the TTS limit, whatever the category; a known key reports a level within its capacity |
| RateLimiter.Limiter.Cleanup | src/rate_limiter.rs:109-114 | keeps exactly the buckets updated fewer than max_age whole seconds ago, unchanged |
| RateLimiter.CheckBurst | src/rate_limiter.rs:83-93 | n checks of a new key at one instant admit exactly the first L, L being the whole-number limit |
| RateLimiter.FirstCheck | src/rate_limiter.rs:83-93 | the first check of a key creates a full bucket stamped now and takes one token when the limit allows it, leaving the other buckets in place |
| RateLimiter.RecheckBurst | src/rate_limiter.rs:89-93 | further checks of a key at the instant of its last update follow the burst from its current level |
| RateLimiter.RecheckAtSameTime | src/rate_limiter.rs:89-93 | a check at the instant of the last update does not refill, and takes a token if there is one |
| Ssip.DataLength | src/ssip.rs:88-100 | the data runs up to the first terminator line, or to end of input when there is none |
| Ssip.Classify | src/ssip.rs:68-76 | a line is blank exactly when it trims to nothing; SET, SPEAK and QUIT are recognised only when the upper-cased first word is that command |
| Ssip.Commands | src/ssip.rs:62-122 | at most three events per line read; no event at all exactly when every line is blank |
| Ssip.Session | src/ssip.rs:58-60 | every session log opens with the two greeting lines |
| Ssip.ReadData | src/ssip.rs:87-100 | collects the raw lines before the first line trimming to "."; reading resumes after it, or stops at end of input |
| Ssip.ReadDataMatchesSpec | src/ssip.rs:88-100 | what the data loop read is the data the session spec speaks |
| Ssip.SpeakStep | src/ssip.rs:83-107 | a SPEAK line yields the data acknowledgement, one speak of the data and the queued reply, and the session continues after the data |
| Ssip.HandleLine | src/ssip.rs:62-120 | one pass of the read loop produces the `Commands` events for that line, and says where `Commands` continues or that QUIT ended it |
| Ssip.HandleConnection | src/ssip.rs:50-123 | the event log of a connection is exactly the session spec of its input |
| Ssip.ServeLines | src/ssip.rs:62-122 | the read loop produces exactly the `Commands` events after the greeting |
| Ssip.BlankLineIsSilent | src/ssip.rs:68-71 | a blank or whitespace-only line draws no response |
| Ssip.QuitEndsSession | src/ssip.rs:108-111 | QUIT answers "231 HAPPY HACKING" and nothing after it is read |
| Ssip.CommandIsFirstWord | src/ssip.rs:73-74 | the command is the upper-cased first word of the trimmed line |
| Ssip.CommandIgnoresCase | src/ssip.rs:74 | the command word is matched regardless of letter case |
| Ssip.SpeakSpeaksDataOnce | src/ssip.rs:83-107 | SPEAK with data and a "." line acknowledges, speaks the concatenated raw lines once, answers queued, then goes on after the terminator |
| Ssip.SpeakAtEof | src/ssip.rs:88-106 | a SPEAK cut off by end of input still speaks what it collected and answers queued |
| Ssip.RepliesAreKnown | src/ssip.rs:76-120 | every reply in a session is one of the protocol's fixed answers |
| Ssip.SpeakFollowsAck | src/ssip.rs:83-106 | every engine call comes right after the data-mode acknowledgement |
| Ssip.BindWithRetries | src/ssip.rs:8-31 | at most six attempts; it stops at the first success; it fails only after six failures; it binds if and only if one of the first six attempts succeeds |
| Service.RemoveBoxChars | src/service.rs:601-604 | the result is never longer than the line |
| Service.RemoveBoxCharsKeeps | src/service.rs:601-604 | exactly the characters that are not box drawing are kept |
| Service.ParseSinkLine | src/service.rs:596-625 | a line with neither "[vol:" nor "." yields nothing; a sink has a u32 id, a non-empty name equal to its description, and is default if and only if the line holds '*' |
| Service.ParseEntry | src/service.rs:605-625 | a parsed entry has a u32 id, a non-empty name equal to its description and the given default flag |
| Service.CleanEntry | src/service.rs:600-604 | the cleaned entry is no longer than the line and has no whitespace at either end |
| Service.SinksFrom | src/service.rs:583-628 | never more sinks than lines; nothing is listed when no line is a "Sinks:" header before the section is entered |
| Service.ListSinks | src/service.rs:583-628 | the parser loop yields the sinks of the sink section; a failed command yields none |
| Service.NoSinkBeforeHeader | src/service.rs:583-587 | lines before the first "Sinks:" header contribute no sink |
| Service.NothingAfterSectionEnd | src/service.rs:588-594 | nothing after a "Sources:", "Streams:" or "Filters:" line is read |
| Service.SinksComeFromLines | src/service.rs:596-625 | every listed sink is what one of the lines parses to |
| Service.SinkLineRoundTrip | src/service.rs:596-625 | a `wpctl` sink line built from an id, a name and a volume parses back to that sink, with the default flag of its marker |
| Service.StarMarksDefault | src/service.rs:600 | such a line holds '*' if and only if it is the default sink's |
| Service.DefaultSink | src/service.rs:685-692 | the id and name of the first sink flagged default, else (0, "") |
| Service.FirstIdLine | src/service.rs:649 | the first line whose trim starts with "id"; None when there is none |
| Service.IdOfLine | src/service.rs:650-651 | an id read from a line is a u32 |
| Service.DefaultIdFromLines | src/service.rs:647-651 | the id of the first id line, when it parses, is a u32 |
| Service.DefaultIdFromInspect | src/service.rs:641-652 | no id when the command failed; otherwise the id from its output |
| Service.IdOfIdLine | src/service.rs:649-651 | the line `wpctl inspect` prints for node n is an id line and reads back as n |
| Service.DefaultIdRoundTrip | src/service.rs:645-652 | the first id line decides the default id |
| Service.ServiceState.SetWakeWord | src/service.rs:412-448 | an empty word is refused before anything changes; a Polkit denial changes nothing; otherwise the word is stored, and the listener's restart decides the reply |
| Service.ServiceState.SetBrainModel | src/service.rs:779-796 | true exactly for a non-empty name with the lock available, and then the name is the override; otherwise nothing changes |
| Service.ServiceState.ManageBrain | src/service.rs:740-777 | start, stop and pull report their command's outcome; use is SetBrainModel; any other action is false and changes nothing |
| Service.Speak | src/service.rs:34-66 | a sender the limiter refuses gets "Rate limited", and nothing reaches the engine or the AI; otherwise the text is spoken if audio is on and observed if AI is on; with a sender the limiter's state changes exactly as one check of (sender, TTS): the key is added if new, its bucket is debited by one token exactly when admitted and stamped now, and every other bucket is unchanged; without a sender no bucket changes |
| Proactive.ResetUnsuppresses | src/proactive.rs:53-56 | after a reset no event at that time or later is suppressed |
| Proactive.SuppressedAt | src/proactive.rs:193-197 | an event is suppressed exactly when it comes less than 30 s after the last speech; a last speech stamped after now always suppresses |
| Proactive.SpeechOpensWindow | src/proactive.rs:193-201 | within 30 seconds of an admitted event every further event is suppressed |
| Proactive.PromptFor | src/proactive.rs:204-222 | every event has a non-empty prompt |
| Proactive.TimerPromptInjective | src/proactive.rs:215-217 | a timer's message can be read back from its prompt |
| Proactive.Expired | src/proactive.rs:69-71 | the due timers, in list order, never more than the list |
| Proactive.Pending | src/proactive.rs:69-72 | the timers not yet due, in list order, never more than the list |
| Proactive.SweepMembership | src/proactive.rs:69-73 | a timer is swept out exactly when it is listed and its deadline has been reached; it stays exactly when it is listed and not due |
| Proactive.SweepPartitions | src/proactive.rs:69-73 | every timer ends up in exactly one of the two lists |
| Proactive.SweepSettles | src/proactive.rs:69-73 | a second sweep at the same time finds nothing more |
| Proactive.Flush | src/proactive.rs:245-250 | a flush speaks at most one chunk |
| Proactive.EndsSentence | src/proactive.rs:240-243 | the buffer ends a sentence exactly when it ends with ".", "?", "!" or a newline |
| Proactive.Chunks | src/proactive.rs:233-258 | at most one chunk per token plus the final flush, and no chunk is empty |
| Proactive.ChunksKeepText | src/proactive.rs:233-258 | the chunks spoken hold exactly the reply's non-whitespace characters, in order, none lost or repeated |
| Proactive.FlushSpeakable | src/proactive.rs:254-258 | the final flush speaks only a non-empty trimmed chunk |
| Proactive.ChunksSpeakable | src/proactive.rs:240-258 | every spoken chunk is non-empty and trimmed |
| Proactive.OneSentenceReply | src/proactive.rs:235-251 | a one-token reply that is one trimmed sentence is spoken once, as it is |
| Proactive.TestingResponseSpokenOnce | tests/integration_test.rs:52-72 | the reply "Testing response." is spoken exactly once, verbatim |
| Proactive.SpeakStream | src/proactive.rs:233-258 | the receive loop speaks exactly the chunker's chunks |
| Proactive.EventOutcome | src/proactive.rs:189-259 | an event is suppressed exactly inside the window, and then nothing is sent or spoken; otherwise its prompt is sent and the reply spoken in chunks |
| Proactive.TimerOutcomes | src/proactive.rs:76-82 | one outcome per due timer |
| Proactive.RoundOutcomes | src/proactive.rs:76-201 | the k-th timer is handled with the last speech left by the timers before it, and at its own clock reading; it is suppressed exactly when that reading is inside the window of that last speech |
| Proactive.LastSpeechGrows | src/proactive.rs:193-201 | during a round the last speech only moves forward |
| Proactive.LastSpeechNotAfter | src/proactive.rs:193-201 | with a clock that runs forward, the last speech is never later than the previous trigger |
| Proactive.SuppressedRoundSilent | src/proactive.rs:76-82 | while every trigger of the round falls inside the window of the last speech, every timer event of the round is silent |
| Proactive.AtMostOneTimerPerRound | src/proactive.rs:65-82 | in a round whose triggers fall within 30 seconds, the first timer is announced exactly when the window is open, and once a timer is announced every later one is suppressed |
| Proactive.LaterTimerAdmittedAfterWait | src/proactive.rs:76-201 | a timer triggered a full window after the previous trigger, for instance after a slow reply, is announced |
| Proactive.Manager.constructor | src/proactive.rs:35-42 | a new manager counts as having just spoken and has no timers |
| Proactive.Manager.AddTimer | src/proactive.rs:44-51 | the timer is appended with deadline now plus the duration; the window is untouched |
| Proactive.Manager.ResetRateLimit | src/proactive.rs:53-56 | the last speech is backdated 60 seconds, so no event from now on is suppressed |
| Proactive.Manager.SweepTimers | src/proactive.rs:65-74 | returns the due timers and keeps the rest, both in list order |
| Proactive.Manager.TriggerEvent | src/proactive.rs:189-259 | the outcome of the event; an admitted event records now as the last speech; a suppressed one changes nothing |
| Proactive.Manager.Tick | src/proactive.rs:61-82 | one round keeps the pending timers and triggers one timer event per due timer, in order, each at its own clock reading; the last speech ends as the round leaves it |
| Proactive.ResetThenTrigger | tests/integration_test.rs:49-75 | a fresh manager, a reset, then an idle event whose reply is "Testing response." sends the idle prompt and speaks that text once |
| Cortex.Capacity | src/cortex.rs:86-91 | the history holds max_size entries, or one when max_size is 0 |
| Cortex.Pushed | src/cortex.rs:86-91 | the new text is last; a history below max_size is simply extended by it |
| Cortex.PushedKeepsNewest | src/cortex.rs:86-91 | one add keeps exactly the newest entries that fit, the new text last |
| Cortex.PushAllKeepsNewest | src/cortex.rs:86-91 | after any number of adds the history is the newest entries that fit, in the order added |
| Cortex.Memory.constructor | src/cortex.rs:78-84 | an empty history sized from the setting |
| Cortex.Memory.Add | src/cortex.rs:86-91 | the history becomes `Pushed` of the old history: the oldest entry goes when full, and the text is appended |
| Cortex.Memory.Context | src/cortex.rs:93-99 | an empty history gives the empty context; otherwise the context starts with the oldest entry and ends with the newest |
| Cortex.ContextGrows | src/cortex.rs:93-99 | adding to a history that is not full extends the newline-joined context by a newline and the text |
| Cortex.HeaderOnlyWithMemories | src/cortex.rs:197-204 | the long-term header appears exactly when the search returned at least one memory |
| Cortex.QueryContext | src/cortex.rs:190-204 | the query context starts with the short-term context, is exactly it when the search failed, and continues with the long-term header when memories were recalled |
| Cortex.PromptText | src/cortex.rs:206-210 | the prompt starts with "Context:\n" and the context, and ends with "\n\nUser: " and the prompt |
| Cortex.PromptTextParts | src/cortex.rs:206-210 | the context and the user's prompt sit at fixed places in "Context:\n…\n\nUser: …" |
| Cortex.PromptTextInjective | src/cortex.rs:206-210 | for prompts of equal length, equal prompt texts have equal contexts and equal prompts |
| Cortex.BuildContext | src/cortex.rs:190-204 | the loop builds exactly the query context of the memory (of the empty text when the memory lock is poisoned) and the recalled memories |
| Cortex.Query | src/cortex.rs:170-263 | with AI disabled the query replies "AI is disabled."; otherwise, and always when streaming, the assembled prompt is sent, built on the empty short-term context when the memory lock is poisoned |
| Chronicler.EncodeI64 | src/chronicler.rs:183 | a key is 8 bytes |
| Chronicler.QueryWords | src/chronicler.rs:196-197 | every query word is non-empty and holds no whitespace |
| Chronicler.DecodeI64 | src/chronicler.rs:224 | a decoded key is an i64 |
| Chronicler.DecodeEncode | src/chronicler.rs:183-224 | decoding a stored key gives back its timestamp |
| Chronicler.EncodeDecode | src/chronicler.rs:202-224 | every 8-byte key is the encoding of the timestamp it decodes to |
| Chronicler.Score | src/chronicler.rs:217-221 | a score never exceeds the number of query words |
| Chronicler.ScorePositive | src/chronicler.rs:217-223 | a memory scores above zero exactly when it contains a query word |
| Chronicler.ScoreAppend | src/chronicler.rs:218-221 | the score adds up over the query words, repeats counted |
| Chronicler.MatchOf | src/chronicler.rs:200-226 | an entry matches only with an 8-byte key, a readable value and a positive score, carrying the decoded timestamp and its text |
| Chronicler.Matches | src/chronicler.rs:200-227 | never more matches than entries |
| Chronicler.MatchesFromEntries | src/chronicler.rs:200-227 | a match is listed exactly when some entry yields it |
| Chronicler.RanksBeforeIsTotalPreorder | src/chronicler.rs:229-232 | the ranking by score, then recency, is a total preorder |
| Chronicler.RanksBefore | src/chronicler.rs:229-232 | a higher score ranks first; at equal scores the later timestamp ranks first, ties either way |
| Chronicler.SearchRanks | src/chronicler.rs:229-234 | the result holds min(top_k, matches) texts, taken from a ranking that is a permutation of the matches sorted by score and then recency |
| Chronicler.SearchResult | src/chronicler.rs:190-235 | at most top_k texts and at most one per stored entry; every text returned is the text of a stored memory |
| Chronicler.BlankQueryFindsNothing | src/chronicler.rs:196-227 | a blank query returns nothing |
| Chronicler.StoredMemoryMatches | src/chronicler.rs:172-226 | a stored memory hit by a query word is found with its own timestamp and text |
| Chronicler.CollectMatches | src/chronicler.rs:198-227 | the scoring loop yields exactly the matches in iteration order |
| Chronicler.Store.constructor | src/chronicler.rs:167-170 | the store opens with the given contents |
| Chronicler.Store.AddMemory | src/chronicler.rs:172-188 | blank text changes nothing; otherwise the text is stored under the key of its timestamp (0 when the clock is out of range) |
| Chronicler.Store.Search | src/chronicler.rs:190-235 | returns the search result over the store's entries |
| X11Context.WindowId | src/context/x11.rs:10-14 | no id without "window id # "; an id is a non-empty word without whitespace |
| X11Context.WindowIdOfRootLine | src/context/x11.rs:11-14 | the id is read back from the root window's xprop line |
| X11Context.QuotedValue | src/context/x11.rs:29-36 | no value without ' = "'; a value is shorter than the line by more than the separator |
| X11Context.ClassValue | src/context/x11.rs:37-46 | no value without either separator; a value is shorter than the line by more than the separator |
| X11Context.Step | src/context/x11.rs:29-46 | only a "_NET_WM_NAME" line can change the name, and only to its quoted value; only a "WM_CLASS" line that is not a name line can change the class, and only to its class value |
| X11Context.Props | src/context/x11.rs:25-48 | the name is "Unknown Window" or the quoted value of some "_NET_WM_NAME" line; the class is "Unknown App" or the class value of some "WM_CLASS" line |
| X11Context.DefaultsWithoutProperties | src/context/x11.rs:25-48 | when no line parses, the name and class stay "Unknown Window" and "Unknown App" |
| X11Context.LastNameLineWins | src/context/x11.rs:29-36 | a name line that parses sets the name and leaves the class |
| X11Context.LastClassLineWins | src/context/x11.rs:37-46 | a class line that parses sets the class and leaves the name |
| X11Context.QuotedValueOfLine | src/context/x11.rs:29-36 | `_NET_WM_NAME(...) = "<title>"` yields the title |
| X11Context.ClassValueOfLine | src/context/x11.rs:37-46 | `WM_CLASS(...) = "<instance>", "<class>"` yields the class, the second field |
| X11Context.X11Context | src/context/x11.rs:3-53 | None when the root query failed or has no window id marker |
| X11Context.ReadProps | src/context/x11.rs:25-48 | the property loop yields the (name, class) of `Props` |
| X11Context.GetX11Context | src/context/x11.rs:3-53 | the query yields exactly the context of `X11Context` |
| WaylandContext.Detect | src/context/wayland.rs:6-21 | SWAY wins; no compositor exactly when none of SWAY, HYPRLAND, GNOME (desktop or session) or KDE appears |
| WaylandContext.DetectIgnoresCase | src/context/wayland.rs:6-9 | detection ignores letter case |
| WaylandContext.DetectPriority | src/context/wayland.rs:11-19 | HYPRLAND comes before GNOME and KDE, and GNOME before KDE |
| WaylandContext.Describe | src/context/wayland.rs:37-44 | name defaults to "Unknown"; app_id falls back to the window class, then "Unknown" |
| WaylandContext.FindFocused | src/context/wayland.rs:36-63 | a focused node reports itself; an unfocused leaf finds nothing; a hit in the first tiled child is the answer |
| WaylandContext.FindFocusedNoneIffNoFocus | src/context/wayland.rs:36-63 | the search finds nothing exactly when no node of the tree is focused |
| WaylandContext.FocusedRootWins | src/context/wayland.rs:37-45 | a focused node is reported ahead of anything below it |
| WaylandContext.TiledBeforeFloating | src/context/wayland.rs:47-61 | the first tiled child with a focused node decides, ahead of all floating nodes |
| WaylandContext.FloatingWhenNoTiledFocus | src/context/wayland.rs:47-61 | with no focus under the tiled children, the floating nodes decide |
| WaylandContext.HyprlandContext | src/context/wayland.rs:68-81 | a result exactly when the JSON parsed; title and class default to "Unknown" |
| WaylandContext.GnomeContext | src/context/wayland.rs:100-107 | a result exactly when the reply holds "(true,", with application "GNOME App" |
| WaylandContext.GnomeTitleOfReply | src/context/wayland.rs:100-105 | the reply `(true, "<title>")` yields the title |
| WaylandContext.KdeContext | src/context/wayland.rs:110-137 | a result exactly when kdotool is installed and answers |
| WaylandContext.WaylandContext | src/context/wayland.rs:4-22 | an unsupported desktop gives None; sway gives the focused node of its tree |
| EnvironmentalContext.CurrentContext | src/context/mod.rs:12-34 | in a Wayland session the Wayland answer is used, else the X11 one; otherwise X11 only; with neither the default pair |
| EnvironmentalContext.PromptFragment | src/context/mod.rs:36-41 | the fragment starts with the header, the window title and the application label, and ends with the application and a newline |
| EnvironmentalContext.NonWaylandIgnoresWayland | src/context/mod.rs:17-25 | outside a Wayland session the Wayland answer is never consulted |
| EnvironmentalContext.SessionTypeIgnoresCase | src/context/mod.rs:13-17 | the session type is compared regardless of letter case |
| EnvironmentalContext.FragmentReadsBack | src/context/mod.rs:36-41 | the window title is read back from the fragment, from the header to the first newline |
| EnvironmentalContext.FragmentInjective | src/context/mod.rs:36-41 | equal fragments come from equal contexts, for titles without newlines |
| Piper.FindModelFiles | src/backends/piper.rs:29-38 | found exactly when `<id>.onnx` and `<id>.onnx.json` both exist |
| Piper.ModelFilesDistinguishVoices | src/backends/piper.rs:30-31 | different voices never share a model or config file |
| Piper.Readable | src/backends/piper.rs:43 | same length as the id, with no '_' left |
| Piper.VoiceFromConfig | src/backends/piper.rs:40-69 | the name is the readable id, plus " (quality)" exactly when the config gives one; the language is espeak.voice, else "unknown" |
| Piper.ParseVoiceMetadata | src/backends/piper.rs:40-69 | the method yields the voice of `VoiceFromConfig` |
| Piper.StemOfOnnxFile | src/backends/piper.rs:81-82 | the stem of `<id>.onnx` is the id |
| Piper.Stem | src/backends/piper.rs:81-82 | the stem is non-empty and the file name is the stem followed by ".onnx" |
| Piper.LocalVoice | src/backends/piper.rs:80-92 | the voice id is the stem and its name starts with the readable id; without a config file the name is the readable id and the language "unknown"; an unreadable config also gives "unknown" |
| Piper.LocalVoices | src/backends/piper.rs:74-100 | never more voices than directory entries; every voice has a non-empty id and a name starting with its readable id |
| Piper.LocalVoicesListModels | src/backends/piper.rs:74-100 | a voice is listed exactly for each model file, with the stem as id; a missing config gives language "unknown" |
| Piper.ListedVoicesHaveModels | src/backends/piper.rs:80-92 | a listed voice whose config exists has both its model files found |
| Piper.ListVoices | src/backends/piper.rs:74-100 | the listing loop yields the voices of `LocalVoices`; nothing when the directory is missing |
| Piper.CatalogVoice | src/backends/piper.rs:120-136 | id is the key; the name starts with the entry's name or the key, with " (unknown)" for a missing quality; the language falls back to "unknown" |
| Piper.CatalogVoices | src/backends/piper.rs:119-138 | one voice per catalog entry, in catalog order |
| Piper.VoiceBeforeIsTotalPreorder | src/backends/piper.rs:141 | ordering by language, then name, is a total preorder |
| Piper.VoiceBefore | src/backends/piper.rs:141 | voices of different languages are ordered by language; voices of one language by name |
| Piper.DownloadableVoicesOrdered | src/backends/piper.rs:118-143 | the listing is a permutation of the catalog voices, sorted by language and then name |
| Piper.ListDownloadableVoices | src/backends/piper.rs:102-144 | a failed fetch or parse is returned as the error; otherwise the sorted listing |
| Piper.FileName | src/backends/piper.rs:178-180 | the final path component holds no '/' and ends the path |
| Piper.FileNameKeepsSuffix | src/backends/piper.rs:169-184 | a suffix without '/' stays on the file name |
| Piper.Fetches | src/backends/piper.rs:169-186 | never more fetches than catalog files; every URL starts with the download base |
| Piper.FetchesAreWanted | src/backends/piper.rs:169-186 | only model and config files are fetched, each wanted file is fetched, and it is saved under a name of the same kind |
| Piper.DownloadPlan | src/backends/piper.rs:153-170 | NotFound for a voice missing from the catalog, InvalidData for one without files, otherwise the fetches |
| Piper.DownloadVoice | src/backends/piper.rs:146-189 | a failed catalog fetch is the error; otherwise the plan |
| Piper.Synthesize | src/backends/piper.rs:191-220 | runs the configured binary with `-m`, the model's `.onnx` file in the models directory and `--output_file -`, writing the text and a newline to its input, exactly when both model files exist; NotFound otherwise |
| Piper.DefaultVoiceUsed | src/backends/piper.rs:192-202 | with no voice, en_US-lessac-medium is run, and only when it is installed |
| Whisper.ExpandPath | src/backends/whisper.rs:35-40 | only a path starting with "~/" is expanded: its '~' becomes HOME, or "." when unset |
| Whisper.ExpandPathIdempotent | src/backends/whisper.rs:35-40 | expanding twice is expanding once, unless HOME itself is "~" or starts with "~/" |
| Whisper.ForcedLanguage | src/backends/whisper.rs:80-83 | a language is forced exactly when it is neither empty nor "auto" |
| Whisper.SegmentText | src/backends/whisper.rs:102-111 | the collected text is empty exactly when no segment is readable, and otherwise ends with a space |
| Whisper.Transcript | src/backends/whisper.rs:102-111 | the transcript has no whitespace at either end, is empty when no segment is readable, and when not empty is strictly shorter than the collected text, whose trailing space it drops |
| Whisper.SegmentTextIsJoin | src/backends/whisper.rs:102-111 | the collected text is the readable segments joined by spaces, plus one trailing space |
| Whisper.TranscriptOfTrimmedSegments | src/backends/whisper.rs:102-111 | trimmed, non-empty segments come out joined by single spaces |
| Whisper.CollectSegments | src/backends/whisper.rs:102-111 | the segment loop yields exactly the transcript of `Transcript` |
| Whisper.Mono | src/backends/whisper.rs:142-150 | with several channels one sample per frame, a partial last frame included; mono passes through unchanged |
| Whisper.Downmix | src/backends/whisper.rs:142-150 | never more output samples than input samples, and none exactly when there is no input |
| Whisper.DownmixLength | src/backends/whisper.rs:142-150 | the down-mix has the number of samples divided by channels, rounded up |
| Whisper.WholeFramesKeepLevel | src/backends/whisper.rs:143-147 | a signal equal on every channel keeps its level through the down-mix |
| Whisper.PartialFrameScaled | src/backends/whisper.rs:143-147 | a partial last frame is scaled by the share of channels it holds |
| Whisper.LoadAudio | src/backends/whisper.rs:142-157 | 16 kHz audio is not resampled; any other rate is resampled from the mono signal |
| ConfigLoader.DefaultSettings | src/config_loader.rs:45-87 | the defaults have memory 50, volume 1.0, threshold 500, and the Whisper model under HOME (or ".") |
| ConfigLoader.Validate | src/config_loader.rs:157-175 | Ok exactly when all three checks pass; the volume check comes first, then the memory size, then the speech threshold, and the first failure is reported |
| ConfigLoader.DefaultsValid | src/config_loader.rs:45-87 | the defaults pass validation |
| ConfigLoader.ValidateReadsThreeFields | src/config_loader.rs:157-175 | validation depends only on the volume, the memory size and the speech threshold |
| ConfigLoader.Load | src/config_loader.rs:96-155 | a build error is passed on; loading succeeds exactly when the built settings validate, and returns them unchanged |
| ConfigLoader.LoadedSettingsSound | src/config_loader.rs:181-185 | loaded settings have memory_size > 0, volume within [0, 1] and a positive threshold |
| ConfigLoader.DefaultsLoad | src/config_loader.rs:96-155 | with nothing overriding them, the defaults load |

## Left out

- The audio path itself is not modelled. `src/engine.rs` is an espeak forwarder on a rodio thread and `src/ear.rs` is a fixed 3-second recording; both are device and thread I/O.
- Process spawning, D-Bus, HTTP to Ollama and the Piper catalog, Polkit, the SSIP socket and the sled database are left out. Their outcomes are parameters.
- File persistence is left out: `save`, `export_to_path`, and the file read in `import_from_path`.
- Async tasks, channels and mutexes are left out. A poisoned lock is a boolean parameter in four places: `Cortex.BuildContext` and `Cortex.Query` (`memoryLocked`, the short-term context is then empty), `Service.ServiceState.SetWakeWord` (`earReachable`) and `Service.ServiceState.SetBrainModel` (`lockAvailable`). Everywhere else, for example the engine lock in `Service.Speak` and the settings lock, the lock is taken to succeed; the fallback on a poisoned lock is not modelled there.
- `sanitize_input` in src/cortex.rs is not part of this model; it uses regex and deunicode.
- The BERT `rag_impl` of src/chronicler.rs is not part of this model.
- Whisper inference, the integer-sample scaling and the linear-interpolation `resample` are left out. The resampler is a parameter of `Whisper.LoadAudio`.
- The `OnceLock` that caches the Whisper context is left out.
- Layering the configuration (defaults, files, `SPEECH_*` variables) is left out; the configuration library's result is a parameter.
- src/main.rs, src/vision.rs, src/bin/*, src/wyoming.rs, src/security.rs and the Python bridges are not part of this model.
- Floating point is modelled as `real`, without f32 rounding. A NaN playback volume, which passes `validate`, cannot be expressed.
- Letter case is mapped on ASCII only. Rust's `to_lowercase` and `to_uppercase` also map other scripts.
- The order of the sled store and of the catalog's JSON object is a parameter (the `items` and `entries` sequences), not the libraries' own order.
- `Path::file_name` on a path ending in ".." or "/" is not modelled. `Piper.FileName` always takes the text after the last '/'.
- Fingerprint.Percent: rounds half up, while Rust's `{:.0}` rounds ties to even, so a hint's percentage can differ by one on an exact tie.
- Fingerprint.Store.ImportData: states nothing about the caps. A replace import can bring a history or ignored list longer than 100 or 50, as the source allows.
- The u32 counters of the fingerprint (pattern counts, `added`, the `get_stats` figures) are unbounded naturals; their wrap-around is not modelled.
- `Instant` arithmetic that could underflow (`Instant::now() - 60 s` in `reset_rate_limit`) is modelled as plain subtraction of seconds.
- The Wayland module is given `swaymsg`, `hyprctl` and `gdbus` output already parsed or as text; JSON parsing is not modelled.
