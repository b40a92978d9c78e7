# PrisonBot punishment core, modelled in Dafny

PrisonBot is a Discord bot that "imprisons" a guild member. It saves the member's
roles, voice channel and nickname. It moves the member to a prison voice channel,
gives them a prisoner role and renames them. It then listens to what they say and
pardons them when they speak their escape phrase. This project models the core of
that bot and proves properties of the model:

- **`ContextMaps`** models `ContextMap`. It is a dictionary whose key is a command
  context. The context is converted to the guild id, or to the author's id in a
  direct message. The model is a class over one `map<int, V>`.
- **`Lookups`** models the linear searches `find_role_by_id`, `find_role_by_name`
  and `find_channel_by_name`. Each is a loop method proved equal to a
  specification function. The channel search keeps the code's quirks:
  - on a miss it returns the last channel it visited;
  - on a guild without channels it fails.
- **`Recognition`** models how `text_recognition_callback_async` treats one
  utterance:
  - Python's `strip`, `replace` and `split`;
  - the candidate sentences;
  - the decision rule: an escape at a similarity of at least 80, a warning at 50
    to 79, and a rebuke for the first forbidden line at 80 or more.

  The similarity (`fuzz.ratio`) is a parameter that yields a score from 0 to 100.
- **`SpeechSink`** models `SpeechRecognitionSink.write`. The write appends PCM
  bytes to the writer's buffer. It transcribes every buffer that holds at least 3
  seconds more audio than the writer's last transcription. A buffer that passes
  this gate and holds 6 seconds or more empties the writer's buffer and resets
  the writer's timestamp; a buffer that does not pass the gate resets nothing.
  Transcription is a parameter. The text callback's invocations are recorded in
  order.
- **`Punishment`** models the cog. It keeps four per-member backups, the sessions
  per context and the background-task list:
  - the `punish` command and its recording-start callback;
  - `pardon`, `pardon_internal` and `pardon_after`;
  - the text-recognition callback and the rebuke callback;
  - adding and removing background tasks.

  Each platform request (move, edit roles, rename, send a message, connect,
  disconnect, play speech, schedule a task) is appended to an action log. Exceptions
  that end a command early are a `Raised(fault)` status, and the state changed
  before the exception is kept.

The platform's answers that the code depends on are inputs:

- member snapshots;
- who is in the prison channel when the prisoners are counted (`occupants`);
- which role or nickname edits fail.

One pardon of one member is the function `PardonOne`, composed of four step
functions, one per block of the loop body. A list of pardons is `PardonAll`. The
cog's methods are proved to change the state exactly as these functions say.

## Model

| member | source | states |
|---|---|---|
| ContextMaps.ConvertKey | ContextMap.py:6-13 | the key is the guild id when the context has a guild, the author's id otherwise |
| ContextMaps.SameGuildSameSlot | ContextMap.py:6-13 | two contexts of the same guild share one slot, whoever their authors are |
| ContextMaps.ContextMap.constructor | ContextMap.py:4 | a new map holds no entries |
| ContextMaps.ContextMap.Set | ContextMap.py:15-17 | the converted slot holds the value afterwards; the length grows by one exactly when the slot was empty |
| ContextMaps.ContextMap.Get | ContextMap.py:19-21 | the stored value when the converted slot is occupied, a key error naming the converted key otherwise |
| ContextMaps.ContextMap.Delete | ContextMap.py:29-31 | removes only the converted slot and shrinks the length by one, or reports a key error and changes nothing |
| ContextMaps.ContextMap.Contains | ContextMap.py:61-65 | a context is looked up by its converted key, any other item as a raw key |
| ContextMaps.ContextMap.Len | ContextMap.py:26-27 | the number of occupied slots |
| ContextMaps.ContextMap.Clear | ContextMap.py:33-34 | the map is empty afterwards |
| ContextMaps.OverwriteInSameGuild | ContextMap.py:15-21 | a write through a second context of the same guild replaces the first write, is seen through the first context, and leaves the length unchanged |
| Lookups.FindRoleById | PunishmentCog.py:261-265 | the loop returns the first role with the id, or None |
| Lookups.RoleByIdFinds | PunishmentCog.py:261-265 | a role is found exactly when one has the id, and the role found has that id |
| Lookups.FindRoleByName | PunishmentCog.py:267-271 | the loop returns the first role with the name, or None |
| Lookups.RoleByNameFinds | PunishmentCog.py:267-271 | a role is found exactly when one has the name, and the role found has that name and is one of the guild's roles |
| Lookups.FindChannelByName | PunishmentCog.py:273-277 | the loop returns the first channel with the name; on a miss the last channel; None (the unbound-variable error) when there are no channels |
| Lookups.ChannelByNameFallback | PunishmentCog.py:273-277 | the search fails exactly on an empty channel list; it returns a channel of the name when there is one, and the last channel otherwise |
| Punishment.CheckRights | PunishmentCog.py:75-87 | the author has rights exactly when one of their role names is an admin role or their name is an admin user name |
| Punishment.PunishTarget | PunishmentCog.py:71-95 | a target exists only if the author is a guild member with rights, the context has a guild, and the target is a member of that guild |
| Punishment.PunishmentCog.constructor | PunishmentCog.py:21-38 | every backup, the session map, the task list and the log start empty |
| Punishment.PunishmentCog.Punish | PunishmentCog.py:64-156 | the outcome and log of each rejection (not on a server, no rights, unknown name) and exception (no guild, no channels, no prisoner role); no backup is written before the target and the prison channel are found; on success the role, channel and nickname backups are overwritten for the target, the phrase is stored only when non-empty, and the log is the imprisonment sequence |
| Punishment.PunishmentCog.Imprison | PunishmentCog.py:97-134 | role and channel backups are written before the move; without a prisoner role the command raises after the move, with no nickname or phrase stored |
| Punishment.PunishmentCog.Confine | PunishmentCog.py:108-156 | the nickname backup is written, the phrase is stored only when non-empty, and the log grows by exactly the imprisonment actions |
| Punishment.ImprisonLogAppends | PunishmentCog.py:106-156 | the imprisonment appends its actions to the log and changes nothing already in it |
| Punishment.ImprisonLogShape | PunishmentCog.py:106-156 | the imprisonment adds six or seven actions: it starts with the move to the prison channel and ends with the announcement; the auto-pardon is scheduled exactly when the time is non-zero; the roles are edited exactly when the edit does not fail (otherwise the failure is reported) |
| Punishment.PunishmentCog.OnAnnouncementFinished | PunishmentCog.py:145-154 | recording starts and a session is stored only when playback succeeded and the context has no session; otherwise nothing changes |
| Punishment.RestoreRolesStep | PunishmentCog.py:284-289 | the role backup is consumed and the roles edited exactly when the member still holds the prisoner role and has a backup; nothing else changes |
| Punishment.MoveOutStep | PunishmentCog.py:291-302 | a member in the prison channel is moved to the saved channel (else the author's) and loses the channel backup; a member elsewhere is left as they are |
| Punishment.FinishStep | PunishmentCog.py:304-314 | the escape phrase always goes; the nickname backup stays only when it existed and the nickname edit failed |
| Punishment.PardonOneRoles | PunishmentCog.py:284-289 | the roles are restored first, and their backup consumed, exactly when the member holds the prisoner role and has a backup; otherwise no role edit happens and the role backups are unchanged |
| Punishment.PardonOneReleases | PunishmentCog.py:291-300 | a completed pardon of a member in the prison channel removes the channel backup and moves the member to the saved channel, or to the author's channel when none was saved |
| Punishment.PardonOneLeavesInPlace | PunishmentCog.py:301-302 | a member outside the prison channel keeps the channel backup and is not moved |
| Punishment.PardonOnePhraseAndNick | PunishmentCog.py:304-316 | a completed pardon drops the escape phrase, keeps the nickname backup only if the edit failed, and ends with the pardon message |
| Punishment.PardonOneFails | PunishmentCog.py:291-302 | the pardon raises exactly when the author has no voice channel and the member is not a prisoner with a saved channel; then only the roles step has happened |
| Punishment.PardonOneShrinks | PunishmentCog.py:282-316 | pardoning a member never adds or changes a backup; it only removes them |
| Punishment.PardonOneFrame | PunishmentCog.py:282-316 | pardoning a member leaves every other member's backups as they were |
| Punishment.PardonAllShrinks | PunishmentCog.py:282-316 | the pardon loop only removes backups |
| Punishment.PardonAllFrame | PunishmentCog.py:282-316 | the pardon loop leaves the backups of members not in the list as they were |
| Punishment.PardonAllClearsPhrases | PunishmentCog.py:282-316 | after a completed pardon loop no pardoned member has an escape phrase |
| Punishment.PardonOneAppends | PunishmentCog.py:282-316 | pardoning a member only appends to the log and never disconnects |
| Punishment.PardonAllAppends | PunishmentCog.py:282-316 | the pardon loop only appends to the log and never disconnects |
| Punishment.PunishmentCog.RestoreRolesOf | PunishmentCog.py:284-289 | the cog's state after the roles block is that of the roles step |
| Punishment.PunishmentCog.MoveOutOf | PunishmentCog.py:291-302 | the cog's state after the channel block is that of the move step; it reports whether the block raised, and then nothing changed |
| Punishment.PunishmentCog.RestoreNicknameOf | PunishmentCog.py:307-314 | the cog's state after the nickname block is that of the nickname step |
| Punishment.PunishmentCog.PardonMember | PunishmentCog.py:282-316 | one iteration of the pardon loop changes the cog as the pardon of one member does |
| Punishment.PunishmentCog.PardonEach | PunishmentCog.py:282-316 | the pardon loop changes the cog as the pardon of the list does, stopping at the first exception |
| Punishment.CountPrisoners | PunishmentCog.py:318-326 | the count is the number of occupants who hold the prisoner role or an escape phrase, and it is zero exactly when none does |
| Punishment.NoPrisonersIff | PunishmentCog.py:318-328 | the prisoner count is zero exactly when no occupant of the prison channel is a prisoner |
| Punishment.PardonEffectDisconnects | PunishmentCog.py:318-341 | after a completed pardon, the bot disconnects and the context's session is dropped exactly when it has a voice client and no prisoner is left; otherwise no disconnect happens and the sessions are unchanged |
| Punishment.PunishmentCog.PardonInternal | PunishmentCog.py:279-344 | the backups, log, sessions and status after `pardon_internal` are those of the pardon effect, including the exceptions on a missing guild, a channel-less guild and an author outside voice |
| Punishment.PardonEveryoneFails | PunishmentCog.py:357-360 | as written, a pardon without a name raises while any member has a role backup |
| Punishment.ImprisonedMembersExact | PunishmentCog.py:357-360 | the intended blanket pardon lists exactly the guild members that have a role backup |
| Punishment.PardonTargetsIntendedReachesAll | PunishmentCog.py:357-360 | in a guild, the intended blanket pardon resolves to every imprisoned guild member and no one else |
| Punishment.PunishmentCog.Pardon | PunishmentCog.py:347-362 | with a name: an unknown name is reported with nothing changed, a missing guild raises with nothing changed, and the named member is pardoned as `pardon_internal` does; without a name: the corrected blanket pardon of every guild member with a role backup (the code raises here, see Findings) |
| Punishment.PunishmentCog.PardonAfter | PunishmentCog.py:172-181 | the end-of-time message is sent first, then the members are pardoned as `pardon_internal` does |
| Recognition.StripIsTrimmedSlice | PunishmentCog.py:191 | the stripped text is a contiguous slice of the original; only whitespace lies outside it, and it neither begins nor ends with whitespace |
| Recognition.StripBlankIff | PunishmentCog.py:191-197 | the stripped text is empty exactly when the utterance is all whitespace |
| Recognition.Replace | PunishmentCog.py:203-205 | the replacement keeps the length and changes exactly the occurrences of the character |
| Recognition.NormalizeSpec | PunishmentCog.py:203-205 | normalising keeps the length, turns exactly `,` `!` `?` into `.`, and leaves none of them |
| Recognition.SplitJoin | PunishmentCog.py:207 | joining the pieces with the separator gives the text back |
| Recognition.SplitPieces | PunishmentCog.py:207 | no piece contains the separator, and there is one piece more than there are separators |
| Recognition.CandidatesShape | PunishmentCog.py:203-209 | there is one candidate per piece plus the whole normalised text last; every other candidate has no `.` or break and no surrounding whitespace |
| Recognition.FirstForbiddenFrom | PunishmentCog.py:223-234 | the index of the first forbidden line scoring at least 80, or none when no line does |
| Recognition.VerdictSpec | PunishmentCog.py:213-234 | a sentence scoring at least 80 yields only its escape; otherwise a warning exactly when it scores 50 to 79, and a rebuke exactly when a forbidden line scores at least 80, naming the first such line |
| Recognition.VerdictEscapes | PunishmentCog.py:214-218 | a sentence's reactions hold an escape exactly when it reaches the escape threshold, and the escape is then last |
| Recognition.ReactJudgesAll | PunishmentCog.py:213-234 | when no candidate reaches the escape threshold, every candidate is judged in order |
| Recognition.ReactStopsAtFirstEscape | PunishmentCog.py:213-218 | the candidates before the first one reaching the threshold are judged in full; then that one escapes and no later candidate is looked at |
| Recognition.ReactEscapeIsLast | PunishmentCog.py:213-218 | an escape can only be the last reaction, so at most one pardon follows an utterance |
| Recognition.ReactEscapeIff | PunishmentCog.py:213-218 | an escape happens exactly when some candidate reaches the escape threshold |
| Punishment.HearGate | PunishmentCog.py:184-197 | speakers without an escape phrase and blank utterances lead to no reaction; a heard utterance is judged against the speaker's own phrase, which is non-empty whenever every stored phrase is (the cog's invariant, kept because `punish` stores only a given phrase) |
| Punishment.PunishmentCog.OnTextRecognized | PunishmentCog.py:184-234 | ignored utterances change nothing; a missing guild or member raises with nothing changed; otherwise the reactions' messages and rebukes are logged, and an escape then pardons that member alone as `pardon_internal` does |
| Punishment.PunishmentCog.OnRebukeFinished | PunishmentCog.py:244-252 | the mute is scheduled and its task is added to the background tasks |
| Punishment.PunishmentCog.AddBackgroundTask | PunishmentCog.py:164-166 | the task is appended and nothing else changes |
| Punishment.RemoveFirst | PunishmentCog.py:159-162 | removes the first occurrence of the task, if any; the multiset of tasks loses exactly one copy of it |
| Punishment.PunishmentCog.RemoveBackgroundTask | PunishmentCog.py:159-162 | the task list loses the task's first occurrence, if any, and nothing else changes |
| SpeechSink.RecordedTime | SpeechRecognitionSink.py:42-44 | recorded seconds are the byte count over 192000 (3840-byte frames of 20 ms) |
| SpeechSink.RecordedTimeAdditive | SpeechRecognitionSink.py:42-44 | recorded time is non-negative and additive in the byte count |
| SpeechSink.StepGate | SpeechRecognitionSink.py:46-75 | a buffer is transcribed exactly when it is at least 3 s past the writer's timestamp; the timestamp becomes its recorded time, or 0 at 6 s and more, when the buffer is reset |
| SpeechSink.ScanQuiet | SpeechRecognitionSink.py:41-50 | when no buffer is 3 s past the timestamp, a write transcribes nothing and keeps the timestamp |
| SpeechSink.ScanOnlyAppends | SpeechRecognitionSink.py:41-75 | a write only appends callbacks, at most one per buffer, each for the writer and carrying one buffer's transcription; a reset stays a reset |
| SpeechSink.ScanStampInRange | SpeechRecognitionSink.py:46-75 | the writer's timestamp stays at least 0 and below 6 s |
| SpeechSink.SpeechRecognitionSink.constructor | SpeechRecognitionSink.py:26 | no buffers, timestamps or callbacks |
| SpeechSink.SpeechRecognitionSink.Append | SpeechRecognitionSink.py:39 | the bytes go to the end of the writer's buffer, which is created, last in order, when missing |
| SpeechSink.SpeechRecognitionSink.TranscribeReady | SpeechRecognitionSink.py:41-75 | only the writer's timestamp and buffer change; the callbacks and new timestamp are those of the scan over the buffers |
| SpeechSink.SpeechRecognitionSink.Write | SpeechRecognitionSink.py:38-75 | after the append, the scan over all buffers decides the writer's new timestamp, the callbacks made and whether the writer's buffer is emptied; nothing else changes |

## Left out

- Discord itself is not modelled. Every request to it is an entry in the action log. Member snapshots are not updated by those requests.
- Platform calls succeed unless the model names a failure. Modelled failures: the `punish` role edit, the `pardon` nickname edit, and the announcement playback error.
- Text-to-speech (gTTS, FFmpeg, `play_tts`), and the Discord-TTS fallback when audio is already playing, are left out. The model records the announcement and the rebuke as actions. Their completion callbacks are separate methods.
- Whisper transcription, the WAV file written before it, and `fuzz.ratio` are parameters.
- Logging is not modelled.
- `read_config`, which loads and strips the forbidden lines, is left out. The lines are part of the configuration.
- `float(auto_pardon_time)` parsing is left out; the time is a real, and NaN is not modelled.
- SpeechSink.RecordedTime: seconds of audio are exact reals, and the stamp difference is exact. The code computes both in binary floating point, so a difference that is exactly 3 s or a time of exactly 6 s in reals may round below the threshold there. That rounding at the 3 s gate and the 6 s reset is not captured.
- Punishment.PunishmentCog.Pardon: without a name, the method pardons the corrected target list (every guild member with a role backup). The code raises a TypeError there as soon as any role backup exists (PunishmentCog.py:358-360). Punishment.PardonTargets and Punishment.PardonEveryoneFails model the code's behaviour.
- The mute deadline (`datetime.now()` plus the duration) and the mute edit itself are reduced to a `ScheduleMute` action.
- asyncio scheduling, `run_coroutine_threadsafe`, the task lock and interleaving between callbacks are not modelled. Each command and callback runs to completion on its own.
- `get_member_named` accepts a `name#discriminator` form. The model matches only the user name or nickname.
- Punishment.PunishmentCog.Punish: a failing nickname edit during `punish` is caught and only logged. The model always records the rename request, and the nickname backup is written either way, as in the code.
- Punishment.PunishmentCog.Punish: a second `punish` of an imprisoned member overwrites the earlier backups, so the backup taken at the first punishment is lost; the model follows the code.
- Punishment.PardonTargetsIntended: the corrected blanket pardon lists members in guild order rather than in backup insertion order.
- Punishment.PardonTargetsIntended: a backed-up member who has left the guild is skipped.
- SpeechSink.SpeechRecognitionSink.TranscribeReady: writes the writer's timestamp once per iteration. The code writes it only when the writer had none or a buffer passes the gate, which leaves the same map at the end.
- SpeechSink.SpeechRecognitionSink.TranscribeReady: requires at least one buffer, which `Write` always supplies.
- SpeechSink.SpeechRecognitionSink.Write: the decoder constants (3840-byte frames of 20 ms) are fixed.
- `recording_stopped_callback` is not modelled; it only logs.
- `format_audio` is not modelled; it only guards against formatting during a recording.

## Findings

| source | as written | input that shows it | evidently intended | confidence | as-written member | corrected member |
|---|---|---|---|---|---|---|
| PunishmentCog.py:358-360 | the blanket pardon iterates `prisoner_role_backup_dict.items()` and passes each `(id, roles)` pair to `get_member`; the pair holds a list, so it cannot be hashed and the lookup raises | `pardon` with an empty name while one member has a role backup | pardon every guild member that has a role backup | not executed; medium (the command framework may refuse an empty name before this branch is reached) | Punishment.PardonEveryoneFails | Punishment.PardonTargetsIntendedReachesAll |
