# Podcast-Tool transcript core, modelled in Dafny

This project models the in-memory core of Podcast-Tool. The tool transcribes
podcast episodes, labels their speakers, renders the transcripts and builds
notes from them. The model covers:

- the paragraph fold that the three transcribers (Qwen, faster-whisper and the
  OpenAI Whisper API) use to group timed segments into paragraphs, and the
  text each of them renders;
- the diarization merge, which picks a speaker for each paragraph by
  overlap, and the speaker-label quality report of
  `scripts/check_asr_speaker_labels.py`;
- the transcript formatter (sentence splitting, `HH:MM:SS`, dialogue
  Markdown) and the loader that reads JSON, legacy Markdown and dialogue
  Markdown back;
- the analyzer's timeline and word count, and the note generator's clock and
  duration;
- file-name sanitising and the target-name search of `rename_podcast_files`,
  with the file system as a set of paths;
- the storage path layouts, category sanitising and upload validation;
- the configuration's dotted-key lookup and its environment overrides;
- the speaker registry, with the SQLite table as a sequence of rows held in a
  class;
- the chat history of the AI chat classes.

Loops in the source are methods with loop invariants. Each method's result
or new state is proved equal to a specification function of its inputs, or
is fully characterised by its postconditions (the retry loop of the Whisper
transcriber, and the renaming loops, whose targets are described by the
first-free condition). The properties are lemmas about those functions. The four copies of `HH:MM:SS` and the two copies of the short
`MM:SS` clock are modelled once, in `Clock`. The three copies of the
paragraph fold share one fold in `Segments`.

Times are `real` seconds. Python's `//` and `%` on floats are written out as a
floor division and a non-negative remainder, and `int()` as the floor.
Strings are `seq<char>`.

The behaviour follows the code where the code and its documentation differ:

- The fold has no speaker-change break, and it drops speaker ids; only the
  time gap starts a paragraph.
- Diarization turns are not sorted. On equal overlap the first turn in list
  order wins.
- `update_speaker_name` returns `True` even when no row matches.
- The loader and the label script coerce malformed times instead of raising.
  The loader reads an unconvertible start as 0 and an unconvertible end as
  the start. The label script reads a sentence as (0, 0) when either of its
  times does not convert.
- `transcribe_with_retry` with `max_retries <= 0` makes no call and returns
  `None`.

## Model

| member | source | states |
|---|---|---|
| Clock.SplitFields | src/transcriber_faster_whisper.py:198-211 | minutes and seconds are below 60, and `h*3600 + m*60 + s` is the whole seconds of any real input, negative inputs included |
| Clock.FormatHmsReadBack | src/transcriber_qwen.py:271-284 | below 100 hours the clock text is eight characters and reads back as the floor of the seconds |
| Clock.FormatShortShape | src/analyzer.py:104-113 | the short clock equals the full clock when hours are positive; under an hour it is `MM:SS` and reads back as the whole seconds |
| Segments.ProcessSegments | src/transcriber_faster_whisper.py:108-145 | the loop over stripped segments computes the fold `Aggregate` |
| Segments.FormatTranscriptText | src/transcriber_faster_whisper.py:178-196 | the rendered text is the joined lines of `TranscriptLines` |
| Segments.TranscriptLinesShape | src/transcriber_api.py:185-203 | three lines per paragraph, in order: `[start - end]`, the text, an empty line |
| Segments.FormatTranscriptTextLines | src/transcriber_qwen.py:251-269 | when no text holds a newline, splitting the rendered text on newlines gives back exactly the three lines per paragraph |
| Segments.RunInvariant | src/transcriber_faster_whisper.py:125-140 | the loop invariant: closed paragraphs have text, and the closed texts plus the open text concatenate to the segment texts so far |
| Segments.AggregateTexts | src/transcriber_faster_whisper.py:127-143 | every paragraph has text, and the paragraph texts concatenate to the stripped segment texts, in order, with nothing inserted |
| Segments.AggregateBlank | src/transcriber_faster_whisper.py:142-143 | no segment with text (in particular no segment) gives no paragraph |
| Segments.StepRule | src/transcriber_api.py:134-146 | a paragraph is closed exactly when the gap exceeds the threshold and the open text is non-empty; otherwise the end always moves, even for a blank segment, and the start is retaken only while the text is empty |
| Segments.AggregateStarts | src/transcriber_api.py:141-146 | every paragraph starts at the start of a segment that carries text |
| Segments.RunLength | src/transcriber_qwen.py:200 | the first maximal run: no gap inside it exceeds the threshold, and the gap after it does |
| Segments.AggregateFirstRun | src/transcriber_qwen.py:200-212 | on items that all have text, the first maximal run is the first paragraph, and the fold continues on the rest as if from scratch |
| Segments.AggregateIsGrouped | src/transcriber_qwen.py:200-216 | on items that all have text, the fold equals the reference grouping: it cuts exactly where a gap exceeds the threshold and spans each piece from its first start to its last end |
| TranscriberQwen.ProcessSentences | src/transcriber_qwen.py:173-218 | the loop computes the fold over the kept (non-blank, stripped, milliseconds over 1000) sentences |
| TranscriberQwen.ProcessTranscriptionData | src/transcriber_qwen.py:151-171 | the result is the `transcripts` results concatenated, else the top-level `sentences` result, else nothing |
| TranscriberQwen.SkipsBlank | src/transcriber_qwen.py:189-193 | removing a sentence with blank stripped text changes nothing in the result |
| TranscriberQwen.KeptTimes | src/transcriber_qwen.py:194-198 | with no blank sentence every sentence is kept in order, with its stripped text and its times in milliseconds over 1000, a missing time reading 0 |
| TranscriberQwen.SentenceTexts | src/transcriber_qwen.py:200-216 | every paragraph has text, and the texts concatenate to the stripped sentence texts in order, with no separator |
| TranscriberQwen.BlankSentences | src/transcriber_qwen.py:214-216 | no sentence, or only blank ones, gives no paragraph |
| TranscriberQwen.SentencesGrouped | src/transcriber_qwen.py:200-212 | paragraph boundaries fall exactly where the gap between kept sentences exceeds the threshold; each paragraph spans its first kept start to its last kept end |
| TranscriberQwen.IgnoresSpeaker | src/transcriber_qwen.py:184-206 | sentences that differ only in `speaker_id` give the same kept sequence, so the output carries no speaker |
| TranscriberQwen.PrefersTranscripts | src/transcriber_qwen.py:164-171 | when `transcripts` is present, top-level `sentences` are ignored |
| TranscriberQwen.TranscriptsConcatenate | src/transcriber_qwen.py:164-169 | the transcripts' results are concatenated; no paragraph is merged across two transcripts |
| TranscriberQwen.BlankSegmentDifference | src/transcriber_qwen.py:189-212 | a concrete input on which the Whisper/OpenAI fold (blank segment stretches the paragraph, one paragraph) and the Qwen fold (blank sentence skipped, two paragraphs) differ |
| TranscriberWhisper.TranscribeWithRetry | src/transcriber_faster_whisper.py:214-249 | at most `max_retries` calls; an empty result or exception is a failure; success returns the first good attempt; it gives up exactly when every attempt fails; the sleeps are `2**attempt` between attempts; no call at all when `max_retries <= 0` |
| TranscriberApi.ResponseParagraphs | src/transcriber_api.py:89-98 | with `segments`, the fold over them; without, exactly one paragraph from 0 to 0 with the whole (possibly empty) text |
| Diarization.Overlap | src/diarization.py:170-172 | the overlap is never negative, and positive exactly when the intervals intersect |
| Diarization.BestIndexSpec | src/diarization.py:149-178 | the scan finds no turn exactly when no turn overlaps; otherwise it finds a turn of maximal positive overlap that every earlier turn overlaps strictly less |
| Diarization.BestIsUnique | src/diarization.py:168-176 | at most one turn meets that description, so ties go to the first turn |
| Diarization.BestSpeakerRange | src/diarization.py:165-178 | the label is `UNKNOWN` or the speaker of some turn |
| Diarization.FindBestSpeaker | src/diarization.py:149-178 | the loop returns `UNKNOWN` when no turn overlaps, else the speaker of the best turn |
| Diarization.MergeWithTranscript | src/diarization.py:119-147 | one record per paragraph, in order, with times and text copied and the best speaker under `speaker` |
| Diarization.SpeakerListSpec | src/diarization.py:180-191 | the speaker list is strictly ascending and holds exactly the speakers of the turns |
| SpeakerLabels.NormalizeSpec | scripts/check_asr_speaker_labels.py:40-48 | an id is dropped exactly for `None`, blank text and `unknown`/`none`/`null`/`nan` in any case; otherwise it is the trimmed text, non-empty and no sentinel |
| SpeakerLabels.NormalizeIdempotent | scripts/check_asr_speaker_labels.py:40-48 | a valid id normalises to itself |
| SpeakerLabels.CountsAddUp | scripts/check_asr_speaker_labels.py:55-56 | valid plus invalid counts equal the total |
| SpeakerLabels.SwitchesBound | scripts/check_asr_speaker_labels.py:59-67 | switches are at most the number of valid ids minus one, and 0 for none |
| SpeakerLabels.NoSwitchIff | scripts/check_asr_speaker_labels.py:59-67 | no switch happens exactly when one speaker holds every valid segment |
| SpeakerLabels.CountSwitches | scripts/check_asr_speaker_labels.py:59-67 | the loop that remembers the last id counts the adjacent unequal pairs |
| SpeakerLabels.SwitchesExample | scripts/check_asr_speaker_labels.py:59-67 | `[S0, S0, None, S1, S1, S0]` has two switches; the missing id is skipped |
| SpeakerLabels.ValidIdsExample | scripts/check_asr_speaker_labels.py:53-55 | the valid ids of that list skip the missing one |
| SpeakerLabels.Analyze | scripts/check_asr_speaker_labels.py:51-82 | total, valid and invalid counts add up; the unique ids are strictly ascending and are exactly the valid ids; the rate, switches and distribution are those of the valid ids |
| SpeakerLabels.DistributionSpec | scripts/check_asr_speaker_labels.py:71-81 | the distribution's keys are the unique ids, each count is positive, and the counts sum to the valid count |
| SpeakerLabels.PassedIff | scripts/check_asr_speaker_labels.py:295-299 | the gate passes exactly when there are segments, the valid share reaches the minimum rate and enough distinct speakers occur; no segments gives rate 0 and no pass |
| SpeakerLabels.HintsSpec | scripts/check_asr_speaker_labels.py:89-99 | never empty; `["zh","en"]` for `None`, for blank text and when every list item or comma-separated part is blank; otherwise exactly the stripped non-blank list items, or the stripped non-blank comma-separated parts of the stripped text, in order — a text is a hint exactly when it is non-empty and the stripped form of an item or part |
| SpeakerLabels.ConsumeSentences | scripts/check_asr_speaker_labels.py:106-127 | the nested helper appends the segments `Consumed` gives for the sentences |
| SpeakerLabels.ConsumeTranscripts | scripts/check_asr_speaker_labels.py:132-137 | the loop appends each transcript's sentences in order |
| SpeakerLabels.ExtractSegmentsFromPayload | scripts/check_asr_speaker_labels.py:102-139 | the top-level sentences first, then each transcript's sentences |
| SpeakerLabels.ConsumedTexts | scripts/check_asr_speaker_labels.py:110-113 | every extracted segment has trimmed non-empty text |
| SpeakerLabels.ConsumedBlank | scripts/check_asr_speaker_labels.py:110-113 | blank sentences contribute nothing |
| SpeakerLabels.ConsumedLast | scripts/check_asr_speaker_labels.py:106-127 | a kept sentence adds one segment: times over 1000, or (0, 0) when either time does not convert, with its trimmed text and raw id |
| Formatter.SplitIntoSentences | src/transcript_formatter.py:19-51 | the loop computes `Sentences` |
| Formatter.Clauses | src/transcript_formatter.py:39-49 | the clauses of a long sentence, stripped, the empty ones dropped |
| Formatter.SentencesShape | src/transcript_formatter.py:30-47 | every sentence is non-empty, stripped and without sentence endings or newlines; a piece of a sentence longer than 100 characters has no `，`/`、` either |
| Formatter.SentencesOfOne | src/transcript_formatter.py:39-49 | a single stripped sentence comes back whole when it has at most 100 characters, else as its clauses |
| Formatter.SentencesBlank | src/transcript_formatter.py:30-36 | a text of whitespace and endings only has no sentence |
| Formatter.HeaderIdsSpec | src/transcript_formatter.py:88-100 | the header ids are strictly ascending and are exactly the truthy speaker ids of the segments |
| Formatter.HeaderListsBlockNames | src/transcript_formatter.py:100-119 | a segment with a truthy id is shown under a name the header lists, and every listed name is shown for some such segment |
| Formatter.HeaderIdsEmpty | src/transcript_formatter.py:100-102 | the speaker line is written exactly when the first loop found an id |
| Formatter.CollectSpeakers | src/transcript_formatter.py:88-92 | the first loop collects the set of truthy ids |
| Formatter.RenderHeader | src/transcript_formatter.py:94-109 | the title and metadata lines, speakers by display name in ascending id order |
| Formatter.DisplayNames | src/transcript_formatter.py:101 | each sorted id is mapped to its name in `speaker_names`, falling back to the id |
| Formatter.RenderBlocks | src/transcript_formatter.py:112-125 | two lines per segment, in order, after the header |
| Formatter.ToMarkdown | src/transcript_formatter.py:68-136 | the text built is `Markdown`: the header only with metadata, then the blocks |
| Formatter.FormatTranscript | src/transcript_formatter.py:282-305 | `markdown`/`md` give Markdown and `pdf` the PDF writer, in any letter case; anything else is refused with the format in the message |
| Loader.LoadJson | src/utils/transcript_loader.py:38-57 | the loop computes `JsonEntries` |
| Loader.JsonEntriesTexts | src/utils/transcript_loader.py:44-57 | every JSON paragraph has stripped non-empty text; only blank segments give nothing |
| Loader.JsonEntryLast | src/utils/transcript_loader.py:44-57 | a non-blank segment adds one paragraph with stripped text; a bad start reads 0 and a bad end reads as the start |
| Loader.DashLines | src/utils/transcript_loader.py:67 | the greedy dash-line scanner splits its input into the matched lines and the rest |
| Loader.LegacyAt | src/utils/transcript_loader.py:67-76 | a match consumes input, so the scan over a text terminates |
| Loader.LoadMarkdown | src/utils/transcript_loader.py:59-114 | the Markdown branch returns the legacy paragraphs whenever there are any, else the dialogue ones |
| Loader.LoadTranscript | src/utils/transcript_loader.py:12-116 | a `.json` path (any case) takes the JSON branch; any other path the Markdown branch |
| Loader.LegacyEntriesTexts | src/utils/transcript_loader.py:80-87 | the legacy reader never returns empty text |
| Loader.DialogueEntriesTexts | src/utils/transcript_loader.py:104-114 | the dialogue reader never returns empty text and trims every text |
| Loader.ParseMarkdownTexts | src/utils/transcript_loader.py:80-114 | no Markdown paragraph has empty text |
| RoundTrip.TimeReadBack | src/utils/transcript_loader.py:71-76 | a rendered clock time reads back as `h*3600 + m*60 + s`, the floor of the seconds |
| RoundTrip.DialogueTextPlain | src/utils/transcript_loader.py:100-103 | a stripped one-line text reads back as itself, with or without its newline |
| RoundTrip.DialogueBlock | src/utils/transcript_loader.py:92-99 | one rendered block is one dialogue match with its times and text |
| RoundTrip.DialogueBlocks | src/utils/transcript_loader.py:92-114 | the rendered blocks read back as the segments, in order |
| RoundTrip.LegacyNone | src/utils/transcript_loader.py:67 | text without `#` has no legacy match |
| RoundTrip.HeaderShape | src/transcript_formatter.py:94-109 | the header is the title line and lines without `#` or `[` |
| RoundTrip.HeaderIgnored | src/utils/transcript_loader.py:64-99 | neither reader finds anything in the header |
| RoundTrip.MarkdownShape | src/transcript_formatter.py:86-136 | the Markdown text is the header (with metadata only) followed by the blocks |
| RoundTrip.MarkdownRoundTrip | src/utils/transcript_loader.py:59-114 | loading what `to_markdown` writes gives every segment back, in order, with whole-second times and its text |
| LegacyFormat.BlockAt | src/utils/transcript_loader.py:67-76 | the scanner reads one legacy block as its two times and its dash lines |
| LegacyFormat.BlockText | src/utils/transcript_loader.py:79 | a block's text is its lines, stripped of `-` and spaces, joined by newlines |
| LegacyFormat.LegacyRoundTrip | src/utils/transcript_loader.py:64-87 | every paragraph of a legacy document is read back, in order, with whole-second times and its lines joined by newlines |
| LegacyFormat.LegacyLoaded | src/utils/transcript_loader.py:64-90 | a non-empty legacy document loads as exactly those paragraphs |
| Analyzer.GenerateTimeline | src/analyzer.py:59-102 | the loop computes `Timeline` |
| Analyzer.TimelineEntries | src/analyzer.py:93-99 | each entry names a paragraph with a sentence, copies its times and the short clock of its start, and carries its summary |
| Analyzer.TimelineIncreasing | src/analyzer.py:94 | entry indices strictly increase |
| Analyzer.TimelineCovers | src/analyzer.py:75-79 | a paragraph has an entry exactly when it has a sentence |
| Analyzer.BlankParagraph | src/analyzer.py:75-79 | a paragraph of stop characters and whitespace has no entry |
| Analyzer.SummarySpec | src/analyzer.py:82-91 | the summary is non-empty, at most 83 characters, and begins with the first sentence; the 20-character rule decides whether the second sentence is joined with `。` |
| Analyzer.TimelineSummaries | src/analyzer.py:82-91 | every timeline summary has 1 to 83 characters |
| Analyzer.WordCountSpec | src/analyzer.py:128-133 | the word count is the total text length plus `n - 1` separators, and 0 for no paragraph |
| NoteGenerator.FormatTimeSpec | src/note_generator.py:25-34 | the hour field is dropped exactly when hours are not positive; minutes and seconds are below 60; both forms read back as the whole seconds |
| NoteGenerator.ColonInShort | src/note_generator.py:25-34 | every short clock holds a `:` |
| NoteGenerator.DurationUnknown | src/note_generator.py:50-53 | the duration reads `未知` exactly when there is no `duration` key |
| FileNaming.SanitizeSpec | src/utils/file_naming.py:12-38 | never empty, no illegal character; the fallback `未命名` or the first `max_length` characters of the replaced-then-trimmed input |
| FileNaming.SanitizeUnchanged | src/utils/file_naming.py:24-38 | a clean, stripped, short enough name comes back unchanged |
| FileNaming.NoteKindSpec | src/utils/file_naming.py:135-145 | the suffix is one of the four kinds or none, is kept only when the stem contains it, and `_auto` wins over the others |
| FileNaming.TranscriptNameInjective | src/utils/file_naming.py:113-117 | distinct counters give distinct candidate names |
| FileNaming.TranscriptTarget | src/utils/file_naming.py:106-120 | the target is the first candidate `title+ext`, `title_1+ext`, … that is free or is the file itself, in the same directory |
| FileNaming.NoteStep | src/utils/file_naming.py:150-155 | each step of the note search keeps `.md` and makes progress, so the loop ends |
| FileNaming.NoteTarget | src/utils/file_naming.py:132-158 | the note target is the first free candidate of the accumulating search, in the same directory |
| FileNaming.NoteNamesAccumulate | src/utils/file_naming.py:150-155 | the counters accumulate: `x.md`, then `x_1.md`, then `x_1_2.md` |
| FileNaming.NoteNameInnerMd | src/utils/file_naming.py:153 | `replace('.md', '')` also removes a `.md` inside the title |
| FileNaming.RenameOne | src/utils/file_naming.py:119-129 | no rename when the target is the file itself; a rename of a failing file, or of a file no longer in the file system, is recorded as failed and clears `success`, leaving the file system as it was; any other rename is recorded and applied |
| FileNaming.RenameEach | src/utils/file_naming.py:106-167 | each file, in order, goes to the target the search finds in the file system as the earlier files left it, and is kept, failed or moved by the `try` block's three cases (a file listed again after it was moved fails); `success` holds exactly when nothing failed, and the file system is the start with the recorded renames applied |
| FileNaming.TargetUnique | src/utils/file_naming.py:113-117 | a file has at most one target in a given file system: the first free candidate |
| FileNaming.ChosenUnique | src/utils/file_naming.py:106-167 | the targets of a whole loop are determined, so the report and the final file system are too |
| FileNaming.RenamePodcastFiles | src/utils/file_naming.py:81-169 | every transcript, then every note, is renamed as above under the sanitised title, the notes in the file system the transcripts left, so a note the transcript loop already moved fails; the report and the file system agree |
| FileNaming.SharedDirectoryFails | src/utils/file_naming.py:66-167 | when the transcript and note directories coincide, one `.md` file is found by both globs; the transcript loop moves it, the note loop's rename then fails, and the result reports failure with that file |
| StorageManager.SanitizeCategory | src/storage_manager.py:110-129 | the loop over unsafe characters computes `CategoryName` |
| StorageManager.CategoryNameSpec | src/storage_manager.py:110-129 | a blank category becomes the default; otherwise the name is non-empty, free of unsafe characters and stripped, and a clean name is kept |
| StorageManager.AudioLayouts | src/storage_manager.py:30-45 | the audio file is always `id.mp3`, inside the category directory exactly when category-based with a category given |
| StorageManager.TranscriptLayouts | src/storage_manager.py:47-71 | the three transcript layouts, chosen by the two flags, with the default category when none is given |
| StorageManager.NoteLayout | src/storage_manager.py:73-99 | a note goes where a transcript would go under the note directory, named `id_type.fmt` |
| StorageManager.MissingCategory | src/storage_manager.py:131-142 | a missing category is the default for transcripts, notes and the category directory, but not for audio |
| Config.FoundSpec | src/config.py:118-138 | the default comes back exactly when a key on the way is missing or reached through a non-mapping; a found null is returned as null |
| Config.DottedKey | src/config.py:129 | a dotted key of dot-free segments splits back into those segments |
| Config.Config.Get | src/config.py:118-138 | the descent loop returns `Found` for the split key |
| Config.Config.Item | src/config.py:140-142 | `cfg[key]` is `get(key)` with a null default |
| Config.LoadSecretsFromEnv | src/config.py:49-90 | the loop applies the mapping table in order; it fails on a non-mapping section |
| Config.SetPathSucceeds | src/config.py:83-86 | a write succeeds exactly when everything on its path that exists is a mapping; missing sections are created |
| Config.SetPathLands | src/config.py:83-89 | after a write the path leads to the value written |
| Config.SetPathKeeps | src/config.py:83-89 | a write leaves every path apart from its own unchanged |
| Config.ApplySucceeds | src/config.py:76-89 | the writes succeed exactly when each set variable's sections can be written |
| Config.ApplyLands | src/config.py:76-89 | a set variable's value lands at its path when nothing later writes there |
| Config.ApplyKeeps | src/config.py:76-89 | paths apart from all of the table's are unchanged |
| Config.UnsetUnchanged | src/config.py:76-80 | unset or empty variables change nothing |
| Config.OtherVariableIgnored | src/config.py:76-89 | a variable that no mapping names has no effect |
| Config.EnvWritten | src/config.py:52-89 | every set variable's value is at every setting it is mapped to |
| Config.LoadConfig | src/config.py:34-47 | the file's contents with the environment written over them, else the default configuration |
| Config.Config.constructor | src/config.py:24-32 | the object holds the loaded configuration |
| Config.LoadedSections | src/config.py:34-47 | when the secret sections are mappings or absent the writes succeed; they fail, and the defaults are used, exactly when some set variable's section is something else |
| Config.EnvReadBack | src/config.py:52-89 | the dotted key of a mapped setting reads back the variable's value |
| Config.QwenKeyAi | src/config.py:53-56 | with `QWEN_API_KEY` set, `ai.qwen_api_key` returns it |
| Config.QwenKeyWhisper | src/config.py:53-56 | with `QWEN_API_KEY` set, `whisper.qwen_api_key` returns it too |
| Config.NullSectionDiscardsFile | src/config.py:43-47 | a null `ai:` section with `QWEN_API_KEY` set discards the whole file |
| Config.NoSecretsUnchanged | src/config.py:76-80 | with none of the table's variables set, the file is used as it is |
| Config.OtherSettingsKept | src/config.py:52-89 | settings outside the table keep the file's values |
| Config.OtherVariablesIgnored | src/config.py:52-89 | variables outside the table do not matter |
| SpeakerManager.Manager.SaveSpeakers | src/speaker_manager.py:22-56 | the podcast's rows are deleted, then one row per id is inserted |
| SpeakerManager.SaveKeepsOthers | src/speaker_manager.py:35-50 | other podcasts' rows are untouched, in order |
| SpeakerManager.SaveReplaces | src/speaker_manager.py:35-50 | afterwards the podcast has exactly one unnamed row per given id, in order |
| SpeakerManager.SavedStored | src/speaker_manager.py:35-50 | afterwards the podcast's stored ids are the given ones |
| SpeakerManager.SaveThenGet | src/speaker_manager.py:35-50 | afterwards `get_speakers` lists the distinct given ids in ascending order |
| SpeakerManager.SaveThenUnnamed | src/speaker_manager.py:44-48 | afterwards no speaker of the podcast has a name |
| SpeakerManager.SaveThenHas | src/speaker_manager.py:142-162 | afterwards `has_diarization` holds exactly when ids were given |
| SpeakerManager.Manager.UpdateSpeakerName | src/speaker_manager.py:58-85 | the matching rows take the name, and the result is always `True` |
| SpeakerManager.RenameKeepsOthers | src/speaker_manager.py:71-79 | no row of another podcast or id changes |
| SpeakerManager.RenameThenDisplay | src/speaker_manager.py:71-140 | after renaming a stored id, `get_speakers` maps it to the new name, and a non-empty name is what is displayed |
| SpeakerManager.Manager.GetSpeakers | src/speaker_manager.py:87-116 | the loop fills the dictionary from the ordered rows |
| SpeakerManager.GetSpeakersSpec | src/speaker_manager.py:98-112 | the keys are the podcast's stored ids, strictly ascending, each mapped to the name of one of its rows |
| SpeakerManager.Manager.GetSpeakerDisplayName | src/speaker_manager.py:118-140 | the display name of the id in that dictionary |
| SpeakerManager.DisplayNameSpec | src/speaker_manager.py:129-140 | a non-empty custom name is shown; without one, `讲话人{k+1}` exactly when the id without `SPEAKER_` parses as `k`, and the id itself exactly when it does not parse |
| SpeakerManager.DisplayNameNumbered | src/speaker_manager.py:133-137 | `SPEAKER_` and digits without a name shows `讲话人` and the number plus one |
| SpeakerManager.DisplayNameRaw | src/speaker_manager.py:138-140 | an unparsable id without a name shows as itself |
| SpeakerManager.Manager.HasDiarization | src/speaker_manager.py:142-162 | holds exactly when the podcast has a row |
| FileUploader.ValidateSpec | src/file_uploader.py:38-62 | accepted exactly for one of the twelve extensions and at most 2·1024³ bytes; the format is checked first; accepted means no message |
| FileUploader.FormatsDisjoint | src/file_uploader.py:16-23 | no extension is both audio and video |
| FileUploader.SupportedListSorted | src/file_uploader.py:52-54 | the listed formats are the sorted union of the two sets |
| FileUploader.FileTypeSpec | src/file_uploader.py:87-103 | every file is exactly one of audio, video and unknown; unknown files are refused |
| FileUploader.SavedNameKeepsType | src/file_uploader.py:64-85 | the stored name `id + suffix.lower()` keeps the upload's extension, type and verdict |
| FileUploader.GigabytesWhole | src/file_uploader.py:58-60 | a whole number of gigabytes prints with `.00` |
| AIChat.Chat.SetTranscriptContext | src/ai_chat.py:30-45 | the history becomes exactly one system message |
| AIChat.Chat.GetConversationHistory | src/ai_chat.py:108-111 | the loop returns the history without system messages |
| AIChat.NonSystemSpec | src/ai_chat.py:108-111 | the visible history holds exactly the non-system messages, in order |
| AIChat.NonSystemCounts | src/ai_chat.py:108-111 | each non-system message is kept as many times as it occurs |
| AIChat.Chat.ClearHistory | src/ai_chat.py:113-116 | only the first message is kept |
| AIChat.ClearedSpec | src/ai_chat.py:113-116 | at most the first message remains, whatever its role; clearing is idempotent and leaves nothing visible after a context was set |
| AIChat.Chat.Send | src/ai_chat.py:132-172 | the history and result follow `ChatStep` |
| AIChat.ChatStepSpec | src/ai_chat.py:189-225 | a success grows the history by the user message and the answer; a failed call keeps the user message; every failure reports `对话失败` |
| AIChat.ChatSucceeds | src/ai_chat.py:141-172 | Qwen succeeds exactly on status 200, Deepseek whenever it answers |
| AIChat.ChatForSpec | src/ai_chat.py:228-244 | `qwen` and `deepseek` get their chats when a non-empty key is found, config first; any other name is refused |
| AIChat.CreateAiChat | src/ai_chat.py:228-244 | a fresh chat with the chosen provider and key and an empty history, or the error |

## Left out

- I/O and external services: file reads and writes, `json.load`, YAML and
  dotenv loading, globbing, directory creation, HTTP and SDK calls (Whisper,
  dashscope, OpenAI, pyannote, the chat providers) and SQLite. The SQLite
  table is an in-memory sequence of rows, and its `except` paths are not
  modelled.
- Third-party libraries: jieba keywords (`extract_keywords`), the jinja2 note
  template (the body of `generate_from_analysis` apart from the duration),
  reportlab (`to_pdf`, modelled only as the `pdf` branch of
  `format_transcript`) and Markdown rendering.
- `get_mime_type`, the file write of `save_file`, `FileUploader.__init__`
  and `StorageManager.ensure_directory`/`list_categories`: file-system work.
- `AIChat._build_system_prompt`: the system prompt is a parameter of
  `SetTranscriptContext`. The model name, `max_tokens` and temperature of the
  provider calls are not modelled.
- Floating point is modelled with `real`: the `/ 1000.0` conversion, the gap
  comparisons and `valid / total`.
- FileUploader.GigabytesWhole: the two-decimal gigabyte text is modelled
  only for sizes below 2**53 bytes, where the float quotient is exact.
- Python leniency is approximated. `str.strip` removes only the six
  characters space, `\t`, `\n`, `\r`, `\x0b` and `\x0c`. Python also strips
  the separators `\x1c`-`\x1f`, `\x85`, `\xa0`, `\u3000` and the other
  Unicode spaces; the model keeps them. `lower` maps ASCII letters only.
  `int()` accepts a sign, ASCII digits and surrounding whitespace (the same
  six characters), but not underscores.
- The regular expressions are hand-written scanners, not a regex engine.
  The dialogue scanner's lazy name runs up to the first `**` from which the
  rest of the pattern matches. It gives whitespace back to the name and to
  the captured text where the engine would backtrack. The scanners read
  `\d` as the ASCII digits and `\s` as the six ASCII whitespace characters
  above. Python's `str` patterns also match other Unicode digits (such as
  full-width digits) and Unicode whitespace (such as `\u3000`), so such
  input is read differently.
- Config: YAML scalars are kept as text, and YAML anchors and aliasing are
  not modelled. A YAML sequence has no case of its own. It is an opaque
  leaf (`Text`), which is how `get` treats it, since a list is not a `dict`.
- Storage paths are lists of path components, and `pathlib`'s normalisation
  is not modelled. `Path /` drops an empty component, such as an empty
  configured default category, but the model keeps it. A `/` inside
  `podcast_id` or `format_type` splits the component in the source, but not
  in the model.
- TranscriberQwen: a sentence's `text` is a string or absent. A JSON `null`
  or a non-string `text` makes `.strip()` raise in the source, and a `null`
  time makes the division raise. The model cannot express these inputs.
- The SQL query has no `ORDER BY` tie rule. Rows with equal speaker ids are
  taken in table order, and the last row written for an id gives its name.
- The rename oracle: whether a rename raises is given as the set of failing
  files; a rename also raises when the file is no longer in the file system.
- RoundTrip.MarkdownRoundTrip: proved for segments whose times are in
  [0, 100 h), whose texts are non-empty, stripped, on one line and free of
  `#`, and whose display names are non-empty, stripped and free of `*`,
  `#`, `[` and newlines. Metadata must not contain `#` or `[`.
- LegacyFormat.LegacyRoundTrip: the core has no writer for the legacy
  format, so the document is built from the reader's pattern. The proof
  covers paragraphs with times in [0, 100 h) and at least one line, where
  every line is non-empty, stripped, on one line and without `-` at either
  end.
- Segments.AggregateIsGrouped: the reference grouping is proved for items
  that all have text, which is what the Qwen copy feeds the fold. The
  Whisper and OpenAI copies are described by StepRule, AggregateTexts and
  AggregateStarts instead.
- `get_config`/`get_db` singletons, `src/main.py`, `src/web/app.py`, the
  web client, `src/database.py`, `src/audio_fetcher.py`,
  `src/ai_note_generator.py`, `src/utils/file_migration.py`, the `docs/`
  scripts, `run_web.py` and `src/env_setup.py` are not part of this model.
