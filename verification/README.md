# Batch dialogue TTS: script parsing, text splitting and audio merging

This project is a Dafny model of the core of the batch dialogue text-to-speech
tool in `scripts/batch_dialogue_tts/`:

- **`DialogueParser`** (`dialogue_parser.dfy`) loads a dialogue script.
  - A `.json` script is either a bare list of dialogue records or a full
    document with `metadata`, `speakers` and `dialogues` sections. In both
    forms a `speaker` key is renamed to `role`.
  - A `.txt` script is either in the bracket format `[role] text` or in the
    JSON-line format: a JSON config line, then the line of text.
  - Speaker reference-audio paths are resolved against the script's
    directory.
  - `validate` checks the script.
  - `update_speaker_config` sets one speaker.
  - `DialogueParser` is a class whose `data` field changes in place, as it
    does in the source.
- **`TextSplitter`** (`text_splitter.dfy`) turns long dialogue lines into
  segments.
  - `split_text` cuts a text at sentence terminators. It then packs the
    sentences greedily into chunks of at most `max_chars` characters, and
    hard-cuts any sentence that is still too long.
  - `process_dialogues` replaces each long line by numbered segment copies.
- **`AudioMerger`** (`audio_merger.dfy`) concatenates the synthesized clips.
  - Files that do not exist are skipped.
  - A block of silence follows every file that is not last in the list.
  - The sample rate of the first file read is used.
  - Nothing is written when no file exists.

Supporting modules:

- **`Wrappers`**: the `Option`, `Result` and `Outcome` types. The source's
  raised exceptions become the `Err`/`Fail` cases of these types.
- **`PyText`**: Python's whitespace class and `str.strip()`.
- **`JsonValues`**: decoded JSON values, with Python truthiness and
  hashability.

The loops of the source are methods. Each method is proved equal to a
specification function, and the properties are lemmas about those functions.

What is a parameter instead of real I/O:

- Reading files and JSON decoding are parameters:
  - a `.json` file is its decoded value;
  - a `.txt` file is its lines;
  - `json.loads` on one line is a `Decoder` function.
- The `os.path` operations are the fields of `PathOps`.
- The disk seen by the merger is a map from path to decoded waveform.

## Model

| member | source | states |
|---|---|---|
| PyText.TrimLeft | scripts/batch_dialogue_tts/dialogue_parser.py:75 | `str.lstrip()`: drop whitespace characters from the front; its shape is proved by `TrimLeftShape` |
| PyText.TrimRight | scripts/batch_dialogue_tts/dialogue_parser.py:75 | `str.rstrip()`: drop whitespace characters from the back; its shape is proved by `TrimRightShape` |
| PyText.Strip | scripts/batch_dialogue_tts/dialogue_parser.py:75 | `str.strip()` as `rstrip` after `lstrip`; `StripEmptyIffBlank` proves when it is empty |
| PyText.TrimLeftShape | scripts/batch_dialogue_tts/dialogue_parser.py:75 | `lstrip` removes exactly a leading whitespace run and stops at a non-space character |
| PyText.TrimRightShape | scripts/batch_dialogue_tts/dialogue_parser.py:75 | `rstrip` removes exactly a trailing whitespace run and stops at a non-space character |
| PyText.StripEmptyIffBlank | scripts/batch_dialogue_tts/text_splitter.py:23 | `s.strip()` is empty (falsy) exactly when every character of `s` is whitespace |
| TextSplitter.NextTerminator | scripts/batch_dialogue_tts/text_splitter.py:8 | the next terminator at or after `i`: none before it, and it is one (or the end of the text) |
| TextSplitter.RunEnd | scripts/batch_dialogue_tts/text_splitter.py:8 | the greedy `+` of the boundary pattern: a maximal run of terminators |
| TextSplitter.SplitPieces | scripts/batch_dialogue_tts/text_splitter.py:15-22 | the pieces `parts[i] + parts[i+1]` of `re.split` with a capturing group: the text cut after each maximal terminator run; there is always at least one piece |
| TextSplitter.SplitPiecesShape | scripts/batch_dialogue_tts/text_splitter.py:15 | the pieces of `re.split` with the capturing group spell the text again; they alternate non-terminator text and maximal terminator runs, ending in a terminator-free tail |
| TextSplitter.KeepNonBlank | scripts/batch_dialogue_tts/text_splitter.py:23-24 | every sentence kept has a non-empty strip |
| TextSplitter.CollectSentences | scripts/batch_dialogue_tts/text_splitter.py:18-24 | the pairing loop keeps, in order, exactly the pieces whose strip is non-empty |
| TextSplitter.SentencesSpellKeptText | scripts/batch_dialogue_tts/text_splitter.py:15-24 | the sentences concatenate to the text minus a whitespace-only tail (nothing else is dropped) |
| TextSplitter.SentencesNonEmpty | scripts/batch_dialogue_tts/text_splitter.py:23-24 | no sentence is empty |
| TextSplitter.Sentences | scripts/batch_dialogue_tts/text_splitter.py:15-24 | the `sentences` list: the pieces whose strip is non-empty, in order |
| TextSplitter.HardCut | scripts/batch_dialogue_tts/text_splitter.py:37-39 | the `max_chars`-long pieces the hard-cut loop appends; `HardCutShape` proves their sizes and spelling |
| TextSplitter.HardCutShape | scripts/batch_dialogue_tts/text_splitter.py:37-40 | the hard cut yields pieces of exactly `max_chars` characters and a remainder of at most `max_chars`, which together spell the sentence |
| TextSplitter.CutLong | scripts/batch_dialogue_tts/text_splitter.py:37-40 | the `while` loop appends exactly the hard-cut pieces and leaves exactly the remainder |
| TextSplitter.Pack | scripts/batch_dialogue_tts/text_splitter.py:28-45 | the sentence loop from a given state (`chunks`, `current_chunk`): extend the chunk while it fits, else close it and hard-cut a sentence that is still too long; the final non-empty chunk is closed |
| TextSplitter.PackPacked | scripts/batch_dialogue_tts/text_splitter.py:26-45 | from any reachable loop state, the packing yields non-empty chunks within the bound, where no two neighbours fit together in one chunk |
| TextSplitter.PackSpells | scripts/batch_dialogue_tts/text_splitter.py:26-45 | the packing neither loses nor reorders characters: the chunks spell the closed chunks, the current chunk and the sentences |
| TextSplitter.SplitSpec | scripts/batch_dialogue_tts/text_splitter.py:10-47 | what `split_text` returns: the text alone when it fits, else the packed sentences; `SplitSpecCorrect` states its properties |
| TextSplitter.SplitSpecCorrect | scripts/batch_dialogue_tts/text_splitter.py:10-47 | a short text comes back alone; a long one becomes non-empty, bounded chunks, no two neighbours of which fit together, spelling the text minus a blank tail; `SplitCuts` states where the cuts fall |
| TextSplitter.SplitCuts | scripts/batch_dialogue_tts/text_splitter.py:26-45 | for a text longer than the bound, the end of every chunk but the last is either the start of a sentence that the chunk closed there could not take in without passing `max_chars`, or a point strictly inside a sentence longer than `max_chars`, a multiple of `max_chars` after that sentence's start |
| TextSplitter.PackCuts | scripts/batch_dialogue_tts/text_splitter.py:26-45 | from any reachable loop state, every boundary the packing makes is of one of those two kinds |
| TextSplitter.FitsKeepsCuts | scripts/batch_dialogue_tts/text_splitter.py:29-30 | a sentence that fits joins the current chunk and makes no boundary |
| TextSplitter.StartsKeepsCuts | scripts/batch_dialogue_tts/text_splitter.py:31-42 | a sentence that does not fit starts a new chunk, and the boundary lies at its start, after a chunk that could not take it in |
| TextSplitter.CutsKeepCuts | scripts/batch_dialogue_tts/text_splitter.py:31-40 | a sentence beyond the bound is hard-cut, and every new boundary lies inside it |
| TextSplitter.HardCutCuts | scripts/batch_dialogue_tts/text_splitter.py:37-39 | each boundary the hard-cut loop makes lies a further `max_chars` inside the long sentence |
| TextSplitter.RemainderNonEmpty | scripts/batch_dialogue_tts/text_splitter.py:37-40 | the hard-cut loop of a sentence longer than the bound leaves a non-empty remainder, which becomes the current chunk |
| TextSplitter.BlankTextVanishes | scripts/batch_dialogue_tts/text_splitter.py:10-47 | a whitespace-only text longer than the bound yields no chunk at all |
| TextSplitter.SplitText | scripts/batch_dialogue_tts/text_splitter.py:10-47 | `split_text` computes the specification: `[text]` when short, otherwise packed chunks that spell the kept text |
| TextSplitter.SegmentCopies | scripts/batch_dialogue_tts/text_splitter.py:55-60 | one segment copy per chunk |
| TextSplitter.FirstBadText | scripts/batch_dialogue_tts/text_splitter.py:51-52 | the first line whose `text` is missing or not a string, or the number of lines when every line has one |
| TextSplitter.AppendSegments | scripts/batch_dialogue_tts/text_splitter.py:55-60 | the inner loop appends exactly the segment copies, in chunk order |
| TextSplitter.Expand | scripts/batch_dialogue_tts/text_splitter.py:53-62 | a line whose text fits is kept as it is, a longer one becomes the segment copies of `split_text`; `LongLineSegments` states the copies' fields |
| TextSplitter.Expanded | scripts/batch_dialogue_tts/text_splitter.py:50-62 | every line in order, a short one kept as it is and a long one replaced by its segment copies |
| TextSplitter.Processed | scripts/batch_dialogue_tts/text_splitter.py:49-63 | what `process_dialogues` returns, or the error of the first line whose `text` is missing or not a string |
| TextSplitter.ProcessDialogues | scripts/batch_dialogue_tts/text_splitter.py:49-63 | `process_dialogues` computes the specification: each line expanded in order, or the error of the first line without a string text |
| TextSplitter.ShortLinesPassThrough | scripts/batch_dialogue_tts/text_splitter.py:61-62 | when every text fits, the lines come back unchanged |
| TextSplitter.ProcessedLinesFit | scripts/batch_dialogue_tts/text_splitter.py:49-63 | every line of the result has a string text of at most `max_chars` characters |
| TextSplitter.ProcessedAppend | scripts/batch_dialogue_tts/text_splitter.py:49-63 | processing is line by line: processing `a + b` is processing `a` followed by processing `b` |
| TextSplitter.LongLineSegments | scripts/batch_dialogue_tts/text_splitter.py:53-60 | each segment copy has `is_segment` true, `segment_idx` its position, a non-empty bounded text, and every other field of the line; the segment texts spell the line's text minus a blank tail |
| DialogueParser.EmptyConfigs | scripts/batch_dialogue_tts/dialogue_parser.py:42 | the speakers section has exactly the collected roles, each with an empty config |
| DialogueParser.RolesOf | scripts/batch_dialogue_tts/dialogue_parser.py:36-37 | the set of `role` values of the records that have one; `RolesOfAppend` states how it grows as the loop adds records |
| DialogueParser.RolesOfAppend | scripts/batch_dialogue_tts/dialogue_parser.py:36-37 | one more record adds its role, if it has one, to the collected roles |
| DialogueParser.LastIndexOf | scripts/batch_dialogue_tts/dialogue_parser.py:13 | the last occurrence of a character, or -1 |
| DialogueParser.Extension | scripts/batch_dialogue_tts/dialogue_parser.py:13 | POSIX `os.path.splitext(path)[1]`: from the last dot of the last component, unless only dots precede it there |
| DialogueParser.ScriptFormat | scripts/batch_dialogue_tts/dialogue_parser.py:13-20 | the loader chosen by the lower-cased extension, or the unsupported-format error carrying that extension |
| DialogueParser.LowerAsciiMatches | scripts/batch_dialogue_tts/dialogue_parser.py:13 | the lower-cased extension equals a lower-case word exactly when the two agree up to ASCII case |
| DialogueParser.FormatByExtension | scripts/batch_dialogue_tts/dialogue_parser.py:11-20 | `.json` and `.txt` (in any case) select the JSON and text loaders; any other extension is an unsupported-format error carrying the lower-cased extension |
| DialogueParser.UpperCaseExtension | scripts/batch_dialogue_tts/dialogue_parser.py:13-16 | `a/b.JSON` has extension `.JSON` and loads as JSON |
| DialogueParser.DotFileHasNoExtension | scripts/batch_dialogue_tts/dialogue_parser.py:13-20 | `a/.json` has no extension under `splitext`, so it is rejected as unsupported |
| DialogueParser.Renamed | scripts/batch_dialogue_tts/dialogue_parser.py:34-35 | `speaker` is moved to `role` when there is a `speaker` and no `role`; otherwise the record is unchanged |
| DialogueParser.RenamedFields | scripts/batch_dialogue_tts/dialogue_parser.py:34-35 | after renaming, a record has a `role` exactly when it had a `role` or a `speaker`; an existing `role` wins and the `speaker` then stays; all other fields are kept |
| DialogueParser.RenamedIdempotent | scripts/batch_dialogue_tts/dialogue_parser.py:46-49 | renaming twice is renaming once |
| DialogueParser.FirstBadItem | scripts/batch_dialogue_tts/dialogue_parser.py:33-37 | the first list item that is not a dict or whose role cannot go into a set |
| DialogueParser.Normalised | scripts/batch_dialogue_tts/dialogue_parser.py:33-35 | the records in order, each renamed |
| DialogueParser.NormaliseList | scripts/batch_dialogue_tts/dialogue_parser.py:33-37 | the list-form loop returns the renamed records and exactly their roles, or the first item's error |
| DialogueParser.NormaliseDialogues | scripts/batch_dialogue_tts/dialogue_parser.py:47-49 | the full-form loop renames every dialogue, or reports the first item that is not a dict |
| DialogueParser.ListScript | scripts/batch_dialogue_tts/dialogue_parser.py:28-44 | the list form: the renamed records, one empty config per role, and the import metadata |
| DialogueParser.FullScript | scripts/batch_dialogue_tts/dialogue_parser.py:45-51 | the full form: the sections as given, with `speaker` renamed to `role` in each dialogue |
| DialogueParser.JsonScript | scripts/batch_dialogue_tts/dialogue_parser.py:22-51 | what `_load_json` returns: the list form, the full form, or an error for any other top-level value |
| DialogueParser.LoadJson | scripts/batch_dialogue_tts/dialogue_parser.py:22-51 | `_load_json` computes its specification for the list and the full forms |
| DialogueParser.ListScriptShape | scripts/batch_dialogue_tts/dialogue_parser.py:28-44 | a list-form script keeps its records in order, each renamed; its speakers are exactly the roles that occur, each with an empty config; it fails exactly when some item is bad |
| DialogueParser.FirstNonBlank | scripts/batch_dialogue_tts/dialogue_parser.py:59 | the first non-empty stripped line, or ""; `FirstNonBlankIs` characterises it |
| DialogueParser.FirstNonBlankIs | scripts/batch_dialogue_tts/dialogue_parser.py:59 | the detection line is the first line with a non-empty strip, stripped; it is empty exactly when every line is blank |
| DialogueParser.CloseFrom | scripts/batch_dialogue_tts/dialogue_parser.py:70 | the lazy `(.+?)` finds the first closing bracket at or after `j` from which the rest of the line matches |
| DialogueParser.MatchBracket | scripts/batch_dialogue_tts/dialogue_parser.py:70-81 | the groups of `^\[(.+?)\]\s*(.+)$` on a stripped line, or no match; `BracketMatchShape` states the split and when there is no match |
| DialogueParser.BracketMatchShape | scripts/batch_dialogue_tts/dialogue_parser.py:70 | a match gives a non-empty role and a non-empty text, neither with a newline, where the text does not start with whitespace and the line is `[role]` + blanks + text; the role is the shortest one possible; no match exactly when no bracket position works |
| DialogueParser.BracketLine | scripts/batch_dialogue_tts/dialogue_parser.py:75-83 | a matching line gives a record with exactly `role` (a non-empty string) and `text` |
| DialogueParser.ParseBracket | scripts/batch_dialogue_tts/dialogue_parser.py:68-89 | the bracket loop computes its specification |
| DialogueParser.BracketScript | scripts/batch_dialogue_tts/dialogue_parser.py:68-89 | the bracket import: the records of the matching lines, one empty config per role, and the import metadata |
| DialogueParser.BracketOrigins | scripts/batch_dialogue_tts/dialogue_parser.py:74-83 | each dialogue comes from one matching line, in line order, and every matching line produces one |
| DialogueParser.BracketSpeakers | scripts/batch_dialogue_tts/dialogue_parser.py:82-87 | a role is a speaker exactly when some line gives a dialogue with that role |
| DialogueParser.FirstBadRole | scripts/batch_dialogue_tts/dialogue_parser.py:114 | the first dialogue whose role cannot go into the role set |
| DialogueParser.ReadEntry | scripts/batch_dialogue_tts/dialogue_parser.py:98-123 | one turn of the JSON-line loop: it advances, and what it emits followed by what the rest yields is what the remaining lines yield |
| DialogueParser.ParseJsonLines | scripts/batch_dialogue_tts/dialogue_parser.py:91-129 | the JSON-line loop computes its specification, failing on the first unhashable role |
| DialogueParser.ConfigDialogues | scripts/batch_dialogue_tts/dialogue_parser.py:97-123 | the records of the JSON-line loop: a decodable config line consumes the next line too and gives a record when that line is non-blank; any other line is skipped alone |
| DialogueParser.JsonLineScript | scripts/batch_dialogue_tts/dialogue_parser.py:91-129 | the JSON-line import: those records with one empty config per role, or the error of the first unhashable role |
| DialogueParser.ConfigDialogueOrigins | scripts/batch_dialogue_tts/dialogue_parser.py:104-119 | each JSON-line dialogue comes from a config line and the non-blank line after it; there are at most half as many dialogues as lines |
| DialogueParser.ConfigPair | scripts/batch_dialogue_tts/dialogue_parser.py:104-119 | a config line and a non-blank line give one dialogue (role from `name` or `"Unknown"`, stripped text, the config kept); reading resumes after the pair |
| DialogueParser.ConfigWithoutText | scripts/batch_dialogue_tts/dialogue_parser.py:110-113 | a config line at the end, or before a blank line, gives nothing, and the blank line is consumed |
| DialogueParser.NonConfigSkipped | scripts/batch_dialogue_tts/dialogue_parser.py:98-106 | a blank line, a line not starting with `{`, or one that does not decode contributes nothing |
| DialogueParser.TxtScript | scripts/batch_dialogue_tts/dialogue_parser.py:53-66 | what `_load_txt` returns, chosen by the first character of the first non-blank stripped line; `TxtLayout` states the cases |
| DialogueParser.LoadTxt | scripts/batch_dialogue_tts/dialogue_parser.py:53-66 | `_load_txt` computes its specification |
| DialogueParser.TxtLayout | scripts/batch_dialogue_tts/dialogue_parser.py:59-66 | a first non-blank line starting with `[` selects the bracket format and one starting with `{` the JSON-line format; one starting with any other character, or an all-blank file, is an unknown format |
| DialogueParser.LoadedScript | scripts/batch_dialogue_tts/dialogue_parser.py:11-25 | what `_load_script` returns for the file: the JSON or TXT loader chosen by the extension, an unsupported-format error, or the JSON decoding error |
| DialogueParser.LoadScript | scripts/batch_dialogue_tts/dialogue_parser.py:11-20 | `_load_script` computes its specification |
| DialogueParser.Resolved | scripts/batch_dialogue_tts/dialogue_parser.py:137-141 | every speaker with its `ref_audio` resolved against the script's directory |
| DialogueParser.ResolvedEntries | scripts/batch_dialogue_tts/dialogue_parser.py:137-141 | resolution keeps every speaker and every field; a non-empty relative `ref_audio` becomes `normpath(join(script_dir, ref))`; any other `ref_audio` is left alone |
| DialogueParser.ResolvedIdempotent | scripts/batch_dialogue_tts/dialogue_parser.py:138-141 | when joined paths are absolute, resolving twice is resolving once |
| DialogueParser.LineRole | scripts/batch_dialogue_tts/dialogue_parser.py:175 | `line.get("role") or line.get("speaker")`: the role when it is truthy, else the speaker (or null) |
| DialogueParser.LineOk | scripts/batch_dialogue_tts/dialogue_parser.py:175-181 | a line passes when its role is truthy, hashable and a known speaker, and it has a `text` key; `DialoguesOutcomeSpec` states the check in these terms |
| DialogueParser.LineError | scripts/batch_dialogue_tts/dialogue_parser.py:175-181 | the error for a failing line, in the order the tests run: missing role, then an unhashable role (on which the `in` test raises), then unknown role, then missing `text` |
| DialogueParser.FirstBadLine | scripts/batch_dialogue_tts/dialogue_parser.py:173-181 | the first dialogue line that fails the role, known-role or text test |
| DialogueParser.DialoguesOutcomeSpec | scripts/batch_dialogue_tts/dialogue_parser.py:172-181 | the dialogue check passes exactly when every line is OK; otherwise it reports the first bad line |
| DialogueParser.DialoguesOutcome | scripts/batch_dialogue_tts/dialogue_parser.py:172-181 | the outcome of the dialogue check: the error of the first bad line, or success |
| DialogueParser.SpeakerIssue | scripts/batch_dialogue_tts/dialogue_parser.py:166-170 | a speaker fails the audio check when it has no `ref_audio` or its path does not exist; `CheckSpeakers` and `ConfiguredSpeakersPass` state the check in these terms |
| DialogueParser.CheckSpeakers | scripts/batch_dialogue_tts/dialogue_parser.py:165-170 | the audio check passes exactly when every speaker has an existing `ref_audio`; a failure names an issue of some speaker |
| DialogueParser.CheckDialogues | scripts/batch_dialogue_tts/dialogue_parser.py:172-181 | the dialogue loop computes its specification |
| DialogueParser.OwnRolesCheck | scripts/batch_dialogue_tts/dialogue_parser.py:172-181 | against a speakers table holding exactly their roles, records pass exactly when every role is truthy |
| DialogueParser.BracketScriptChecks | scripts/batch_dialogue_tts/dialogue_parser.py:172-181 | a bracket import always passes the dialogue check against its own speakers |
| DialogueParser.JsonLineScriptChecks | scripts/batch_dialogue_tts/dialogue_parser.py:172-181 | a JSON-line import passes the dialogue check exactly when every config's role is truthy |
| DialogueParser.DialogueParser.constructor | scripts/batch_dialogue_tts/dialogue_parser.py:6-9 | the parser holds its path and its loaded data |
| DialogueParser.DialogueParser.Open | scripts/batch_dialogue_tts/dialogue_parser.py:7-9 | construction fails with the loader's error, or gives a fresh parser holding the loaded script |
| DialogueParser.DialogueParser.GetSpeakers | scripts/batch_dialogue_tts/dialogue_parser.py:134-142 | returns the resolved speakers and writes them back when the section exists; otherwise the data is unchanged |
| DialogueParser.DialogueParser.GetRoles | scripts/batch_dialogue_tts/dialogue_parser.py:147-149 | the roles are exactly the keys of the speakers section, and there are none without one |
| DialogueParser.DialogueParser.Validate | scripts/batch_dialogue_tts/dialogue_parser.py:151-181 | a missing section fails first; the speakers are resolved in place; unless skipped, a speaker without existing audio fails; otherwise the first bad dialogue line is reported |
| DialogueParser.DialogueParser.UpdateSpeakerConfig | scripts/batch_dialogue_tts/dialogue_parser.py:183-192 | for any hashable role, including the non-string roles `get_roles` can return, the section is created if absent and the role's entry becomes exactly the three given fields; the roles grow by exactly this role |
| DialogueParser.ConfiguredSpeakersPass | scripts/batch_dialogue_tts/dialogue_parser.py:165-170 | once every speaker has an existing reference audio, the audio check passes |
| AudioMerger.Zeros | scripts/batch_dialogue_tts/audio_merger.py:34 | `n` zero samples |
| AudioMerger.SilenceLen | scripts/batch_dialogue_tts/audio_merger.py:33 | `int(target_sr * ms / 1000)` for a positive duration; `MergedLength` states the output length in these blocks |
| AudioMerger.Gap | scripts/batch_dialogue_tts/audio_merger.py:32-35 | the block after a clip has `int(sr * ms / 1000)` samples when the duration is positive and none otherwise, and every sample is the zero value |
| AudioMerger.Flatten | scripts/batch_dialogue_tts/audio_merger.py:37-38 | `np.concatenate`: the blocks one after another, in order; `MergedLength` and `TwoClips` state what it gives for the merge |
| AudioMerger.AudioMerger.constructor | scripts/batch_dialogue_tts/audio_merger.py:7-8 | the merger holds its silence duration (500 ms by default) |
| AudioMerger.FirstRate | scripts/batch_dialogue_tts/audio_merger.py:15-27 | `target_sr` after the loop: set from the first file read and never changed afterwards |
| AudioMerger.Combined | scripts/batch_dialogue_tts/audio_merger.py:17-35 | `combined_wav` after the first `k` turns: each existing file's samples, then a gap unless the file is at the last list position |
| AudioMerger.Merged | scripts/batch_dialogue_tts/audio_merger.py:37-42 | what `merge` writes: nothing when no file was read, else the concatenation at the target rate |
| AudioMerger.MergedIntended | scripts/batch_dialogue_tts/audio_merger.py:31 | the intended output: the clips read, with silence only between two of them |
| AudioMerger.AudioMerger.Merge | scripts/batch_dialogue_tts/audio_merger.py:10-42 | `merge` writes exactly the specified waveform to the output path, or nothing when no file exists; every other file is unchanged |
| AudioMerger.FirstExisting | scripts/batch_dialogue_tts/audio_merger.py:17-22 | the position of the first listed file that exists: every earlier file is missing, and the file there exists unless the position is past the list |
| AudioMerger.FirstRateIsFirstFile | scripts/batch_dialogue_tts/audio_merger.py:24-27 | the target rate is the rate of the first listed file that exists; a later rate mismatch does not change it |
| AudioMerger.CombinedLength | scripts/batch_dialogue_tts/audio_merger.py:17-35 | the length is the clips' total plus one silence block per existing file that is not last in the list |
| AudioMerger.MergedLength | scripts/batch_dialogue_tts/audio_merger.py:17-38 | the output length is the clips' total plus that number of silence blocks of `int(sr * ms / 1000)` samples |
| AudioMerger.NoSilenceJustClips | scripts/batch_dialogue_tts/audio_merger.py:32 | with a duration of zero or less, the output is the clips read, in order |
| AudioMerger.TwoClips | scripts/batch_dialogue_tts/audio_merger.py:17-39 | two existing files give the first clip, silence at the first clip's rate, then the second clip |
| AudioMerger.NothingToMerge | scripts/batch_dialogue_tts/audio_merger.py:37-42 | nothing is written exactly when no listed file exists |
| AudioMerger.TrailingSilence | scripts/batch_dialogue_tts/audio_merger.py:31-35 | for any list whose last file is missing, the output is the intended merge followed by one more silence block at the same rate |
| AudioMerger.TwoFilesLastMissing | scripts/batch_dialogue_tts/audio_merger.py:17-42 | `[a, b]` with `a` present and `b` missing gives `a` and then silence, where the intended merge gives `a` alone; the two differ when the silence has samples |
| AudioMerger.RateWhenSomeExists | scripts/batch_dialogue_tts/audio_merger.py:22-25 | once any listed file exists, the merge has a target rate |
| AudioMerger.ClipsNonEmpty | scripts/batch_dialogue_tts/audio_merger.py:18-29 | a listed file that exists always contributes a clip |
| AudioMerger.CombinedBeforeLast | scripts/batch_dialogue_tts/audio_merger.py:29-35 | before the last list position, the output so far is the clips read, joined by silence, with one more silence block after the latest clip |
| AudioMerger.AgreeWhenLastExists | scripts/batch_dialogue_tts/audio_merger.py:31-35 | when the last listed file exists, the merge as written and the intended merge coincide |
| AudioMerger.IntendedShape | scripts/batch_dialogue_tts/audio_merger.py:31 | the intended merge ends with the last clip read, with one silence block between each pair of consecutive clips |
| AudioMerger.AudioMerger.MergeIntended | scripts/batch_dialogue_tts/audio_merger.py:10-42 | the corrected merge writes exactly the intended waveform, or nothing; every other file is unchanged |

## Left out

- File reading, `json.load`/`json.loads`, `soundfile` and `os.path` are parameters.
  - JSON decoding is not modelled: a `.json` file is given as its decoded value and a JSON-line decoder as a function.
  - `PathOps` are total functions. They are assumed to make `join` of an absolute directory absolute, which is needed only for `ResolvedIdempotent`.
- `print` messages and the warnings for missing files and rate mismatches are not modelled.
- `get_metadata` (`self.data.get("metadata", {})`) is not modelled.
  - `get_dialogues` is read only inside `Validate`, after the section test, so its empty default never applies there.
  - `SpeakersOr` models `self.data.get("speakers", {})` in `GetSpeakers`, `GetRoles` and `UpdateSpeakerConfig`.
- JSON numbers are integers; floating-point values are not modelled.
- Dict insertion order is not modelled.
  - The speakers table and the role set are a map and a set, so `get_roles` returns a set rather than a list.
  - `validate` reports *some* failing speaker, where Python reports the first in dict order.
- Python's hash equality between `1`, `1.0` and `True` is not modelled: they are different roles here.
- DialogueParser.LoadJson: some malformed inputs that Python rejects only later (`TypeError`, `AttributeError`) are rejected while loading:
  - a list item or dialogue that is not a dict;
  - a speakers section or speaker entry that is not a dict;
  - a non-string `ref_audio`;
  - a top-level JSON value that is neither a list nor a dict. Python raises `TypeError` at load for a number, a boolean or null. `'dialogues' in data` is a substring test on a string. So a string containing `dialogues` fails at load too, when it is indexed, and any other string is returned as the script and fails only later;
  - a full-form `dialogues` section that is not a list. Python loops over whatever the section holds. It raises at load for a number, a boolean or null. It always loads a string. It loads a dict unless one of its keys contains `speaker` and not `role`. Of what it loads, an empty string or an empty dict is a script with no lines, and Python accepts it end to end; any other loaded value fails only later, in `validate`. The model rejects all of these at load.

  A list-form item that is a string is rejected too. Python would test `'speaker' in item` as a substring test.
- DialogueParser.JsonScript: rejects at load every input listed for `DialogueParser.LoadJson` above.
- DialogueParser.FullScript: rejects at load the full-form inputs listed for `DialogueParser.LoadJson` above, including a `dialogues` section that is not a list.
- DialogueParser.FirstBadItem: counts as bad every list item that is not a dict, including a string item Python would let through; see `DialogueParser.LoadJson` above.
- DialogueParser.NormaliseList: fails on the first list item that is not a dict. Python raises at load only for some such items and lets the others through; see `DialogueParser.LoadJson` above.
- DialogueParser.NormaliseDialogues: fails on the first full-form dialogue that is not a dict. Python raises at load only for some such items and lets the others through; see `DialogueParser.LoadJson` above.
- DialogueParser.ListScript: rejects at load the list-form inputs listed for `DialogueParser.LoadJson` above.
- DialogueParser.ScriptError: an unhashable role's error carries the role, not an index. Python's `TypeError` has neither.
- TextSplitter.ProcessDialogues: any `text` that is not a string is an error. Python also lets a short list or dict through (it has a `len`) and fails on long ones.
- TextSplitter.FirstBadText: counts every non-string `text` as bad, including the short lists and dicts Python lets through; see `TextSplitter.ProcessDialogues` above.
- TextSplitter.Processed: fails on every non-string `text`, including the short lists and dicts Python lets through; see `TextSplitter.ProcessDialogues` above.
- TextSplitter.SplitText: requires `max_chars > 0`. With zero or a negative bound, the hard-cut loop of the source never ends once a non-blank sentence exists; a blank text still gives `[]` there (`"  "` with `max_chars` 0).
- The `TextSplitter` class only holds `max_chars` and the compiled pattern. Its two methods take `maxChars` as a parameter.
- AudioMerger: samples are an abstract type and the silence is built from a given zero value, so the array shape and `dtype` are not modelled. The source's silence is one-dimensional (`np.zeros(silence_len)`), so `np.concatenate` raises for a stereo clip followed by a positive silence, and for mono mixed with stereo. The model merges such clips without error.
- AudioMerger.Gap: `int(target_sr * ms / 1000)` is modelled as exact integer division. The source divides in floating point. The two agree only while the product is small enough for the float quotient to be exact. For larger products the source can round up past the next integer: with a product of 1000 · 2^44 + 999, Python gives 17592186044417 where the model gives 17592186044416.
- DialogueParser.ScriptFormat: lower-cases only ASCII letters. Python's `str.lower()` also folds non-ASCII letters, so for a non-ASCII extension the extension carried by the unsupported-format error can differ. The choice between the `.json` and `.txt` loaders is the same, because no non-ASCII character lower-cases to a letter of `.json` or `.txt`.

## Findings

| source | as written | input that shows it | evidently intended | confidence | as-written member | corrected member |
|---|---|---|---|---|---|---|
| scripts/batch_dialogue_tts/audio_merger.py:31-35 | silence is appended after every file read that is not at the last list position, even when every later file is missing | `merge(["a.wav", "b.wav"], out)` with `a.wav` present, `b.wav` missing and a positive silence duration: the output is `a` followed by silence | silence between merged clips only, never after the last clip (the comment on line 31) | medium; not executed | AudioMerger.TrailingSilence | AudioMerger.AudioMerger.MergeIntended |
