# YTTM_Tool subtitle pipeline — a verified model

YTTM_Tool turns new YouTube videos into spoken Vietnamese audio. An RSS
reader lists the recent videos of a set of channels. The new ones, those
whose link is not stored in Firestore yet, get a Vietnamese subtitle file,
either from yt-dlp, from the transcript API or through the Views4You site.
The subtitle then passes through a chain of cleaning and merging stages,
each reading the previous stage's file from the storage folder and writing
the next one:

1. `spaceSrt_cleaner` marks the blank lines that do not separate cues with `♪`.
2. `spaceSrt_cleaner2` drops cues shorter than a minimum and fuses cues split by a small gap.
3. `spaceSrt_cleaner3` drops a cue's lines that repeat a line of the previous cue.
4. `spaceSrt_cleaner4` drops blocks without a letter in their text.
5. `srt_Cleaner` adds commas in unpunctuated text and drops repeated cues.
6. `clean_speaker_names3` removes bracketed notes, speaker labels and `♪`.
7. `merge_Sub` moves a cue's short opening phrase to the previous cue.
8. `merge_Sub2` moves a cue's short closing remainder to the next cue.
9. `merge_Sub3` packs cues into groups of at most 20 words (`.merge3.srt`), or `merge_Sub5` merges them into sentences (`.merge4.srt`).
10. `count_words` reports each block's speech rate against 8/37 second per word.
11. `new_merge` fuses every block flagged as too fast into a neighbour (`.merge4.srt`).
12. `rename_merge4` renames files starting with `-`, and `convert_merge_to_mp3` reads each `.merge4.srt` aloud into `<id>.mp3`.

The audio is uploaded to archive.org under an identifier derived from the
file name. Two helpers turn YouTube links into archive.org download links
and back.

The model holds one Dafny module per source file, over shared modules for
text (`Text`, `Decimal`, `Timestamp`, `Blocks`, `Srt`, `PathNames`, `Scan`)
and results (`Wrappers`). Every stage is a pure function from the text it
reads to the text it writes. Each stage's contracts and lemmas state what
it keeps and what it removes, how its output reads back, and which
grouping it forms; several of them state it as uniqueness against an
independent description. The network, Firestore, yt-dlp, the transcript
service, the browser, the file system and the clock are parameters. What
they report for a video or a file is an argument of the model.

## Model

| member | source | states |
|---|---|---|
| Timestamp.ParseTimeToMs | src/subtitle/spaceSrt_cleaner2.py:5-16 | `parse_time_to_ms` of `HH:MM:SS,mmm` is H·3600000 + M·60000 + S·1000 + mmm. |
| Timestamp.MsToTimeStr | src/subtitle/spaceSrt_cleaner2.py:18-27 | Below 100 hours, `ms_to_time_str` writes a well-formed `HH:MM:SS,mmm`. |
| Timestamp.RenderShape | src/subtitle/spaceSrt_cleaner2.py:18-27 | Below one hundred hours `ms_to_time_str` writes every field at its nominal width. |
| Timestamp.RenderThenParse | src/subtitle/spaceSrt_cleaner2.py:5-27 | Parsing what `ms_to_time_str` writes gives back the millisecond count, for every integer, negative ones included. |
| Timestamp.ParseThenRender | src/subtitle/spaceSrt_cleaner2.py:5-27 | Writing a parsed well-formed timestamp gives it back when its minutes and seconds are below 60. |
| Timestamp.LooseOfStrict | src/subtitle/count_words.py:24 | Every line the strict `(T) --> (T)` pattern of spaceSrt_cleaner2.py accepts, the loose one accepts with the same two times. |
| BlankLines.MarkLinesSpec | src/subtitle/spaceSrt_cleaner.py:39-58 | Marking keeps the number of lines and every non-blank line; a blank line becomes empty exactly when the next line is a cue number, and `♪` otherwise, the last line included. |
| BlankLines.CleanedLines | src/subtitle/spaceSrt_cleaner.py:39-60 | The cleaned text splits on line breaks into exactly the marked lines. |
| BlankLines.CleanIdempotent | src/subtitle/spaceSrt_cleaner.py:33-60 | Cleaning a cleaned text changes nothing. |
| BlankLines.MarkLinesIdempotent | src/subtitle/spaceSrt_cleaner.py:39-58 | Marking the marked lines marks nothing new. |
| ShortCues.FilterSrt | src/subtitle/spaceSrt_cleaner2.py:29-80 | `filter_srt` writes an empty file exactly when no block is a timed cue lasting at least the minimum. |
| ShortCues.KeptOne | src/subtitle/spaceSrt_cleaner2.py:48-73 | A block is kept exactly when it is a timed cue lasting at least the minimum, and then with its lines after the index. |
| ShortCues.KeptAppend | src/subtitle/spaceSrt_cleaner2.py:48-73 | Filtering works block by block: the cues kept from two runs of blocks are those of each run, in order. |
| ShortCues.FilterNumbering | src/subtitle/spaceSrt_cleaner2.py:69-77 | Output block k of `filter_srt` is numbered k + 1 and holds the k-th kept cue's lines unchanged. |
| ShortCues.AbsorbSpec | src/subtitle/spaceSrt_cleaner2.py:118-143 | The inner loop takes in no untimed block and only cues starting at most the gap after the running end, and stops at the end, at an untimed block or at a cue starting later. |
| ShortCues.MergeRun | src/subtitle/spaceSrt_cleaner2.py:95-153 | The merge yields at most one cue per timed block, none exactly when there is no timed block, and each with well-formed start and end times and single-line text. |
| ShortCues.MergeRunHead | src/subtitle/spaceSrt_cleaner2.py:113-153 | A timed block followed by the n cues the inner loop takes in gives one fused cue with the block's start, the end of the last cue taken in (the block's own end when none is timed), and the block's text followed by theirs; the merge goes on after them. |
| ShortCues.LastEndNone | src/subtitle/spaceSrt_cleaner2.py:119-143 | When none of the blocks taken in is timed, the running end stays the first cue's end. |
| ShortCues.LastEndAt | src/subtitle/spaceSrt_cleaner2.py:119-143 | Otherwise the running end is the end of the last timed block taken in. |
| ShortCues.MergeTiming | src/subtitle/spaceSrt_cleaner2.py:101-153 | Fused cue k comes from the k-th run: it starts where the run's first cue starts, ends where the run's last absorbed cue ends, and holds the run's text; the runs are in order, cover every timed block and leave only untimed blocks between them. |
| ShortCues.MergeKeepsText | src/subtitle/spaceSrt_cleaner2.py:95-153 | The fused cues' text lines, in order, are exactly the text lines of the input cues. |
| ShortCues.MergeNumbering | src/subtitle/spaceSrt_cleaner2.py:145-157 | Output block k of the merge is numbered k + 1, and its timing line reads back as fused cue k's start and end, followed by its text; MergeTiming says which start, end and text those are. |
| ShortCues.MergeConsecutive | src/subtitle/spaceSrt_cleaner2.py:82-157 | `merge_consecutive_subtitles` writes an empty file exactly when no block is a timed cue. |
| RepeatLines.CleanBlocks | src/subtitle/spaceSrt_cleaner3.py:5-24 | `clean_srt_blocks` keeps the count, order, numbers and times of the cues and rewrites only the content, cue `i` being cleaned against the lines cue `i - 1` had before cleaning. |
| RepeatLines.CleanContentSpec | src/subtitle/spaceSrt_cleaner3.py:10-21 | The cleaned content is empty when every line was dropped, and otherwise splits back into exactly the kept lines. |
| RepeatLines.UnseenOne | src/subtitle/spaceSrt_cleaner3.py:13-16 | A line is kept exactly when its stripped form matches no stripped line of the previous cue. |
| RepeatLines.UnseenAppend | src/subtitle/spaceSrt_cleaner3.py:12-16 | Filtering distributes over concatenation, so the kept lines keep their relative order. |
| RepeatLines.FirstCueStripped | src/subtitle/spaceSrt_cleaner3.py:7-22 | The first cue loses no lines: its content is only stripped. |
| LetterFilter.MeaningfulIff | src/subtitle/spaceSrt_cleaner4.py:5-13 | `has_meaningful_text` holds exactly when some text line holds a letter. |
| LetterFilter.KeepBlockIff | src/subtitle/spaceSrt_cleaner4.py:22-29 | A block is kept exactly when it has at least three stripped lines and a line from the third on holds a letter. |
| LetterFilter.EmptyBlockDropped | src/subtitle/spaceSrt_cleaner4.py:23-24 | An empty block strips to a single empty line, so it is never kept. |
| LetterFilter.ProcessSrtBlocks | src/subtitle/spaceSrt_cleaner4.py:19-31 | The kept blocks, in order, split back out of the written file. |
| LetterFilter.ProcessSrtKept | src/subtitle/spaceSrt_cleaner4.py:19-31 | Every block of a non-empty written file passes the letter test. |
| LetterFilter.ProcessSrtEmptyIff | src/subtitle/spaceSrt_cleaner4.py:19-31 | The written file is empty exactly when no block passes. |
| LetterFilter.ProcessSrtIdempotent | src/subtitle/spaceSrt_cleaner4.py:15-34 | Running the stage on its own output changes nothing. |
| SrtCleaner.ReadEntrySpec | src/subtitle/srt_Cleaner.py:52-64 | A block reads as an entry exactly when it has at least three stripped lines; the index and timing are its first two lines. |
| SrtCleaner.JoinSpaceDots | src/subtitle/srt_Cleaner.py:5-26 | Joining the text lines with spaces adds no dots, so the count is the dots of the text lines. |
| SrtCleaner.SubRunsVisible | src/subtitle/srt_Cleaner.py:66-76 | Each comma rule only turns a whitespace run into `", "`: every other character stays, in order. |
| SrtCleaner.PunctuateVisible | src/subtitle/srt_Cleaner.py:66-76 | Both rules together keep every character other than whitespace and commas, in order. |
| SrtCleaner.Rule1Idempotent | src/subtitle/srt_Cleaner.py:67 | The `nhưng` rule applied twice is the rule applied once. |
| SrtCleaner.DedupIsDropRepeats | src/subtitle/srt_Cleaner.py:84-91 | Comparing with the text last kept is comparing with the text just before: a dropped entry repeats its predecessor. |
| SrtCleaner.DedupNoAdjacent | src/subtitle/srt_Cleaner.py:84-91 | After rule 3 no two consecutive entries carry the same text. |
| SrtCleaner.DedupIdempotent | src/subtitle/srt_Cleaner.py:84-91 | Rule 3 applied twice is rule 3 applied once. |
| SrtCleaner.DedupTexts | src/subtitle/srt_Cleaner.py:84-91 | Every kept entry is an input entry, and every input text survives in some kept entry. |
| SrtCleaner.RenderShape | src/subtitle/srt_Cleaner.py:93-102 | The output is the blocks numbered 1..N separated by one empty line, plus a final newline. |
| SrtCleaner.RenderRoundTrip | src/subtitle/srt_Cleaner.py:93-102 | Written entries whose timing and text are single clean lines read back, renumbered 1..N. |
| SrtCleaner.GatedEntriesVerbatim | src/subtitle/srt_Cleaner.py:38-44 | With ten dots or more only rule 3 runs: every written entry is an input entry verbatim. |
| SrtCleaner.UngatedEntriesPunctuated | src/subtitle/srt_Cleaner.py:46-91 | Below ten dots every written entry is an input entry with both comma rules applied: same index and timing, same text up to whitespace and commas. |
| SrtCleaner.PassNoAdjacent | src/subtitle/srt_Cleaner.py:28-152 | Whichever branch runs, the output never carries the same text twice in a row. |
| SpeakerNames.RemoveSpansNoSpan | src/subtitle/clean_speaker_names3.py:16-19 | After one lazy bracket pass no opening bracket of that kind is closed on its own line. |
| SpeakerNames.RemoveSpansIdempotent | src/subtitle/clean_speaker_names3.py:16-19 | Removing the spans of one kind twice is removing them once. |
| SpeakerNames.RemoveLeadingSpan | src/subtitle/clean_speaker_names3.py:16-19 | The match is lazy: a bracket followed on the same line by its closing bracket loses everything up to the first closing bracket only. |
| SpeakerNames.BracketsNoSpan | src/subtitle/clean_speaker_names3.py:16-19 | After the four passes no bracket of any of the four kinds is closed on its own line. |
| SpeakerNames.LeadingSpeakerOf | src/subtitle/clean_speaker_names3.py:23 | Everything up to and including the first colon, and the whitespace after it, is deleted, even across lines; a text without a colon is unchanged. |
| SpeakerNames.LineSpeakersOf | src/subtitle/clean_speaker_names3.py:24 | A label that starts a later line is deleted with its colon and the whitespace after it. |
| SpeakerNames.LineSpeakersNoColon | src/subtitle/clean_speaker_names3.py:24 | Without a colon the line rule changes nothing. |
| SpeakerNames.CleanTextShape | src/subtitle/clean_speaker_names3.py:9-33 | The cleaned text holds no `♪` and no line break, and every whitespace character in it is a single space between two non-space characters. |
| SpeakerNames.CleanPlainText | src/subtitle/clean_speaker_names3.py:9-33 | A text with no bracket, colon or `♪` only has its whitespace normalised. |
| SpeakerNames.CleanEntryKept | src/subtitle/clean_speaker_names3.py:51-74 | An entry survives exactly when its block has at least three lines and cleaning leaves some text. |
| SpeakerNames.CleanEntryLines | src/subtitle/clean_speaker_names3.py:61-74 | A surviving entry reads back as the block's own number and timing lines followed by the one cleaned line. |
| SpeakerNames.CleanEntriesAppend | src/subtitle/clean_speaker_names3.py:51-74 | The entries of consecutive block lists are concatenated: order is kept. |
| SpeakerNames.ProcessFileShape | src/subtitle/clean_speaker_names3.py:76-80 | The file is every surviving entry followed by one blank line: it ends with a blank line exactly when some entry survives and is empty otherwise. |
| SpeakerNames.OutputNameClean5 | src/subtitle/clean_speaker_names3.py:111-112 | `X.clean5.srt` is written as `X.cleaned.srt`. |
| SpeakerNames.OutputNameCleansub | src/subtitle/clean_speaker_names3.py:113-114 | `X.cleansub.srt` is written as `X.cleaned.srt` too. |
| BoundaryWords.LeadMatchOneWord | src/subtitle/merge_Sub.py:12 | One word, an optional space and a closing mark match through the mark. |
| BoundaryWords.LeadMatchTwoWords | src/subtitle/merge_Sub.py:12 | Two words separated by one space, an optional space and a closing mark match through the mark. |
| BoundaryWords.LeadMatchShape | src/subtitle/merge_Sub.py:12 | Conversely every match is a run of word characters, at most one whitespace character, optionally a second run and at most one more whitespace character, then the mark. |
| BoundaryWords.LeadMoveKeepsText | src/subtitle/merge_Sub.py:12-18 | A leading move keeps the in-order text of all cues, whitespace aside. |
| BoundaryWords.MoveShortSentences | src/subtitle/merge_Sub.py:5-30 | The pass keeps every cue's number and timing, and the in-order text of all cues, whitespace aside. |
| BoundaryWords.LeadMoveKeepsCues | src/subtitle/merge_Sub.py:13-18 | A move never empties a cue: the donor keeps the text after the mark. |
| BoundaryWords.TrailingGuardNeverHolds | src/subtitle/merge_Sub.py:21-28 | Every suffix of the stripped text, once stripped, still ends it; the trailing match is such a suffix, so the guard `not text.endswith(...)` never holds and the trailing rule never fires. |
| TrailingWords.ReadBlockSpec | src/subtitle/merge_Sub2.py:9-15 | A block is kept exactly when it has at least three lines; its number and timing are the first two lines and its text is stripped and holds exactly the non-space characters of the later lines. |
| TrailingWords.ReadBlocksAppend | src/subtitle/merge_Sub2.py:6-16 | Reading is block by block: two runs of blocks read as each in turn. |
| TrailingWords.CutPlace | src/subtitle/merge_Sub2.py:23-29 | A cut is made at the last mark of the text, and one or two tokens follow that mark. |
| TrailingWords.CutKeep | src/subtitle/merge_Sub2.py:31 | What stays ends with the mark and is stripped. |
| TrailingWords.CutMovable | src/subtitle/merge_Sub2.py:26-34 | What a cut moves is one or two whitespace-free tokens holding no mark. |
| TrailingWords.CutPairSquash | src/subtitle/merge_Sub2.py:29-35 | Giving the cut tokens to the next cue keeps the non-space text of the pair. |
| TrailingWords.ProcessKeepsText | src/subtitle/merge_Sub2.py:18-37 | The in-order non-space text of all cues is unchanged by `process_blocks`. |
| TrailingWords.ProcessBlocks | src/subtitle/merge_Sub2.py:18-37 | `process_blocks` keeps the number of blocks and every block's number and timing where they were. |
| TrailingWords.LastMarkSpec | src/subtitle/merge_Sub2.py:23-25 | No mark follows the last mark, and a text without a last mark has no mark at all. |
| TrailingWords.LastMarkAt | src/subtitle/merge_Sub2.py:23-25 | Conversely, a mark with no mark after it is the last mark. |
| TrailingWords.RebuildSrt | src/subtitle/merge_Sub2.py:39-46 | The written file, read line by line, gives every cue's number, timing, text lines and one empty line, in order. |
| WordPacker.ReadCueOfBody | src/subtitle/merge_Sub3.py:6-32 | A written cue body reads back as the cue, with the number it was written under. |
| WordPacker.EndsWithPunctIff | src/subtitle/merge_Sub3.py:45-47 | A text ends with punctuation exactly when some `. , ? !` is followed only by whitespace. |
| WordPacker.Pack | src/subtitle/merge_Sub3.py:58-95 | The loop only appends: the groups emitted before a step are never changed by it. |
| Text.CountWordsSpaceJoin | src/subtitle/merge_Sub3.py:34-38 | Joining two texts with a space adds their word counts. |
| WordPacker.GroupsPartition | src/subtitle/merge_Sub3.py:49-97 | The groups of the 20-word packer are non-empty and, concatenated, give back the cues in order. |
| WordPacker.GroupsFit | src/subtitle/merge_Sub3.py:62-91 | Every group holds at most 20 words, unless it is a single cue of 20 words or more, which then stands alone. |
| WordPacker.GroupsInnerPlain | src/subtitle/merge_Sub3.py:75-91 | No cue inside a group, other than its last, ends in `. , ? !`: a punctuated cue that joins within the budget closes its group at once. |
| WordPacker.GroupsOverflowStarts | src/subtitle/merge_Sub3.py:75-91 | A group of several cues whose first cue ends in punctuation follows a group that punctuation did not close and whose words plus that cue's exceed 20. |
| WordPacker.GroupsCuts | src/subtitle/merge_Sub3.py:62-91 | Between any two neighbouring groups there is a reason to cut: a big cue on either side, punctuation closing the first, or the budget overflowing. |
| WordPacker.GroupsUnique | src/subtitle/merge_Sub3.py:49-97 | A grouping is a partition of the cues into non-empty groups with the fit, inner-punctuation, overflow and cut properties exactly when it is the grouping `merge_subtitles` makes. |
| WordPacker.ParseTimingLine | src/subtitle/merge_Sub3.py:40-43 | A written timing line `a --> b` of two well-formed times splits back into `a` and `b`. |
| WordPacker.ParseTimestampIff | src/subtitle/merge_Sub3.py:40-43 | `parse_timestamp` succeeds exactly when the line holds exactly one ` --> `; otherwise the tuple unpacking raises. |
| WordPacker.ParseTimestampComplete | src/subtitle/merge_Sub3.py:40-43 | A line `a --> b` with no other arrow parses to the stripped `a` and `b`. |
| WordPacker.ParseTimestampSound | src/subtitle/merge_Sub3.py:40-43 | Whatever parses is of the form `a --> b` with no other arrow, and its result is the stripped `a` and `b`. |
| WordPacker.CreateMergedIff | src/subtitle/merge_Sub3.py:99-117 | A single cue comes back unchanged; a group of several fails exactly when its first or last timing line does not hold exactly one arrow. |
| WordPacker.MergedTiming | src/subtitle/merge_Sub3.py:99-117 | A merged group keeps the first cue's number, starts where its first cue starts and ends where its last cue ends. |
| WordPacker.MergedWords | src/subtitle/merge_Sub3.py:99-117 | A merged cue has as many words as its group. |
| WordPacker.MergeGroupsOk | src/subtitle/merge_Sub3.py:49-97 | When merging succeeds, merged cue `k` is the merge of group `k`. |
| WordPacker.MergeSubtitles | src/subtitle/merge_Sub3.py:49-97 | A successful `merge_subtitles` gives one cue per group, cue k being `create_merged_subtitle` of group k. |
| WordPacker.MergeGroupsErr | src/subtitle/merge_Sub3.py:93-97 | When any one group fails to merge, merging all the groups fails. |
| WordPacker.MergeGroupsAllOk | src/subtitle/merge_Sub3.py:49-117 | When every group merges, the whole merge succeeds. |
| WordPacker.MergeSubtitlesErrIff | src/subtitle/merge_Sub3.py:49-117 | `merge_subtitles` raises exactly when some group of several cues has a first or last timing line without exactly one arrow. |
| WordPacker.MergeKeepsWords | src/subtitle/merge_Sub3.py:49-117 | Packing and merging keeps the total word count of the cues. |
| WordPacker.MergeKeepsBig | src/subtitle/merge_Sub3.py:62-102 | A cue of 20 words or more comes out as its own merged cue, unchanged. |
| WordPacker.WriteThenParse | src/subtitle/merge_Sub3.py:119-125 | Writing cues and parsing the file gives back the cues renumbered 1, 2, … in order. |
| PunctMerger.ReadBlockVsReadCue | src/subtitle/merge_Sub5.py:4-34 | The merge_Sub5 reader agrees with the merge_Sub3 reader on every block, except that it fails exactly where merge_Sub3 skips a three-line block whose first line is not an integer. |
| PunctMerger.ReadBlocksErr | src/subtitle/merge_Sub5.py:13-20 | Reading fails exactly when some block fails, and then with the error of the first such block. |
| PunctMerger.SentencesSound | src/subtitle/merge_Sub5.py:45-89 | The groups cover the cues in order, every group but the last ends with its only punctuated cue, and the last is either such a group or holds no punctuated cue. |
| PunctMerger.SentencesUnique | src/subtitle/merge_Sub5.py:45-89 | Any grouping with those properties is the grouping `merge_subtitles` makes. |
| PunctMerger.MergeAllOk | src/subtitle/merge_Sub5.py:53-89 | When merging succeeds, merged cue `k` is group `k` merged under the number `k + 1`. |
| PunctMerger.MergeAllErr | src/subtitle/merge_Sub5.py:53-89 | The first group that cannot be merged makes the whole merge fail with its error. |
| PunctMerger.MergeSubtitles | src/subtitle/merge_Sub5.py:45-91 | A successful `merge_subtitles` gives one cue per sentence group, cue k being the merge of group k under the number k + 1. |
| PunctMerger.MergedContent | src/subtitle/merge_Sub5.py:66-82 | A merged cue holds exactly the visible characters of its group's texts, in order. |
| PunctMerger.MergeKeepsContent | src/subtitle/merge_Sub5.py:45-89 | `merge_subtitles` keeps every visible character of the cue texts, in order. |
| PunctMerger.MergeNumbers | src/subtitle/merge_Sub5.py:69-89 | The merged cues are numbered 1, 2, … with one cue per group. |
| PunctMerger.MergedTimingOf | src/subtitle/merge_Sub5.py:60-81 | A merged cue starts where its first cue starts and ends where its last cue ends. |
| PunctMerger.MergeSucceeds | src/subtitle/merge_Sub5.py:36-39 | When every timing line splits on its arrow, merging succeeds. |
| PunctMerger.MergeFails | src/subtitle/merge_Sub5.py:60-81 | A group whose first or last timing line does not split on its arrow makes merging fail. |
| PunctMerger.WriteShape | src/subtitle/merge_Sub5.py:93-103 | The written file is the cue bodies separated by one empty line, with a single line break after the last and no empty line after it. |
| PunctMerger.ReadOwnBody | src/subtitle/merge_Sub5.py:13-34 | A clean cue's written body reads back as the cue itself. |
| PunctMerger.WriteThenRead | src/subtitle/merge_Sub5.py:4-103 | Reading a written file of clean cues gives back exactly those cues, numbers included. |
| StageFiles.OutputName | src/subtitle/merge_Sub3.py:152-153 | Replacing `.merge2.srt` in `<base>.merge2.srt`, with `base` free of it, gives `<base><ext>`, a name other than the input's, so deleting the input never deletes the output. |
| StageFiles.ProcessFile3AsWritten | src/subtitle/merge_Sub3.py:127-169 | As written, `process_file` raises exactly for a file that has cues, so it never writes an output or deletes its input. |
| StageFiles.UntilRaisedAt | src/subtitle/merge_Sub3.py:184-187 | A loop without `try` stops at the first file whose processing raises, after the files before it. |
| StageFiles.Main3AsWritten | src/subtitle/merge_Sub3.py:171-188 | As written, `main` skips the files without cues before the first file with cues, stops there with an exception, and writes nothing. |
| StageFiles.ProcessFile3Fixed | src/subtitle/merge_Sub3.py:127-169 | With the string replacement, a file with cues that merge is written as `<base>.merge3.srt`, holding the merged cues, and its input deleted; a failing merge raises its error. |
| StageFiles.Main3Fixed | src/subtitle/merge_Sub3.py:171-188 | With the string replacement and cues that merge, `main` reaches every file and writes `<base>.merge3.srt` for exactly the files with cues. |
| StageFiles.Main5AsWritten | src/subtitle/merge_Sub5.py:105-148 | As written, every file of merge_Sub5 ends in a reported error, and none is written. |
| StageFiles.ProcessFile5Fixed | src/subtitle/merge_Sub5.py:105-122 | With the string replacement, a file that parses and merges is written as `<base>.merge4.srt`, holding the merged cues, and its input kept. |
| RateReport.GatherLines | src/subtitle/count_words.py:45-55 | The blocks hold exactly the non-blank lines, stripped, in order. |
| RateReport.GatherNonEmpty | src/subtitle/count_words.py:45-55 | No block is empty. |
| RateReport.BlocksPartition | src/subtitle/count_words.py:45-55 | Every block is non-empty and the blocks hold the file's non-blank lines, stripped, in order. |
| RateReport.BlocksOfSpread | src/subtitle/count_words.py:45-55 | Splitting is the inverse of laying blocks of bare lines out with one empty line between them. |
| RateReport.ContentOfContent | src/subtitle/count_words.py:68 | A block of content lines only is its own content. |
| RateReport.WordCountJoin | src/subtitle/count_words.py:6-20 | Counting words line by line is counting them in the lines joined with spaces. |
| RateReport.ClockSpells | src/subtitle/count_words.py:26-27 | A clock value spells the timestamp it was read from. |
| RateReport.ClockOfRendering | src/subtitle/count_words.py:26-27 | Every time of day is read back from its rendering. |
| RateReport.TimeRangeNone | src/subtitle/count_words.py:22-29 | `get_time_range` finds nothing exactly when no line is a timing line. |
| RateReport.TimeRangeFirst | src/subtitle/count_words.py:22-29 | A range spells the two timestamps of the block's first timing line. |
| RateReport.RateSign | src/subtitle/count_words.py:72-87 | The integer fraction equals the source's rate formula, and the rate is negative exactly for blocks spoken faster than estimated. |
| RateReport.RoundedNear | src/subtitle/count_words.py:89-95 | The two-decimal rounding is within half a hundredth of the value. |
| RateReport.SlowListSpec | src/subtitle/count_words.py:63-87 | The slow list is strictly increasing and holds exactly the positions of the slow blocks. |
| RateReport.Report | src/subtitle/count_words.py:62-102 | A completed report has one line per block, in order, then six summary lines; a failed one stops after the lines of the blocks measured before the failing block, which is the one whose error it carries. |
| RateReport.ReportFlagsNegative | src/subtitle/count_words.py:63-102 | The last line lists, in increasing order, exactly the positions of the blocks whose rate is negative. |
| RateReport.MeasureAllPrefix | src/subtitle/count_words.py:64-87 | The measures are those of a prefix of the blocks; a failure names the block after it. |
| RateReport.OutputOfMerge3 | src/subtitle/count_words.py:33-36 | The report of `<stem>.merge3.srt` is `<stem>.count.txt`, whatever the stem. |
| NeighbourFusion.ParseNegatives | src/subtitle/new_merge.py:7-14 | Text without the list label gives no flagged blocks. |
| NeighbourFusion.NegativesOfReport | src/subtitle/new_merge.py:7-14 | `parse_negative_blocks`, on the file a completed rate report was written to, reads back in increasing order exactly the numbers of the blocks whose rate is negative. |
| NeighbourFusion.NegativesOfFailedReport | src/subtitle/new_merge.py:7-14 | A report cut short by a failing block has no list, so `parse_negative_blocks` finds nothing to fuse. |
| NeighbourFusion.ListItems | src/subtitle/new_merge.py:13-14 | The items of a printed list of numbers, split on commas and stripped, read back as those numbers. |
| NeighbourFusion.ParseRates | src/subtitle/new_merge.py:16-23 | `parse_block_rates` fails exactly when some matched rate is not a number, and otherwise has a rate for exactly the blocks some line names. |
| NeighbourFusion.RatesOfReport | src/subtitle/new_merge.py:16-23 | `parse_block_rates` on a completed report gives every block number from 1 its printed rate, and no other key. |
| NeighbourFusion.ReadBlockLine | src/subtitle/new_merge.py:20-22 | A block's report line reads as its number and the rate printed in it. |
| NeighbourFusion.ParseFixed2 | src/subtitle/new_merge.py:22 | A two-decimal rendering reads back as the rounded hundredths. |
| NeighbourFusion.Fixed2Shape | src/subtitle/count_words.py:94 | A two-decimal rendering is an optional minus sign, whole digits, a point and two digits spelling the rounded hundredths. |
| FusionMerge.EmptyFileParses | src/subtitle/new_merge.py:25-29 | An empty file reads back as one block holding one empty line. |
| FusionMerge.TimingIndexSpec | src/subtitle/new_merge.py:31-36 | The index found is a timing line and no earlier line is one. |
| FusionMerge.GetTimestamp | src/subtitle/new_merge.py:31-36 | Timestamps found are two well-formed `HH:MM:SS,mmm` times. |
| FusionMerge.GetTimestampAt | src/subtitle/new_merge.py:31-36 | `get_timestamp` returns the two times of the line at that index, or nothing when there is none. |
| FusionMerge.GetTimestampSome | src/subtitle/new_merge.py:31-36 | A block has timestamps exactly when one of its lines reads as a timing line. |
| FusionMerge.SetTimestamp | src/subtitle/new_merge.py:38-47 | `set_timestamp` keeps the length and every line but the first timing line, and leaves a block without one unchanged. |
| FusionMerge.GetAfterSet | src/subtitle/new_merge.py:31-47 | After setting well-formed times, getting returns the times just set. |
| FusionMerge.ContentIdempotent | src/subtitle/new_merge.py:63-64 | Filtering out number and timing lines is idempotent. |
| FusionMerge.FusedShape | src/subtitle/new_merge.py:61-68 | Fusing two timed blocks under a number line gives a well-formed block that spans from the first block's start to the second block's end and holds exactly their content lines, in order. |
| FusionMerge.FuseStep | src/subtitle/new_merge.py:53-81 | One flag keeps the number of blocks and either fuses away the flagged block or changes nothing in the set of fused-away blocks. |
| FusionMerge.FuseAllAbsorbed | src/subtitle/new_merge.py:52-81 | A completed run only adds positions to the fused-away set, and only positions of flagged block numbers. |
| FusionMerge.MergeBlocks | src/subtitle/new_merge.py:49-83 | `merge_blocks` never adds blocks; on well-formed blocks flagged inside the file it succeeds, keeps them well formed and keeps every content line in order. |
| FusionMerge.FlagPastEnd | src/subtitle/new_merge.py:56-62 | A flag one past the last block makes `merge_blocks` raise `IndexError`. |
| FusionMerge.WriteSrtBlocks | src/subtitle/new_merge.py:85-89 | No blocks write an empty file; blocks whose lines after the first are visible single lines read back renumbered 1, 2, … with their other lines unchanged. |
| FusionMerge.ProcessWrites | src/subtitle/new_merge.py:91-114 | A file set whose report parses and flags only blocks inside a file of well-formed blocks is written, and the output is the merge of its blocks, keeping all content. |
| FusionMerge.FindBaseNamesSpec | src/subtitle/new_merge.py:116-122 | The base names are those of exactly the report names listed. |
| FusionMerge.BaseNameOfCount | src/subtitle/new_merge.py:92-120 | The report of a base name without `.count.txt` in it gives that base name back. |
| FusionMerge.DoubleSuffixBaseName | src/subtitle/new_merge.py:120 | A report named with the suffix twice loses both, so its file set is looked up under a shorter name than the report's. |
| DashRename.RenamedListed | src/subtitle/rename_merge4.py:11-19 | A renamed file is still listed by the glob and no longer needs renaming. |
| DashRename.RunPointwise | src/subtitle/rename_merge4.py:15-28 | Each name ends up renamed exactly when it starts with `-` and its rename succeeds, independently of the other names. |
| DashRename.CountIsChanges | src/subtitle/rename_merge4.py:13-30 | The reported count is the number of names that changed, that is, of successful renames. |
| DashRename.NoDashLeft | src/subtitle/rename_merge4.py:18-26 | After a run a listed name starts with `-` only when it did before and its rename failed. |
| DashRename.IdleRun | src/subtitle/rename_merge4.py:18-28 | A listing with no name that starts with `-` is left as it is, with a count of zero. |
| DashRename.SecondRunIdle | src/subtitle/rename_merge4.py:5-30 | When every rename succeeds, running again renames nothing. |
| YtToArchive.ToArchive | src/youtube/change_yttoa.py:22-46 | No link is produced exactly when no pattern finds an ID; otherwise the link is an archive.org download link ending in `.ogg`. |
| YtToArchive.WatchForm | src/youtube/change_yttoa.py:4-46 | The `watch?v=` link of a valid ID maps to that ID's archive link. |
| YtToArchive.ShortForm | src/youtube/change_yttoa.py:4-46 | The `youtu.be/` link of a valid ID maps to that ID's archive link. |
| YtToArchive.SameTarget | src/youtube/change_yttoa.py:15-46 | Both link forms of the same valid ID give the same archive link. |
| ArchiveToYt.ToYoutubeOf | src/youtube/change_atoyt.py:4-35 | A link made of the download prefix, an item name without `/` and a file segment converts to the watch link of the item's ID exactly when the segment holds `.ogg` after at least one character. |
| ArchiveToYt.ArchiveUrlBack | src/youtube/change_atoyt.py:15-35 | The archive link of a valid ID converts back to the watch link of the ID its item name stands for. |
| ArchiveToYt.FolderRoundTrip | src/youtube/change_atoyt.py:21-33 | Converting an ID's item name back gives the ID exactly when the ID round-trips: it does not start with `a_` or `__`, nor with `-` while holding a second `-`. |
| ArchiveToYt.RoundTrip | src/youtube/change_atoyt.py:4-35 | YouTube to archive.org and back gives the watch link of a valid ID back exactly when the ID round-trips. |
| VideoLinks.FindId | src/youtube/addToFirestore.py:119-135 | An ID found is 11 characters of letters, digits, `_` and `-`. |
| VideoLinks.ExtractId | src/youtube/addToFirestore.py:119-135 | An ID is found only in a truthy link, and it is eleven characters of `[A-Za-z0-9_-]`. |
| VideoLinks.FindIdOfWatch | src/youtube/addToFirestore.py:119-135 | The canonical watch link of an ID gives that ID back. |
| VideoLinks.Normalize | src/youtube/addToFirestore.py:99-117 | Normalising keeps the empty link empty and keeps the ID a link yields. |
| VideoLinks.NormalizeIdempotent | src/youtube/addToFirestore.py:99-117 | `normalize_youtube_url` is idempotent. |
| VideoLinks.IsDuplicate | src/youtube/addToFirestore.py:137-159 | A video is a URL match exactly when its normalised link is stored, else an ID match exactly when its own or extracted ID is stored; the record changes only by caching an extracted ID. |
| VideoLinks.CheckStable | src/youtube/addToFirestore.py:137-159 | Checking the record the check left behind gives the same verdict and changes nothing more. |
| RssReader.IdFromLinkSegment | src/youtube/rss_reader.py:26-27 | The ID taken from a channel link is the path segment after the first `/channel/`. |
| RssReader.IdOfChannelLink | src/youtube/rss_reader.py:26-27 | The channel link of an ID without `/` gives that ID back. |
| RssReader.AddChannel | src/youtube/rss_reader.py:22-46 | A success appends exactly one record with a non-empty ID, a failure changes nothing, an explicit ID is used as given, and a `/c/` or `/@` link without `/channel/` is refused. |
| RssReader.AddByLinkSameAsById | src/youtube/rss_reader.py:22-46 | Adding a channel by its own channel link adds the same record as adding it by ID. |
| RssReader.AddChannelsAppends | src/youtube/rss_reader.py:48-55 | The list grows by the records of the accepted items, in order; nothing else changes. |
| RssReader.IsShortIff | src/youtube/rss_reader.py:57-73 | The Shorts test holds exactly when the link holds `/shorts/`, the lower-cased title starts with `#`, or the title or description holds `#short`. |
| RssReader.LinkVideoIdSpec | src/youtube/rss_reader.py:132-134 | The ID taken from a link is a prefix of what follows the first `v=`, and stops at `&`, at the next `v=` or at the end. |
| RssReader.ChannelVideosMembers | src/youtube/rss_reader.py:117-149 | Every entry newer than the cutoff and not a skipped Short gives its video, and every video comes from such an entry. |
| RssReader.SortSpec | src/youtube/rss_reader.py:163 | The sorted list is newest first and, at every publication time, lists the same videos in the same order: the sort is a stable permutation. |
| RssReader.RegularCount | src/youtube/rss_reader.py:194-195 | The regular count `len(videos) - shorts_count` is the number of videos that are not Shorts. |
| ArchiveUploader.PlainRecognised | src/audio/archive_uploader4.py:57-64 | The audio file `<id>.ogg` of any video ID is recognised as that ID, by the test as written and by the corrected one. |
| ArchiveUploader.RenamedNotRecognised | src/audio/archive_uploader4.py:57-64 | As written, the audio file of an ID starting with `-`, renamed to start with `__`, is never recognised as a video ID. |
| ArchiveUploader.RenamedRecognised | src/audio/archive_uploader4.py:57-64 | With the length test the renaming calls for, that file is recognised as the original ID. |
| ArchiveUploader.UnknownIff | src/audio/archive_uploader4.py:111-129 | `format_duration` gives `Unknown` exactly when the text does not start with `PT`. |
| ArchiveUploader.ParseIsoOf | src/audio/archive_uploader4.py:115-122 | Reading back the ISO 8601 duration YouTube writes gives the hours, minutes and seconds it was written from. |
| ArchiveUploader.FormatIsoOf | src/audio/archive_uploader4.py:111-129 | The rendered duration of such a text is `H:MM:SS` with hours and `M:SS` without. |
| ArchiveUploader.FormatNumberValue | src/audio/archive_uploader4.py:131-136 | Deleting the grouping commas from a formatted count gives a number that reads back as the same value. |
| ArchiveUploader.Sanitize | src/audio/archive_uploader4.py:285-306 | An identifier is 5 to 100 characters long, starts with a letter or digit and holds only letters, digits, `-` and `_`. |
| ArchiveUploader.SanitizeValid | src/audio/archive_uploader4.py:285-306 | A file name that already is a valid identifier sanitises to itself. |
| ArchiveUploader.SanitizeIdempotent | src/audio/archive_uploader4.py:285-306 | `sanitize_identifier` is idempotent. |
| ArchiveUploader.SanitizeOfId | src/audio/archive_uploader4.py:285-306 | The audio file of an ID that starts with a letter or digit is uploaded under that ID. |
| ArchiveUploader.SpamDelay | src/audio/archive_uploader4.py:317-330 | `handle_spam_error` gives up exactly when the attempts are used up, and otherwise waits the delay of the attempt, the last one repeating. |
| ArchiveUploader.Classify | src/audio/archive_uploader4.py:415-440 | An exception ends the upload exactly when it is a spam error and the attempts are used up; any other error is retried after at least 20 seconds. |
| ArchiveUploader.UploadFromIff | src/audio/archive_uploader4.py:385-443 | From any attempt on, the loop succeeds exactly when some remaining attempt returns status 200. |
| ArchiveUploader.UploadIff | src/audio/archive_uploader4.py:385-443 | `upload_file`'s loop succeeds exactly when some attempt below the maximum returns status 200. |
| Views4You.ExtractYoutubeId | src/pipeline3.py:79-90 | An ID extracted is non-empty and holds none of `&`, `?`, `#` and newline, which end it. |
| Views4You.FirstPatternOf | src/pipeline3.py:79-90 | A link made of a text without `y`, an alternative of the first pattern and an ID yields that ID. |
| Views4You.WatchLinkId | src/pipeline3.py:79-90 | The canonical watch link of an ID yields that ID. |
| Views4You.ShortLinkId | src/pipeline3.py:79-90 | The short link of an ID yields that ID. |
| Views4You.AgreesWithDuplicateCheck | src/pipeline3.py:79-90 | On canonical watch links the downloader's extraction agrees with the duplicate check's. |
| Views4You.CompletedIff | src/pipeline3.py:261-263 | The partial-download suffixes never hold on an `.srt` name, so a file counts as finished exactly when it ends with `.srt`. |
| Views4You.CompletedAreNewSrt | src/pipeline3.py:258-263 | The finished subtitles are exactly the new files ending with `.srt`. |
| Views4You.NewFilename | src/pipeline3.py:281-301 | The new name starts with `<id>.vi` and ends with `.srt`. |
| Views4You.NewFilenameIff | src/pipeline3.py:281-301 | The new name is the name the downloaders give for the same kind of track, and is marked `cleansub` exactly when the track is not auto-generated. |
| Views4You.CollisionKeepsSrt | src/pipeline3.py:323-330 | The collision name `<base>_<time>.srt` keeps `.srt` and differs from the name it replaces. |
| Views4You.RenamedToGood | src/pipeline3.py:303-344 | Every name a file can be renamed to starts with `<id>.vi` and ends with `.srt`. |
| Views4You.RenameAll | src/pipeline3.py:303-344 | At most one new name per file, and, for an ID without `/`, every new name starts with `<id>.vi` and ends with `.srt`. |
| Views4You.SameSecondClash | src/pipeline3.py:323-334 | Three manual subtitles renamed within one second: the last two get the same collision name, so the later rename overwrites the earlier file. |
| Views4You.MarkedLineHasUrl | src/pipeline3.py:487-493 | A line that mentions `youtube.com` or `youtu.be` always has a token that does too. |
| Views4You.LoadUrls | src/pipeline3.py:466-509 | The loader returns one link for each line that is not empty, not a comment, and marked, and each link is a marked run of non-whitespace. |
| Mp3Names.BaseName | src/audio/convert_merge_to_mp3.py:9-16 | The base of a listed name has no dot. |
| Mp3Names.BaseNameOfListed | src/audio/convert_merge_to_mp3.py:9-13 | A listed name with one `.merge4.srt` is read into a file named after what precedes its first dot. |
| Mp3Names.Mp3OfVideo | src/audio/convert_merge_to_mp3.py:6-18 | `<id>.<lang>.merge4.srt`, for a dot-free ID, is read into `<id>.mp3`. |
| Mp3Names.TracksShareMp3 | src/audio/convert_merge_to_mp3.py:6-18 | All tracks of one video are read into the same file, so the last one converted wins. |
| Mp3Names.BaseNameFallback | src/audio/convert_merge_to_mp3.py:14-16 | A name the glob does not list, `<base>.merge4.<ext>`, loses its extension and `.merge4`. |
| Mp3Names.ConvertAll | src/audio/convert_merge_to_mp3.py:39-57 | An `.mp3` is written exactly for a listed name whose synthesis succeeds. |
| Mp3Names.Mp3Plain | src/audio/convert_merge_to_mp3.py:6-18 | The output of a listed name is `<base>.mp3` with a base free of dots. |
| Mp3Names.OutputsPlain | src/audio/convert_merge_to_mp3.py:39-57 | Every output is `<base>.mp3` with a base free of dots. |
| SubLang.EnglishUserSub | src/youtube/download_vi_subtitles2.py:110-115 | Nothing is found exactly when no code starts with `en`; otherwise the first such code is returned. |
| SubLang.ChooseSubLang | src/youtube/download_vi_subtitles2.py:117-125 | The choice translates an uploaded track exactly when some code starts with `en`, and is then `vi-` followed by the first such code; otherwise it is `vi`. |
| SubLang.CleanTailIff | src/youtube/download_vi_subtitles2.py:142-156 | A final name ends with `.cleansub.srt` exactly when it holds the translation of an uploaded track. |
| SubLang.RawIsFinalIff | src/youtube/download_vi_subtitles2.py:142-175 | The track is written under its final name, needing no rename, exactly when it is not marked `cleansub`. |
| SubLang.ChoiceNames | src/youtube/download_vi_subtitles2.py:117-156 | A video with an uploaded English track gets a `cleansub` file, and one without gets `<id>.vi.srt`. |
| YtDlpSubtitles.DownloadSub | src/youtube/download_vi_subtitles2.py:127-190 | A download succeeds exactly when it stores the video, needs a link and video info, and renames only when the final file did not exist. |
| YtDlpSubtitles.DownloadSubIff | src/youtube/download_vi_subtitles2.py:127-190 | The download succeeds exactly when there is a link and info and the final file either exists or is produced by a finished run. |
| YtDlpSubtitles.RenameNames | src/youtube/download_vi_subtitles2.py:142-176 | A rename moves `<id>.<lang>.srt` to `<id>.<suffix>.srt`, and changes the name only for an uploaded track. |
| YtDlpSubtitles.ExistingUrls | src/youtube/download_vi_subtitles2.py:59-72 | The stored links are exactly the non-empty `url` fields of the documents. |
| YtDlpSubtitles.TrulyNewIff | src/youtube/download_vi_subtitles2.py:222-227 | A video is processed exactly when it has no link or its link is not stored. |
| YtDlpSubtitles.ProcessAll | src/youtube/download_vi_subtitles2.py:239-247 | Every processed video is stored once, in order, whether its download worked or not, and the two counts add up to the number processed. |
| YtDlpSubtitles.StoredAfter | src/youtube/download_vi_subtitles2.py:192-247 | Every non-empty link of the scanned videos is stored after the run. |
| YtDlpSubtitles.NewWhenAllStored | src/youtube/download_vi_subtitles2.py:222-227 | When every non-empty link is stored, only the videos without a link are new. |
| YtDlpSubtitles.SecondRunOnlyUnlinked | src/youtube/download_vi_subtitles2.py:192-247 | A second run over the same scan processes only the videos with no link: nothing is fetched twice. |
| TranscriptSubtitles.ExtractVideoId | src/youtube/download_vi_subtitles4.py:119-122 | `extract_video_id` returns its argument unchanged or a well-formed video ID. |
| TranscriptSubtitles.ExtractIdempotent | src/youtube/download_vi_subtitles4.py:119-122 | `extract_video_id` is idempotent. |
| TranscriptSubtitles.WatchLinkId | src/youtube/download_vi_subtitles4.py:119-122 | The canonical watch link of an ID gives that ID. |
| TranscriptSubtitles.ShortLinkId | src/youtube/download_vi_subtitles4.py:119-122 | The short link of an ID gives that ID. |
| TranscriptSubtitles.SameIdAnyForm | src/youtube/download_vi_subtitles4.py:119-122 | The watch link, the short link and the bare ID of a video all give the same ID. |
| TranscriptSubtitles.DownloadSub | src/youtube/download_vi_subtitles4.py:124-186 | A download succeeds exactly when it stores the video, and writes a file only when the output did not exist. |
| TranscriptSubtitles.WrittenName | src/youtube/download_vi_subtitles4.py:124-176 | The file written is named after the link's ID and is marked `cleansub` exactly when the uploader's transcript was used. |
| TranscriptSubtitles.TrulyNewIff | src/youtube/download_vi_subtitles4.py:222-237 | A video is processed exactly when its normalised link is not stored. |
| TranscriptSubtitles.ProcessAll | src/youtube/download_vi_subtitles4.py:249-258 | Only successful downloads are stored, once each and in order, and the counts add up to the number processed. |
| TranscriptSubtitles.StoredOfLinks | src/youtube/download_vi_subtitles4.py:249-258 | The links stored are exactly the normalised links of the videos that succeeded. |
| TranscriptSubtitles.KnownAfterIff | src/youtube/download_vi_subtitles4.py:188-260 | A link is known after the run exactly when it was known before or a processed video with that normalised link was saved. |
| TranscriptSubtitles.SavedSkipped | src/youtube/download_vi_subtitles4.py:188-260 | A video whose subtitle was saved is skipped by the next run. |
| TranscriptSubtitles.FailedRetried | src/youtube/download_vi_subtitles4.py:188-260 | A new video whose download failed is tried again by the next run, unless another video with the same normalised link was saved. |
| Decimal.ParseIntOfIntToString | src/subtitle/merge_Sub3.py:16 | `int(str(i)) == i` for every integer, so a printed cue number reads back. |
| Decimal.ParseIntOfPadInt | src/subtitle/spaceSrt_cleaner2.py:5-27 | A number padded with zeros to any width reads back as the number. |
| Decimal.GroupDigitsUngroup | src/audio/archive_uploader4.py:134 | Deleting the grouping commas of `f"{n:,}"` gives the digits back. |
| Blocks.SplitBlankOfJoin | src/subtitle/srt_Cleaner.py:8 | Non-empty blocks with no blank line inside and no whitespace at either end, joined by one empty line, are split back by `re.split(r'\n\s*\n', …)` into exactly those blocks. |
| Blocks.SplitRunsSeparated | src/subtitle/spaceSrt_cleaner4.py:19 | The pieces of `re.split(r'\n{2,}', …)` hold no double newline, only the first may start and only the last may end with a newline, and none in the middle is empty. |
| Blocks.SplitRunsOfJoin | src/subtitle/spaceSrt_cleaner4.py:19-31 | Pieces separated in that sense, joined by `"\n\n"`, are split back into exactly those pieces. |
| Blocks.SplitDoubleOfJoin | src/subtitle/merge_Sub3.py:9 | Pieces without a double newline and not ending in a newline, joined by `"\n\n"`, are split back by `split('\n\n')` into exactly those pieces. |
| Srt.TimingLineRoundTrip | src/subtitle/spaceSrt_cleaner2.py:57 | A written `start --> end` line of two well-formed times is one line, read back by the strict matcher as the same two times. |
| Srt.NumberedLines | src/subtitle/spaceSrt_cleaner2.py:69-77 | Output block `k` splits into its number `first + k`, which reads back, and exactly its body lines. |
| Srt.TerminatedConcat | src/subtitle/new_merge.py:87-89 | Writing every block followed by an empty line is joining them with empty lines plus one final empty line. |
| PathNames.SplitExtOf | src/subtitle/count_words.py:33 | `splitext` of `base.ext` for a plain base and extension is `(base, .ext)`. |
| PathNames.StemOfExt | src/audio/convert_merge_to_mp3.py:16 | The stem of `base.ext`, for a non-empty base and a dot-free extension, is `base`. |

## Left out

- Reading and writing files is left to the caller in every stage. This covers `Path.glob`, `open`, `os.remove`, `os.rename` and `print`. The `utf-8-sig` retry at merge_Sub3.py:133-136 and the `latin-1` retry at clean_speaker_names3.py:42-45 are decoding, and decoding is outside the model.
- StageFiles: the model describes the last two merging stages with the string replacement they evidently mean. As written, both call `Path.replace` with two arguments (merge_Sub3.py:153 and merge_Sub5.py:118), which raises `TypeError`. In merge_Sub3 nothing catches it (main, merge_Sub3.py:185-187), so the run ends at the first file with cues. In merge_Sub5 `main` catches it for each file (merge_Sub5.py:142-147). Neither stage writes an output or removes an input; see "## Findings".
- Text.IsLetter approximates Python's Unicode letter class. It is the ASCII letters, `ª µ º`, and U+00C0..U+1EF9 except `× ÷` and U+1680. That range also holds the combining marks U+0300..U+036F and the punctuation signs U+037E, U+060C, U+061F and U+06D4, which Python does not count as letters. Text in decomposed form (NFD) is therefore counted differently, and that affects the 20-word cap of merge_Sub3 and the letter test of spaceSrt_cleaner4.
- Text.IsLetter leaves out every letter above U+1EF9, so CJK, Korean and many other scripts are not letters in the model.
- Text.IsDigit is ASCII only, so `\d`, `\d{2}` and `\w` in the timing and word regexes accept fewer characters than Python's Unicode-aware classes.
- Text.IsDigit also stands for Python's `str.isdigit()`, which is true of other digits too. At spaceSrt_cleaner.py:48 a line such as `１２` counts as a block number in Python, so the blank line before it is kept; in the model it does not. At new_merge.py:14 Python reads the list item `１２` as 12, and the item `²` passes `isdigit()` but makes `int()` raise `ValueError`; the model skips both items.
- Decimal.ParseInt rejects `1_0` and non-ASCII digits, which Python's `int()` accepts. So a block whose number is written that way is skipped by merge_Sub3.py:16-30 and fails in merge_Sub5, where Python would read it.
- Text.ToLower lower-cases ASCII letters only, unlike `str.lower()`. This matters for the Shorts test of rss_reader.py:57-73 and the spam test of archive_uploader4.py:416-419.
- ArchiveUploader.IdentChar uses the approximated letters and ASCII digits in place of `str.isalnum()` in `sanitize_identifier` (archive_uploader4.py:285-306).
- spaceSrt_cleaner3 and merge_Sub (merge_Sub.py:48-50) read and write cues with the `srt` library, which is not part of this model. A cue is taken as its index, its two times and its text. The library's `compose` also sorts the cues, renumbers them from 1 and drops cues with empty text; BoundaryWords.MoveShortSentences models only the pass between `parse` and `compose`.
- NeighbourFusion.ParseNum: a rate is read as the exact decimal value its string spells, and FusionMerge compares those values exactly. new_merge.py:22 reads rates with `float()`, which rounds to a binary double and gives `inf` for values above about 1.8 × 10^308. So two rates that differ only past the seventeenth significant digit compare equal in Python but not in the model. An example is a left neighbour at `0.1` and a right neighbour at `0.10000000000000000001`: Python fuses the flagged block left, and the model fuses it right. Two-decimal rates, as count_words writes them at moderate magnitudes, compare the same either way.
- RateReport: the report's numbers are exact rationals, rounded half to even at two decimals. Python computes them in binary floating point (count_words.py:72-95), so a rendered value may differ at an exact decimal midpoint.
- The Firestore reads and writes of addToFirestore.py, download_vi_subtitles2.py and download_vi_subtitles4.py are left out. The collection is modelled as the sequence of its documents' `url` fields. This covers `get_recent_video_urls_from_firebase`, `get_recent_video_data_from_firebase`, `add_video_to_firebase` and `initialize_firebase`.
- The batch drivers `process_new_videos` and `process_new_videos_optimized` of addToFirestore.py are left out. So are `get_video_info`, `debug_recent_videos` and the `download_from_list_fallback`/`test_rss_integration` helpers of the downloaders. They only chain the modelled steps with network calls and printing.
- addToFirestore.py defines `normalize_youtube_url`, `extract_video_id_from_url` and `is_video_duplicate_optimized` twice (lines 99-159 and 328-389) with the same bodies. They are modelled once. The copy of `normalize_youtube_url` in rss_reader.py:75-92 is the same function.
- rss_reader.py: fetching and parsing feeds with `feedparser` is left out, as are `print_summary`'s printing and `get_latest_videos_from_rss`'s console output. A feed is a parameter mapping its link to its entries. Publication times are whole seconds.
- RssReader.ChannelVideos: every modelled entry carries a publication time. In the source an entry without `published_parsed` raises inside the channel's `try` (rss_reader.py:107-160): the videos taken from that channel before it are kept, and the rest of the channel is dropped. The model does not cover that case.
- ArchiveUploader.IsVideoIdFile reads `$` in `^[a-zA-Z0-9_-]{11}$` (archive_uploader4.py:64) as the end of the name. Python's `$` also matches just before a final newline, so a stem of eleven ID characters followed by `\n` passes in the source but not in the model.
- archive_uploader4.py: the YouTube Data API call (`get_youtube_video_info`) is left out. So are the metadata text built from its answer (`create_youtube_metadata`, `create_fallback_metadata`), the random delays, the waits, the folder listing and the archive.org upload itself. The item-collision loop at archive_uploader4.py:362-380 is left out too, because whether an identifier is taken is an archive.org query.
- pipeline3.py: the Selenium browser session is left out (`setup_chrome`, page loading, finding and clicking buttons and links, screenshots, `download_multiple_videos`). So is the URL quoting of `get_views4you_url`. What the download folder holds before and after is a parameter.
- Views4You.RenameAll assumes every `os.rename` succeeds. The exception path at pipeline3.py:337-341, which keeps the old name, is not modelled.
- Views4You.RenameAll takes one clock reading (`Folder.stamp`) for the whole loop. The source calls `time.time()` again at each collision (pipeline3.py:327), so two collisions in different seconds get different stamps in the source and the same stamp in the model.
- YtDlpSubtitles.ProcessAll and TranscriptSubtitles.ProcessAll give each video its outcome through `env`, a function of the video. Two scan entries with the same link therefore get the same outcome. In the source the second sees the file the first wrote (download_vi_subtitles2.py:156 and download_vi_subtitles4.py:166) and skips the download.
- convert_merge_to_mp3.py:23-37: the speech synthesis runs as a subprocess. Whether it succeeds for a file is a parameter.
- The yt-dlp runs and the transcript API of the two downloaders are parameters. Timeouts and exceptions are outcomes of those parameters.

## Findings

| source | as written | input that shows it | evidently intended | confidence | as-written member | corrected member |
|---|---|---|---|---|---|---|
| src/audio/archive_uploader4.py:57-64 | a stem starting with `__` is read back as `-` plus the rest only when it is 13 characters long | the audio of an ID starting with `-`, such as `-abcdefghij`, is uploaded as `__abcdefghij.ogg`, whose 12-character stem is then not recognised as a video ID | the renamed stem of an 11-character ID is 12 characters long, so the test is `len(stem) == 12` | high; not executed | ArchiveUploader.RenamedNotRecognised | ArchiveUploader.RenamedRecognised |
| src/subtitle/merge_Sub3.py:153 | `input_file.replace('.merge2.srt', '.merge3.srt')` on the `Path` from `glob`, outside any `try` | any `*.merge2.srt` file with at least one cue: `Path.replace` takes one argument, so the call raises `TypeError`, `main` stops, and no `.merge3.srt` is written | `str(input_file).replace(...)`: the output is `<base>.merge3.srt` and the input is deleted after the write | high; not executed | StageFiles.Main3AsWritten | StageFiles.Main3Fixed |
| src/subtitle/merge_Sub5.py:118 | `input_file.replace('.merge2.srt', '.merge4.srt')` on the `Path` from `glob` | any `*.vi-*.merge2.srt` file that parses and merges: the `TypeError` is caught by `main`, which reports an error for every file and writes nothing | `str(input_file).replace(...)`: the output is `<base>.merge4.srt` | high; not executed | StageFiles.Main5AsWritten | StageFiles.ProcessFile5Fixed |
