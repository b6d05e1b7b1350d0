# Tube2Tune core, modelled in Dafny

Tube2Tune turns a YouTube video into a tagged MP3. It downloads the audio and
the English SRT captions, asks a local language model to turn the video title
into a clean `{"song", "artists"}` record, and embeds title, artists, plain
lyrics, synchronised lyrics and a cover image as ID3v2.4 frames. It then moves
the file to `./finished/<song>.mp3` and appends a record to the `data.json`
ledger.

This project models the logic of `main.py` that lies between those external
steps:

- `srt_to_sylt` (module `Captions`): the SRT content is trimmed and split into
  blocks on `"\n\n"`. Each block is trimmed and split into lines. A block with
  fewer than two lines is skipped. So is one whose second line does not start
  with `\d+:\d+:\d+,\d+ --> \d+:\d+:\d+,\d+`. A remaining block yields
  `(h*3600000 + m*60000 + s*1000 + ms, text)`, where `text` is lines 3 onward
  joined by spaces and trimmed. The entry is kept only when that text is
  non-empty. The timestamp pattern is an explicit parser (`MatchTiming`). It is
  proved sound (`MatchTimingSound`) and complete (`MatchTimingOf`) against the
  text two timestamps spell. The loop is the method `CollectEntries`, proved
  against the function `Entries`.
- `srt_to_plain_lyrics` (module `PlainLyrics`): a separate pass over the file's
  lines. It drops lines whose trimmed form is all digits, lines containing
  `-->` and blank lines. It joins the trimmed survivors with `"\n"`. The loop
  is the method `CollectLines`, proved against the function `KeptLines`.
- `safe_json_parse` (module `Metadata`): the language model's reply is parsed
  whole. If that fails, the span from the first `{` to the last `}` is parsed;
  this is the span `re.search(r"\{.*\}", s, re.DOTALL)` selects. If that fails
  too, the fallback record `{"song": title, "artists": ["Unknown"]}` is
  returned. The JSON decoder is a parameter `parse: string -> Option<Json>`.
  The tier logic and the brace span are what is proved.
- `tag_mp3_with_sylt` (module `Tagging`): the frames it adds, in order. TIT2
  and TPE1 text frames are always added (section 4.2 of the ID3v2.4.0 frames
  document). USLT (section 4.8) is added iff the plain lyrics are non-empty.
  SYLT (section 4.9) is added iff there are entries; it uses time stamp format
  2 (milliseconds) and content type 1 (lyrics). APIC (section 4.14) is added
  iff the cover exists; it uses picture type 3 (front cover). The MP3's tag is
  a class, `Mp3Tags`, whose `Add` method appends a frame.
- `process_song` after the download (module `Pipeline`): it looks up
  `metadata["song"]` and `metadata["artists"]`, tags the file and computes
  `os.path.join(FINISHED_DIR, f"{song_name}.mp3")`. It then appends the new
  record, with status `"done"`, to the loaded ledger (a class, `Ledger`).

Python's `str.strip`, `str.isdigit` and the regex `\d` are Unicode-aware. The
model uses ASCII whitespace (the characters `str.isspace` accepts below 128)
and the ASCII digits `0`–`9`.

Two behaviours of the code are easy to overlook:

- Synchronised entries keep block order and are not sorted by offset.
  `Captions.OutOfOrderBlocks` shows two blocks whose entries come out of order.
- The resolved record need not have a usable song. A direct parse returns any
  JSON value: `Metadata.DirectNumberHasNoSong` shows that a bare number makes
  the `song` lookup fail, and `Pipeline.NonObjectReply` shows that the run then
  stops before tagging. An unusable reply with an empty title gives an empty
  song name (`Pipeline.FallbackSong`).

## Model

| member | source | states |
|---|---|---|
| `Text.StripSlice` | main.py:66 | `str.strip()` returns the slice between a whitespace prefix and a whitespace suffix, and it is empty iff the string is all whitespace |
| `Text.JoinSplit` | main.py:62 | joining the pieces of `split(sep)` with `sep` gives back the string |
| `Text.SplitJoin` | main.py:66 | splitting a newline-join of lines that contain no newline gives back those lines |
| `Captions.Number` | main.py:63 | `\d+` reads a non-empty maximal run of digits and leaves the rest of the line |
| `Captions.MatchTimingSound` | main.py:63-73 | a timing match means the line starts with two well-formed `H:M:S,ms` timestamps around `" --> "`, and the last digit group is maximal |
| `Captions.MatchTimingOf` | main.py:63-73 | every line that starts with two well-formed timestamps around the arrow matches, whatever follows (a prefix match); the start timestamp is captured exactly |
| `Captions.BlockOffset` | main.py:66-86 | an accepted block's offset is the start timestamp's `h*3600000 + m*60000 + s*1000 + ms`, and its text is the trimmed space-join of lines 3 onward |
| `Captions.Milliseconds` | main.py:76-81 | the start time in milliseconds, `int()` of each field weighed by its unit; stated by `BlockOffset` and `MillisecondsExample` |
| `Captions.MillisecondsExample` | main.py:76-81 | `1:2:3,4` is 3723004 ms, and `0:75:0,0` is 4500000 ms: fields are not range-checked |
| `Text.DecimalValue` | main.py:77-80 | `int()` of a run of ASCII digits; stated by `DecimalValueLeadingZero` and `MillisecondsExample` |
| `Text.DecimalValueLeadingZero` | main.py:77-80 | a leading zero does not change the value, as `int("07") == int("7")` |
| `Captions.MatchTiming` | main.py:63-71 | the timing pattern as a prefix parser; what it accepts is stated by `MatchTimingSound` and `MatchTimingOf` |
| `Captions.BlockEntry` | main.py:66-86 | the entry one block yields; an accepted block is characterised by `BlockOffset`, and every block of the right shape is accepted by `BlockAccepted` |
| `Captions.BlockAccepted` | main.py:66-86 | a block of at least two lines whose second line starts with two well-formed timestamps and whose later lines hold text yields `(start in ms, trimmed space-join of lines 3 onward)` |
| `Captions.CollectEntries` | main.py:65-86 | the loop appends, in block order, the entry of every accepted block and nothing else |
| `Captions.SrtToSylt` | main.py:53-88 | no entries when the caption file does not exist; otherwise the entries of the trimmed content's blocks |
| `Captions.SyltEntries` | main.py:53-88 | the value srt_to_sylt returns; stated by `SrtToSylt`, `SyltEntriesClean`, `SingleBlockDocument` and `HelloWorldExample` |
| `Captions.EntriesConcat` | main.py:65-86 | entries come out block by block: those of `a + b` are those of `a` followed by those of `b` |
| `Sequences.FilterMap` | main.py:65-86 | keeping the accepted items of a sequence yields at most as many results as items |
| `Captions.EntriesSingle` | main.py:65-86 | one block contributes its own entry or nothing |
| `Captions.EntriesMembership` | main.py:65-86 | an entry is produced iff some block yields it |
| `Captions.EntriesClean` | main.py:84-86 | every entry's text is non-empty, trimmed and a single line |
| `Captions.SyltEntriesClean` | main.py:53-88 | the same holds for the entries of a whole caption file |
| `Captions.SingleBlock` | main.py:66-86 | an index line, a timing line and a text line yield exactly `(start in ms, text)`; the end timestamp and anything after the match play no part |
| `Captions.TwoLineBlock` | main.py:66-86 | every block of exactly two lines yields nothing, whatever their content or whitespace: the text after the timing line is empty |
| `Captions.IndexAndTimingOnly` | main.py:84-86 | an example of such a block: an index line followed by a well-formed timing line yields nothing |
| `Captions.SingleBlockDocument` | main.py:62-86 | a document that is one well-formed block yields exactly that block's entry |
| `Captions.HelloWorldExample` | main.py:53-88 | `"1\n00:00:01,500 --> 00:00:03,000\nHello world"` yields `[(1500, "Hello world")]` |
| `Captions.OutOfOrderBlocks` | main.py:65-86 | a block at 5 s followed by one at 1 s yields `[(5000, "B"), (1000, "A")]`: entries are not sorted |
| `PlainLyrics.FileLines` | main.py:96 | the lines `for line in f` yields; stated by `FileLinesSound` |
| `PlainLyrics.FileLinesSound` | main.py:96 | the lines of a file concatenate back to the content; each is non-empty with no newline before its end, and every line but the last ends with its newline |
| `PlainLyrics.KeptLine` | main.py:97-100 | the filter applied to one line; stated by `KeptLineFilter` and `KeptLineShape` |
| `PlainLyrics.Lyrics` | main.py:90-101 | the value srt_to_plain_lyrics returns; its lines are stated by `LyricsLines` and `KeptLinesShape` |
| `PlainLyrics.CollectLines` | main.py:96-100 | the loop keeps, in line order, the trimmed form of every line that is not an index, a timing line or blank, and nothing else |
| `PlainLyrics.SrtToPlainLyrics` | main.py:90-101 | `""` when the caption file does not exist; otherwise the kept lines joined by `"\n"` |
| `PlainLyrics.KeptLineFilter` | main.py:97-100 | a line is kept iff its trimmed form is non-blank and not all digits and the line has no `-->`; the kept text is the trimmed form |
| `PlainLyrics.KeptLineShape` | main.py:97-100 | a kept line is non-blank, trimmed, not all digits and has no `-->`; a kept line of a file has no newline |
| `PlainLyrics.KeptLinesConcat` | main.py:96-100 | the original line order is preserved |
| `PlainLyrics.KeptLinesMembership` | main.py:96-100 | a string is kept iff it is the trimmed form of an input line that passes the filter |
| `PlainLyrics.KeptLinesShape` | main.py:96-100 | every kept line of a file is a single non-blank lyric line without `-->` |
| `PlainLyrics.LyricsLines` | main.py:96-101 | the lyrics are empty iff nothing is kept; otherwise splitting them on `"\n"` gives back exactly the kept lines |
| `Metadata.FirstIndex` | main.py:155 | the position of the first occurrence of a character, or none iff it does not occur |
| `Metadata.LastIndex` | main.py:155 | the position of the last occurrence of a character, or none iff it does not occur |
| `Metadata.BraceBoundsSpec` | main.py:155 | `\{.*\}` with DOTALL matches iff some `{` precedes some `}`, and then it spans from the first `{` to the last `}` |
| `Metadata.BraceSpan` | main.py:155-158 | `match.group(0)` of the brace pattern; stated by `BraceSpanOf` and `NoOpeningBrace` on top of `BraceBoundsSpec` |
| `Metadata.BraceSpanOf` | main.py:155-156 | prose without `{`, a braced span, then text without `}`: the match is exactly that span |
| `Metadata.NoOpeningBrace` | main.py:155-156 | a reply without `{` has no match |
| `Metadata.SafeJsonParse` | main.py:148-162 | the three tiers of safe_json_parse; stated by `DirectTier`, `EmbeddedTier`, `FallbackTier` and `ResultOrigin` |
| `Metadata.DirectTier` | main.py:150-152 | when the whole reply parses, its value is returned unchanged, whatever kind of value it is |
| `Metadata.EmbeddedTier` | main.py:153-158 | otherwise, when the span from the first `{` to a later last `}` parses, its value is returned |
| `Metadata.FallbackTier` | main.py:153-162 | when neither tier parses, the result is exactly the fallback record |
| `Metadata.ResultOrigin` | main.py:148-162 | the result is the fallback record or the parse of some substring of the reply |
| `Metadata.PreambleExample` | main.py:153-158 | `I think this is: {"song": "Test", "artists": ["A", "B"]}` yields the embedded object |
| `Metadata.ProseExample` | main.py:153-162 | `not json at all` yields the fallback record |
| `Metadata.LookupMemberLast` | main.py:186-187 | a key lookup finds the value of the key's last occurrence, and fails iff the key is absent |
| `Metadata.LookupMemberAt` | main.py:186-187 | a member whose key does not occur after it is the value the lookup returns |
| `Metadata.Subscript` | main.py:186-187 | `value[key]`: the member's value, `KeyError` without the key, `TypeError` on a non-object; stated by `SongAndArtistsCases` and `LookupMemberLast` |
| `Metadata.SongAndArtists` | main.py:186-187 | the two subscripts in the source's order; stated by `SongAndArtistsCases`, `FallbackFields` and `DirectNumberHasNoSong` |
| `Metadata.SongAndArtistsCases` | main.py:186-187 | both lookups succeed iff the value is an object with both keys; a non-object fails at the first subscript, a missing `song` fails with that key |
| `Metadata.FallbackFields` | main.py:162 | the fallback record's song is the title and its artists are `["Unknown"]` |
| `Metadata.DirectNumberHasNoSong` | main.py:186 | a reply that parses to a number is returned as is, and the `song` lookup on it fails |
| `Tagging.SelectFrames` | main.py:116-144 | the frames tag_mp3_with_sylt adds, in order; stated by `SelectFramesSpec` |
| `Tagging.SelectFramesSpec` | main.py:116-144 | TIT2 (title) and TPE1 (artists) first; USLT `eng` iff lyrics non-empty; SYLT `eng`, ms, lyrics, "Lyrics" iff entries non-empty; APIC JPEG front cover "Cover" iff the cover exists; nothing else; all UTF-8 |
| `Tagging.TitleAndArtistOnly` | main.py:116-118 | no lyrics, no entries, no cover: only TIT2 and TPE1 |
| `Tagging.Mp3Tags.constructor` | main.py:112 | a file's tag starts as the tag the file already has, or none |
| `Tagging.Mp3Tags.AddTags` | main.py:113-114 | a file without a tag gets an empty one |
| `Tagging.Mp3Tags.Add` | main.py:117 | adding a frame appends it to the tag's frames |
| `Tagging.TagMp3` | main.py:110-146 | the frames handed to the tag are the existing frames followed by exactly the selected frames, in the order they are added |
| `Pipeline.PathJoin` | main.py:194 | an absolute second part replaces the directory; otherwise one `/` separates them |
| `Pipeline.FinalPath` | main.py:194 | `os.path.join(FINISHED_DIR, f"{song_name}.mp3")`; stated by `FinalPathInFinished` and `AbsoluteSongEscapes` |
| `Pipeline.FinalPathInFinished` | main.py:194 | a song name that is not an absolute path is filed as `./finished/<song>.mp3` |
| `Pipeline.AbsoluteSongEscapes` | main.py:194 | a song name starting with `/` escapes the finished directory |
| `Pipeline.SongText` | main.py:117 | the title frame gets text iff the song value is a string, and that text is the string itself, unchanged |
| `Pipeline.ArtistNames` | main.py:118 | the artist frame takes a single string or a list of strings, item for item |
| `Pipeline.Strings` | main.py:118 | a list of JSON values is a list of names iff every item is a string |
| `Pipeline.Ledger.Load` | main.py:18-19 | the loaded ledger is the stored list if the file exists, else empty |
| `Pipeline.Ledger.Append` | main.py:208 | appending puts the record at the end and keeps every earlier one |
| `Pipeline.ProcessSong` | main.py:164-209 | on success the file gets the selected frames, the ledger gains exactly the new record and the final path is returned; on failure neither changes |
| `Pipeline.ResolveSong` | main.py:183-187 | safe_json_parse followed by the `song` and `artists` lookups; stated by `ParsedSong`, `FallbackSong` and `NonObjectReply` |
| `Pipeline.Processed` | main.py:198-208 | the ledger after one run: the old one plus the new record, or an error; stated by `LedgerAppend` and `NoDeduplication` |
| `Pipeline.NewEntry` | main.py:198-207 | the record appended to the ledger; stated by `NewEntryFields` |
| `Pipeline.NewEntryFields` | main.py:198-207 | the record has `status` `"done"`, `mp3_path` the final path, and the run's `id`, `song_name` and `artists` |
| `Pipeline.LedgerAppend` | main.py:194-209 | the new ledger is the old one plus one record at the end, with status `"done"` and `mp3_path` `./finished/<song>.mp3` |
| `Pipeline.NoDeduplication` | main.py:198-209 | processing the same video twice appends two identical records |
| `Pipeline.FirstSong` | main.py:198-208 | from an empty ledger (what `Ledger.Load` gives without a ledger file), the first song makes a one-record ledger |
| `Pipeline.FallbackSong` | main.py:162-194 | an unusable reply without braces makes the title the song and `["Unknown"]` the artists |
| `Pipeline.NonObjectReply` | main.py:183-187 | a reply that parses to a non-object stops the run before anything is tagged or recorded |
| `Pipeline.ParsedSong` | main.py:183-194 | when the parsed reply is an object whose `song` is a string, that string is the song name exactly (for the title frame and the final path); the run goes on iff the artists are present and are text, and they are carried over unchanged |

## Left out

- `download_audio_and_captions` (main.py:25-51): the network download and FFmpeg transcoding belong to yt-dlp. Its result is the `Download` record, with the caption file's existence and content as inputs.
- `query_local_llm` (main.py:103-108) and the prompt text (main.py:176-182): the reply of the `ollama` process is an arbitrary input string.
- The JSON grammar and decoder: `json.loads` is the parameter `parse`. The formatting of `json.dump` in `save_json` (main.py:21-23) is left out, and saving is the ledger's final value.
- mutagen internals: `MP3(...)` opening, binary ID3 encoding and `audio.save()` are not modelled.
- `Tagging.Mp3Tags.Add`: keeps the ordered list of frames handed to `tags.add`. It does not model mutagen's replacement of an earlier frame with the same hash key.
- `Tagging.TagMp3`: states the frames handed to the tag, not the tag mutagen finally writes; an existing frame with the same hash key as a selected one would be replaced there, and is kept here.
- `Pipeline.SongText`, `Pipeline.ArtistNames`: by choice, a song value that is not a string, or artists that are not a string or a list of strings, fail the run before tagging. The source is more permissive: mutagen accepts a list of strings as frame text, so a reply `{"song": ["X"], ...}` would be tagged and filed as `./finished/['X'].mp3`, and other values may be rejected by mutagen's own validation, which is not part of this model.
- Filesystem and console effects: `os.makedirs`, `shutil.move`, `print`, `input` and the `__main__` entry point (main.py:193-195, 211-216) are not modelled. `os.path.exists` is a boolean input. The `', '.join(artists)` in the closing message (main.py:211) runs after the ledger is saved and is not modelled.
- Failures of I/O, of opening or saving the MP3, and of moving the file are not modelled. In the source they abort the run before the ledger is saved.
- `Pipeline.ProcessSong`: assumes the tag write succeeds. The SYLT frame receives `(offset in ms, text)` pairs, in the order main.py:86 builds them; whether mutagen's SYLT accepts that order when saving is outside this model, and if `audio.save()` raised, the ledger would not be written.
- Unicode: `str.strip`, `str.isdigit`, `\d` and `int()` use ASCII whitespace and ASCII digits. Universal-newline translation on file read is not modelled; the content is taken as already read.
