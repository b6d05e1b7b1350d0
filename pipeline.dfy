/**
 * process_song after the download: the captions become synchronised entries
 * and plain lyrics, the language model's reply becomes the song name and
 * artists, the MP3 is tagged and filed under ./finished, and one record is
 * appended to the ledger.
 */
module Pipeline {
  import opened Wrappers
  import opened Captions
  import opened PlainLyrics
  import opened Metadata
  import opened Tagging

  /** FINISHED_DIR */
  const FinishedDir: string := "./finished"

  /** posixpath.join(a, b): an absolute `b` replaces `a`; otherwise one '/' separates them. */
  function PathJoin(a: string, b: string): (r: string)
    ensures |b| > 0 && b[0] == '/' ==> r == b
    ensures (|b| == 0 || b[0] != '/') && a != [] && a[|a| - 1] != '/' ==> r == a + "/" + b
  {
    if |b| > 0 && b[0] == '/' then b
    else if a == [] || a[|a| - 1] == '/' then a + b
    else a + "/" + b
  }

  /** The path the tagged file is moved to. */
  function FinalPath(song: string): string {
    PathJoin(FinishedDir, song + ".mp3")
  }

  /** A song name that is not an absolute path is filed as ./finished/<name>.mp3. */
  lemma FinalPathInFinished(song: string)
    requires song == [] || song[0] != '/'
    ensures FinalPath(song) == "./finished/" + song + ".mp3"
  {
    assert (song + ".mp3")[0] != '/' by {
      if song == [] { assert song + ".mp3" == ".mp3"; }
    }
  }

  /** A song name starting with '/' escapes the finished directory altogether. */
  lemma AbsoluteSongEscapes(song: string)
    requires song != [] && song[0] == '/'
    ensures FinalPath(song) == song + ".mp3"
  {
  }

  /** What download_audio_and_captions returns, with the caption file's existence and content. */
  datatype Download = Download(id: string, title: string, mp3Path: string, captionsPath: string,
                               captionsExist: bool, captions: string)

  /** How process_song can fail after the download. */
  datatype Error =
    | Lookup(cause: LookupError)   // metadata["song"] or metadata["artists"] raised
    | NotText                      // a song or artists value that is not text

  /** The title text of a song value: the string itself, unchanged. */
  function SongText(song: Json): (r: Option<string>)
    ensures r.Some? <==> song.JString?
    ensures song.JString? ==> r == Some(song.s)
  {
    match song
    case JString(s) => Some(s)
    case _ => None
  }

  /** The artist names of an artists value: one string, or a list of strings. */
  function ArtistNames(artists: Json): (r: Option<seq<string>>)
    ensures artists.JString? ==> r == Some([artists.s])
    ensures artists.JArray? ==> (r.Some? <==> forall k :: 0 <= k < |artists.items| ==> artists.items[k].JString?)
    ensures r.Some? && artists.JArray? ==>
              |r.value| == |artists.items| && forall k :: 0 <= k < |r.value| ==> artists.items[k] == JString(r.value[k])
    ensures !artists.JString? && !artists.JArray? ==> r.None?
  {
    match artists
    case JString(s) => Some([s])
    case JArray(items) => Strings(items)
    case _ => None
  }

  function Strings(items: seq<Json>): (r: Option<seq<string>>)
    ensures r.Some? <==> forall k :: 0 <= k < |items| ==> items[k].JString?
    ensures r.Some? ==> |r.value| == |items| && forall k :: 0 <= k < |items| ==> items[k] == JString(r.value[k])
  {
    if items == [] then Some([])
    else
      match (items[0], Strings(items[1..]))
      case (JString(s), Some(rest)) => Some([s] + rest)
      case _ => None
  }

  /** The metadata process_song works with. */
  datatype Song = Song(name: string, artists: Json, artistNames: seq<string>)

  /** safe_json_parse followed by the two lookups. */
  function ResolveSong(parse: Parser, output: string, title: string): Result<Song, Error> {
    match SongAndArtists(SafeJsonParse(parse, output, title))
    case Failure(e) => Failure(Lookup(e))
    case Success((song, artists)) =>
      match (SongText(song), ArtistNames(artists))
      case (Some(name), Some(names)) => Success(Song(name, artists, names))
      case _ => Failure(NotText)
  }

  /** new_entry, with its keys in the order the source writes them. */
  function NewEntry(download: Download, ytUrl: string, coverPath: string, song: Song): Json {
    JObject([
      ("id", JString(download.id)),
      ("yt_url", JString(ytUrl)),
      ("cover_path", JString(coverPath)),
      ("mp3_path", JString(FinalPath(song.name))),
      ("captions_path", JString(download.captionsPath)),
      ("status", JString("done")),
      ("song_name", JString(song.name)),
      ("artists", song.artists)
    ])
  }

  /** The ledger after one call: the old one with the new record at the end, or an error. */
  function Processed(data: seq<Json>, download: Download, ytUrl: string, coverPath: string,
                     parse: Parser, output: string): Result<seq<Json>, Error>
  {
    var song :- ResolveSong(parse, output, download.title);
    Success(data + [NewEntry(download, ytUrl, coverPath, song)])
  }

  /** The loaded ledger, data.json's list of records, held in memory until it is saved. */
  class Ledger {
    var data: seq<Json>

    /** load_json: the stored records if the file exists, otherwise none. */
    constructor Load(fileExists: bool, stored: seq<Json>)
      ensures data == if fileExists then stored else []
    {
      data := if fileExists then stored else [];
    }

    /** data.append(entry) */
    method Append(entry: Json)
      modifies this
      ensures data == old(data) + [entry]
    {
      data := data + [entry];
    }
  }

  /**
   * process_song from the captions on: on success the file is tagged with the
   * selected frames, the ledger gains the new record and the final path is
   * returned; on failure neither the tags nor the ledger change.
   */
  method ProcessSong(ledger: Ledger, tags: Mp3Tags, ytUrl: string, coverPath: string,
                     cover: Option<seq<byte>>, download: Download, parse: Parser, output: string)
    returns (result: Result<string, Error>)
    modifies ledger, tags
    ensures var song := ResolveSong(parse, output, download.title);
            result.Success? <==> song.Success?
    ensures var next := Processed(old(ledger.data), download, ytUrl, coverPath, parse, output);
            ledger.data == if next.Success? then next.value else old(ledger.data)
    ensures var song := ResolveSong(parse, output, download.title);
            song.Success? ==>
              result.value == FinalPath(song.value.name) &&
              tags.frames == Some(Existing(old(tags.frames)) +
                SelectFrames(song.value.name, song.value.artistNames,
                             SyltEntries(download.captionsExist, download.captions),
                             Lyrics(download.captionsExist, download.captions), cover))
    ensures result.Failure? ==> tags.frames == old(tags.frames)
  {
    var entries := SrtToSylt(download.captionsExist, download.captions);
    var lyrics := SrtToPlainLyrics(download.captionsExist, download.captions);
    var resolved := ResolveSong(parse, output, download.title);
    if resolved.Failure? {
      return Failure(resolved.error);
    }
    var song := resolved.value;
    TagMp3(tags, song.name, song.artistNames, entries, lyrics, cover);
    var finalPath := FinalPath(song.name);
    ledger.Append(NewEntry(download, ytUrl, coverPath, song));
    result := Success(finalPath);
  }

  // ---------------------------------------------------------------------------
  // Properties of the ledger update
  // ---------------------------------------------------------------------------

  /** The record's fields, as a reader of data.json finds them. */
  lemma NewEntryFields(download: Download, ytUrl: string, coverPath: string, song: Song)
    ensures var e := NewEntry(download, ytUrl, coverPath, song);
            Subscript(e, "status") == Success(JString("done")) &&
            Subscript(e, "mp3_path") == Success(JString(FinalPath(song.name))) &&
            Subscript(e, "song_name") == Success(JString(song.name)) &&
            Subscript(e, "id") == Success(JString(download.id)) &&
            Subscript(e, "artists") == Success(song.artists)
  {
    var m := NewEntry(download, ytUrl, coverPath, song).members;
    LookupMemberAt(m, "id", 0);
    LookupMemberAt(m, "mp3_path", 3);
    LookupMemberAt(m, "status", 5);
    LookupMemberAt(m, "song_name", 6);
    LookupMemberAt(m, "artists", 7);
  }

  /**
   * A successful run keeps every earlier record and appends exactly one, marked
   * "done" and pointing at ./finished/<song>.mp3 for a song name that is not
   * an absolute path.
   */
  lemma LedgerAppend(data: seq<Json>, download: Download, ytUrl: string, coverPath: string,
                     parse: Parser, output: string)
    requires Processed(data, download, ytUrl, coverPath, parse, output).Success?
    ensures var next := Processed(data, download, ytUrl, coverPath, parse, output).value;
            var song := ResolveSong(parse, output, download.title).value;
            |next| == |data| + 1 && next[..|data|] == data &&
            Subscript(next[|data|], "status") == Success(JString("done")) &&
            Subscript(next[|data|], "mp3_path") == Success(JString(FinalPath(song.name))) &&
            (song.name == [] || song.name[0] != '/' ==>
               FinalPath(song.name) == "./finished/" + song.name + ".mp3")
  {
    var song := ResolveSong(parse, output, download.title).value;
    NewEntryFields(download, ytUrl, coverPath, song);
    if song.name == [] || song.name[0] != '/' {
      FinalPathInFinished(song.name);
    }
  }

  /** The ledger is not deduplicated: processing the same video twice records it twice. */
  lemma NoDeduplication(data: seq<Json>, download: Download, ytUrl: string, coverPath: string,
                        parse: Parser, output: string)
    requires Processed(data, download, ytUrl, coverPath, parse, output).Success?
    ensures var once := Processed(data, download, ytUrl, coverPath, parse, output).value;
            var twice := Processed(once, download, ytUrl, coverPath, parse, output);
            twice.Success? && |twice.value| == |data| + 2 && twice.value[|data|] == twice.value[|data| + 1]
  {
  }

  /** A ledger without the file starts empty, so the first song makes it a single record. */
  lemma FirstSong(download: Download, ytUrl: string, coverPath: string, parse: Parser, output: string)
    requires ResolveSong(parse, output, download.title).Success?
    ensures Processed([], download, ytUrl, coverPath, parse, output) ==
            Success([NewEntry(download, ytUrl, coverPath, ResolveSong(parse, output, download.title).value)])
  {
    var e := NewEntry(download, ytUrl, coverPath, ResolveSong(parse, output, download.title).value);
    assert [] + [e] == [e];
  }

  /**
   * When the reply is unusable the video title becomes the song name, so an
   * empty title gives an empty song name and the file ./finished/.mp3.
   */
  lemma FallbackSong(parse: Parser, output: string, title: string)
    requires parse(output).None? && '{' !in output
    ensures ResolveSong(parse, output, title) == Success(Song(title, JArray([JString("Unknown")]), ["Unknown"]))
    ensures title == "" ==> FinalPath(title) == "./finished/.mp3"
  {
    NoOpeningBrace(output);
    FallbackFields(title);
    assert [JString("Unknown")][1..] == [];
    assert ["Unknown"] + [] == ["Unknown"];
    assert ArtistNames(JArray([JString("Unknown")])) == Some(["Unknown"]);
    if title == "" {
      FinalPathInFinished(title);
    }
  }

  /**
   * When the parsed reply is an object whose `song` is the string `name`, that
   * string is the song name exactly; the run goes on iff the artists are
   * present and are text, and then they are carried over as they are.
   */
  lemma ParsedSong(parse: Parser, output: string, title: string, name: string)
    requires SafeJsonParse(parse, output, title).JObject?
    requires LookupMember(SafeJsonParse(parse, output, title).members, "song") == Some(JString(name))
    ensures var artists := LookupMember(SafeJsonParse(parse, output, title).members, "artists");
            ResolveSong(parse, output, title).Success? <==> artists.Some? && ArtistNames(artists.value).Some?
    ensures var artists := LookupMember(SafeJsonParse(parse, output, title).members, "artists");
            ResolveSong(parse, output, title).Success? ==>
              ResolveSong(parse, output, title).value == Song(name, artists.value, ArtistNames(artists.value).value)
  {
    SongAndArtistsCases(SafeJsonParse(parse, output, title));
  }

  /** A direct parse that is not an object makes process_song fail before anything is tagged or recorded. */
  lemma NonObjectReply(data: seq<Json>, download: Download, ytUrl: string, coverPath: string,
                       parse: Parser, output: string)
    requires parse(output).Some? && !parse(output).value.JObject?
    ensures Processed(data, download, ytUrl, coverPath, parse, output) == Failure(Lookup(NotSubscriptable))
  {
  }
}
