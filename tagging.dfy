/**
 * tag_mp3_with_sylt: which ID3v2.4 frames are built and with what fields.
 * TIT2 and TPE1 text frames (section 4.2 of the ID3v2.4.0 frames document)
 * always; USLT unsynchronised lyrics (section 4.8) when there are plain
 * lyrics; SYLT synchronised lyrics (section 4.9) when there are entries; and
 * APIC attached picture (section 4.14) when the cover file exists.
 */
module Tagging {
  import opened Wrappers
  import opened Captions

  type byte = x: int | 0 <= x < 256

  /** Text encoding 3: UTF-8. */
  const Utf8: nat := 3
  /** SYLT time stamp format 2: absolute time in milliseconds. */
  const MillisecondStamps: nat := 2
  /** SYLT content type 1: lyrics. */
  const LyricsContent: nat := 1
  /** APIC picture type 3: front cover. */
  const FrontCover: nat := 3

  datatype Frame =
    | TIT2(encoding: nat, title: string)
    | TPE1(encoding: nat, artists: seq<string>)
    | USLT(encoding: nat, lang: string, lyrics: string)
    | SYLT(encoding: nat, lang: string, format: nat, contentType: nat, desc: string, entries: seq<SyltEntry>)
    | APIC(encoding: nat, mime: string, pictureType: nat, desc: string, data: seq<byte>)

  /** The USLT frame, when there are plain lyrics. */
  function UnsyncedFrames(lyrics: string): seq<Frame> {
    if lyrics != "" then [USLT(Utf8, "eng", lyrics)] else []
  }

  /** The SYLT frame, when there are entries. */
  function SyncedFrames(entries: seq<SyltEntry>): seq<Frame> {
    if entries != [] then [SYLT(Utf8, "eng", MillisecondStamps, LyricsContent, "Lyrics", entries)] else []
  }

  /** The APIC frame, when the cover exists. */
  function CoverFrames(cover: Option<seq<byte>>): seq<Frame> {
    match cover
    case Some(data) => [APIC(Utf8, "image/jpeg", FrontCover, "Cover", data)]
    case None => []
  }

  /**
   * The frames tag_mp3_with_sylt adds, in the order it adds them. `cover` is
   * the cover file's bytes, or None when the file does not exist.
   */
  function SelectFrames(title: string, artists: seq<string>, entries: seq<SyltEntry>, lyrics: string,
                        cover: Option<seq<byte>>): seq<Frame>
  {
    [TIT2(Utf8, title), TPE1(Utf8, artists)] + UnsyncedFrames(lyrics) + SyncedFrames(entries) + CoverFrames(cover)
  }

  /**
   * The selection: a TIT2 with the title and a TPE1 with the artists, first and
   * in that order; a USLT with language "eng" iff the plain lyrics are
   * non-empty; a SYLT in milliseconds, of lyrics, described "Lyrics", iff
   * there are entries; a JPEG front cover described "Cover" iff the cover
   * exists; nothing else, so no frame twice; and every frame in UTF-8.
   */
  lemma SelectFramesSpec(title: string, artists: seq<string>, entries: seq<SyltEntry>, lyrics: string,
                         cover: Option<seq<byte>>)
    ensures var frames := SelectFrames(title, artists, entries, lyrics, cover);
            |frames| == 2 + (if lyrics != "" then 1 else 0) + (if entries != [] then 1 else 0) +
                        (if cover.Some? then 1 else 0) &&
            frames[0] == TIT2(Utf8, title) && frames[1] == TPE1(Utf8, artists)
    ensures var frames := SelectFrames(title, artists, entries, lyrics, cover);
            (USLT(Utf8, "eng", lyrics) in frames <==> lyrics != "") &&
            (SYLT(Utf8, "eng", MillisecondStamps, LyricsContent, "Lyrics", entries) in frames <==> entries != []) &&
            (cover.Some? <==> exists k :: 0 <= k < |frames| && frames[k].APIC?) &&
            (cover.Some? ==> APIC(Utf8, "image/jpeg", FrontCover, "Cover", cover.value) in frames)
    ensures var frames := SelectFrames(title, artists, entries, lyrics, cover);
            forall k :: 0 <= k < |frames| ==>
              frames[k].encoding == Utf8 &&
              (frames[k].USLT? ==> frames[k] == USLT(Utf8, "eng", lyrics)) &&
              (frames[k].SYLT? ==> frames[k] == SYLT(Utf8, "eng", MillisecondStamps, LyricsContent, "Lyrics", entries)) &&
              (frames[k].APIC? ==> cover.Some? && frames[k] == APIC(Utf8, "image/jpeg", FrontCover, "Cover", cover.value))
  {
    var frames := SelectFrames(title, artists, entries, lyrics, cover);
    var base := [TIT2(Utf8, title), TPE1(Utf8, artists)];
    var u, y, p := UnsyncedFrames(lyrics), SyncedFrames(entries), CoverFrames(cover);
    assert frames == base + u + y + p;
    forall k | 0 <= k < |frames|
      ensures frames[k] in base || frames[k] in u || frames[k] in y || frames[k] in p
    {
      assert frames[k] in frames;
    }
    if cover.Some? {
      assert frames[|frames| - 1].APIC?;
    }
  }

  /** A bare run of text frames: no lyrics, no entries and no cover give TIT2 and TPE1 only. */
  lemma TitleAndArtistOnly(title: string, artists: seq<string>)
    ensures SelectFrames(title, artists, [], "", None) == [TIT2(Utf8, title), TPE1(Utf8, artists)]
  {
  }

  /**
   * The tags of one MP3 file. `frames` is None while the file has no ID3 tag;
   * otherwise it lists the frames handed to the tag, in order.
   */
  class Mp3Tags {
    var frames: Option<seq<Frame>>

    constructor (existing: Option<seq<Frame>>)
      ensures frames == existing
    {
      frames := existing;
    }

    /** audio.add_tags(): give a file without a tag an empty one. */
    method AddTags()
      requires frames.None?
      modifies this
      ensures frames == Some([])
    {
      frames := Some([]);
    }

    /** audio.tags.add(frame) */
    method Add(frame: Frame)
      requires frames.Some?
      modifies this
      ensures frames == Some(old(frames).value + [frame])
    {
      frames := Some(frames.value + [frame]);
    }
  }

  /** The frames a tag holds: none when there is no tag. */
  function Existing(frames: Option<seq<Frame>>): seq<Frame> {
    match frames
    case Some(fs) => fs
    case None => []
  }

  /**
   * tag_mp3_with_sylt: create the tag if the file has none, then add the
   * selected frames one after the other.
   */
  method TagMp3(tags: Mp3Tags, title: string, artists: seq<string>, entries: seq<SyltEntry>, lyrics: string,
                cover: Option<seq<byte>>)
    modifies tags
    ensures tags.frames == Some(Existing(old(tags.frames)) + SelectFrames(title, artists, entries, lyrics, cover))
  {
    if tags.frames.None? {
      tags.AddTags();
    }
    ghost var before := tags.frames.value;
    ghost var added: seq<Frame> := [];
    tags.Add(TIT2(Utf8, title));
    added := added + [TIT2(Utf8, title)];
    tags.Add(TPE1(Utf8, artists));
    added := added + [TPE1(Utf8, artists)];
    assert tags.frames.value == before + added;
    if lyrics != "" {
      tags.Add(USLT(Utf8, "eng", lyrics));
      added := added + [USLT(Utf8, "eng", lyrics)];
      assert tags.frames.value == before + added;
    }
    assert added == [TIT2(Utf8, title), TPE1(Utf8, artists)] + UnsyncedFrames(lyrics);
    if entries != [] {
      tags.Add(SYLT(Utf8, "eng", MillisecondStamps, LyricsContent, "Lyrics", entries));
      added := added + [SYLT(Utf8, "eng", MillisecondStamps, LyricsContent, "Lyrics", entries)];
      assert tags.frames.value == before + added;
    }
    assert added == [TIT2(Utf8, title), TPE1(Utf8, artists)] + UnsyncedFrames(lyrics) + SyncedFrames(entries);
    if cover.Some? {
      tags.Add(APIC(Utf8, "image/jpeg", FrontCover, "Cover", cover.value));
      added := added + [APIC(Utf8, "image/jpeg", FrontCover, "Cover", cover.value)];
      assert tags.frames.value == before + added;
    }
    assert added == SelectFrames(title, artists, entries, lyrics, cover);
    assert tags.frames.value == before + added;
  }
}
