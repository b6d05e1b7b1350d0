/**
 * srt_to_plain_lyrics: the unsynchronized lyrics of an SRT document, a
 * separate line-by-line pass over the same content that keeps every
 * non-blank line that is neither a numeric index nor a timing line.
 */
module PlainLyrics {
  import opened Wrappers
  import opened Text
  import opened Sequences

  /**
   * The lines Python's iteration over a text file yields: each line keeps its
   * terminating '\n'; only the last one may lack it, and no line is empty.
   */
  function FileLines(content: string): (lines: seq<string>)
    decreases |content|
  {
    if content == [] then []
    else
      match IndexOf(content, "\n")
      case None => [content]
      case Some(i) => [content[..i + 1]] + FileLines(content[i + 1..])
  }

  /** A line of a file: non-empty, with a '\n' at most at its end. */
  predicate IsFileLine(line: string) {
    line != [] && '\n' !in line[..|line| - 1]
  }

  /** A line closed by its newline. */
  predicate EndsWithNewline(line: string) {
    line != [] && line[|line| - 1] == '\n'
  }

  /**
   * Concatenating the lines of a file gives back its content, each is a file
   * line, and every line but the last ends with its newline.
   */
  lemma {:induction false} FileLinesSound(content: string)
    ensures Flatten(FileLines(content)) == content
    ensures forall k :: 0 <= k < |FileLines(content)| ==> IsFileLine(FileLines(content)[k])
    ensures forall k :: 0 <= k < |FileLines(content)| - 1 ==> EndsWithNewline(FileLines(content)[k])
    decreases |content|
  {
    if content != [] {
      match IndexOf(content, "\n")
      case None =>
        LastFileLine(content);
        assert Flatten([content]) == content + Flatten([]);
      case Some(i) =>
        var head, rest := content[..i + 1], content[i + 1..];
        FirstFileLine(content, i);
        FileLinesSound(rest);
        var lines := FileLines(content);
        assert lines == [head] + FileLines(rest);
        forall k | 0 <= k < |lines| ensures IsFileLine(lines[k]) {
          if k > 0 { assert lines[k] == FileLines(rest)[k - 1]; }
        }
        forall k | 0 <= k < |lines| - 1 ensures EndsWithNewline(lines[k]) {
          if k > 0 { assert lines[k] == FileLines(rest)[k - 1]; }
        }
    }
  }

  /** The text after the last newline is a line of its own. */
  lemma LastFileLine(content: string)
    requires content != [] && IndexOf(content, "\n").None?
    ensures IsFileLine(content)
  {
    IndexOfFirst(content, "\n");
    forall j | 0 <= j < |content| ensures content[j] != '\n' {
      OccursAtChar(content, '\n', j);
    }
  }

  /**
   * The text up to and including the first newline is a line ending with that
   * newline, and the rest follows it.
   */
  lemma FirstFileLine(content: string, i: nat)
    requires IndexOf(content, "\n") == Some(i)
    ensures IsFileLine(content[..i + 1]) && EndsWithNewline(content[..i + 1])
    ensures content == content[..i + 1] + content[i + 1..]
  {
    var head := content[..i + 1];
    IndexOfFirst(content, "\n");
    OccursAtChar(content, '\n', i);
    forall j | 0 <= j < i ensures head[j] != '\n' {
      OccursAtChar(content, '\n', j);
    }
    assert head[..|head| - 1] == content[..i];
  }

  function Flatten(lines: seq<string>): string {
    if lines == [] then [] else lines[0] + Flatten(lines[1..])
  }

  /** The arrow that marks a timing line. */
  const Arrow: string := "-->"

  /**
   * What one line contributes: nothing when its trimmed form is all digits,
   * when it contains the arrow anywhere, or when it is blank; otherwise its
   * trimmed form.
   */
  function KeptLine(line: string): Option<string> {
    var trimmed := Strip(line);
    if AllDigits(trimmed) || Contains(line, Arrow) then None
    else if trimmed != [] then Some(trimmed)
    else None
  }

  /** The kept lines, in order. */
  function KeptLines(lines: seq<string>): seq<string> {
    FilterMap(lines, KeptLine)
  }

  /** The value srt_to_plain_lyrics returns. */
  function Lyrics(fileExists: bool, content: string): string {
    if fileExists then Join(KeptLines(FileLines(content)), "\n") else ""
  }

  /**
   * The loop of srt_to_plain_lyrics: one pass over the file's lines that skips
   * an index line (all digits once trimmed) and a timing line (one containing
   * the arrow), and collects the trimmed survivors that are not blank.
   */
  method CollectLines(lines: seq<string>) returns (kept: seq<string>)
    ensures kept == KeptLines(lines)
  {
    kept := [];
    var i := 0;
    while i < |lines|
      invariant 0 <= i <= |lines|
      invariant kept == KeptLines(lines[..i])
    {
      assert KeptLines(lines[..i + 1]) == kept + if KeptLine(lines[i]).Some? then [KeptLine(lines[i]).value] else [] by {
        assert lines[..i + 1] == lines[..i] + [lines[i]];
        KeptLinesConcat(lines[..i], [lines[i]]);
        FilterMapSingle(lines[i], KeptLine);
      }
      var trimmed := Strip(lines[i]);
      if !AllDigits(trimmed) && !Contains(lines[i], Arrow) && trimmed != [] {
        kept := kept + [trimmed];
      }
      i := i + 1;
    }
    assert lines[..i] == lines;
  }

  /** srt_to_plain_lyrics: "" without the file; otherwise the kept lines joined with newlines. */
  method SrtToPlainLyrics(fileExists: bool, content: string) returns (lyrics: string)
    ensures lyrics == Lyrics(fileExists, content)
    ensures !fileExists ==> lyrics == ""
  {
    if !fileExists {
      return "";
    }
    var kept := CollectLines(FileLines(content));
    lyrics := Join(kept, "\n");
  }

  // ---------------------------------------------------------------------------
  // Properties of the specification
  // ---------------------------------------------------------------------------

  /** What a kept line looks like: non-blank, trimmed, not all digits, without the arrow. */
  predicate LyricLine(s: string) {
    s != [] && !IsSpace(s[0]) && !IsSpace(s[|s| - 1]) && !AllDigits(s) && !Contains(s, Arrow)
  }

  /** A substring of a line without the arrow has no arrow either. */
  lemma ArrowInSlice(s: string, t: string, i: nat)
    requires i + |t| <= |s| && t == s[i..i + |t|]
    requires !Contains(s, Arrow)
    ensures !Contains(t, Arrow)
  {
    IndexOfFirst(s, Arrow);
    forall j: nat | j + |Arrow| <= |t| ensures !OccursAt(t, Arrow, j) {
      SliceOfSlice(s, i, |t|, j, |Arrow|);
      assert !OccursAt(s, Arrow, i + j);
    }
    IndexOfFirst(t, Arrow);
  }

  /** Each kept line is a lyric line; its source line, as read, has a '\n' only at its end. */
  lemma KeptLineShape(line: string)
    requires KeptLine(line).Some?
    ensures LyricLine(KeptLine(line).value)
    ensures IsFileLine(line) ==> '\n' !in KeptLine(line).value
  {
    var i := StripSlice(line);
    KeptLineFilter(line);
    KeptLineLyric(line, i);
    if IsFileLine(line) {
      KeptLineSingle(line, i);
    }
  }

  /** A line is kept iff its trimmed form is non-blank and not all digits and the line has no arrow; what is kept is that trimmed form. */
  lemma KeptLineFilter(line: string)
    ensures KeptLine(line).Some? <==> Strip(line) != [] && !AllDigits(Strip(line)) && !Contains(line, Arrow)
    ensures KeptLine(line).Some? ==> KeptLine(line).value == Strip(line)
  {
  }

  lemma KeptLineLyric(line: string, i: nat)
    requires Strip(line) != [] && !AllDigits(Strip(line)) && !Contains(line, Arrow)
    requires i + |Strip(line)| <= |line| && Strip(line) == line[i..i + |Strip(line)|]
    ensures LyricLine(Strip(line))
  {
    ArrowInSlice(line, Strip(line), i);
  }

  lemma KeptLineSingle(line: string, i: nat)
    requires IsFileLine(line)
    requires i + |Strip(line)| <= |line| && Strip(line) == line[i..i + |Strip(line)|]
    requires Strip(line) != [] ==> !IsSpace(Strip(line)[|Strip(line)| - 1])
    ensures '\n' !in Strip(line)
  {
    var t := Strip(line);
    forall k | 0 <= k < |t| ensures t[k] != '\n' {
      assert t[k] == line[i + k];
      if i + k < |line| - 1 {
        assert line[i + k] == line[..|line| - 1][i + k];
      } else {
        assert k == |t| - 1;
      }
    }
  }

  /** The lines kept from `a + b` are those kept from `a`, then those kept from `b`: the original order is preserved. */
  lemma KeptLinesConcat(a: seq<string>, b: seq<string>)
    ensures KeptLines(a + b) == KeptLines(a) + KeptLines(b)
  {
    FilterMapConcat(a, b, KeptLine);
  }

  /** A string is kept iff it is the trimmed form of a line that is not an index, a timing line or blank. */
  lemma KeptLinesMembership(lines: seq<string>, s: string)
    ensures s in KeptLines(lines) <==> exists i :: 0 <= i < |lines| && KeptLine(lines[i]) == Some(s)
  {
    FilterMapMembership(lines, KeptLine, s);
  }

  /** Every kept line of a file is a single lyric line. */
  lemma KeptLinesShape(content: string)
    ensures forall k :: 0 <= k < |KeptLines(FileLines(content))| ==>
              LyricLine(KeptLines(FileLines(content))[k]) && '\n' !in KeptLines(FileLines(content))[k]
  {
    var lines := FileLines(content);
    FileLinesSound(content);
    forall k | 0 <= k < |KeptLines(lines)|
      ensures LyricLine(KeptLines(lines)[k]) && '\n' !in KeptLines(lines)[k]
    {
      var s := KeptLines(lines)[k];
      KeptLinesMembership(lines, s);
      var i :| 0 <= i < |lines| && KeptLine(lines[i]) == Some(s);
      KeptLineShape(lines[i]);
    }
  }

  /**
   * The lyrics are exactly the kept lines joined by newlines: they are empty
   * iff nothing is kept, and otherwise splitting them on newlines gives back
   * the kept lines, so no line of the lyrics is blank or has the arrow.
   */
  lemma LyricsLines(content: string)
    ensures Lyrics(true, content) == "" <==> KeptLines(FileLines(content)) == []
    ensures KeptLines(FileLines(content)) != [] ==>
              Split(Lyrics(true, content), "\n") == KeptLines(FileLines(content))
  {
    var kept := KeptLines(FileLines(content));
    KeptLinesShape(content);
    if kept != [] {
      SplitJoin(kept, '\n');
      JoinFirstNonEmpty(kept, "\n");
    }
  }

  lemma JoinFirstNonEmpty(parts: seq<string>, sep: string)
    requires |parts| >= 1 && parts[0] != []
    ensures Join(parts, sep) != []
  {
  }
}
