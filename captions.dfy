/**
 * srt_to_sylt: the synchronized-lyric entries of an SRT subtitle document.
 * The document is given by its already-read content and a flag saying whether
 * the caption file exists.
 */
module Captions {
  import opened Wrappers
  import opened Text
  import opened Sequences

  /** One synchronized-lyric entry: the start offset in milliseconds and its text. */
  datatype SyltEntry = SyltEntry(offset: nat, text: string)

  /** The four digit groups of one `H:M:S,ms` timestamp, as written. */
  datatype Timestamp = Timestamp(hours: string, minutes: string, seconds: string, millis: string)

  /** What the timing pattern captured at the start of a line, and what followed the match. */
  datatype TimingLine = TimingLine(start: Timestamp, end: Timestamp, rest: string)

  predicate WellFormed(t: Timestamp) {
    AllDigits(t.hours) && AllDigits(t.minutes) && AllDigits(t.seconds) && AllDigits(t.millis)
  }

  const TimingArrow: string := " --> "

  /** `\d+` at the start of `s`: the maximal run of digits and what follows it. */
  function Number(s: string): (r: Option<(string, string)>)
    ensures r.Some? ==> AllDigits(r.value.0) && s == r.value.0 + r.value.1
    ensures r.Some? ==> r.value.1 == [] || !IsDigit(r.value.1[0])
  {
    var n := DigitRun(s);
    if n == 0 then None
    else
      DigitRunMaximal(s);
      assert s == s[..n] + s[n..];
      Some((s[..n], s[n..]))
  }

  /** A literal at the start of `s`, and what follows it. */
  function Literal(lit: string, s: string): (r: Option<string>)
    ensures r.Some? ==> s == lit + r.value
  {
    if |lit| <= |s| && s[..|lit|] == lit then
      assert s == s[..|lit|] + s[|lit|..];
      Some(s[|lit|..])
    else None
  }

  /** The text `H:M:S,ms` that a timestamp's digit groups spell, followed by `rest`. */
  function Spelled(t: Timestamp, rest: string): string {
    t.hours + (":" + (t.minutes + (":" + (t.seconds + ("," + (t.millis + rest))))))
  }

  /** A timing line: `H:M:S,ms --> H:M:S,ms` followed by `rest`. */
  function TimingText(start: Timestamp, end: Timestamp, rest: string): string {
    Spelled(start, TimingArrow + Spelled(end, rest))
  }

  /** `(\d+):(\d+):(\d+),(\d+)` at the start of `s`. */
  function ParseTimestamp(s: string): Option<(Timestamp, string)> {
    var h :- Number(s);
    var a :- Literal(":", h.1);
    var m :- Number(a);
    var b :- Literal(":", m.1);
    var sec :- Number(b);
    var c :- Literal(",", sec.1);
    var ms :- Number(c);
    Some((Timestamp(h.0, m.0, sec.0, ms.0), ms.1))
  }

  /** A parsed timestamp is well formed and spells the text it was read from. */
  lemma ParseTimestampSound(s: string)
    requires ParseTimestamp(s).Some?
    ensures WellFormed(ParseTimestamp(s).value.0)
    ensures s == Spelled(ParseTimestamp(s).value.0, ParseTimestamp(s).value.1)
    ensures ParseTimestamp(s).value.1 == [] || !IsDigit(ParseTimestamp(s).value.1[0])
  {
    var h := Number(s).value;
    var a := Literal(":", h.1).value;
    var m := Number(a).value;
    var b := Literal(":", m.1).value;
    var sec := Number(b).value;
    var c := Literal(",", sec.1).value;
    var ms := Number(c).value;
    assert ParseTimestamp(s) == Some((Timestamp(h.0, m.0, sec.0, ms.0), ms.1));
    assert c == ms.0 + ms.1;
    assert b == sec.0 + ("," + c);
    assert a == m.0 + (":" + b);
    assert s == h.0 + (":" + a);
  }

  /**
   * re.match of `(\d+):(\d+):(\d+),(\d+) --> (\d+):(\d+):(\d+),(\d+)`: the
   * pattern must match at the start of the line but need not reach its end.
   * A match spells both timestamps and the arrow, and the last digit group is
   * maximal.
   */
  function MatchTiming(line: string): Option<TimingLine> {
    var start :- ParseTimestamp(line);
    var afterArrow :- Literal(TimingArrow, start.1);
    var end :- ParseTimestamp(afterArrow);
    Some(TimingLine(start.0, end.0, end.1))
  }

  /**
   * Soundness of the timing match: a match spells both timestamps around the
   * arrow at the start of the line, and its last digit group is maximal.
   */
  lemma MatchTimingSound(line: string)
    requires MatchTiming(line).Some?
    ensures WellFormed(MatchTiming(line).value.start) && WellFormed(MatchTiming(line).value.end)
    ensures line == TimingText(MatchTiming(line).value.start, MatchTiming(line).value.end, MatchTiming(line).value.rest)
    ensures MatchTiming(line).value.rest == [] || !IsDigit(MatchTiming(line).value.rest[0])
  {
    ParseTimestampSound(line);
    var start := ParseTimestamp(line).value;
    var afterArrow := Literal(TimingArrow, start.1).value;
    ParseTimestampSound(afterArrow);
  }

  /** The offset of a timestamp: h*3600000 + m*60000 + s*1000 + ms. */
  function Milliseconds(t: Timestamp): nat {
    DecimalValue(t.hours) * 3600000 + DecimalValue(t.minutes) * 60000 +
    DecimalValue(t.seconds) * 1000 + DecimalValue(t.millis)
  }

  /**
   * The conversion weighs each field by its unit; fields are not range-checked,
   * so 75 minutes count as 4500 seconds.
   */
  lemma MillisecondsExample()
    ensures Milliseconds(Timestamp("1", "2", "3", "4")) == 3723004
    ensures Milliseconds(Timestamp("0", "75", "0", "0")) == 4500000
  {
    assert DecimalValue("1") == 1 by { assert "1"[..0] == []; }
    assert DecimalValue("2") == 2 by { assert "2"[..0] == []; }
    assert DecimalValue("3") == 3 by { assert "3"[..0] == []; }
    assert DecimalValue("4") == 4 by { assert "4"[..0] == []; }
    assert DecimalValue("0") == 0 by { assert "0"[..0] == []; }
    assert DecimalValue("75") == 75 by {
      assert "75"[..1] == "7";
      assert "7"[..0] == [];
    }
  }

  /** Neither starts nor ends with whitespace. */
  predicate Trimmed(s: string) {
    s != [] ==> !IsSpace(s[0]) && !IsSpace(s[|s| - 1])
  }

  /** What every produced entry's text satisfies: non-blank, trimmed, a single line. */
  predicate CleanText(text: string) {
    text != [] && Trimmed(text) && '\n' !in text
  }

  /**
   * The entry one block yields, if any: it needs at least two lines, a second
   * line that starts with the timing pattern, and some text on the lines after it.
   */
  function BlockEntry(block: string): Option<SyltEntry> {
    EntryOfLines(Split(Strip(block), "\n"))
  }

  /** The entry of a block given as its lines. */
  function EntryOfLines(lines: seq<string>): Option<SyltEntry> {
    if |lines| < 2 then None
    else
      match MatchTiming(lines[1])
      case None => None
      case Some(timing) =>
        var text := Strip(Join(lines[2..], " "));
        if text == "" then None
        else Some(SyltEntry(Milliseconds(timing.start), text))
  }

  /** Every text a block yields is non-blank, trimmed and a single line. */
  lemma BlockEntryClean(block: string)
    requires BlockEntry(block).Some?
    ensures CleanText(BlockEntry(block).value.text)
  {
    var lines := Split(Strip(block), "\n");
    forall k | 0 <= k < |lines| ensures '\n' !in lines[k] {
      SplitPiecesAvoid(Strip(block), '\n', k);
    }
    EntryOfLinesClean(lines);
  }

  lemma EntryOfLinesClean(lines: seq<string>)
    requires EntryOfLines(lines).Some?
    requires forall k :: 0 <= k < |lines| ==> '\n' !in lines[k]
    ensures CleanText(EntryOfLines(lines).value.text)
  {
    var textLines := lines[2..];
    assert forall k :: 0 <= k < |textLines| ==> textLines[k] == lines[k + 2];
    JoinKeepsOut(textLines, " ", '\n');
    StripKeepsChars(Join(textLines, " "), '\n');
  }

  /** The entries of a sequence of blocks, in block order. */
  function Entries(blocks: seq<string>): seq<SyltEntry> {
    FilterMap(blocks, BlockEntry)
  }

  /** The blocks of a document: its trimmed content split on blank lines. */
  function Blocks(content: string): seq<string> {
    Split(Strip(content), "\n\n")
  }

  /** The value srt_to_sylt returns. */
  function SyltEntries(fileExists: bool, content: string): seq<SyltEntry> {
    if fileExists then Entries(Blocks(content)) else []
  }

  /**
   * The loop of srt_to_sylt: one pass over the blocks, in order. Each block is
   * trimmed and split into lines; it is skipped unless it has two lines and a
   * second line that starts with the timing pattern; its start timestamp is
   * converted, and the entry is appended when the joined text is not blank.
   */
  method CollectEntries(blocks: seq<string>) returns (entries: seq<SyltEntry>)
    ensures entries == Entries(blocks)
  {
    entries := [];
    var i := 0;
    while i < |blocks|
      invariant 0 <= i <= |blocks|
      invariant entries == Entries(blocks[..i])
    {
      assert Entries(blocks[..i + 1]) == entries + if BlockEntry(blocks[i]).Some? then [BlockEntry(blocks[i]).value] else [] by {
        assert blocks[..i + 1] == blocks[..i] + [blocks[i]];
        EntriesConcat(blocks[..i], [blocks[i]]);
        EntriesSingle(blocks[i]);
      }
      var lines := Split(Strip(blocks[i]), "\n");
      assert BlockEntry(blocks[i]) == EntryOfLines(lines);
      if |lines| >= 2 {
        var matched := MatchTiming(lines[1]);
        if matched.Some? {
          var startMs := Milliseconds(matched.value.start);
          var text := Strip(Join(lines[2..], " "));
          if text != "" {
            assert BlockEntry(blocks[i]) == Some(SyltEntry(startMs, text));
            entries := entries + [SyltEntry(startMs, text)];
          } else {
            assert BlockEntry(blocks[i]) == None;
          }
        } else {
          assert BlockEntry(blocks[i]) == None;
        }
      } else {
        assert BlockEntry(blocks[i]) == None;
      }
      i := i + 1;
    }
    assert blocks[..i] == blocks;
  }

  /** srt_to_sylt: no entries without the file; otherwise the entries of its blocks. */
  method SrtToSylt(fileExists: bool, content: string) returns (entries: seq<SyltEntry>)
    ensures entries == SyltEntries(fileExists, content)
    ensures !fileExists ==> entries == []
  {
    if !fileExists {
      return [];
    }
    var blocks := Blocks(content);
    entries := CollectEntries(blocks);
  }

  // ---------------------------------------------------------------------------
  // Properties of the specification
  // ---------------------------------------------------------------------------

  /** Entries are produced block by block, in block order: the entries of `a + b` are those of `a`, then those of `b`. */
  lemma EntriesConcat(a: seq<string>, b: seq<string>)
    ensures Entries(a + b) == Entries(a) + Entries(b)
  {
    FilterMapConcat(a, b, BlockEntry);
  }

  /** A single block contributes exactly its own entry, or nothing. */
  lemma EntriesSingle(block: string)
    ensures Entries([block]) == if BlockEntry(block).Some? then [BlockEntry(block).value] else []
  {
    FilterMapSingle(block, BlockEntry);
  }

  /** An entry is produced iff some block yields it. */
  lemma EntriesMembership(blocks: seq<string>, e: SyltEntry)
    ensures e in Entries(blocks) <==> exists i :: 0 <= i < |blocks| && BlockEntry(blocks[i]) == Some(e)
  {
    FilterMapMembership(blocks, BlockEntry, e);
  }

  /** No entry has blank text: every text is non-empty, trimmed and a single line. */
  lemma EntriesClean(blocks: seq<string>)
    ensures forall k :: 0 <= k < |Entries(blocks)| ==> CleanText(Entries(blocks)[k].text)
  {
    forall k | 0 <= k < |Entries(blocks)| ensures CleanText(Entries(blocks)[k].text) {
      var e := Entries(blocks)[k];
      EntriesMembership(blocks, e);
      var i :| 0 <= i < |blocks| && BlockEntry(blocks[i]) == Some(e);
      BlockEntryClean(blocks[i]);
    }
  }

  /** The cleanliness of entry texts carries over to whole documents. */
  lemma SyltEntriesClean(fileExists: bool, content: string)
    ensures forall k :: 0 <= k < |SyltEntries(fileExists, content)| ==> CleanText(SyltEntries(fileExists, content)[k].text)
  {
    if fileExists {
      EntriesClean(Blocks(content));
    }
  }

  /**
   * Any accepted block: its second line starts with two well-formed timestamps
   * around the arrow, and the entry's offset is the start timestamp's value in
   * milliseconds, whatever the end timestamp and the rest of the line say; its
   * text is the trimmed, space-joined lines after the timing line.
   */
  lemma BlockOffset(block: string)
    requires BlockEntry(block).Some?
    ensures var lines := Split(Strip(block), "\n");
            |lines| >= 2 &&
            BlockEntry(block).value.text == Strip(Join(lines[2..], " ")) &&
            exists t1, t2, rest :: WellFormed(t1) && WellFormed(t2) && lines[1] == TimingText(t1, t2, rest) &&
                                   BlockEntry(block).value.offset == Milliseconds(t1)
  {
    var lines := Split(Strip(block), "\n");
    MatchTimingSound(lines[1]);
    var timing := MatchTiming(lines[1]).value;
    assert lines[1] == TimingText(timing.start, timing.end, timing.rest);
  }

  /**
   * The converse of BlockOffset: a block of at least two lines whose second
   * line starts with a well-formed timing pattern and whose later lines hold
   * some text yields the entry of the start timestamp and that text.
   */
  lemma BlockAccepted(block: string, t1: Timestamp, t2: Timestamp, rest: string)
    requires var lines := Split(Strip(block), "\n");
             |lines| >= 2 && WellFormed(t1) && WellFormed(t2) &&
             lines[1] == TimingText(t1, t2, rest) && Strip(Join(lines[2..], " ")) != ""
    ensures var lines := Split(Strip(block), "\n");
            BlockEntry(block) == Some(SyltEntry(Milliseconds(t1), Strip(Join(lines[2..], " "))))
  {
    MatchTimingOf(t1, t2, rest);
  }

  /** A spelled timestamp adds no line break to what follows it. */
  lemma SpelledSingleLine(t: Timestamp, rest: string)
    requires WellFormed(t) && '\n' !in rest
    ensures '\n' !in Spelled(t, rest)
  {
    assert !IsDigit('\n');
  }

  /** The number parser reads exactly a digit string, plus any digits that follow it. */
  lemma NumberOf(d: string, rest: string)
    requires AllDigits(d)
    ensures Number(d + rest) == Some((d + rest[..DigitRun(rest)], rest[DigitRun(rest)..]))
  {
    DigitRunOf(d, rest);
    ConcatSlices(d, rest, DigitRun(rest));
  }

  /** A number followed by a non-digit is read exactly. */
  lemma NumberBefore(d: string, c: char, rest: string)
    requires AllDigits(d) && !IsDigit(c)
    ensures Number(d + ([c] + rest)) == Some((d, [c] + rest))
  {
    NumberOf(d, [c] + rest);
    assert DigitRun([c] + rest) == 0;
    assert d + ([c] + rest)[..0] == d;
  }

  lemma LiteralOf(lit: string, rest: string)
    ensures Literal(lit, lit + rest) == Some(rest)
  {
    assert (lit + rest)[..|lit|] == lit;
    assert (lit + rest)[|lit|..] == rest;
  }

  /**
   * A well-formed timestamp followed by anything is parsed back to itself,
   * except that digits directly after it extend the millisecond group.
   */
  lemma ParseSpelled(t: Timestamp, rest: string)
    requires WellFormed(t)
    ensures ParseTimestamp(Spelled(t, rest)) ==
            Some((t.(millis := t.millis + rest[..DigitRun(rest)]), rest[DigitRun(rest)..]))
  {
    var r2 := t.minutes + (":" + (t.seconds + ("," + (t.millis + rest))));
    var r4 := t.seconds + ("," + (t.millis + rest));
    var r6 := t.millis + rest;
    NumberBefore(t.hours, ':', r2);
    LiteralOf(":", r2);
    NumberBefore(t.minutes, ':', r4);
    LiteralOf(":", r4);
    NumberBefore(t.seconds, ',', r6);
    LiteralOf(",", r6);
    NumberOf(t.millis, rest);
  }

  /** A timestamp followed by text that does not start with a digit is parsed back exactly. */
  lemma ParseSpelledExactly(t: Timestamp, rest: string)
    requires WellFormed(t) && (rest == [] || !IsDigit(rest[0]))
    ensures ParseTimestamp(Spelled(t, rest)) == Some((t, rest))
  {
    ParseSpelled(t, rest);
    assert DigitRun(rest) == 0;
    assert t.millis + rest[..0] == t.millis;
    assert t.(millis := t.millis) == t;
  }

  /**
   * Completeness of the timing match: a line that starts with two well-formed
   * timestamps around the arrow matches, whatever follows; the start
   * timestamp is captured as written, and so is the end one when what follows
   * is not a digit.
   */
  lemma MatchTimingOf(t1: Timestamp, t2: Timestamp, rest: string)
    requires WellFormed(t1) && WellFormed(t2)
    ensures MatchTiming(TimingText(t1, t2, rest)).Some?
    ensures MatchTiming(TimingText(t1, t2, rest)).value.start == t1
    ensures rest == [] || !IsDigit(rest[0]) ==>
            MatchTiming(TimingText(t1, t2, rest)) == Some(TimingLine(t1, t2, rest))
  {
    var tail := Spelled(t2, rest);
    ParseSpelledExactly(t1, TimingArrow + tail);
    LiteralOf(TimingArrow, tail);
    ParseSpelled(t2, rest);
    if rest == [] || !IsDigit(rest[0]) {
      ParseSpelledExactly(t2, rest);
    }
  }

  /**
   * One complete block: an index line, a timing line and one line of text
   * yield exactly one entry, whose offset is computed from the start
   * timestamp's digit groups alone; the end timestamp and anything after the
   * timing match play no part.
   */
  lemma SingleBlock(index: string, t1: Timestamp, t2: Timestamp, rest: string, text: string)
    requires index != [] && !IsSpace(index[0]) && '\n' !in index
    requires WellFormed(t1) && WellFormed(t2) && '\n' !in rest
    requires CleanText(text)
    ensures BlockEntry(index + "\n" + TimingText(t1, t2, rest) + "\n" + text) ==
            Some(SyltEntry(Milliseconds(t1), text))
  {
    ThreeLineBlock(index, t1, t2, rest, text);
    MatchTimingOf(t1, t2, rest);
    EntryOfThreeLines(index, TimingText(t1, t2, rest), text, t1);
  }

  /** The lines of a block made of an index line, a timing line and a text line. */
  lemma ThreeLineBlock(index: string, t1: Timestamp, t2: Timestamp, rest: string, text: string)
    requires index != [] && !IsSpace(index[0]) && '\n' !in index
    requires WellFormed(t1) && WellFormed(t2) && '\n' !in rest
    requires CleanText(text)
    ensures Split(Strip(index + "\n" + TimingText(t1, t2, rest) + "\n" + text), "\n") ==
            [index, TimingText(t1, t2, rest), text]
  {
    var timing := TimingText(t1, t2, rest);
    var lines := [index, timing, text];
    TimingLineSingle(t1, t2, rest);
    BlockShape(lines);
    SplitFixed(lines);
    JoinThree(index, timing, text, "\n");
  }

  lemma EntryOfThreeLines(index: string, timing: string, text: string, t1: Timestamp)
    requires MatchTiming(timing).Some? && MatchTiming(timing).value.start == t1
    requires CleanText(text)
    ensures EntryOfLines([index, timing, text]) == Some(SyltEntry(Milliseconds(t1), text))
  {
    assert [index, timing, text][2..] == [text];
    StripFixed(text);
  }

  lemma JoinThree(a: string, b: string, c: string, sep: string)
    ensures Join([a, b, c], sep) == a + sep + b + sep + c
  {
    assert [a, b, c][1..] == [b, c];
    assert [b, c][1..] == [c];
    assert Join([b, c], sep) == b + sep + c;
    assert a + sep + (b + sep + c) == a + sep + b + sep + c;
  }

  lemma TimingLineSingle(t1: Timestamp, t2: Timestamp, rest: string)
    requires WellFormed(t1) && WellFormed(t2) && '\n' !in rest
    ensures '\n' !in TimingText(t1, t2, rest)
  {
    SpelledSingleLine(t2, rest);
    SpelledSingleLine(t1, TimingArrow + Spelled(t2, rest));
  }

  /** A timing line ends in a digit of the end timestamp, or in the last character of what follows the match. */
  lemma TimingLineEnd(t1: Timestamp, t2: Timestamp, rest: string)
    requires WellFormed(t2)
    ensures var timing := TimingText(t1, t2, rest);
            timing != [] && timing[|timing| - 1] == if rest == [] then t2.millis[|t2.millis| - 1] else rest[|rest| - 1]
  {
    var tail := Spelled(t2, rest);
    assert tail == (t2.hours + (":" + (t2.minutes + (":" + (t2.seconds + ",")))) + t2.millis) + rest;
    assert tail[|tail| - 1] == if rest == [] then t2.millis[|t2.millis| - 1] else rest[|rest| - 1];
    var timing := TimingText(t1, t2, rest);
    assert timing == (t1.hours + (":" + (t1.minutes + (":" + (t1.seconds + ("," + (t1.millis + TimingArrow))))))) + tail;
  }

  /** The trimmed block is the block itself when its first and last characters are not blank. */
  lemma BlockShape(lines: seq<string>)
    requires |lines| >= 2 && lines[0] != [] && !IsSpace(lines[0][0])
    requires lines[|lines| - 1] != [] && !IsSpace(lines[|lines| - 1][|lines[|lines| - 1]| - 1])
    ensures Trimmed(Join(lines, "\n"))
  {
    JoinFirst(lines, "\n");
    JoinLast(lines, "\n");
  }

  /** The first character of a join comes from its first part. */
  lemma JoinFirst(parts: seq<string>, sep: string)
    requires |parts| >= 1 && parts[0] != []
    ensures Join(parts, sep) != [] && Join(parts, sep)[0] == parts[0][0]
  {
  }

  /** The last character of a join comes from its last part. */
  lemma {:induction false} JoinLast(parts: seq<string>, sep: string)
    requires |parts| >= 1 && parts[|parts| - 1] != []
    ensures var j := Join(parts, sep);
            j != [] && j[|j| - 1] == parts[|parts| - 1][|parts[|parts| - 1]| - 1]
    decreases |parts|
  {
    if |parts| > 1 {
      JoinLast(parts[1..], sep);
    }
  }

  /** A trimmed join of single lines splits back into those lines. */
  lemma SplitFixed(lines: seq<string>)
    requires |lines| >= 1
    requires forall k :: 0 <= k < |lines| ==> '\n' !in lines[k]
    requires Trimmed(Join(lines, "\n"))
    ensures Split(Strip(Join(lines, "\n")), "\n") == lines
  {
    StripFixed(Join(lines, "\n"));
    SplitJoin(lines, '\n');
  }

  /**
   * A block of exactly two lines yields nothing, whatever the lines say: there
   * is no text after the timing line, so the joined text is empty.
   */
  lemma TwoLineBlock(block: string)
    requires |Split(Strip(block), "\n")| == 2
    ensures BlockEntry(block) == None
  {
    assert Split(Strip(block), "\n")[2..] == [];
  }

  /** For example, an index line and a well-formed timing line form such a block. */
  lemma IndexAndTimingOnly(index: string, t1: Timestamp, t2: Timestamp, rest: string)
    requires index != [] && !IsSpace(index[0]) && '\n' !in index
    requires WellFormed(t1) && WellFormed(t2) && '\n' !in rest
    requires rest != [] ==> !IsSpace(rest[|rest| - 1])
    ensures BlockEntry(index + "\n" + TimingText(t1, t2, rest)) == None
  {
    var timing := TimingText(t1, t2, rest);
    var lines := [index, timing];
    TimingLineSingle(t1, t2, rest);
    TimingLineEnd(t1, t2, rest);
    BlockShape(lines);
    SplitFixed(lines);
    assert index + "\n" + timing == Join(lines, "\n");
    TwoLineBlock(index + "\n" + timing);
  }

  /** Two consecutive newlines: an empty line. */
  predicate BlankLineAt(s: string, j: int) {
    0 <= j < |s| - 1 && s[j] == '\n' && s[j + 1] == '\n'
  }

  lemma BlankLineOccurrence(s: string, j: int)
    ensures OccursAt(s, "\n\n", j) ==> BlankLineAt(s, j)
  {
    if OccursAt(s, "\n\n", j) {
      assert s[j..j + 2][0] == s[j] && s[j..j + 2][1] == s[j + 1];
    }
  }

  /** Non-empty single lines joined by newlines contain no empty line. */
  lemma {:induction false} NoBlankLine(lines: seq<string>, j: int)
    requires |lines| >= 1
    requires forall k :: 0 <= k < |lines| ==> lines[k] != [] && '\n' !in lines[k]
    ensures !BlankLineAt(Join(lines, "\n"), j)
    decreases |lines|
  {
    var s := Join(lines, "\n");
    var head := lines[0];
    if 0 <= j < |s| - 1 {
      if |lines| == 1 {
        assert s[j] == head[j];
      } else {
        var tail := Join(lines[1..], "\n");
        assert s == head + "\n" + tail;
        if j < |head| {
          assert s[j] == head[j];
        } else if j == |head| {
          JoinFirst(lines[1..], "\n");
          assert s[j + 1] == tail[0] == lines[1][0];
        } else {
          assert s[j] == tail[j - |head| - 1] && s[j + 1] == tail[j - |head|];
          NoBlankLine(lines[1..], j - |head| - 1);
        }
      }
    }
  }

  /**
   * A document made of one well-formed block, with nothing around it, yields
   * exactly that block's entry.
   */
  lemma SingleBlockDocument(index: string, t1: Timestamp, t2: Timestamp, rest: string, text: string)
    requires index != [] && !IsSpace(index[0]) && '\n' !in index
    requires WellFormed(t1) && WellFormed(t2) && '\n' !in rest
    requires CleanText(text)
    ensures SyltEntries(true, index + "\n" + TimingText(t1, t2, rest) + "\n" + text) ==
            [SyltEntry(Milliseconds(t1), text)]
  {
    var timing := TimingText(t1, t2, rest);
    var lines := [index, timing, text];
    var content := index + "\n" + TimingText(t1, t2, rest) + "\n" + text;
    JoinThree(index, timing, text, "\n");
    TimingLineSingle(t1, t2, rest);
    assert timing != [];
    BlockShape(lines);
    StripFixed(content);
    forall j ensures !OccursAt(content, "\n\n", j) {
      NoBlankLine(lines, j);
      BlankLineOccurrence(content, j);
    }
    IndexOfFirst(content, "\n\n");
    assert Blocks(content) == [content];
    SingleBlock(index, t1, t2, rest, text);
    EntriesSingle(content);
  }

  /** The document `1 / 00:00:01,500 --> 00:00:03,000 / Hello world` yields exactly one entry, (1500, "Hello world"). */
  lemma HelloWorldExample()
    ensures SyltEntries(true, "1" + "\n" + ("00:00:01,500" + (" --> " + "00:00:03,000")) + "\n" + "Hello world") ==
            [SyltEntry(1500, "Hello world")]
  {
    var t1 := Timestamp("00", "00", "01", "500");
    var t2 := Timestamp("00", "00", "03", "000");
    ExampleParts(t1, t2);
    SingleBlockDocument("1", t1, t2, "", "Hello world");
    ExampleSpellings();
    TimingTextAs(t1, t2, "00:00:01,500", "00:00:03,000");
  }

  lemma ExampleParts(t1: Timestamp, t2: Timestamp)
    requires t1 == Timestamp("00", "00", "01", "500") && t2 == Timestamp("00", "00", "03", "000")
    ensures WellFormed(t1) && WellFormed(t2) && CleanText("Hello world")
    ensures Milliseconds(t1) == 1500
  {
    assert DecimalValue("500") == 500 by {
      assert "500"[..2] == "50" && "50"[..1] == "5" && "5"[..0] == "";
    }
    assert DecimalValue("01") == 1 by {
      assert "01"[..1] == "0" && "0"[..0] == "";
    }
    assert DecimalValue("00") == 0 by {
      assert "00"[..1] == "0" && "0"[..0] == "";
    }
  }

  /**
   * Entries keep block order and are not sorted by offset: a block at five
   * seconds followed by one at one second yields them in that order.
   */
  lemma OutOfOrderBlocks()
    ensures Entries(["1" + "\n" + ("00:00:05,000" + (" --> " + "00:00:06,000")) + "\n" + "B",
                     "2" + "\n" + ("00:00:01,000" + (" --> " + "00:00:02,000")) + "\n" + "A"]) ==
            [SyltEntry(5000, "B"), SyltEntry(1000, "A")]
  {
    LaterBlock();
    EarlierBlock();
    TwoBlocks("1" + "\n" + ("00:00:05,000" + (" --> " + "00:00:06,000")) + "\n" + "B",
              "2" + "\n" + ("00:00:01,000" + (" --> " + "00:00:02,000")) + "\n" + "A",
              SyltEntry(5000, "B"), SyltEntry(1000, "A"));
  }

  lemma TwoBlocks(b1: string, b2: string, e1: SyltEntry, e2: SyltEntry)
    requires BlockEntry(b1) == Some(e1) && BlockEntry(b2) == Some(e2)
    ensures Entries([b1, b2]) == [e1, e2]
  {
    FilterMapPair(b1, b2, BlockEntry);
  }

  lemma LaterBlock()
    ensures BlockEntry("1" + "\n" + ("00:00:05,000" + (" --> " + "00:00:06,000")) + "\n" + "B") == Some(SyltEntry(5000, "B"))
  {
    var ta, tb := Timestamp("00", "00", "05", "000"), Timestamp("00", "00", "06", "000");
    ExampleTimestamp(ta, "05", "000", 5000);
    ExampleTimestamp(tb, "06", "000", 6000);
    ExampleText("B");
    SingleBlock("1", ta, tb, "", "B");
    ExampleSpellings();
    TimingTextAs(ta, tb, "00:00:05,000", "00:00:06,000");
  }

  lemma EarlierBlock()
    ensures BlockEntry("2" + "\n" + ("00:00:01,000" + (" --> " + "00:00:02,000")) + "\n" + "A") == Some(SyltEntry(1000, "A"))
  {
    var tc, td := Timestamp("00", "00", "01", "000"), Timestamp("00", "00", "02", "000");
    ExampleTimestamp(tc, "01", "000", 1000);
    ExampleTimestamp(td, "02", "000", 2000);
    ExampleText("A");
    SingleBlock("2", tc, td, "", "A");
    ExampleSpellings();
    TimingTextAs(tc, td, "00:00:01,000", "00:00:02,000");
  }

  /** How a timestamp spells, given the text of its digit groups with their separators. */
  lemma SpelledAs(t: Timestamp, spelled: string, rest: string)
    requires spelled == t.hours + (":" + (t.minutes + (":" + (t.seconds + ("," + t.millis)))))
    ensures Spelled(t, rest) == spelled + rest
  {
  }

  /** How the timestamps of the examples spell. */
  lemma ExampleSpellings()
    ensures "00:00:01,500" == "00" + (":" + ("00" + (":" + ("01" + ("," + "500")))))
    ensures "00:00:03,000" == "00" + (":" + ("00" + (":" + ("03" + ("," + "000")))))
    ensures "00:00:05,000" == "00" + (":" + ("00" + (":" + ("05" + ("," + "000")))))
    ensures "00:00:06,000" == "00" + (":" + ("00" + (":" + ("06" + ("," + "000")))))
    ensures "00:00:01,000" == "00" + (":" + ("00" + (":" + ("01" + ("," + "000")))))
    ensures "00:00:02,000" == "00" + (":" + ("00" + (":" + ("02" + ("," + "000")))))
  {
  }

  /** The timing line of two timestamps, given how each is spelled. */
  lemma TimingTextAs(t1: Timestamp, t2: Timestamp, start: string, end: string)
    requires start == t1.hours + (":" + (t1.minutes + (":" + (t1.seconds + ("," + t1.millis)))))
    requires end == t2.hours + (":" + (t2.minutes + (":" + (t2.seconds + ("," + t2.millis)))))
    ensures TimingText(t1, t2, "") == start + (TimingArrow + end)
  {
    SpelledAs(t2, end, "");
    assert end + "" == end;
    SpelledAs(t1, start, TimingArrow + end);
  }

  lemma ExampleText(text: string)
    requires text == "A" || text == "B"
    ensures CleanText(text)
  {
  }

  /** A timestamp `00:00:0d,000` with single-digit seconds is `d` seconds. */
  lemma ExampleTimestamp(t: Timestamp, seconds: string, millis: string, ms: nat)
    requires t == Timestamp("00", "00", seconds, millis) && millis == "000"
    requires |seconds| == 2 && seconds[0] == '0' && IsDigit(seconds[1]) && ms == DigitValue(seconds[1]) * 1000
    ensures WellFormed(t) && Milliseconds(t) == ms
  {
    assert DecimalValue("000") == 0 by {
      assert "000"[..2] == "00" && "00"[..1] == "0" && "0"[..0] == "";
    }
    assert DecimalValue("00") == 0 by {
      assert "00"[..1] == "0" && "0"[..0] == "";
    }
    assert DecimalValue(seconds) == DigitValue(seconds[1]) by {
      assert seconds[..1] == "0" && "0"[..0] == "";
    }
  }
}
