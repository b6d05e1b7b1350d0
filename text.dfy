/**
 * The string primitives the caption parser relies on: Python's str.strip(),
 * str.split(sep), sep.join(parts), str.isdigit() and the `in` substring test,
 * restricted to ASCII.
 */
module Text {
  import opened Wrappers

  /** The ASCII characters for which Python's str.isspace() holds. */
  predicate IsSpace(c: char) {
    c == ' ' || c == '\t' || c == '\n' || c == '\r' || c == '\U{0B}' || c == '\U{0C}' ||
    ('\U{1C}' <= c <= '\U{1F}')
  }

  predicate IsDigit(c: char) {
    '0' <= c <= '9'
  }

  /** str.isdigit(): true of a non-empty string of digits only. */
  predicate AllDigits(s: string) {
    |s| > 0 && forall k :: 0 <= k < |s| ==> IsDigit(s[k])
  }

  predicate AllSpace(s: string) {
    forall k :: 0 <= k < |s| ==> IsSpace(s[k])
  }

  /** `sep` occurs in `s` starting at position `j`. */
  predicate OccursAt(s: string, sep: string, j: int) {
    0 <= j && j + |sep| <= |s| && s[j..j + |sep|] == sep
  }

  /** str.lstrip(): a suffix of `s` that does not start with whitespace. */
  function TrimStart(s: string): (r: string)
    ensures |r| <= |s| && r == s[|s| - |r|..]
    ensures r != [] ==> !IsSpace(r[0])
  {
    if |s| > 0 && IsSpace(s[0]) then TrimStart(s[1..]) else s
  }

  /** str.rstrip(): a prefix of `s` that does not end with whitespace. */
  function TrimEnd(s: string): (r: string)
    ensures |r| <= |s| && r == s[..|r|]
    ensures r != [] ==> !IsSpace(r[|r| - 1])
  {
    if |s| > 0 && IsSpace(s[|s| - 1]) then TrimEnd(s[..|s| - 1]) else s
  }

  /** What str.lstrip() removes is whitespace. */
  lemma {:induction false} TrimStartSpace(s: string)
    ensures AllSpace(s[..|s| - |TrimStart(s)|])
    decreases |s|
  {
    if |s| > 0 && IsSpace(s[0]) {
      var n := |s| - |TrimStart(s)|;
      TrimStartSpace(s[1..]);
      assert n - 1 == |s[1..]| - |TrimStart(s[1..])|;
      forall k | 0 <= k < n ensures IsSpace(s[..n][k]) {
        if k > 0 {
          assert s[..n][k] == s[1..][..n - 1][k - 1];
        }
      }
    }
  }

  /** What str.rstrip() removes is whitespace. */
  lemma {:induction false} TrimEndSpace(s: string)
    ensures AllSpace(s[|TrimEnd(s)|..])
    decreases |s|
  {
    if |s| > 0 && IsSpace(s[|s| - 1]) {
      var init := s[..|s| - 1];
      var n := |TrimEnd(s)|;
      TrimEndSpace(init);
      forall k | 0 <= k < |s| - n ensures IsSpace(s[n..][k]) {
        if n + k < |s| - 1 {
          assert s[n..][k] == init[n..][k];
        }
      }
    }
  }

  lemma AllSpaceConcat(a: string, b: string)
    requires AllSpace(a) && AllSpace(b)
    ensures AllSpace(a + b)
  {
    forall k | 0 <= k < |a + b| ensures IsSpace((a + b)[k]) {
      if k < |a| {
        assert (a + b)[k] == a[k];
      } else {
        assert (a + b)[k] == b[k - |a|];
      }
    }
  }

  /** str.strip(): remove the whitespace at both ends. */
  function Strip(s: string): (r: string)
    ensures |r| <= |s|
    ensures r != [] ==> !IsSpace(r[0]) && !IsSpace(r[|r| - 1])
  {
    TrimEnd(TrimStart(s))
  }

  /**
   * The result of Strip is the slice of `s` between a whitespace prefix and a
   * whitespace suffix; it is empty exactly when `s` is all whitespace.
   */
  lemma StripSlice(s: string) returns (i: nat)
    ensures i + |Strip(s)| <= |s| && Strip(s) == s[i..i + |Strip(s)|]
    ensures AllSpace(s[..i]) && AllSpace(s[i + |Strip(s)|..])
    ensures Strip(s) == [] <==> AllSpace(s)
  {
    var t := TrimStart(s);
    var r := TrimEnd(t);
    TrimStartSpace(s);
    TrimEndSpace(t);
    i := |s| - |t|;
    TrimmedSlices(s, t, r, i);
    if r == [] {
      assert s == s[..i] + t;
      AllSpaceConcat(s[..i], t);
    } else {
      assert r[0] == s[i];
    }
  }

  /** A prefix `r` of a suffix `t` of `s` is a slice of `s`, and what follows `r` in `t` ends `s`. */
  lemma TrimmedSlices(s: string, t: string, r: string, i: nat)
    requires i <= |s| && t == s[i..] && |r| <= |t| && r == t[..|r|]
    ensures r == s[i..i + |r|] && s[i + |r|..] == t[|r|..]
  {
  }

  /** A slice of a slice is a slice of the whole. */
  lemma SliceOfSlice(s: string, i: nat, n: nat, j: nat, m: nat)
    requires i + n <= |s| && j + m <= n
    ensures s[i..i + n][j..j + m] == s[i + j..i + j + m]
  {
    var inner, whole := s[i..i + n][j..j + m], s[i + j..i + j + m];
    forall k | 0 <= k < m ensures inner[k] == whole[k] {
      assert s[i..i + n][j + k] == s[i + j + k];
    }
  }

  /** Cutting `a + b` inside `b`: the prefix keeps all of `a`, the suffix is a suffix of `b`. */
  lemma ConcatSlices(a: string, b: string, k: nat)
    requires k <= |b|
    ensures (a + b)[..|a| + k] == a + b[..k]
    ensures (a + b)[|a| + k..] == b[k..]
  {
    assert a + b == (a + b[..k]) + b[k..];
  }

  /** A string that neither starts nor ends with whitespace is left alone by Strip. */
  lemma StripFixed(s: string)
    requires s != [] ==> !IsSpace(s[0]) && !IsSpace(s[|s| - 1])
    ensures Strip(s) == s
  {
    assert TrimStart(s) == s;
    assert TrimEnd(s) == s;
  }

  /** Strip never introduces a character: every character of the result occurs in `s`. */
  lemma StripKeepsChars(s: string, c: char)
    requires c !in s
    ensures c !in Strip(s)
  {
    var r := Strip(s);
    var i := StripSlice(s);
    forall k | 0 <= k < |r| ensures r[k] != c {
      assert r[k] == s[i + k];
    }
  }

  lemma OccursInPrefix(s: string, sep: string, n: nat, j: int)
    requires n <= |s|
    requires OccursAt(s[..n], sep, j)
    ensures OccursAt(s, sep, j)
  {
    assert s[..n][j..j + |sep|] == s[j..j + |sep|];
  }

  /** The position of the first occurrence of `sep` in `s` (str.find). */
  function IndexOf(s: string, sep: string): (r: Option<nat>)
    requires |sep| > 0
    ensures r.Some? ==> r.value + |sep| <= |s|
    decreases |s|
  {
    if |s| < |sep| then None
    else if s[..|sep|] == sep then Some(0)
    else
      match IndexOf(s[1..], sep)
      case None => None
      case Some(i) => Some(i + 1)
  }

  /** IndexOf finds the first occurrence of `sep`, and finds none only when there is none. */
  lemma {:induction false} IndexOfFirst(s: string, sep: string)
    requires |sep| > 0
    ensures IndexOf(s, sep).Some? ==>
              OccursAt(s, sep, IndexOf(s, sep).value) &&
              forall j :: 0 <= j < IndexOf(s, sep).value ==> !OccursAt(s, sep, j)
    ensures IndexOf(s, sep).None? ==> forall j :: !OccursAt(s, sep, j)
    decreases |s|
  {
    if |s| >= |sep| && s[..|sep|] != sep {
      IndexOfFirst(s[1..], sep);
      forall j | 0 < j ensures OccursAt(s, sep, j) <==> OccursAt(s[1..], sep, j - 1) {
        if j + |sep| <= |s| {
          assert s[1..][j - 1..j - 1 + |sep|] == s[j..j + |sep|];
        }
      }
      assert !OccursAt(s, sep, 0);
    }
  }

  /** The substring test `sub in s`. */
  predicate Contains(s: string, sub: string)
    requires |sub| > 0
  {
    IndexOf(s, sub).Some?
  }

  /** A one-character separator occurs exactly where that character does. */
  lemma OccursAtChar(s: string, c: char, j: int)
    ensures OccursAt(s, [c], j) <==> 0 <= j < |s| && s[j] == c
  {
    if 0 <= j < |s| { assert s[j..j + 1] == [s[j]]; }
  }

  lemma NoOccurrenceOfChar(s: string, c: char)
    requires c !in s
    ensures IndexOf(s, [c]).None?
  {
    IndexOfFirst(s, [c]);
    if IndexOf(s, [c]).Some? {
      OccursAtChar(s, c, IndexOf(s, [c]).value);
    }
  }

  /** str.split(sep) for a non-empty separator: the pieces between the occurrences of `sep`, scanning left to right. */
  function Split(s: string, sep: string): (r: seq<string>)
    requires |sep| > 0
    ensures |r| >= 1
    decreases |s|
  {
    match IndexOf(s, sep)
    case None => [s]
    case Some(i) => [s[..i]] + Split(s[i + |sep|..], sep)
  }

  /** No piece of a split contains the separator. */
  lemma {:induction false} SplitPieces(s: string, sep: string, k: nat)
    requires |sep| > 0 && k < |Split(s, sep)|
    ensures IndexOf(Split(s, sep)[k], sep).None?
    decreases |s|
  {
    IndexOfFirst(s, sep);
    var found := IndexOf(s, sep);
    if found.Some? {
      var i := found.value;
      var head := s[..i];
      if k == 0 {
        IndexOfFirst(head, sep);
        if IndexOf(head, sep).Some? {
          OccursInPrefix(s, sep, i, IndexOf(head, sep).value);
        }
      } else {
        SplitPieces(s[i + |sep|..], sep, k - 1);
      }
    }
  }

  /** sep.join(parts) */
  function Join(parts: seq<string>, sep: string): (r: string)
    decreases |parts|
  {
    if |parts| == 0 then ""
    else if |parts| == 1 then parts[0]
    else parts[0] + sep + Join(parts[1..], sep)
  }

  /** Joining the pieces of a split restores the original string. */
  lemma {:induction false} JoinSplit(s: string, sep: string)
    requires |sep| > 0
    ensures Join(Split(s, sep), sep) == s
    decreases |s|
  {
    var found := IndexOf(s, sep);
    if found.Some? {
      var i := found.value;
      var head, rest := s[..i], s[i + |sep|..];
      var pieces := Split(rest, sep);
      assert Split(s, sep) == [head] + pieces;
      JoinSplit(rest, sep);
      IndexOfFirst(s, sep);
      AroundOccurrence(s, sep, i);
      assert ([head] + pieces)[1..] == pieces;
      assert Join([head] + pieces, sep) == head + sep + Join(pieces, sep);
    }
  }

  /** A string is what comes before an occurrence, the occurrence, and what comes after it. */
  lemma AroundOccurrence(s: string, sep: string, i: nat)
    requires OccursAt(s, sep, i)
    ensures s == s[..i] + sep + s[i + |sep|..]
  {
    assert s[i..] == s[i..i + |sep|] + s[i + |sep|..];
    assert s == s[..i] + s[i..];
  }

  /**
   * Splitting a join on a one-character separator gives back the parts,
   * provided no part contains that character.
   */
  lemma {:induction false} SplitJoin(parts: seq<string>, c: char)
    requires |parts| >= 1
    requires forall k :: 0 <= k < |parts| ==> c !in parts[k]
    ensures Split(Join(parts, [c]), [c]) == parts
    decreases |parts|
  {
    if |parts| == 1 {
      NoOccurrenceOfChar(parts[0], c);
    } else {
      var head, rest := parts[0], Join(parts[1..], [c]);
      var s := head + [c] + rest;
      assert Join(parts, [c]) == s;
      FirstOccurrenceOfChar(head, c, rest);
      assert s[..|head|] == head;
      assert s[|head| + 1..] == rest;
      assert Split(s, [c]) == [head] + Split(rest, [c]);
      SplitJoin(parts[1..], c);
      assert parts == [head] + parts[1..];
    }
  }

  /** In `head + [c] + rest` with `c` not in `head`, the first `c` follows `head`. */
  lemma FirstOccurrenceOfChar(head: string, c: char, rest: string)
    requires c !in head
    ensures IndexOf(head + [c] + rest, [c]) == Some(|head|)
  {
    var s := head + [c] + rest;
    OccursAtChar(s, c, |head|);
    IndexOfFirst(s, [c]);
    forall j | 0 <= j < |head| ensures !OccursAt(s, [c], j) {
      OccursAtChar(s, c, j);
      assert s[j] == head[j];
    }
  }

  /** A character not in any part nor equal to the separator is not in their join. */
  lemma {:induction false} JoinKeepsOut(parts: seq<string>, sep: string, c: char)
    requires forall k :: 0 <= k < |parts| ==> c !in parts[k]
    requires c !in sep
    ensures c !in Join(parts, sep)
    decreases |parts|
  {
    if |parts| > 1 {
      JoinKeepsOut(parts[1..], sep, c);
    }
  }

  /** The pieces of a split on a one-character separator never contain it. */
  lemma SplitPiecesAvoid(s: string, c: char, k: nat)
    requires k < |Split(s, [c])|
    ensures c !in Split(s, [c])[k]
  {
    var piece := Split(s, [c])[k];
    SplitPieces(s, [c], k);
    IndexOfFirst(piece, [c]);
    forall j | 0 <= j < |piece| ensures piece[j] != c {
      OccursAtChar(piece, c, j);
    }
  }

  /** The length of the run of digits `s` starts with. */
  function DigitRun(s: string): (n: nat)
    ensures n <= |s|
  {
    if |s| > 0 && IsDigit(s[0]) then 1 + DigitRun(s[1..]) else 0
  }

  /** The run is all digits and cannot be extended: what follows it is not a digit. */
  lemma {:induction false} DigitRunMaximal(s: string)
    ensures forall k :: 0 <= k < DigitRun(s) ==> IsDigit(s[k])
    ensures DigitRun(s) < |s| ==> !IsDigit(s[DigitRun(s)])
    decreases |s|
  {
    if |s| > 0 && IsDigit(s[0]) {
      DigitRunMaximal(s[1..]);
      forall k | 1 <= k < DigitRun(s) ensures IsDigit(s[k]) {
        assert s[k] == s[1..][k - 1];
      }
      if DigitRun(s) < |s| {
        assert s[DigitRun(s)] == s[1..][DigitRun(s) - 1];
      }
    }
  }

  /** The run of digits is the maximal one, whatever follows it. */
  lemma {:induction false} DigitRunOf(d: string, rest: string)
    requires forall k :: 0 <= k < |d| ==> IsDigit(d[k])
    ensures DigitRun(d + rest) == |d| + DigitRun(rest)
    decreases |d|
  {
    if |d| == 0 {
      assert d + rest == rest;
    } else {
      assert (d + rest)[0] == d[0];
      assert (d + rest)[1..] == d[1..] + rest;
      DigitRunOf(d[1..], rest);
    }
  }

  /** The value of one decimal digit (0 for any other character). */
  function DigitValue(c: char): nat {
    if IsDigit(c) then c as int - '0' as int else 0
  }

  /** Python's int() of a string of ASCII digits. */
  function DecimalValue(s: string): nat {
    if |s| == 0 then 0
    else 10 * DecimalValue(s[..|s| - 1]) + DigitValue(s[|s| - 1])
  }

  /** Leading zeros do not change the value: int("007") == int("7"). */
  lemma {:induction false} DecimalValueLeadingZero(s: string)
    ensures DecimalValue("0" + s) == DecimalValue(s)
    decreases |s|
  {
    if s == [] {
      assert ("0" + s)[..0] == [];
    } else {
      var init := s[..|s| - 1];
      assert ("0" + s)[..|s|] == "0" + init;
      assert ("0" + s)[|s|] == s[|s| - 1];
      DecimalValueLeadingZero(init);
    }
  }
}
