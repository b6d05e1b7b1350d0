/**
 * safe_json_parse and the metadata lookups of process_song: the language
 * model's reply is parsed whole, else the span the greedy pattern `\{.*\}`
 * (with DOTALL) selects is parsed, else a fallback record is built from the
 * video title. The JSON decoder itself is a parameter.
 */
module Metadata {
  import opened Wrappers

  /** A decoded JSON value; an object keeps its members in document order, duplicates included. */
  datatype Json =
    | JNull
    | JBool(b: bool)
    | JNumber(literal: string)
    | JString(s: string)
    | JArray(items: seq<Json>)
    | JObject(members: seq<(string, Json)>)

  /** json.loads as a partial function: None where it raises JSONDecodeError. */
  type Parser = string -> Option<Json>

  // ---------------------------------------------------------------------------
  // The span the pattern \{.*\} selects
  // ---------------------------------------------------------------------------

  /** A '{' at `i` and a later '}' at `j`: the pattern matches `s[i..j + 1]`. */
  predicate BracePair(s: string, i: int, j: int) {
    0 <= i < j < |s| && s[i] == '{' && s[j] == '}'
  }

  /** The position of the first `c` in `s`. */
  function FirstIndex(s: string, c: char): (r: Option<nat>)
    ensures r.Some? ==> r.value < |s| && s[r.value] == c
    ensures r.Some? ==> forall k :: 0 <= k < r.value ==> s[k] != c
    ensures r.None? ==> forall k :: 0 <= k < |s| ==> s[k] != c
  {
    if s == [] then None
    else if s[0] == c then Some(0)
    else
      match FirstIndex(s[1..], c)
      case None => None
      case Some(i) => Some(i + 1)
  }

  /** The position of the last `c` in `s`. */
  function LastIndex(s: string, c: char): (r: Option<nat>)
    ensures r.Some? ==> r.value < |s| && s[r.value] == c
    ensures r.Some? ==> forall k :: r.value < k < |s| ==> s[k] != c
    ensures r.None? ==> forall k :: 0 <= k < |s| ==> s[k] != c
  {
    if s == [] then None
    else if s[|s| - 1] == c then Some(|s| - 1)
    else LastIndex(s[..|s| - 1], c)
  }

  /**
   * The bounds of re.search(r"\{.*\}", s, re.DOTALL): the search starts at the
   * leftmost '{' from which the pattern can match, and the greedy `.*` runs to
   * the last '}'. So there is a match iff some '{' precedes some '}', and then
   * it is the leftmost-starting, longest such pair.
   */
  function BraceBounds(s: string): Option<(nat, nat)> {
    match (FirstIndex(s, '{'), LastIndex(s, '}'))
    case (Some(i), Some(j)) => if i < j then Some((i, j)) else None
    case _ => None
  }

  /**
   * There is a match iff some '{' precedes some '}', and then it is the
   * leftmost-starting, longest such pair.
   */
  lemma BraceBoundsSpec(s: string)
    ensures BraceBounds(s).None? <==> forall i, j :: !BracePair(s, i, j)
    ensures BraceBounds(s).Some? ==> BracePair(s, BraceBounds(s).value.0, BraceBounds(s).value.1)
    ensures BraceBounds(s).Some? ==>
              forall i, j :: BracePair(s, i, j) ==> BraceBounds(s).value.0 <= i && j <= BraceBounds(s).value.1
  {
    var first, last := FirstIndex(s, '{'), LastIndex(s, '}');
    forall i, j | BracePair(s, i, j)
      ensures first.Some? && last.Some? && first.value <= i && j <= last.value
    {
    }
    if first.Some? && last.Some? && first.value < last.value {
      assert BracePair(s, first.value, last.value);
    }
  }

  /** The matched text, `match.group(0)`. */
  function BraceSpan(s: string): Option<string> {
    match BraceBounds(s)
    case None => None
    case Some((i, j)) => Some(s[i..j + 1])
  }

  /**
   * A reply made of text without '{', then a braced span, then text without
   * '}', has that span as its match.
   */
  lemma BraceSpanOf(pre: string, inner: string, post: string)
    requires '{' !in pre && '}' !in post
    ensures BraceSpan(pre + "{" + inner + "}" + post) == Some("{" + inner + "}")
  {
    var s := pre + "{" + inner + "}" + post;
    var i, j := |pre|, |pre| + 1 + |inner|;
    assert BracePair(s, i, j);
    forall k | 0 <= k < i ensures s[k] != '{' {
      assert s[k] == pre[k];
    }
    forall k | j < k < |s| ensures s[k] != '}' {
      assert s[k] == post[k - j - 1];
    }
    BraceBoundsSpec(s);
    assert s[i..j + 1] == "{" + inner + "}";
  }

  /** A reply without any '{' has no match. */
  lemma NoOpeningBrace(s: string)
    requires '{' !in s
    ensures BraceSpan(s).None?
  {
    forall k | 0 <= k < |s| ensures s[k] != '{' {
      assert s[k] in s;
    }
    BraceBoundsSpec(s);
  }

  // ---------------------------------------------------------------------------
  // The three tiers
  // ---------------------------------------------------------------------------

  /** The record built when nothing parses: the raw title and the single artist "Unknown". */
  function FallbackRecord(title: string): Json {
    JObject([("song", JString(title)), ("artists", JArray([JString("Unknown")]))])
  }

  /** safe_json_parse(llm_output, title). */
  function SafeJsonParse(parse: Parser, output: string, title: string): Json {
    match parse(output)
    case Some(v) => v
    case None =>
      match BraceSpan(output)
      case None => FallbackRecord(title)
      case Some(span) =>
        match parse(span)
        case Some(v) => v
        case None => FallbackRecord(title)
  }

  /** When the whole reply parses, its value is returned unchanged, whatever kind of value it is. */
  lemma DirectTier(parse: Parser, output: string, title: string, v: Json)
    requires parse(output) == Some(v)
    ensures SafeJsonParse(parse, output, title) == v
  {
  }

  /**
   * When the whole reply does not parse, the text from its first '{' to its
   * last '}' is parsed instead, provided that '{' comes before that '}'.
   */
  lemma EmbeddedTier(parse: Parser, output: string, title: string, i: nat, j: nat, v: Json)
    requires parse(output).None?
    requires BracePair(output, i, j)
    requires forall k :: 0 <= k < i ==> output[k] != '{'
    requires forall k :: j < k < |output| ==> output[k] != '}'
    requires parse(output[i..j + 1]) == Some(v)
    ensures SafeJsonParse(parse, output, title) == v
  {
    BraceBoundsSpec(output);
    var b := BraceBounds(output).value;
    assert b.0 <= i && j <= b.1;
  }

  /** Otherwise the fallback record is returned: no brace pair, or a span that does not parse either. */
  lemma FallbackTier(parse: Parser, output: string, title: string)
    requires parse(output).None?
    requires forall i, j :: BracePair(output, i, j) ==>
               (parse(output[i..j + 1]).None? ||
                exists k :: (0 <= k < i && output[k] == '{') || (j < k < |output| && output[k] == '}'))
    ensures SafeJsonParse(parse, output, title) == FallbackRecord(title)
  {
    BraceBoundsSpec(output);
    if BraceBounds(output).Some? {
      var (i, j) := BraceBounds(output).value;
      assert FirstIndex(output, '{') == Some(i) && LastIndex(output, '}') == Some(j);
      assert !exists k :: (0 <= k < i && output[k] == '{') || (j < k < |output| && output[k] == '}');
    }
  }

  /** The result is either the fallback record or the value of the reply or of one of its substrings. */
  lemma ResultOrigin(parse: Parser, output: string, title: string)
    ensures var r := SafeJsonParse(parse, output, title);
            r == FallbackRecord(title) ||
            exists i, j :: 0 <= i <= j <= |output| && parse(output[i..j]) == Some(r)
  {
    var r := SafeJsonParse(parse, output, title);
    if parse(output).Some? {
      assert output[0..|output|] == output;
    } else if BraceBounds(output).Some? {
      var (i, j) := BraceBounds(output).value;
      if parse(output[i..j + 1]).Some? {
        assert parse(output[i..j + 1]) == Some(r);
      }
    }
  }

  /** A reply with a prose preamble before the object it means: the object is recovered. */
  lemma PreambleExample(parse: Parser, title: string, v: Json)
    requires parse("I think this is: " + "{" + "\"song\": \"Test\", \"artists\": [\"A\", \"B\"]" + "}").None?
    requires parse("{" + "\"song\": \"Test\", \"artists\": [\"A\", \"B\"]" + "}") == Some(v)
    ensures SafeJsonParse(parse, "I think this is: " + "{" + "\"song\": \"Test\", \"artists\": [\"A\", \"B\"]" + "}", title) == v
  {
    var pre, inner := "I think this is: ", "\"song\": \"Test\", \"artists\": [\"A\", \"B\"]";
    assert '{' !in pre;
    BraceSpanOf(pre, inner, "");
    assert pre + "{" + inner + "}" + "" == pre + "{" + inner + "}";
  }

  /** A reply that is not JSON and has no braces yields the fallback record. */
  lemma ProseExample(parse: Parser, title: string)
    requires parse("not json at all").None?
    ensures SafeJsonParse(parse, "not json at all", title) == FallbackRecord(title)
  {
    NoOpeningBrace("not json at all");
  }

  // ---------------------------------------------------------------------------
  // metadata["song"], metadata["artists"]
  // ---------------------------------------------------------------------------

  /** The exception a subscript raises. */
  datatype LookupError =
    | NotSubscriptable   // TypeError: the value is not an object
    | MissingKey(key: string)   // KeyError

  /** The value json.loads keeps for `key`: that of its last occurrence. */
  function LookupMember(members: seq<(string, Json)>, key: string): Option<Json> {
    if members == [] then None
    else if members[|members| - 1].0 == key then Some(members[|members| - 1].1)
    else LookupMember(members[..|members| - 1], key)
  }

  /** The lookup finds the last member with the key, and finds none only when the key is absent. */
  lemma {:induction false} LookupMemberLast(members: seq<(string, Json)>, key: string)
    ensures LookupMember(members, key).None? <==> forall k :: 0 <= k < |members| ==> members[k].0 != key
    ensures LookupMember(members, key).Some? ==>
              exists k :: 0 <= k < |members| && members[k] == (key, LookupMember(members, key).value) &&
                forall k' :: k < k' < |members| ==> members[k'].0 != key
  {
    if members != [] && members[|members| - 1].0 != key {
      var init := members[..|members| - 1];
      LookupMemberLast(init, key);
      assert forall k :: 0 <= k < |init| ==> init[k] == members[k];
    }
  }

  /** Conversely, a member whose key occurs nowhere after it is what the lookup finds. */
  lemma {:induction false} LookupMemberAt(members: seq<(string, Json)>, key: string, k: nat)
    requires k < |members| && members[k].0 == key
    requires forall k' :: k < k' < |members| ==> members[k'].0 != key
    ensures LookupMember(members, key) == Some(members[k].1)
    decreases |members|
  {
    if k < |members| - 1 {
      var init := members[..|members| - 1];
      LookupMemberAt(init, key, k);
    }
  }

  /** `value[key]` for a string key. */
  function Subscript(value: Json, key: string): Result<Json, LookupError> {
    match value
    case JObject(members) =>
      (match LookupMember(members, key)
       case Some(v) => Success(v)
       case None => Failure(MissingKey(key)))
    case _ => Failure(NotSubscriptable)
  }

  /** song_name and artists, in the order process_song reads them. */
  function SongAndArtists(metadata: Json): Result<(Json, Json), LookupError> {
    var song :- Subscript(metadata, "song");
    var artists :- Subscript(metadata, "artists");
    Success((song, artists))
  }

  /**
   * The lookups succeed iff the value is an object that has both keys; the
   * error is the one the first failing subscript raises.
   */
  lemma SongAndArtistsCases(metadata: Json)
    ensures SongAndArtists(metadata).Success? <==>
              metadata.JObject? &&
              LookupMember(metadata.members, "song").Some? && LookupMember(metadata.members, "artists").Some?
    ensures !metadata.JObject? ==> SongAndArtists(metadata) == Failure(NotSubscriptable)
    ensures metadata.JObject? && LookupMember(metadata.members, "song").None? ==>
              SongAndArtists(metadata) == Failure(MissingKey("song"))
    ensures SongAndArtists(metadata).Success? ==>
              SongAndArtists(metadata).value ==
                (LookupMember(metadata.members, "song").value, LookupMember(metadata.members, "artists").value)
  {
  }

  /** The fallback record always has both keys: the title as the song, and ["Unknown"] as the artists. */
  lemma FallbackFields(title: string)
    ensures SongAndArtists(FallbackRecord(title)) == Success((JString(title), JArray([JString("Unknown")])))
  {
    var members := FallbackRecord(title).members;
    var artists := JArray([JString("Unknown")]);
    assert members[1].0 == "artists";
    assert LookupMember(members, "artists") == Some(artists);
    assert members[..1] == [("song", JString(title))];
    assert "artists" != "song";
    assert LookupMember(members, "song") == LookupMember(members[..1], "song");
    assert LookupMember(members, "song") == Some(JString(title));
    assert Subscript(FallbackRecord(title), "song") == Success(JString(title));
    assert Subscript(FallbackRecord(title), "artists") == Success(artists);
  }

  /** A direct parse can yield a value without the keys: a bare number makes the song lookup fail. */
  lemma DirectNumberHasNoSong(parse: Parser, title: string)
    requires parse("42") == Some(JNumber("42"))
    ensures SongAndArtists(SafeJsonParse(parse, "42", title)) == Failure(NotSubscriptable)
  {
  }
}
