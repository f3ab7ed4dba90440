/**
 * The standalone generation script (scg_worker.py): its lenient configuration parsers,
 * the weighted choice it draws languages and personas with, and the work of one scheduled
 * post (`one` inside `run`).
 *
 * The script reaches the backend over HTTP; here the post it sends goes into the store the
 * backend's `create_post` writes, and a failed request is an injected outcome. The chat
 * completion and every random draw are injected too.
 */
module ScgWorker {
  import opened Wrappers
  import opened Text
  import opened Dicts
  import opened ConfigText
  import opened Crud
  import opened Generation
  import BackendWorker

  // ---------------------------------------------------------------------------
  // The normalisation of parse_langs and parse_persona_weights
  // ---------------------------------------------------------------------------

  /** `sum(d.values()) or 1.0` */
  function TotalOrOne(d: Dict<real>): (t: real)
    ensures t != 0.0
  {
    if Sum(d) == 0.0 then 1.0 else Sum(d)
  }

  /** `{k: v / total for k, v in d.items()}` with that total: the same keys in the same
      order, and a table whose weights add up to zero is left as it is. */
  function Normalize(d: Dict<real>): (r: Dict<real>)
    ensures Keys(r) == Keys(d)
    ensures DistinctKeys(d) ==> DistinctKeys(r)
    ensures Sum(d) == 0.0 ==> r == d
  {
    var r := Scale(d, TotalOrOne(d));
    assert Keys(r) == Keys(d);
    assert Sum(d) == 0.0 ==> forall i :: 0 <= i < |d| ==> r[i] == d[i];
    r
  }

  /** A table whose weights do not add up to zero is normalised to a total of one. */
  lemma NormalizeSumsToOne(d: Dict<real>)
    requires Sum(d) != 0.0
    ensures Sum(Normalize(d)) == 1.0
  {
    SumScale(d, Sum(d));
    assert Sum(d) / Sum(d) == 1.0;
  }

  /** Normalising leaves a total of one or of zero. */
  lemma NormalizeTotal(d: Dict<real>)
    ensures Sum(Normalize(d)) == 1.0 || Sum(Normalize(d)) == 0.0
  {
    if Sum(d) != 0.0 {
      NormalizeSumsToOne(d);
    }
  }

  // ---------------------------------------------------------------------------
  // The lenient CSV loop
  // ---------------------------------------------------------------------------

  /** The pairs the lenient CSV loop assigns, in order: every chunk that holds the separator
      and whose value text `float()` accepts. Any other chunk is skipped with a warning. */
  function Readable(fields: seq<Option<(string, string)>>, parseFloat: string -> Option<real>): (ps: seq<(string, real)>)
    ensures |ps| <= |fields|
    decreases |fields|
  {
    if |fields| == 0 then []
    else
      var rest := Readable(fields[1..], parseFloat);
      match fields[0]
      case None => rest
      case Some(kv) =>
        match parseFloat(kv.1)
        case None => rest
        case Some(x) => [(kv.0, x)] + rest
  }

  /** A chunk the loop cannot read leaves the result as if the chunk were not there. */
  lemma {:induction false} ReadableSkips(a: seq<Option<(string, string)>>, f: Option<(string, string)>,
                                         b: seq<Option<(string, string)>>, parseFloat: string -> Option<real>)
    requires f.None? || parseFloat(f.value.1).None?
    ensures Readable(a + [f] + b, parseFloat) == Readable(a + b, parseFloat)
    decreases |a|
  {
    if |a| == 0 {
      assert (a + [f] + b)[1..] == b;
      assert a + b == b;
    } else {
      assert (a + [f] + b)[1..] == a[1..] + [f] + b;
      assert (a + b)[1..] == a[1..] + b;
      assert (a + [f] + b)[0] == (a + b)[0];
      ReadableSkips(a[1..], f, b, parseFloat);
    }
  }

  /** Chunks that each read one pair give exactly those pairs, in order. */
  lemma {:induction false} ReadableAllRead(fields: seq<Option<(string, string)>>, d: Dict<real>, parseFloat: string -> Option<real>)
    requires |fields| == |d|
    requires forall i :: 0 <= i < |d| ==>
      fields[i].Some? && fields[i].value.0 == d[i].0 && parseFloat(fields[i].value.1) == Some(d[i].1)
    ensures Readable(fields, parseFloat) == d
    decreases |d|
  {
    if |d| > 0 {
      assert forall i :: 0 <= i < |d| - 1 ==> fields[1..][i] == fields[i + 1] && d[1..][i] == d[i + 1];
      ReadableAllRead(fields[1..], d[1..], parseFloat);
      assert [d[0]] + d[1..] == d;
    }
  }

  // ---------------------------------------------------------------------------
  // parse_langs
  // ---------------------------------------------------------------------------

  /** What the `key=value` loop of `parse_langs` reads: the stripped non-empty pieces
      between commas, each split at its first `=`. */
  function LangFields(s: string): seq<Option<(string, string)>> {
    Fields(NonEmptyStripped(Split(s, {','})), '=')
  }

  /** The key set of the numbers of a JSON object is the object's key set. */
  lemma JsonNumbersKeys(json: Option<Json>)
    requires JsonNumbers(json).Some?
    ensures forall k :: k in Keys(FromPairs(JsonNumbers(json).value)) <==> k in Keys(json.value.entries)
  {
    var d := JsonNumbers(json).value;
    assert Keys(d) == Keys(json.value.entries);
  }

  /** `parse_langs(s)`: `json` is what `json.loads(s)` produced (`None` if it raised). An
      empty string gives the default mix. A JSON object whose values all convert gives its
      own keys, normalised, even when it is empty. Otherwise the readable `key=value` chunks
      are assigned in order (a later duplicate wins) and normalised; the default mix is used
      when none is readable. */
  function ParseLangs(s: string, json: Option<Json>, parseFloat: string -> Option<real>): (r: Dict<real>)
    ensures s == "" ==> r == DefaultLangs
    ensures DistinctKeys(r)
    ensures s != "" && JsonNumbers(json).Some? ==>
      forall k :: k in Keys(r) <==> k in Keys(json.value.entries)
    ensures s != "" && JsonNumbers(json).None? && Readable(LangFields(s), parseFloat) == [] ==> r == DefaultLangs
    ensures s != "" && JsonNumbers(json).None? && Readable(LangFields(s), parseFloat) != [] ==>
      forall k :: k in Keys(r) <==> k in Keys(Readable(LangFields(s), parseFloat))
    ensures r == [] ==> json == Some(JObject([]))
  {
    if s == "" then DefaultLangs
    else if JsonNumbers(json).Some? then
      JsonNumbersKeys(json);
      Normalize(FromPairs(JsonNumbers(json).value))
    else
      var d := FromPairs(Readable(LangFields(s), parseFloat));
      if d == [] then DefaultLangs
      else
        assert Keys(d)[0] == d[0].0;
        Normalize(d)
  }

  /** The parsed mix adds up to one, unless the weights it was given add up to zero, in
      which case they are kept as they are. */
  lemma ParseLangsTotal(s: string, json: Option<Json>, parseFloat: string -> Option<real>)
    ensures Sum(ParseLangs(s, json, parseFloat)) == 1.0 || Sum(ParseLangs(s, json, parseFloat)) == 0.0
  {
    if s == "" {
      assert Sum(DefaultLangs) == 1.0;
    } else if JsonNumbers(json).Some? {
      NormalizeTotal(FromPairs(JsonNumbers(json).value));
    } else {
      var d := FromPairs(Readable(LangFields(s), parseFloat));
      if d == [] {
        assert Sum(DefaultLangs) == 1.0;
      } else {
        NormalizeTotal(d);
      }
    }
  }

  /** A chunk is a key, the separator and the value text; with a stripped key free of commas
      and of the separator, and a stripped value text free of commas, it is stripped itself. */
  lemma ChunkTrimmed(key: string, sep: char, text: string)
    requires Trimmed(key) && Trimmed(text) && !IsSpace(sep)
    ensures Trimmed(key + [sep] + text) && key + [sep] + text != ""
  {
    var c := key + [sep] + text;
    assert c[|key|] == sep;
    if key == [] {
      assert c[0] == sep;
    } else {
      assert c[0] == key[0];
    }
    if text == [] {
      assert c[|c| - 1] == sep;
    } else {
      assert c[|c| - 1] == text[|text| - 1];
    }
  }

  /** The chunks of an encoded table: pieces with no comma, each of them stripped and non-empty. */
  lemma EncodedChunks(d: Dict<real>, sep: char, render: real -> string, parseFloat: string -> Option<real>)
    requires |d| > 0 && sep != ',' && !IsSpace(sep)
    requires Encodable(d, sep, render, parseFloat)
    ensures var cs := Chunks(d, sep, render);
      && Split(EncodeWeights(d, sep, render), {','}) == cs
      && (forall i :: 0 <= i < |cs| ==> cs[i] != "" && Trimmed(cs[i]))
      && Readable(Fields(cs, sep), parseFloat) == d
  {
    var cs := Chunks(d, sep, render);
    forall i | 0 <= i < |cs| ensures NoneOf(cs[i], {','}) && cs[i] != "" && Trimmed(cs[i]) {
      assert forall c :: c in cs[i] ==> c in d[i].0 || c == sep || c in render(d[i].1);
      ChunkTrimmed(d[i].0, sep, render(d[i].1));
    }
    SplitJoin(cs, ',', {','});
    var fs := Fields(cs, sep);
    forall i | 0 <= i < |d| ensures fs[i] == Some((d[i].0, render(d[i].1))) {
      KeyValueGlue(d[i].0, sep, render(d[i].1));
    }
    ReadableAllRead(fs, d, parseFloat);
  }

  /** A mix written out as `key=value,key=value…` (a text that is not a JSON object) parses
      back to the mix, normalised. */
  lemma LangsRoundTrip(d: Dict<real>, render: real -> string, parseFloat: string -> Option<real>, json: Option<Json>)
    requires |d| > 0 && DistinctKeys(d)
    requires Encodable(d, '=', render, parseFloat)
    requires JsonNumbers(json).None?
    ensures ParseLangs(EncodeWeights(d, '=', render), json, parseFloat) == Normalize(d)
  {
    var s := EncodeWeights(d, '=', render);
    var cs := Chunks(d, '=', render);
    EncodedChunks(d, '=', render, parseFloat);
    NonEmptyStrippedKeeps(cs);
    assert LangFields(s) == Fields(cs, '=');
    FromPairsDistinct(d);
    assert s != "" by {
      assert Split(s, {','}) == cs;
    }
  }

  // ---------------------------------------------------------------------------
  // parse_persona_weights
  // ---------------------------------------------------------------------------

  /** The values of a JSON object that `float()` accepts, with their keys; a value it
      rejects is skipped with a warning. */
  function Convertible(entries: seq<(string, Option<real>)>): (ps: seq<(string, real)>)
    ensures |ps| <= |entries|
    decreases |entries|
  {
    if |entries| == 0 then []
    else
      var rest := Convertible(entries[1..]);
      if entries[0].1.Some? then [(entries[0].0, entries[0].1.value)] + rest else rest
  }

  /** A JSON object has a convertible value exactly when one of its values converts. */
  lemma {:induction false} ConvertibleEmpty(entries: seq<(string, Option<real>)>)
    ensures Convertible(entries) == [] <==> forall i :: 0 <= i < |entries| ==> entries[i].1.None?
    decreases |entries|
  {
    if |entries| > 0 {
      ConvertibleEmpty(entries[1..]);
      assert forall i :: 1 <= i < |entries| ==> entries[i] == entries[1..][i - 1];
    }
  }

  /** `raw` of the JSON branch: the convertible values of an object; nothing when the text
      is not a JSON object. */
  function JsonRaw(json: Option<Json>): Dict<real> {
    if json.Some? && json.value.JObject? then FromPairs(Convertible(json.value.entries)) else []
  }

  /** `[chunk.strip() for chunk in s.split(",")]` */
  function StrippedChunks(s: string): (cs: seq<string>)
    ensures |cs| == |Split(s, {','})|
    ensures forall i :: 0 <= i < |cs| ==> cs[i] == Strip(Split(s, {','})[i])
  {
    var pieces := Split(s, {','});
    seq(|pieces|, i requires 0 <= i < |pieces| => Strip(pieces[i]))
  }

  /** What the `name:value` loop of `parse_persona_weights` reads from each stripped chunk. */
  function PersonaFields(s: string): seq<Option<(string, string)>> {
    Fields(StrippedChunks(s), ':')
  }

  /** `parse_persona_weights(s)`: `None` and the empty string give the default weights. A
      JSON object with at least one value that converts gives those values, normalised.
      Otherwise (not JSON, not an object, or no value converts) the readable `name:value`
      chunks are assigned in order and normalised; the default weights are used when none
      is readable. The result is never empty. */
  function ParsePersonaWeights(s: Option<string>, json: Option<Json>, parseFloat: string -> Option<real>): (r: Dict<real>)
    ensures s.None? || s == Some("") ==> r == DefaultPersonas
    ensures DistinctKeys(r) && r != []
    ensures s.Some? && s.value != "" && JsonRaw(json) != [] ==>
      forall k :: k in Keys(r) <==> k in Keys(Convertible(json.value.entries))
    ensures s.Some? && s.value != "" && JsonRaw(json) == [] && Readable(PersonaFields(s.value), parseFloat) == [] ==>
      r == DefaultPersonas
    ensures s.Some? && s.value != "" && JsonRaw(json) == [] && Readable(PersonaFields(s.value), parseFloat) != [] ==>
      forall k :: k in Keys(r) <==> k in Keys(Readable(PersonaFields(s.value), parseFloat))
  {
    if s.None? || s.value == "" then DefaultPersonas
    else
      var raw := JsonRaw(json);
      if raw != [] then
        assert Keys(raw)[0] == raw[0].0;
        Normalize(raw)
      else
        var d := FromPairs(Readable(PersonaFields(s.value), parseFloat));
        if d == [] then DefaultPersonas
        else
          assert Keys(d)[0] == d[0].0;
          Normalize(d)
  }

  /** The parsed weights add up to one, unless the weights they were read from add up to
      zero, in which case they are kept as they are. */
  lemma ParsePersonaWeightsTotal(s: Option<string>, json: Option<Json>, parseFloat: string -> Option<real>)
    ensures var r := ParsePersonaWeights(s, json, parseFloat);
      Sum(r) == 1.0 || Sum(r) == 0.0
  {
    var r := ParsePersonaWeights(s, json, parseFloat);
    if r == DefaultPersonas {
      assert Sum(DefaultPersonas) == 1.0;
    } else if JsonRaw(json) != [] {
      NormalizeTotal(JsonRaw(json));
    } else {
      NormalizeTotal(FromPairs(Readable(PersonaFields(s.value), parseFloat)));
    }
  }

  /** Persona weights written out as `name:value,name:value…` (a text that is not a JSON
      object with a convertible value) parse back to the weights, normalised. */
  lemma PersonasRoundTrip(d: Dict<real>, render: real -> string, parseFloat: string -> Option<real>, json: Option<Json>)
    requires |d| > 0 && DistinctKeys(d)
    requires Encodable(d, ':', render, parseFloat)
    requires JsonRaw(json) == []
    ensures ParsePersonaWeights(Some(EncodeWeights(d, ':', render)), json, parseFloat) == Normalize(d)
  {
    EncodedPersonaFields(d, render, parseFloat);
    FromPairsDistinct(d);
  }

  /** The `name:value` loop reads an encoded table back entry by entry. */
  lemma EncodedPersonaFields(d: Dict<real>, render: real -> string, parseFloat: string -> Option<real>)
    requires |d| > 0 && Encodable(d, ':', render, parseFloat)
    ensures var s := EncodeWeights(d, ':', render);
      s != "" && Readable(PersonaFields(s), parseFloat) == d
  {
    var s := EncodeWeights(d, ':', render);
    var cs := Chunks(d, ':', render);
    EncodedChunks(d, ':', render, parseFloat);
    StrippedChunksKeep(s, cs);
    assert s != "" by {
      assert Split(s, {','}) == cs;
    }
  }

  /** Stripping chunks that are already stripped changes none of them. */
  lemma StrippedChunksKeep(s: string, cs: seq<string>)
    requires Split(s, {','}) == cs
    requires forall i :: 0 <= i < |cs| ==> Trimmed(cs[i])
    ensures StrippedChunks(s) == cs
  {
    forall i | 0 <= i < |cs| ensures StrippedChunks(s)[i] == cs[i] {
      StripCharsTrimmed(cs[i], Whitespace);
    }
  }

  // ---------------------------------------------------------------------------
  // parse_tags
  // ---------------------------------------------------------------------------

  /** The opening brackets and quotes the pattern removes at the start of the text. */
  const LeadingMarks: set<char> := {'[', '(', '{', '\'', '"'}

  /** The closing brackets and quotes the pattern removes at the end of the text. */
  const TrailingMarks: set<char> := {']', ')', '}', '\'', '"'}

  /** The characters `strip('\'"')` removes. */
  const Quotes: set<char> := {'\'', '"'}

  /** The characters of the class `[,\s]`. */
  const TagSeparators: set<char> := {','} + Whitespace

  /** `re.sub(r'^[\[\(\{\'"]+|[\]\)\}\'"]+$', '', s)`: the run of opening brackets and quotes
      at the start, then the run of closing brackets and quotes at the end, are removed. */
  function Unwrap(s: string): string {
    RStrip(LStrip(s, LeadingMarks), TrailingMarks)
  }

  /** `[p.strip().strip('\'"') for p in parts if p.strip()]` */
  function Unquoted(parts: seq<string>): (r: seq<string>)
    ensures |r| <= |parts|
    decreases |parts|
  {
    if |parts| == 0 then []
    else
      var rest := Unquoted(parts[1..]);
      if Strip(parts[0]) != "" then [StripChars(Strip(parts[0]), Quotes)] + rest else rest
  }

  /** Unquoting only removes characters. */
  lemma {:induction false} UnquotedNoneOf(parts: seq<string>, cs: set<char>)
    requires forall i :: 0 <= i < |parts| ==> NoneOf(parts[i], cs)
    ensures forall t :: t in Unquoted(parts) ==> NoneOf(t, cs)
    decreases |parts|
  {
    if |parts| > 0 {
      StripCharsSubset(parts[0], Whitespace);
      StripCharsSubset(Strip(parts[0]), Quotes);
      UnquotedNoneOf(parts[1..], cs);
    }
  }

  /** `[t for t in items if t]` */
  function NonEmpty(items: seq<string>): (r: seq<string>)
    ensures |r| <= |items|
    ensures forall t :: t in r ==> t != "" && t in items
    decreases |items|
  {
    if |items| == 0 then []
    else
      var rest := NonEmpty(items[1..]);
      if items[0] != "" then [items[0]] + rest else rest
  }

  /** Items that are all non-empty pass through unchanged. */
  lemma {:induction false} NonEmptyKeeps(items: seq<string>)
    requires forall i :: 0 <= i < |items| ==> items[i] != ""
    ensures NonEmpty(items) == items
    decreases |items|
  {
    if |items| > 0 {
      NonEmptyKeeps(items[1..]);
      assert [items[0]] + items[1..] == items;
    }
  }

  /** The pieces `parse_tags` splits its text form into: `re.split(r'[,\s]+', s)` on the
      stripped, unwrapped text. Splitting at every separator rather than at every run of
      them only adds empty pieces, and `parse_tags` drops those. */
  function TagParts(s: string): (parts: seq<string>)
    ensures forall i :: 0 <= i < |parts| ==> NoneOf(parts[i], TagSeparators)
  {
    Split(Unwrap(Strip(s)), TagSeparators)
  }

  /** `parse_tags(s)` as written: the default pool for an empty string; for a JSON array its
      stripped non-empty items; otherwise the pieces between commas and whitespace, with
      quotes stripped after the emptiness test. No tag of the text form holds a comma or
      whitespace, but a piece made only of quotes leaves an empty tag behind. */
  function ParseTagsAsWritten(s: string, json: Option<Json>): (r: seq<string>)
    ensures s == "" ==> r == DefaultTags
    ensures s != "" && !(json.Some? && json.value.JArray?) ==> forall t :: t in r ==> NoneOf(t, TagSeparators)
  {
    if s == "" then DefaultTags
    else if json.Some? && json.value.JArray? then NonEmptyStripped(json.value.items)
    else
      UnquotedNoneOf(TagParts(s), TagSeparators);
      Unquoted(TagParts(s))
  }

  /** `parse_tags(s)` with the emptiness test applied after the quotes are stripped, as the
      JSON branch and the backend's parser do: every tag is non-empty, and one read from the
      text form holds no comma or whitespace and neither starts nor ends with a quote. */
  function ParseTags(s: string, json: Option<Json>): (r: seq<string>)
    ensures s == "" ==> r == DefaultTags
    ensures forall t :: t in r ==> t != ""
    ensures s != "" && !(json.Some? && json.value.JArray?) ==>
      forall t :: t in r ==> NoneOf(t, TagSeparators) && t[0] !in Quotes && t[|t| - 1] !in Quotes
  {
    if s == "" then DefaultTags
    else if json.Some? && json.value.JArray? then NonEmptyStripped(json.value.items)
    else
      var tags := Unquoted(TagParts(s));
      UnquotedNoneOf(TagParts(s), TagSeparators);
      UnquotedStripped(TagParts(s));
      NonEmpty(tags)
  }

  /** Every unquoted piece neither starts nor ends with a quote. */
  lemma {:induction false} UnquotedStripped(parts: seq<string>)
    ensures forall t :: t in Unquoted(parts) && t != "" ==> t[0] !in Quotes && t[|t| - 1] !in Quotes
    decreases |parts|
  {
    if |parts| > 0 {
      var rest := Unquoted(parts[1..]);
      UnquotedStripped(parts[1..]);
      if Strip(parts[0]) != "" {
        var x := StripChars(Strip(parts[0]), Quotes);
        assert Unquoted(parts) == [x] + rest;
        forall t | t in [x] + rest && t != "" ensures t[0] !in Quotes && t[|t| - 1] !in Quotes {
          if t != x {
            assert t in rest;
          }
        }
      } else {
        assert Unquoted(parts) == rest;
      }
    }
  }

  /** The corrected parser keeps every tag of the parser as written except the empty ones. */
  lemma ParseTagsDropsOnlyEmpty(s: string, json: Option<Json>)
    ensures ParseTags(s, json) == NonEmpty(ParseTagsAsWritten(s, json))
  {
    if s == "" {
      NonEmptyKeeps(DefaultTags);
    } else if json.Some? && json.value.JArray? {
      var items := NonEmptyStripped(json.value.items);
      assert forall i :: 0 <= i < |items| ==> items[i] in items;
      NonEmptyKeeps(items);
    }
  }

  /** A piece made only of quotes between two tags, as in the text `a,'',b` (not JSON), is
      read as an empty tag by the parser as written and dropped by the corrected one. */
  lemma ParseTagsKeepsEmptyTag(a: string, q: string, b: string, json: Option<Json>)
    requires !(json.Some? && json.value.JArray?)
    requires a != "" && NoneOf(a, TagSeparators) && NoneOf(a, Quotes) && a[0] !in LeadingMarks
    requires b != "" && NoneOf(b, TagSeparators) && NoneOf(b, Quotes) && b[|b| - 1] !in TrailingMarks
    requires q != "" && forall c :: c in q ==> c in Quotes
    ensures ParseTagsAsWritten(Join([a, q, b], ","), json) == [a, "", b]
    ensures ParseTags(Join([a, q, b], ","), json) == [a, b]
  {
    var s := Join([a, q, b], ",");
    QuotePieceParts(a, q, b);
    assert ParseTagsAsWritten(s, json) == Unquoted(TagParts(s));
    UnquotedQuotePiece(a, q, b);
    ParseTagsDropsOnlyEmpty(s, json);
    NonEmptyDropsMiddle(a, b);
  }

  lemma QuotePieceParts(a: string, q: string, b: string)
    requires a != "" && NoneOf(a, TagSeparators) && a[0] !in LeadingMarks
    requires b != "" && NoneOf(b, TagSeparators) && b[|b| - 1] !in TrailingMarks
    requires q != "" && forall c :: c in q ==> c in Quotes
    ensures Join([a, q, b], ",") != "" && TagParts(Join([a, q, b], ",")) == [a, q, b]
  {
    var parts := [a, q, b];
    assert NoneOf(q, TagSeparators);
    JoinedTagParts(parts);
  }

  lemma NonEmptyDropsMiddle(a: string, b: string)
    requires a != "" && b != ""
    ensures NonEmpty([a, "", b]) == [a, b]
  {
    var tags := [a, "", b];
    assert tags[1..] == ["", b] && tags[2..] == [b];
    assert NonEmpty(tags[2..]) == [b];
    assert NonEmpty(tags[1..]) == [b];
  }

  /** Every character of `s` belongs to `cs`: stripping `cs` leaves nothing. */
  lemma StripCharsAll(s: string, cs: set<char>)
    requires forall c :: c in s ==> c in cs
    ensures StripChars(s, cs) == ""
  {
  }

  lemma UnquotedQuotePiece(a: string, q: string, b: string)
    requires a != "" && NoneOf(a, Whitespace) && NoneOf(a, Quotes)
    requires b != "" && NoneOf(b, Whitespace) && NoneOf(b, Quotes)
    requires q != "" && forall c :: c in q ==> c in Quotes
    ensures Unquoted([a, q, b]) == [a, "", b]
  {
    var parts := [a, q, b];
    StripCharsNoneOf(a, Whitespace);
    StripCharsNoneOf(b, Whitespace);
    StripCharsNoneOf(a, Quotes);
    StripCharsNoneOf(b, Quotes);
    assert NoneOf(q, Whitespace);
    StripCharsNoneOf(q, Whitespace);
    StripCharsAll(q, Quotes);
    assert parts[1..] == [q, b] && parts[2..] == [b];
    assert Unquoted(parts[2..]) == [b];
    assert Unquoted(parts[1..]) == ["", b];
  }

  /** A tag free of commas and whitespace that neither starts nor ends with a quote. */
  predicate BareTag(t: string) {
    t != "" && NoneOf(t, TagSeparators) && t[0] !in Quotes && t[|t| - 1] !in Quotes
  }

  /** A tag that neither starts with an opening bracket or quote nor ends with a closing one
      is bare, quotes being among both. */
  lemma BareTags(tags: seq<string>)
    requires forall i :: 0 <= i < |tags| ==>
      && tags[i] != "" && NoneOf(tags[i], TagSeparators)
      && tags[i][0] !in LeadingMarks && tags[i][|tags[i]| - 1] !in TrailingMarks
    ensures forall t :: t in tags ==> BareTag(t)
  {
    assert Quotes <= LeadingMarks && Quotes <= TrailingMarks;
  }

  /** Bare tags pass through unquoting. */
  lemma {:induction false} UnquotedKeeps(tags: seq<string>)
    requires forall t :: t in tags ==> BareTag(t)
    ensures Unquoted(tags) == tags
    decreases |tags|
  {
    if |tags| > 0 {
      UnquotedKeepsHead(tags);
      UnquotedKeeps(tags[1..]);
    }
  }

  lemma UnquotedKeepsHead(tags: seq<string>)
    requires |tags| > 0 && BareTag(tags[0])
    ensures Unquoted(tags) == [tags[0]] + Unquoted(tags[1..])
  {
    var t := tags[0];
    StripCharsNoneOf(t, Whitespace);
    StripCharsTrimmed(t, Quotes);
  }

  /** Tags joined by commas parse back to the same tags (the text is not a JSON array),
      provided no tag holds a comma or whitespace, starts with an opening bracket or quote,
      or ends with a closing bracket or quote. */
  lemma TagsRoundTrip(tags: seq<string>, json: Option<Json>)
    requires |tags| > 0 && !(json.Some? && json.value.JArray?)
    requires forall i :: 0 <= i < |tags| ==>
      && tags[i] != "" && NoneOf(tags[i], TagSeparators)
      && tags[i][0] !in LeadingMarks && tags[i][|tags[i]| - 1] !in TrailingMarks
    ensures ParseTags(Join(tags, ","), json) == tags
  {
    JoinedTagParts(tags);
    BareTags(tags);
    UnquotedKeeps(tags);
    NonEmptyKeeps(tags);
  }

  /** Pieces free of commas and whitespace, joined by commas, are split back into the pieces,
      provided the first does not start with an opening bracket or quote and the last does
      not end with a closing one. */
  lemma JoinedTagParts(parts: seq<string>)
    requires |parts| > 0 && forall i :: 0 <= i < |parts| ==> NoneOf(parts[i], TagSeparators)
    requires parts[0] != "" && parts[0][0] !in LeadingMarks
    requires parts[|parts| - 1] != "" && parts[|parts| - 1][|parts[|parts| - 1]| - 1] !in TrailingMarks
    ensures Join(parts, ",") != "" && TagParts(Join(parts, ",")) == parts
  {
    JoinedTagsStripped(parts);
    JoinedTagsUnwrapped(parts);
    SplitJoin(parts, ',', TagSeparators);
  }

  /** Such pieces joined by commas hold no whitespace, so stripping leaves them alone. */
  lemma JoinedTagsStripped(parts: seq<string>)
    requires forall i :: 0 <= i < |parts| ==> NoneOf(parts[i], TagSeparators)
    ensures Strip(Join(parts, ",")) == Join(parts, ",")
  {
    assert forall i :: 0 <= i < |parts| ==> NoneOf(parts[i], Whitespace);
    JoinNoneOf(parts, ",", Whitespace);
    StripCharsNoneOf(Join(parts, ","), Whitespace);
  }

  /** Such pieces joined by commas neither start with an opening bracket or quote nor end
      with a closing one, so unwrapping leaves them alone. */
  lemma JoinedTagsUnwrapped(parts: seq<string>)
    requires |parts| > 0
    requires parts[0] != "" && parts[0][0] !in LeadingMarks
    requires parts[|parts| - 1] != "" && parts[|parts| - 1][|parts[|parts| - 1]| - 1] !in TrailingMarks
    ensures Join(parts, ",") != "" && Unwrap(Join(parts, ",")) == Join(parts, ",")
  {
    var s := Join(parts, ",");
    JoinEnds(parts, ",");
    var first, last := parts[0], parts[|parts| - 1];
    assert s[0] == first[0];
    assert s[|s| - 1] == last[|last| - 1];
    LStripStops(s, LeadingMarks);
    RStripStops(s, TrailingMarks);
  }

  // ---------------------------------------------------------------------------
  // weighted_choice and the language draw of `one`
  // ---------------------------------------------------------------------------

  /** The running total of the weights up to and including position `j`. */
  function RunningTotal(w: Dict<real>, j: nat): real
    requires j < |w|
  {
    PrefixSum(w, j + 1)
  }

  /** The first position from `i` on at which the running total reaches `r`, if any. */
  function Reach(w: Dict<real>, r: real, i: nat): (k: Option<nat>)
    requires i <= |w|
    ensures k.Some? ==> i <= k.value < |w| && r <= RunningTotal(w, k.value)
    ensures k.Some? ==> forall j :: i <= j < k.value ==> RunningTotal(w, j) < r
    ensures k.None? ==> forall j :: i <= j < |w| ==> RunningTotal(w, j) < r
    decreases |w| - i
  {
    if i == |w| then None
    else if r <= RunningTotal(w, i) then Some(i)
    else Reach(w, r, i + 1)
  }

  /** The loop `weighted_choice` and the language draw of `one` both run: `acc` adds up the
      weights in order and the first position with `r <= acc` is taken; `None` when the
      loop runs out. */
  method FirstReaching(w: Dict<real>, r: real) returns (k: Option<nat>)
    ensures k == Reach(w, r, 0)
  {
    var acc := 0.0;
    var i := 0;
    while i < |w|
      invariant 0 <= i <= |w|
      invariant acc == PrefixSum(w, i)
      invariant forall j :: 0 <= j < i ==> RunningTotal(w, j) < r
    {
      PrefixSumStep(w, i);
      acc := acc + w[i].1;
      if r <= acc {
        assert r <= RunningTotal(w, i);
        return Some(i);
      }
      i := i + 1;
    }
    return None;
  }

  /** What `weighted_choice(w)` returns for the draw `r`: the key at the first position the
      running total reaches, the last key when none does (the rounding fallback), and
      nothing (an `IndexError`) for an empty mapping. */
  function Choice(w: Dict<real>, r: real): (key: Option<string>)
    ensures key.None? <==> |w| == 0
    ensures key.Some? ==> key.value in Keys(w)
  {
    if |w| == 0 then None
    else
      var k := match Reach(w, r, 0) case Some(k) => k case None => |w| - 1;
      assert Keys(w)[k] == w[k].0;
      Some(w[k].0)
  }

  /** `weighted_choice(weights)` for the draw `r`. */
  method WeightedChoice(w: Dict<real>, r: real) returns (key: Option<string>)
    ensures key == Choice(w, r)
  {
    if |w| == 0 {
      return None;
    }
    var k := FirstReaching(w, r);
    match k
    case Some(i) =>
      key := Some(w[i].0);
    case None =>
      key := Some(w[|w| - 1].0);
  }

  /** The fallback is only taken when the draw exceeds the total: for a normalised mix and a
      draw below one, the choice is the first position the running total reaches. */
  lemma ChoiceReaches(w: Dict<real>, r: real)
    requires |w| > 0 && r <= Sum(w)
    ensures Reach(w, r, 0).Some?
  {
    assert w[..|w|] == w;
    assert r <= RunningTotal(w, |w| - 1);
  }

  /** For a positive draw the chosen position, when the running total reaches the draw, has
      a positive weight: a zero or negative weight is never chosen this way. */
  lemma ChosenWeightPositive(w: Dict<real>, r: real)
    requires 0.0 < r && Reach(w, r, 0).Some?
    ensures w[Reach(w, r, 0).value].1 > 0.0
  {
    var k := Reach(w, r, 0).value;
    PrefixSumStep(w, k);
    if k == 0 {
      assert w[..0] == [];
    } else {
      assert RunningTotal(w, k - 1) < r;
    }
  }

  /** The language `one` draws for `r`: the key at the first position the running total
      reaches; when none does, or the key reached is the empty string (`if not lang`), the
      last key; nothing (an `IndexError`) for an empty mix. */
  function LanguageChoice(mix: Dict<real>, r: real): (lang: Option<string>)
    ensures lang.None? <==> |mix| == 0
    ensures lang.Some? ==> lang.value in Keys(mix)
    ensures lang.Some? && lang.value == "" ==> mix[|mix| - 1].0 == ""
  {
    if |mix| == 0 then None
    else
      var last := mix[|mix| - 1].0;
      assert Keys(mix)[|mix| - 1] == last;
      match Reach(mix, r, 0)
      case None => Some(last)
      case Some(k) =>
        assert Keys(mix)[k] == mix[k].0;
        if mix[k].0 == "" then Some(last) else Some(mix[k].0)
  }

  /** The language draw of `one` for the draw `r`. */
  method SampleLanguage(mix: Dict<real>, r: real) returns (lang: Option<string>)
    ensures lang == LanguageChoice(mix, r)
  {
    if |mix| == 0 {
      return None;
    }
    var k := FirstReaching(mix, r);
    if k.Some? && mix[k.value].0 != "" {
      lang := Some(mix[k.value].0);
    } else {
      lang := Some(mix[|mix| - 1].0);
    }
  }

  /** When no language is the empty string, the language draw is `weighted_choice`. */
  lemma LanguageChoiceIsChoice(mix: Dict<real>, r: real)
    requires forall i :: 0 <= i < |mix| ==> mix[i].0 != ""
    ensures LanguageChoice(mix, r) == Choice(mix, r)
  {
  }

  // ---------------------------------------------------------------------------
  // generate_text_from_seed (the part after the completion)
  // ---------------------------------------------------------------------------

  /** The text `generate_text_from_seed` returns for the completion `completion`: the
      stripped completion, followed by a space and one or two distinct pool tags when the
      pool is non-empty and the coin falls below 0.6. */
  function ScgGenerateText(completion: string, tags: seq<string>, coin: real, countDraw: nat, pick: nat -> nat): (text: string)
    ensures Strip(completion) <= text
    ensures !(|tags| > 0 && coin < 0.6) ==> text == Strip(completion)
    ensures |tags| > 0 && coin < 0.6 ==>
      exists picks :: 1 <= |picks| <= 2 && multiset(picks) <= multiset(tags)
        && text == Strip(completion) + " " + Join(picks, " ")
  {
    AppendTags(Strip(completion), tags, coin, ScgTagCount(|tags|, countDraw), pick)
  }

  /** For the same completion and draws both workers produce the same text. */
  lemma SameTextAsBackend(completion: string, tags: seq<string>, coin: real, countDraw: nat, pick: nat -> nat)
    ensures ScgGenerateText(completion, tags, coin, countDraw, pick)
      == BackendWorker.GenerateText(completion, tags, coin, countDraw, pick)
  {
    TagCountsAgree(|tags|, countDraw);
  }

  // ---------------------------------------------------------------------------
  // one(wait_s)
  // ---------------------------------------------------------------------------

  /** What the world does during one scheduled post: the two sampling draws, the completion
      (`None` if the call raised), the hashtag draws, and whether the backend accepted the post. */
  datatype PostDraws = PostDraws(
    langDraw: real, personaDraw: real,
    completion: Option<string>,
    tagCoin: real, tagCountDraw: nat, tagPicks: nat -> nat,
    accepted: bool)

  /** Why `one` raised: an empty language or persona mapping, a failed completion, or a
      request the backend refused. */
  datatype PostError = NoLanguages | NoPersonas | GenerationFailed | PostRejected

  /** The payload `one` posts for seed `seed`, or the step that raised, in the order the
      steps run. A posted payload is a simulated post of the seed with a language and a
      persona of the configured mappings, the generated text and every configured tag. */
  function OnePost(seed: int, langs: Dict<real>, personas: Dict<real>, tags: seq<string>, d: PostDraws): (r: Result<PostCreate, PostError>)
    ensures |langs| == 0 ==> r == Failure(NoLanguages)
    ensures |langs| > 0 && |personas| == 0 ==> r == Failure(NoPersonas)
    ensures |langs| > 0 && |personas| > 0 ==> (r.Failure? <==> d.completion.None? || !d.accepted)
    ensures |langs| > 0 && |personas| > 0 && d.completion.None? ==> r == Failure(GenerationFailed)
    ensures r.Success? ==>
      && r.value.isSimulated == Some(true) && r.value.seedPostId == Some(seed)
      && r.value.lang.Some? && r.value.lang.value in Keys(langs)
      && r.value.persona.Some? && r.value.persona.value in Keys(personas)
      && d.completion.Some? && Strip(d.completion.value) <= r.value.text
      && r.value.hashtags == HashtagField(tags)
  {
    var lang := LanguageChoice(langs, d.langDraw);
    var persona := Choice(personas, d.personaDraw);
    if lang.None? then Failure(NoLanguages)
    else if persona.None? then Failure(NoPersonas)
    else if d.completion.None? then Failure(GenerationFailed)
    else if !d.accepted then Failure(PostRejected)
    else
      var text := ScgGenerateText(d.completion.value, tags, d.tagCoin, d.tagCountDraw, d.tagPicks);
      Success(PostCreate(text, Some(true), persona, Some(seed), lang, HashtagField(tags)))
  }

  /** The persona `one` registers in the catalog: the drawn one, once both draws succeeded. */
  function OnePersona(langs: Dict<real>, personas: Dict<real>, d: PostDraws): (name: Option<string>)
    ensures name.Some? <==> |langs| > 0 && |personas| > 0
    ensures name.Some? ==> name.value in Keys(personas)
  {
    if |langs| == 0 then None else Choice(personas, d.personaDraw)
  }

  /** `one(wait_s)` after its sleep: draw the language and the persona, register the persona,
      generate the text and post it. The store gains the row of `OnePost` or, when a step
      raises, nothing; the catalog gains the persona once it is drawn. */
  method RunOne(seed: int, langs: Dict<real>, personas: Dict<real>, tags: seq<string>,
                store: Store, catalog: PersonaCatalog, d: PostDraws) returns (r: Outcome<PostError>)
    requires store.Valid()
    modifies store, catalog
    ensures store.Valid()
    ensures catalog.styles == Register(old(catalog.styles), OnePersona(langs, personas, d))
    ensures r.Fail? <==> OnePost(seed, langs, personas, tags, d).Failure?
    ensures r.Fail? ==> r.error == OnePost(seed, langs, personas, tags, d).error && store.State() == old(store.State())
    ensures r.Pass? ==> store.State() == InsertPost(old(store.State()), OnePost(seed, langs, personas, tags, d).value)
  {
    var lang := SampleLanguage(langs, d.langDraw);
    if lang.None? {
      return Fail(NoLanguages);
    }
    var persona := WeightedChoice(personas, d.personaDraw);
    if persona.None? {
      return Fail(NoPersonas);
    }
    catalog.RegisterPersona(persona.value);
    if d.completion.None? {
      return Fail(GenerationFailed);
    }
    var text := ScgGenerateText(d.completion.value, tags, d.tagCoin, d.tagCountDraw, d.tagPicks);
    if !d.accepted {
      return Fail(PostRejected);
    }
    var row := store.CreatePost(PostCreate(text, Some(true), persona, Some(seed), lang, HashtagField(tags)));
    r := Pass;
  }

  /** A post `one` stores is a new unprocessed simulated row of the seed, appended after every
      existing row, whose language and persona come from the configured mappings; the
      persona is in the catalog afterwards. */
  lemma OnePostStored(db: Db, styles: map<string, string>, seed: int, langs: Dict<real>, personas: Dict<real>,
                      tags: seq<string>, d: PostDraws)
    requires OnePost(seed, langs, personas, tags, d).Success?
    ensures var p := OnePost(seed, langs, personas, tags, d).value;
      var after := InsertPost(db, p);
      && |after.posts| == |db.posts| + 1 && after.posts[..|db.posts|] == db.posts
      && var row := after.posts[|db.posts|];
      && row.isSimulated && !row.processed && row.seedPostId == Some(seed)
      && row.lang.Some? && row.lang.value in Keys(langs)
      && row.persona.Some? && row.persona.value in Keys(personas)
      && row.persona.value in Register(styles, OnePersona(langs, personas, d))
  {
    var p := OnePost(seed, langs, personas, tags, d).value;
    InsertPostAppends(db, p);
    RegisterExtends(styles, OnePersona(langs, personas, d));
  }
}
