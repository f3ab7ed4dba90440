/**
 * The configuration text both generation workers read: comma-separated `key<sep>value`
 * chunks, JSON objects of numbers, lists of stripped items, and the text form a weight
 * table is written in.
 */
module ConfigText {
  import opened Wrappers
  import opened Text
  import opened Dicts

  /** What the loop reads from each comma-separated chunk. */
  function Fields(chunks: seq<string>, sep: char): (fs: seq<Option<(string, string)>>)
    ensures |fs| == |chunks| && forall i :: 0 <= i < |chunks| ==> fs[i] == KeyValue(chunks[i], sep)
  {
    seq(|chunks|, i requires 0 <= i < |chunks| => KeyValue(chunks[i], sep))
  }

  /** The numbers of a JSON object when `float()` accepts every value; `None` when the text
      is not JSON, is not an object, or holds a value that does not convert. */
  function JsonNumbers(json: Option<Json>): Option<Dict<real>> {
    if json.Some? && json.value.JObject? then AllNumbers(json.value.entries) else None
  }

  /** The chunks of a table written out as `key<sep>value` pieces. */
  function Chunks(d: Dict<real>, sep: char, render: real -> string): (cs: seq<string>)
    ensures |cs| == |d| && forall i :: 0 <= i < |d| ==> cs[i] == d[i].0 + [sep] + render(d[i].1)
  {
    seq(|d|, i requires 0 <= i < |d| => d[i].0 + [sep] + render(d[i].1))
  }

  /** A table written out as `key<sep>value` chunks joined by commas, `render` giving the
      text of each number. */
  function EncodeWeights(d: Dict<real>, sep: char, render: real -> string): string {
    Join(Chunks(d, sep, render), ",")
  }

  /** Keys and rendered numbers that survive a trip through the text form. */
  predicate Encodable(d: Dict<real>, sep: char, render: real -> string, parseFloat: string -> Option<real>) {
    forall i :: 0 <= i < |d| ==>
      && Trimmed(d[i].0) && NoneOf(d[i].0, {',', sep})
      && Trimmed(render(d[i].1)) && NoneOf(render(d[i].1), {','})
      && parseFloat(render(d[i].1)) == Some(d[i].1)
  }

  /** `[x.strip() for x in items if x.strip()]` */
  function NonEmptyStripped(items: seq<string>): (r: seq<string>)
    ensures |r| <= |items|
    ensures forall t :: t in r ==> t != "" && Trimmed(t)
    decreases |items|
  {
    if |items| == 0 then []
    else
      var t := Strip(items[0]);
      var rest := NonEmptyStripped(items[1..]);
      if t != "" then [t] + rest else rest
  }

  /** Stripping removes characters and never adds one. */
  lemma {:induction false} NonEmptyStrippedNoneOf(items: seq<string>, cs: set<char>)
    requires forall i :: 0 <= i < |items| ==> NoneOf(items[i], cs)
    ensures forall t :: t in NonEmptyStripped(items) ==> NoneOf(t, cs)
    decreases |items|
  {
    if |items| > 0 {
      StripCharsSubset(items[0], Whitespace);
      NonEmptyStrippedNoneOf(items[1..], cs);
    }
  }

  /** Items that are already stripped and non-empty pass through unchanged. */
  lemma {:induction false} NonEmptyStrippedKeeps(items: seq<string>)
    requires forall i :: 0 <= i < |items| ==> items[i] != "" && Trimmed(items[i])
    ensures NonEmptyStripped(items) == items
    decreases |items|
  {
    if |items| > 0 {
      var rest := items[1..];
      assert forall i :: 0 <= i < |rest| ==> rest[i] == items[i + 1];
      NonEmptyStrippedKeeps(rest);
      StripCharsTrimmed(items[0], Whitespace);
      assert NonEmptyStripped(items) == [items[0]] + NonEmptyStripped(rest);
      assert [items[0]] + rest == items;
    }
  }
}
