/**
 * The generation worker embedded in the backend process (backend/worker.py): weight
 * normalisation and weighted sampling, the three configuration parsers, the text the
 * worker stores for one generated post, and the `SCGWorker` object with its FIFO queue,
 * run flag and the sequential per-seed loop.
 *
 * The thread, the queue timeouts and `time.sleep` are not modelled: the worker runs its
 * loop sequentially, and a `stop()` issued by another thread is an event the caller
 * injects before a job or before an item. The chat completion and the database commit are
 * oracles that succeed or fail; every random draw is injected.
 */
module BackendWorker {
  import opened Wrappers
  import opened Text
  import opened Dicts
  import opened Crud
  import opened ConfigText
  import opened Generation

  // ---------------------------------------------------------------------------
  // _normalize_weights / sample_by_weights
  // ---------------------------------------------------------------------------

  /** `max(0.0, float(v))`, where a value `float()` rejects (`None`) counts as 0. */
  function ClampWeight(v: Option<real>): real {
    if v.Some? && v.value > 0.0 then v.value else 0.0
  }

  /** The clamped weights, keys and order kept. */
  function Clamped(w: Dict<Option<real>>): (r: Dict<real>)
    ensures |r| == |w|
    ensures forall i :: 0 <= i < |w| ==> r[i] == (w[i].0, ClampWeight(w[i].1))
  {
    seq(|w|, i requires 0 <= i < |w| => (w[i].0, ClampWeight(w[i].1)))
  }

  lemma {:induction false} SumNonNegative(d: Dict<real>)
    requires forall i :: 0 <= i < |d| ==> d[i].1 >= 0.0
    ensures Sum(d) >= 0.0
    decreases |d|
  {
    if |d| > 0 {
      SumNonNegative(d[1..]);
    }
  }

  lemma {:induction false} SumConstant(d: Dict<real>, c: real)
    requires forall i :: 0 <= i < |d| ==> d[i].1 == c
    ensures Sum(d) == |d| as real * c
    decreases |d|
  {
    if |d| > 0 {
      SumConstant(d[1..], c);
    }
  }

  /** `_normalize_weights(w)`: the same keys in the same order, every probability
      non-negative; proportional to the clamped weight when their total is positive,
      uniform otherwise. */
  function NormalizeWeights(w: Dict<Option<real>>): (r: Dict<real>)
    ensures Keys(r) == Keys(w)
    ensures forall i :: 0 <= i < |r| ==> r[i].1 >= 0.0
    ensures Sum(Clamped(w)) > 0.0 ==>
      forall i :: 0 <= i < |r| ==> r[i].1 == ClampWeight(w[i].1) / Sum(Clamped(w))
    ensures Sum(Clamped(w)) <= 0.0 ==> forall i :: 0 <= i < |r| ==> r[i].1 == 1.0 / |w| as real
  {
    var vals := Clamped(w);
    var s := Sum(vals);
    if s <= 0.0 then
      var p := 1.0 / (if |w| >= 1 then |w| else 1) as real;
      var r := seq(|w|, i requires 0 <= i < |w| => (w[i].0, p));
      assert Keys(r) == Keys(w);
      r
    else
      var r := Scale(vals, s);
      assert Keys(r) == Keys(w);
      assert forall i :: 0 <= i < |r| ==> r[i].1 == vals[i].1 / s;
      r
  }

  /** The probabilities of a non-empty mapping add up to one. */
  lemma NormalizeSumsToOne(w: Dict<Option<real>>)
    requires |w| > 0
    ensures Sum(NormalizeWeights(w)) == 1.0
  {
    if Sum(Clamped(w)) > 0.0 {
      ProportionalSumsToOne(w);
    } else {
      UniformSumsToOne(w);
    }
  }

  lemma ProportionalSumsToOne(w: Dict<Option<real>>)
    requires Sum(Clamped(w)) > 0.0
    ensures Sum(NormalizeWeights(w)) == 1.0
  {
    var vals := Clamped(w);
    var s := Sum(vals);
    var r := NormalizeWeights(w);
    assert r == Scale(vals, s);
    SumScale(vals, s);
    assert s / s == 1.0;
  }

  lemma UniformSumsToOne(w: Dict<Option<real>>)
    requires |w| > 0 && Sum(Clamped(w)) <= 0.0
    ensures Sum(NormalizeWeights(w)) == 1.0
  {
    var r := NormalizeWeights(w);
    var n := |w| as real;
    var p := 1.0 / n;
    assert forall i :: 0 <= i < |r| ==> r[i].1 == p;
    SumConstant(r, p);
    assert |r| as real == n;
    assert n * p == 1.0;
  }

  /** `bisect_right(cum_weights, x, 0, hi)` on the running totals of `probs`: the first
      position whose running total exceeds `x`, or `hi` if none before it does. */
  function Bisect(probs: Dict<real>, x: real, i: nat, hi: nat): (k: nat)
    requires i <= hi < |probs|
    ensures i <= k <= hi
    ensures forall j :: i < j <= k ==> PrefixSum(probs, j) <= x
    ensures k < hi ==> x < PrefixSum(probs, k + 1)
    decreases hi - i
  {
    if i == hi then hi
    else if x < PrefixSum(probs, i + 1) then i
    else Bisect(probs, x, i + 1, hi)
  }

  /** The position `random.choices(keys, weights=probs)` picks for the uniform draw `u`. */
  function SampleIndex(w: Dict<Option<real>>, u: real): (k: nat)
    requires |w| > 0
    ensures k < |w|
  {
    var probs := NormalizeWeights(w);
    assert |probs| == |Keys(w)|;
    Bisect(probs, u * Sum(probs), 0, |probs| - 1)
  }

  datatype SampleError = NothingToSample

  /** `sample_by_weights(w)`: fails on an empty mapping (the empty `zip` cannot be
      unpacked); otherwise returns one of the mapping's keys. */
  function SampleByWeights(w: Dict<Option<real>>, u: real): (r: Result<string, SampleError>)
    ensures r.Failure? <==> |w| == 0
    ensures r.Success? ==> r.value in Keys(w)
  {
    if |w| == 0 then Failure(NothingToSample)
    else
      var k := SampleIndex(w, u);
      assert Keys(w)[k] == w[k].0;
      Success(w[k].0)
  }

  /** For a draw in [0, 1) the sampled position always carries a positive probability. */
  lemma SampledIndexHasPositiveProbability(w: Dict<Option<real>>, u: real)
    requires |w| > 0 && 0.0 <= u < 1.0
    ensures NormalizeWeights(w)[SampleIndex(w, u)].1 > 0.0
  {
    var probs := NormalizeWeights(w);
    var n := |probs|;
    NormalizeSumsToOne(w);
    assert probs[..n] == probs;
    var x := u * Sum(probs);
    var k := SampleIndex(w, u);
    PrefixSumStep(probs, k);
    if k == 0 {
      assert PrefixSum(probs, 0) == 0.0;
    } else {
      assert PrefixSum(probs, k) <= x;
    }
    assert x < PrefixSum(probs, k + 1);
  }

  /** When some weight is positive, a key whose weight is missing, zero or negative is never drawn. */
  lemma SampledKeyHasPositiveWeight(w: Dict<Option<real>>, u: real)
    requires |w| > 0 && 0.0 <= u < 1.0
    requires Sum(Clamped(w)) > 0.0
    ensures w[SampleIndex(w, u)].1.Some? && w[SampleIndex(w, u)].1.value > 0.0
  {
    var k := SampleIndex(w, u);
    SampledIndexHasPositiveProbability(w, u);
    assert ClampWeight(w[k].1) / Sum(Clamped(w)) > 0.0;
  }

  // ---------------------------------------------------------------------------
  // parse_langs / parse_personas / parse_tags
  // ---------------------------------------------------------------------------

  /** A chunk whose value text `float()` rejects. */
  predicate BadField(f: Option<(string, string)>, parseFloat: string -> Option<real>) {
    f.Some? && parseFloat(f.value.1).None?
  }

  /** The CSV loop of the backend parsers over the chunks' fields: a chunk without the
      separator is skipped, and a value `float()` rejects raises, which ends the whole parse. */
  function StrictPairs(fields: seq<Option<(string, string)>>, parseFloat: string -> Option<real>): (r: Result<seq<(string, real)>, string>)
    ensures r.Success? ==> (|r.value| == 0 <==> forall i :: 0 <= i < |fields| ==> fields[i].None?)
    decreases |fields|
  {
    if |fields| == 0 then Success([])
    else
      var rest := StrictPairs(fields[1..], parseFloat);
      assert forall i :: 1 <= i < |fields| ==> fields[i] == fields[1..][i - 1];
      match fields[0]
      case None => rest
      case Some(kv) =>
        match parseFloat(kv.1)
        case None => Failure(kv.1)
        case Some(x) =>
          match rest
          case Failure(e) => Failure(e)
          case Success(ps) => Success([(kv.0, x)] + ps)
  }

  /** The CSV loop fails exactly when some chunk holds the separator and a value `float()` rejects. */
  lemma {:induction false} StrictPairsFails(fields: seq<Option<(string, string)>>, parseFloat: string -> Option<real>)
    ensures StrictPairs(fields, parseFloat).Failure? <==>
      exists i :: 0 <= i < |fields| && BadField(fields[i], parseFloat)
    decreases |fields|
  {
    if |fields| > 0 {
      StrictPairsFails(fields[1..], parseFloat);
      assert forall i :: 1 <= i < |fields| ==> fields[i] == fields[1..][i - 1];
    }
  }

  /** Chunks that each read one pair give exactly those pairs, in order. */
  lemma {:induction false} StrictPairsAllRead(fields: seq<Option<(string, string)>>, d: Dict<real>, parseFloat: string -> Option<real>)
    requires |fields| == |d|
    requires forall i :: 0 <= i < |d| ==>
      fields[i].Some? && fields[i].value.0 == d[i].0 && parseFloat(fields[i].value.1) == Some(d[i].1)
    ensures StrictPairs(fields, parseFloat) == Success(d)
    decreases |d|
  {
    if |d| > 0 {
      assert forall i :: 0 <= i < |d| - 1 ==> fields[1..][i] == fields[i + 1] && d[1..][i] == d[i + 1];
      StrictPairsAllRead(fields[1..], d[1..], parseFloat);
      assert [d[0]] + d[1..] == d;
    }
  }

  /** `parse_langs` and `parse_personas` of the backend: `json` is what `json.loads(s)`
      produced (`None` if it raised). An empty string gives the default; an object of
      numbers is taken as is, even when empty; otherwise the comma-separated chunks are
      parsed, a rejected number fails the whole parse, and an empty result gives the default. */
  function BackendParseWeights(s: string, json: Option<Json>, sep: char, parseFloat: string -> Option<real>, default: Dict<real>): (r: Result<Dict<real>, string>)
    requires DistinctKeys(default) && |default| > 0
    ensures s == "" ==> r == Success(default)
    ensures r.Success? ==> DistinctKeys(r.value)
    ensures s != "" && JsonNumbers(json).Some? ==> r == Success(FromPairs(JsonNumbers(json).value))
    ensures r.Failure? ==> s != "" && JsonNumbers(json).None?
    ensures r.Success? && r.value == [] ==> json == Some(JObject([]))
  {
    if s == "" then Success(default)
    else if JsonNumbers(json).Some? then
      var d := JsonNumbers(json).value;
      assert |d| > 0 ==> d[0].0 in Keys(d) && Keys(d)[0] == d[0].0;
      Success(FromPairs(d))
    else
      match StrictPairs(Fields(Split(s, {','}), sep), parseFloat)
      case Failure(e) => Failure(e)
      case Success(ps) =>
        if ps == [] then Success(default)
        else
          assert Keys(ps)[0] == ps[0].0;
          Success(FromPairs(ps))
  }

  /** `backend/worker.py` `parse_langs` */
  function BackendParseLangs(s: string, json: Option<Json>, parseFloat: string -> Option<real>): Result<Dict<real>, string> {
    BackendParseWeights(s, json, '=', parseFloat, DefaultLangs)
  }

  /** `backend/worker.py` `parse_personas` */
  function BackendParsePersonas(s: string, json: Option<Json>, parseFloat: string -> Option<real>): Result<Dict<real>, string> {
    BackendParseWeights(s, json, ':', parseFloat, DefaultPersonas)
  }

  /** Writing a table out as `key<sep>value,key<sep>value…` and parsing it back (the text is
      not a JSON object) gives the table back. */
  lemma WeightsRoundTrip(d: Dict<real>, sep: char, render: real -> string, parseFloat: string -> Option<real>, json: Option<Json>, default: Dict<real>)
    requires |d| > 0 && DistinctKeys(d) && sep != ','
    requires Encodable(d, sep, render, parseFloat)
    requires JsonNumbers(json).None?
    requires DistinctKeys(default) && |default| > 0
    ensures BackendParseWeights(EncodeWeights(d, sep, render), json, sep, parseFloat, default) == Success(d)
  {
    var cs := Chunks(d, sep, render);
    forall i | 0 <= i < |cs| ensures NoneOf(cs[i], {','}) {
      assert forall c :: c in cs[i] ==> c in d[i].0 || c == sep || c in render(d[i].1);
    }
    SplitJoin(cs, ',', {','});
    var fs := Fields(cs, sep);
    forall i | 0 <= i < |d| ensures fs[i] == Some((d[i].0, render(d[i].1))) {
      KeyValueGlue(d[i].0, sep, render(d[i].1));
    }
    StrictPairsAllRead(fs, d, parseFloat);
    FromPairsDistinct(d);
    assert EncodeWeights(d, sep, render) != "" by {
      assert cs[0][|d[0].0|] == sep;
      if |cs| > 1 {
        assert EncodeWeights(d, sep, render) == cs[0] + "," + Join(cs[1..], ",");
      }
    }
  }

  /** `parse_tags` of the backend: the default pool for an empty string; for a JSON array its
      stripped non-empty items; otherwise the stripped non-empty pieces between commas and
      semicolons. Every tag is non-empty and stripped, and a tag from the text form holds
      neither separator. */
  function BackendParseTags(s: string, json: Option<Json>): (r: seq<string>)
    ensures s == "" ==> r == DefaultTags
    ensures forall t :: t in r ==> t != "" && Trimmed(t)
    ensures s != "" && !(json.Some? && json.value.JArray?) ==> forall t :: t in r ==> NoneOf(t, {',', ';'})
  {
    if s == "" then DefaultTags
    else if json.Some? && json.value.JArray? then NonEmptyStripped(json.value.items)
    else
      var parts := Split(s, {',', ';'});
      NonEmptyStrippedNoneOf(parts, {',', ';'});
      NonEmptyStripped(parts)
  }

  /** Tags joined by commas parse back to the same tags (the text is not a JSON array). */
  lemma TagsRoundTrip(tags: seq<string>, json: Option<Json>)
    requires |tags| > 0 && !(json.Some? && json.value.JArray?)
    requires forall i :: 0 <= i < |tags| ==> tags[i] != "" && Trimmed(tags[i]) && NoneOf(tags[i], {',', ';'})
    ensures BackendParseTags(Join(tags, ","), json) == tags
  {
    SplitJoin(tags, ',', {',', ';'});
    NonEmptyStrippedKeeps(tags);
    assert Join(tags, ",") != "" by {
      if |tags| > 1 {
        assert Join(tags, ",") == tags[0] + "," + Join(tags[1..], ",");
      }
    }
  }

  // ---------------------------------------------------------------------------
  // _generate (the part after the completion)
  // ---------------------------------------------------------------------------

  /** The text `_generate` returns for the completion `completion`: the stripped completion,
      followed by a space and one or two distinct pool tags when the pool is non-empty and
      the coin falls below 0.6. */
  function GenerateText(completion: string, tags: seq<string>, coin: real, countDraw: nat, pick: nat -> nat): (text: string)
    ensures Strip(completion) <= text
    ensures !(|tags| > 0 && coin < 0.6) ==> text == Strip(completion)
    ensures |tags| > 0 && coin < 0.6 ==>
      exists picks :: 1 <= |picks| <= 2 && multiset(picks) <= multiset(tags)
        && text == Strip(completion) + " " + Join(picks, " ")
  {
    AppendTags(Strip(completion), tags, coin, BackendTagCount(|tags|, countDraw), pick)
  }

  // ---------------------------------------------------------------------------
  // SCGWorker
  // ---------------------------------------------------------------------------

  /** `WorkerConfig`, with the weights as handed to `sample_by_weights`. */
  datatype WorkerConfig = WorkerConfig(
    n: int, minutes: int, ppm: Option<real>,
    langs: Dict<Option<real>>, personas: Dict<Option<real>>, tags: seq<string>)

  /** The weights a parser produced, every one a number. */
  function Numbers(d: Dict<real>): (r: Dict<Option<real>>)
    ensures |r| == |d| && forall i :: 0 <= i < |d| ==> r[i] == (d[i].0, Some(d[i].1))
  {
    seq(|d|, i requires 0 <= i < |d| => (d[i].0, Some(d[i].1)))
  }

  /** What the world does during one item of a job: whether `stop()` ran before the item's
      run-flag check, the two sampling draws, the completion (`None` if the call raised),
      the hashtag draws, and whether the commit went through. */
  datatype ItemDraws = ItemDraws(
    stopRequested: bool,
    langDraw: real, personaDraw: real,
    completion: Option<string>,
    tagCoin: real, tagCountDraw: nat, tagPicks: nat -> nat,
    stored: bool)

  /** What the world does during one job: whether `stop()` ran before the loop's run-flag
      check, the unit exponential draws of the schedule, and the items. */
  datatype JobDraws = JobDraws(stopRequested: bool, unitWaits: nat -> real, items: nat -> ItemDraws)

  /** Why an item raised, ending the job: an empty language or persona mapping, a failed
      completion or a failed commit. */
  datatype ItemError = NoLanguages | NoPersonas | GenerationFailed | StoreFailed

  /** How `_run_for_seed` ended: the seed was not found, the schedule ran out, the run flag
      was found cleared, or an item raised (the exception `_loop` catches). */
  datatype JobOutcome = SeedMissing | Finished(created: nat) | Stopped(created: nat) | Aborted(created: nat, error: ItemError)

  /** `n` waits, none when `n <= 0`. */
  function Count(n: int): nat {
    if n <= 0 then 0 else n
  }

  /** The row an item of the job on seed `seed` stores: a simulated, unprocessed post of the
      seed with the sampled language and persona, the generated text and every configured tag. */
  predicate StoredItem(p: Post, seed: int, cfg: WorkerConfig, item: ItemDraws) {
    && p.isSimulated && !p.processed && p.seedPostId == Some(seed)
    && SampleByWeights(cfg.langs, item.langDraw).Success?
    && p.lang == Some(SampleByWeights(cfg.langs, item.langDraw).value)
    && SampleByWeights(cfg.personas, item.personaDraw).Success?
    && p.persona == Some(SampleByWeights(cfg.personas, item.personaDraw).value)
    && item.completion.Some?
    && p.text == GenerateText(item.completion.value, cfg.tags, item.tagCoin, item.tagCountDraw, item.tagPicks)
    && p.hashtags == HashtagField(cfg.tags)
  }

  /** A stored item's language and persona are keys of the configured mappings, and its text
      starts with the stripped completion. */
  lemma StoredItemProperties(p: Post, seed: int, cfg: WorkerConfig, item: ItemDraws)
    requires StoredItem(p, seed, cfg, item)
    ensures p.lang.Some? && p.lang.value in Keys(cfg.langs)
    ensures p.persona.Some? && p.persona.value in Keys(cfg.personas)
    ensures item.completion.Some? && Strip(item.completion.value) <= p.text
    ensures p.hashtags.Some? <==> cfg.tags != []
  {
  }

  /** The persona an item registers in the catalog: the sampled one, once both the language
      and the persona could be sampled. */
  function ItemPersona(cfg: WorkerConfig, item: ItemDraws): (name: Option<string>)
    ensures name.Some? <==> |cfg.langs| > 0 && |cfg.personas| > 0
    ensures name.Some? ==> name.value in Keys(cfg.personas)
  {
    var lang := SampleByWeights(cfg.langs, item.langDraw);
    var persona := SampleByWeights(cfg.personas, item.personaDraw);
    if lang.Success? && persona.Success? then Some(persona.value) else None
  }

  /** The payload an item stores, or the step that raised: an empty language mapping, an
      empty persona mapping, a failed completion or a failed commit, in that order. */
  function ItemPost(seed: int, cfg: WorkerConfig, item: ItemDraws): (r: Result<PostCreate, ItemError>)
    ensures |cfg.langs| == 0 ==> r == Failure(NoLanguages)
    ensures |cfg.langs| > 0 && |cfg.personas| == 0 ==> r == Failure(NoPersonas)
    ensures ItemPersona(cfg, item).Some? ==>
      (r.Failure? <==> item.completion.None? || !item.stored)
    ensures item.completion.None? && ItemPersona(cfg, item).Some? ==> r == Failure(GenerationFailed)
    ensures r.Success? ==> r.value.persona == ItemPersona(cfg, item)
  {
    var lang := SampleByWeights(cfg.langs, item.langDraw);
    var persona := SampleByWeights(cfg.personas, item.personaDraw);
    if lang.Failure? then Failure(NoLanguages)
    else if persona.Failure? then Failure(NoPersonas)
    else if item.completion.None? then Failure(GenerationFailed)
    else if !item.stored then Failure(StoreFailed)
    else
      var text := GenerateText(item.completion.value, cfg.tags, item.tagCoin, item.tagCountDraw, item.tagPicks);
      Success(PostCreate(text, Some(true), Some(persona.value), Some(seed), Some(lang.value), HashtagField(cfg.tags)))
  }

  /** The row an item stores, whatever key and timestamp it gets, is the row `StoredItem`
      describes. */
  lemma ItemPostStored(id: int, createdAt: int, seed: int, cfg: WorkerConfig, item: ItemDraws)
    requires ItemPost(seed, cfg, item).Success?
    ensures StoredItem(NewRow(id, createdAt, ItemPost(seed, cfg, item).value), seed, cfg, item)
  {
  }

  /** What one item does once its draws are known: whether `stop()` is seen before it, the
      persona it registers, and the payload it stores or the step that raised. */
  datatype ItemStep = ItemStep(stop: bool, persona: Option<string>, post: Result<PostCreate, ItemError>)

  function Step(seed: int, cfg: WorkerConfig, item: ItemDraws): ItemStep {
    ItemStep(item.stopRequested, ItemPersona(cfg, item), ItemPost(seed, cfg, item))
  }

  /** The steps of the first `n` items of a job, item `j` at position `j`. */
  function JobSteps(seed: int, cfg: WorkerConfig, items: nat -> ItemDraws, n: nat): (steps: seq<ItemStep>)
    ensures |steps| == n
  {
    seq(n, (j: int) requires 0 <= j => Step(seed, cfg, items(j)))
  }

  /** The first item from `i` on at which `stop()` is seen; the number of items if none. */
  function FirstStop(steps: seq<ItemStep>, i: nat): (k: nat)
    requires i <= |steps|
    ensures i <= k <= |steps|
    ensures forall j :: i <= j < k ==> !steps[j].stop
    ensures k < |steps| ==> steps[k].stop
    decreases |steps| - i
  {
    if i == |steps| then i
    else if steps[i].stop then i
    else FirstStop(steps, i + 1)
  }

  /** What a job reads and changes: the database, the persona catalog and the run flag. */
  datatype JobState = JobState(db: Db, styles: map<string, string>, running: bool)

  /** `_run_for_seed` on a seed that exists, from item `i` on: the state the job leaves and
      how it ends. Before each item the run flag is checked (after a pending `stop()` has
      cleared it); the item's persona is registered once it is sampled, and an item that
      raises ends the job. */
  function RunJob(st: JobState, steps: seq<ItemStep>, i: nat): (r: (JobState, JobOutcome))
    requires i <= |steps|
    ensures !r.1.SeedMissing? && i <= r.1.created <= |steps|
    decreases |steps| - i
  {
    if i == |steps| then (st, Finished(i))
    else if !st.running || steps[i].stop then (st.(running := false), Stopped(i))
    else
      var styles := Register(st.styles, steps[i].persona);
      match steps[i].post
      case Failure(e) => (st.(styles := styles), Aborted(i, e))
      case Success(p) => RunJob(JobState(InsertPost(st.db, p), styles, true), steps, i + 1)
  }

  /** A job only appends posts, one per item it created, and keeps the tables well formed. */
  lemma {:induction false} RunJobAppends(st: JobState, steps: seq<ItemStep>, i: nat)
    requires i <= |steps|
    ensures var r := RunJob(st, steps, i);
      && |r.0.db.posts| == |st.db.posts| + r.1.created - i
      && r.0.db.posts[..|st.db.posts|] == st.db.posts
      && r.0.db.incidents == st.db.incidents
      && (WellFormed(st.db) ==> WellFormed(r.0.db))
    decreases |steps| - i
  {
    if i == |steps| {
    } else if !st.running || steps[i].stop {
    } else {
      match steps[i].post
      case Failure(e) =>
      case Success(p) =>
        var next := JobState(InsertPost(st.db, p), Register(st.styles, steps[i].persona), true);
        assert RunJob(st, steps, i) == RunJob(next, steps, i + 1);
        RunJobAppends(next, steps, i + 1);
        InsertPostAppends(st.db, p);
        if WellFormed(st.db) {
          InsertPostWellFormed(st.db, p);
        }
        var posts := RunJob(next, steps, i + 1).0.db.posts;
        assert posts[..|st.db.posts|] == posts[..|next.db.posts|][..|st.db.posts|];
    }
  }

  /** The rows the items from `i` up to `c` store, with consecutive keys and timestamps
      from `id` and `clock` on, up to the first item whose step raised. */
  function NewRows(id: int, clock: int, steps: seq<ItemStep>, i: nat, c: nat): (rows: seq<Post>)
    requires i <= c <= |steps|
    ensures |rows| <= c - i
    decreases c - i
  {
    if i == c then []
    else match steps[i].post
      case Failure(_) => []
      case Success(p) => [NewRow(id, clock, p)] + NewRows(id + 1, clock + 1, steps, i + 1, c)
  }

  /** The `k`-th of those rows is the row of item `i + k`, with key `id + k` and timestamp
      `clock + k`. */
  lemma {:induction false} NewRowsAt(id: int, clock: int, steps: seq<ItemStep>, i: nat, c: nat, k: nat)
    requires i <= c <= |steps| && k < |NewRows(id, clock, steps, i, c)|
    ensures i + k < |steps| && steps[i + k].post.Success?
    ensures NewRows(id, clock, steps, i, c)[k] == NewRow(id + k, clock + k, steps[i + k].post.value)
    decreases k
  {
    match steps[i].post
    case Failure(_) =>
    case Success(p) =>
      if k > 0 {
        NewRowsAt(id + 1, clock + 1, steps, i + 1, c, k - 1);
      }
  }

  /** The posts a job appends are the rows of its items, one per item it created, and the
      next key and the clock advance by one per post. */
  lemma {:induction false} RunJobRows(st: JobState, steps: seq<ItemStep>, i: nat)
    requires i <= |steps|
    ensures var r := RunJob(st, steps, i);
      && r.0.db.posts == st.db.posts + NewRows(st.db.nextPostId, st.db.clock, steps, i, r.1.created)
      && |NewRows(st.db.nextPostId, st.db.clock, steps, i, r.1.created)| == r.1.created - i
      && r.0.db.nextPostId == st.db.nextPostId + (r.1.created - i)
      && r.0.db.clock == st.db.clock + (r.1.created - i)
    decreases |steps| - i
  {
    if i == |steps| {
    } else if !st.running || steps[i].stop {
    } else {
      match steps[i].post
      case Failure(e) =>
      case Success(p) =>
        var next := JobState(InsertPost(st.db, p), Register(st.styles, steps[i].persona), true);
        var r := RunJob(next, steps, i + 1);
        assert RunJob(st, steps, i) == r;
        RunJobRows(next, steps, i + 1);
        var row := NewRow(st.db.nextPostId, st.db.clock, p);
        var rest := NewRows(next.db.nextPostId, next.db.clock, steps, i + 1, r.1.created);
        assert NewRows(st.db.nextPostId, st.db.clock, steps, i, r.1.created) == [row] + rest;
        assert next.db.posts == st.db.posts + [row];
        assert r.0.db.posts == st.db.posts + ([row] + rest);
    }
  }

  /** A job only adds personas to the catalog, with the default style, and the persona of
      every item it completed is in the catalog afterwards. */
  lemma {:induction false} RunJobCatalog(st: JobState, steps: seq<ItemStep>, i: nat)
    requires i <= |steps|
    ensures var r := RunJob(st, steps, i);
      && CatalogExtends(st.styles, r.0.styles)
      && forall j :: i <= j < r.1.created && steps[j].persona.Some? ==> steps[j].persona.value in r.0.styles
    decreases |steps| - i
  {
    if i == |steps| {
    } else if !st.running || steps[i].stop {
    } else {
      var styles := Register(st.styles, steps[i].persona);
      RegisterExtends(st.styles, steps[i].persona);
      match steps[i].post
      case Failure(e) =>
      case Success(p) =>
        var next := JobState(InsertPost(st.db, p), styles, true);
        var r := RunJob(next, steps, i + 1);
        assert RunJob(st, steps, i) == r;
        RunJobCatalog(next, steps, i + 1);
        CatalogExtendsTransitive(st.styles, styles, r.0.styles);
    }
  }

  /** The run flag across a job: a job never sets it; a job that starts with it clear
      stops at once; a job that stops leaves it clear; a job that runs out of waits
      created one post per wait and left the flag as it was, and so did a job that raised. */
  lemma {:induction false} RunJobFlag(st: JobState, steps: seq<ItemStep>, i: nat)
    requires i <= |steps|
    ensures var r := RunJob(st, steps, i);
      && (r.0.running ==> st.running)
      && (!st.running && i < |steps| ==> r.1 == Stopped(i))
      && (r.1.Stopped? ==> !r.0.running)
      && (r.1.Finished? ==> r.0.running == st.running && r.1.created == |steps|)
      && (r.1.Aborted? ==> r.0.running == st.running)
    decreases |steps| - i
  {
    if i == |steps| {
    } else if !st.running || steps[i].stop {
    } else {
      match steps[i].post
      case Failure(e) =>
      case Success(p) =>
        var next := JobState(InsertPost(st.db, p), Register(st.styles, steps[i].persona), true);
        assert RunJob(st, steps, i) == RunJob(next, steps, i + 1);
        RunJobFlag(next, steps, i + 1);
    }
  }

  /** A job never gets past the first item at which `stop()` is seen, and when it started
      with the flag set and stopped, it stopped exactly there. */
  lemma {:induction false} RunJobFirstStop(st: JobState, steps: seq<ItemStep>, i: nat)
    requires i <= |steps|
    ensures var r := RunJob(st, steps, i);
      && r.1.created <= FirstStop(steps, i)
      && (r.1.Stopped? && st.running ==> r.1.created == FirstStop(steps, i))
    decreases |steps| - i
  {
    if i == |steps| {
    } else if !st.running || steps[i].stop {
    } else {
      match steps[i].post
      case Failure(e) =>
      case Success(p) =>
        var next := JobState(InsertPost(st.db, p), Register(st.styles, steps[i].persona), true);
        assert RunJob(st, steps, i) == RunJob(next, steps, i + 1);
        RunJobFirstStop(next, steps, i + 1);
        assert FirstStop(steps, i) == FirstStop(steps, i + 1);
    }
  }

  /** A job that raised did so at the item whose step failed, with that step's error, and
      every item before it went through. */
  lemma {:induction false} RunJobAborted(st: JobState, steps: seq<ItemStep>, i: nat)
    requires i <= |steps|
    ensures var r := RunJob(st, steps, i);
      && (r.1.Aborted? ==> r.1.created < |steps| && steps[r.1.created].post == Failure(r.1.error))
      && forall j :: i <= j < r.1.created ==> !steps[j].stop && steps[j].post.Success?
    decreases |steps| - i
  {
    if i == |steps| {
      assert RunJob(st, steps, i).1 == Finished(i);
    } else if !st.running || steps[i].stop {
      assert RunJob(st, steps, i).1 == Stopped(i);
    } else {
      match steps[i].post
      case Failure(e) =>
        assert RunJob(st, steps, i).1 == Aborted(i, e);
      case Success(p) =>
        var next := JobState(InsertPost(st.db, p), Register(st.styles, steps[i].persona), true);
        assert RunJob(st, steps, i) == RunJob(next, steps, i + 1);
        RunJobAborted(next, steps, i + 1);
    }
  }

  /** The `k`-th row the items up to `c` store, when step `k` is the step of `item` on seed
      `seed`, is the row `StoredItem` describes for that item, with the persona it registers. */
  lemma NewRowStored(id: int, clock: int, steps: seq<ItemStep>, c: nat, k: nat, seed: int, cfg: WorkerConfig, item: ItemDraws)
    requires c <= |steps| && k < |NewRows(id, clock, steps, 0, c)|
    requires steps[k] == Step(seed, cfg, item)
    ensures var row := NewRows(id, clock, steps, 0, c)[k];
      && StoredItem(row, seed, cfg, item)
      && row.persona.Some? && row.persona == steps[k].persona
  {
    NewRowsAt(id, clock, steps, 0, c, k);
    ItemPostStored(id + k, clock + k, seed, cfg, item);
  }

  /** Every post a job on seed `seed` appends is the row `StoredItem` describes for its item,
      and its persona is in the catalog the job leaves. */
  lemma JobRowsStored(st: JobState, steps: seq<ItemStep>, seed: int, cfg: WorkerConfig, items: nat -> ItemDraws)
    requires forall j {:trigger items(j)} :: 0 <= j < |steps| ==> steps[j] == Step(seed, cfg, items(j))
    ensures var r := RunJob(st, steps, 0);
      && |r.0.db.posts| == |st.db.posts| + r.1.created
      && forall k :: 0 <= k < r.1.created ==>
           && StoredItem(r.0.db.posts[|st.db.posts| + k], seed, cfg, items(k))
           && r.0.db.posts[|st.db.posts| + k].persona.value in r.0.styles
  {
    var r := RunJob(st, steps, 0);
    RunJobRows(st, steps, 0);
    RunJobCatalog(st, steps, 0);
    var rows := NewRows(st.db.nextPostId, st.db.clock, steps, 0, r.1.created);
    forall k | 0 <= k < r.1.created
      ensures StoredItem(r.0.db.posts[|st.db.posts| + k], seed, cfg, items(k))
      ensures r.0.db.posts[|st.db.posts| + k].persona.value in r.0.styles
    {
      NewRowStored(st.db.nextPostId, st.db.clock, steps, r.1.created, k, seed, cfg, items(k));
      assert r.0.db.posts[|st.db.posts| + k] == rows[k];
    }
  }

  /** The steps `JobSteps` builds are the steps of the job's items. */
  lemma JobStepsOfItems(seed: int, cfg: WorkerConfig, items: nat -> ItemDraws, n: nat)
    ensures var steps := JobSteps(seed, cfg, items, n);
      forall j {:trigger items(j)} :: 0 <= j < |steps| ==> steps[j] == Step(seed, cfg, items(j))
  {
  }

  /** `_run_for_seed(seed)` as a whole: nothing when the seed is missing, otherwise the
      job `RunJob` describes over the seed's schedule of `Count(cfg.n)` waits. */
  function SeedJob(st: JobState, seed: int, cfg: WorkerConfig, draws: JobDraws): (r: (JobState, JobOutcome))
    ensures r.1.SeedMissing? <==> FindPost(st.db.posts, seed).None?
    ensures r.1.SeedMissing? ==> r.0 == st
  {
    if FindPost(st.db.posts, seed).None? then (st, SeedMissing)
    else RunJob(st, JobSteps(seed, cfg, draws.items, Count(cfg.n)), 0)
  }

  /** A seed's job never sets the run flag, and when the flag was set it is still set
      afterwards unless the job saw `stop()`: a missing seed, a job that ran out of waits
      and a job that raised all leave it set. */
  lemma SeedJobFlag(st: JobState, seed: int, cfg: WorkerConfig, draws: JobDraws)
    ensures var r := SeedJob(st, seed, cfg, draws);
      && (r.0.running ==> st.running)
      && (st.running ==> (r.0.running <==> !r.1.Stopped?))
  {
    if FindPost(st.db.posts, seed).Some? {
      RunJobFlag(st, JobSteps(seed, cfg, draws.items, Count(cfg.n)), 0);
    }
  }

  /** `_loop()` from its `k`-th pass on, over the seeds still queued: the state it leaves
      and each seed it took with its job's outcome, in the order taken. Before each pass
      the run flag is checked, after a `stop()` that came in (`jobs(k).stopRequested`) has
      cleared it; each job runs from the state the previous one left, and a job that
      raised is caught and the next seed is taken. */
  function LoopRun(st: JobState, queue: seq<int>, cfg: WorkerConfig, jobs: nat -> JobDraws, k: nat)
    : (r: (JobState, seq<(int, JobOutcome)>))
    ensures |r.1| <= |queue|
    decreases |queue|
  {
    if !st.running || queue == [] then (st, [])
    else if jobs(k).stopRequested then (st.(running := false), [])
    else
      var next := SeedJob(st, queue[0], cfg, jobs(k));
      var rest := LoopRun(next.0, queue[1..], cfg, jobs, k + 1);
      (rest.0, [(queue[0], next.1)] + rest.1)
  }

  /** The loop takes the seeds in queue order. */
  lemma {:induction false} LoopRunSeeds(st: JobState, queue: seq<int>, cfg: WorkerConfig, jobs: nat -> JobDraws, k: nat)
    ensures var r := LoopRun(st, queue, cfg, jobs, k);
      Keys(r.1) == queue[..|r.1|]
    decreases |queue|
  {
    if !st.running || queue == [] {
    } else if jobs(k).stopRequested {
    } else {
      var next := SeedJob(st, queue[0], cfg, jobs(k));
      var rest := LoopRun(next.0, queue[1..], cfg, jobs, k + 1);
      LoopRunSeeds(next.0, queue[1..], cfg, jobs, k + 1);
      var r := LoopRun(st, queue, cfg, jobs, k);
      assert r.1 == [(queue[0], next.1)] + rest.1;
      assert Keys(r.1) == [queue[0]] + Keys(rest.1);
      assert queue[..|r.1|] == [queue[0]] + queue[1..][..|rest.1|];
    }
  }

  /** The run flag across the loop: with the flag clear nothing is taken; the loop only
      leaves the flag set once the queue is drained; the flag is cleared only by `stop()`,
      either seen between jobs (before the first seed not taken) or seen by the last job,
      which then stopped; and every job before the last did not stop, so a job that
      raised or found no seed is followed by the next queued seed. */
  lemma {:induction false} LoopRunFlag(st: JobState, queue: seq<int>, cfg: WorkerConfig, jobs: nat -> JobDraws, k: nat)
    ensures var r := LoopRun(st, queue, cfg, jobs, k);
      && (!st.running ==> r.0 == st && r.1 == [])
      && (r.0.running ==> |r.1| == |queue|)
      && (st.running && !r.0.running ==>
            (|r.1| < |queue| && jobs(k + |r.1|).stopRequested)
            || (r.1 != [] && r.1[|r.1| - 1].1.Stopped?))
      && forall j :: 0 <= j < |r.1| - 1 ==> !r.1[j].1.Stopped?
    decreases |queue|
  {
    if !st.running || queue == [] {
    } else if jobs(k).stopRequested {
    } else {
      var next := SeedJob(st, queue[0], cfg, jobs(k));
      var rest := LoopRun(next.0, queue[1..], cfg, jobs, k + 1);
      SeedJobFlag(st, queue[0], cfg, jobs(k));
      LoopRunFlag(next.0, queue[1..], cfg, jobs, k + 1);
      var r := LoopRun(st, queue, cfg, jobs, k);
      assert r == (rest.0, [(queue[0], next.1)] + rest.1);
      if next.1.Stopped? {
        assert rest.1 == [];
      } else {
        assert forall j :: 1 <= j < |r.1| ==> r.1[j] == rest.1[j - 1];
      }
    }
  }

  /** A pass of the loop that takes a seed leaves the rest of the run to the state its job
      left: the run so far plus the rest from there is still the whole run. */
  lemma LoopRunTake(st: JobState, queue: seq<int>, cfg: WorkerConfig, jobs: nat -> JobDraws, k: nat,
                    handled: seq<(int, JobOutcome)>, total: (JobState, seq<(int, JobOutcome)>), next: JobState, outcome: JobOutcome)
    requires st.running && queue != [] && !jobs(k).stopRequested
    requires (next, outcome) == SeedJob(st, queue[0], cfg, jobs(k))
    requires var r := LoopRun(st, queue, cfg, jobs, k); total == (r.0, handled + r.1)
    ensures var r := LoopRun(next, queue[1..], cfg, jobs, k + 1);
      total == (r.0, (handled + [(queue[0], outcome)]) + r.1)
  {
    var r := LoopRun(next, queue[1..], cfg, jobs, k + 1);
    assert handled + ([(queue[0], outcome)] + r.1) == (handled + [(queue[0], outcome)]) + r.1;
  }

  /** A pass of the loop that sees `stop()` clears the flag and ends the run there. */
  lemma LoopRunStop(st: JobState, queue: seq<int>, cfg: WorkerConfig, jobs: nat -> JobDraws, k: nat,
                    handled: seq<(int, JobOutcome)>, total: (JobState, seq<(int, JobOutcome)>))
    requires st.running && queue != [] && jobs(k).stopRequested
    requires var r := LoopRun(st, queue, cfg, jobs, k); total == (r.0, handled + r.1)
    ensures var r := LoopRun(st.(running := false), queue, cfg, jobs, k); total == (r.0, handled + r.1)
  {
  }

  /** The run ends where the flag is clear or the queue is empty. */
  lemma LoopRunEnd(st: JobState, queue: seq<int>, cfg: WorkerConfig, jobs: nat -> JobDraws, k: nat,
                   handled: seq<(int, JobOutcome)>, total: (JobState, seq<(int, JobOutcome)>))
    requires !st.running || queue == []
    requires var r := LoopRun(st, queue, cfg, jobs, k); total == (r.0, handled + r.1)
    ensures total == (st, handled)
  {
    assert handled + [] == handled;
  }

  /** A seed's job only appends posts and only adds personas, and keeps the tables well
      formed. */
  lemma SeedJobAppends(st: JobState, seed: int, cfg: WorkerConfig, draws: JobDraws)
    ensures var r := SeedJob(st, seed, cfg, draws);
      && |st.db.posts| <= |r.0.db.posts| && r.0.db.posts[..|st.db.posts|] == st.db.posts
      && CatalogExtends(st.styles, r.0.styles)
      && (WellFormed(st.db) ==> WellFormed(r.0.db))
  {
    if FindPost(st.db.posts, seed).Some? {
      RunJobAppends(st, JobSteps(seed, cfg, draws.items, Count(cfg.n)), 0);
      RunJobCatalog(st, JobSteps(seed, cfg, draws.items, Count(cfg.n)), 0);
    }
  }

  /** The loop only appends posts and only adds personas, and keeps the tables well formed. */
  lemma {:induction false} LoopRunAppends(st: JobState, queue: seq<int>, cfg: WorkerConfig, jobs: nat -> JobDraws, k: nat)
    ensures var r := LoopRun(st, queue, cfg, jobs, k);
      && |st.db.posts| <= |r.0.db.posts| && r.0.db.posts[..|st.db.posts|] == st.db.posts
      && CatalogExtends(st.styles, r.0.styles)
      && (WellFormed(st.db) ==> WellFormed(r.0.db))
    decreases |queue|
  {
    if !st.running || queue == [] {
    } else if jobs(k).stopRequested {
    } else {
      var next := SeedJob(st, queue[0], cfg, jobs(k));
      var fin := LoopRun(next.0, queue[1..], cfg, jobs, k + 1).0;
      SeedJobAppends(st, queue[0], cfg, jobs(k));
      LoopRunAppends(next.0, queue[1..], cfg, jobs, k + 1);
      assert LoopRun(st, queue, cfg, jobs, k).0 == fin;
      CatalogExtendsTransitive(st.styles, next.0.styles, fin.styles);
      assert fin.db.posts[..|st.db.posts|] == fin.db.posts[..|next.0.db.posts|][..|st.db.posts|];
    }
  }

  /** What `LoopRunSeeds`, `LoopRunFlag` and `LoopRunAppends` say about a whole run of the
      loop, in terms of the state it leaves, the seeds it took and the seeds left queued. */
  lemma LoopOutcome(st: JobState, queue: seq<int>, cfg: WorkerConfig, jobs: nat -> JobDraws,
                    handled: seq<(int, JobOutcome)>, fin: JobState, left: seq<int>)
    requires LoopRun(st, queue, cfg, jobs, 0) == (fin, handled)
    requires |handled| <= |queue| && left == queue[|handled|..]
    ensures queue == Keys(handled) + left
    ensures fin.running ==> left == []
    ensures !st.running ==> handled == [] && fin == st
    ensures forall j :: 0 <= j < |handled| - 1 ==> !handled[j].1.Stopped?
    ensures st.running && (forall j :: 0 <= j <= |handled| ==> !jobs(j).stopRequested)
            && (forall j :: 0 <= j < |handled| ==> !handled[j].1.Stopped?)
            ==> fin.running && left == []
    ensures |st.db.posts| <= |fin.db.posts| && fin.db.posts[..|st.db.posts|] == st.db.posts
    ensures CatalogExtends(st.styles, fin.styles)
    ensures WellFormed(st.db) ==> WellFormed(fin.db)
  {
    LoopRunSeeds(st, queue, cfg, jobs, 0);
    LoopRunFlag(st, queue, cfg, jobs, 0);
    LoopRunAppends(st, queue, cfg, jobs, 0);
    assert queue == queue[..|handled|] + left;
  }

  /** The background worker: its configuration, the queue of seed ids, the run flag and
      whether its thread is alive. */
  class Worker {
    const config: WorkerConfig
    var queue: seq<int>
    var running: bool
    var threadAlive: bool

    constructor (config: WorkerConfig)
      ensures this.config == config
      ensures queue == [] && !running && !threadAlive
    {
      this.config := config;
      queue, running, threadAlive := [], false, false;
    }

    /** `enqueue(seed_id)`: the seed goes to the back of the queue; it is never refused,
        not even after `stop()`. */
    method Enqueue(seed: int)
      modifies this
      ensures queue == old(queue) + [seed]
      ensures running == old(running) && threadAlive == old(threadAlive)
    {
      queue := queue + [seed];
    }

    /** `start()`: nothing while the thread is alive; otherwise the run flag is set and a
        new thread (running `Loop`) is started. */
    method Start()
      modifies this
      ensures old(threadAlive) ==> running == old(running) && threadAlive
      ensures !old(threadAlive) ==> running && threadAlive
      ensures queue == old(queue)
    {
      if !threadAlive {
        running := true;
        threadAlive := true;
      }
    }

    /** `stop()`: the run flag is cleared; `joined` says whether the thread ended within
        the join timeout. The queue keeps whatever was not handled. */
    method Stop(joined: bool)
      modifies this
      ensures !running
      ensures threadAlive == (old(threadAlive) && !joined)
      ensures queue == old(queue)
    {
      running := false;
      threadAlive := threadAlive && !joined;
    }

    /** One pass of the `for w in waits` body after the run-flag check: sample a language
        and a persona, register the persona, generate the text and store the post. A step
        that raises ends the item with the store untouched. */
    method RunItem(seed: int, store: Store, catalog: PersonaCatalog, item: ItemDraws) returns (r: Outcome<ItemError>)
      requires store.Valid()
      modifies store, catalog
      ensures store.Valid()
      ensures catalog.styles == Register(old(catalog.styles), ItemPersona(config, item))
      ensures r.Fail? <==> ItemPost(seed, config, item).Failure?
      ensures r.Fail? ==> r.error == ItemPost(seed, config, item).error && store.State() == old(store.State())
      ensures r.Pass? ==> store.State() == InsertPost(old(store.State()), ItemPost(seed, config, item).value)
    {
      var lang := SampleByWeights(config.langs, item.langDraw);
      if lang.Failure? {
        return Fail(NoLanguages);
      }
      var persona := SampleByWeights(config.personas, item.personaDraw);
      if persona.Failure? {
        return Fail(NoPersonas);
      }
      catalog.RegisterPersona(persona.value);
      if item.completion.None? {
        return Fail(GenerationFailed);
      }
      var text := GenerateText(item.completion.value, config.tags, item.tagCoin, item.tagCountDraw, item.tagPicks);
      if !item.stored {
        return Fail(StoreFailed);
      }
      var row := store.CreatePost(PostCreate(text, Some(true), Some(persona.value), Some(seed),
                                             Some(lang.value), HashtagField(config.tags)));
      r := Pass;
    }

    /** One pass of the `for w in waits` body for item `i` of `n`: clear the run flag if
        `stop()` came in, leave the loop when it is clear, and otherwise run the item. The
        job either ends here (`done`, with its outcome) or goes on from item `i + 1` in the
        state this pass leaves. */
    method Tick(seed: int, store: Store, catalog: PersonaCatalog, items: nat -> ItemDraws, n: nat, i: nat)
      returns (done: bool, outcome: JobOutcome)
      requires store.Valid() && i < n
      modifies this, store, catalog
      ensures store.Valid()
      ensures queue == old(queue) && threadAlive == old(threadAlive)
      ensures !done ==> running
      ensures done ==>
        (JobState(store.State(), catalog.styles, running), outcome)
        == RunJob(JobState(old(store.State()), old(catalog.styles), old(running)), JobSteps(seed, config, items, n), i)
      ensures !done ==>
        RunJob(JobState(store.State(), catalog.styles, running), JobSteps(seed, config, items, n), i + 1)
        == RunJob(JobState(old(store.State()), old(catalog.styles), old(running)), JobSteps(seed, config, items, n), i)
    {
      var item := items(i);
      if item.stopRequested {
        running := false;
      }
      if !running {
        return true, Stopped(i);
      }
      var r := RunItem(seed, store, catalog, item);
      if r.Fail? {
        return true, Aborted(i, r.error);
      }
      return false, Finished(n);
    }

    /** The `for w in waits` loop of `_run_for_seed` over `n` waits, one `Tick` per wait,
        until the waits run out or a pass ends the job. */
    method RunItems(seed: int, store: Store, catalog: PersonaCatalog, items: nat -> ItemDraws, n: nat)
      returns (outcome: JobOutcome)
      requires store.Valid()
      modifies this, store, catalog
      ensures store.Valid()
      ensures queue == old(queue) && threadAlive == old(threadAlive)
      ensures (JobState(store.State(), catalog.styles, running), outcome)
        == RunJob(JobState(old(store.State()), old(catalog.styles), old(running)), JobSteps(seed, config, items, n), 0)
    {
      ghost var steps := JobSteps(seed, config, items, n);
      ghost var start := JobState(store.State(), catalog.styles, running);
      var i := 0;
      while i < n
        invariant 0 <= i <= n
        invariant store.Valid()
        invariant queue == old(queue) && threadAlive == old(threadAlive)
        invariant RunJob(JobState(store.State(), catalog.styles, running), steps, i) == RunJob(start, steps, 0)
      {
        var done, o := Tick(seed, store, catalog, items, n, i);
        if done {
          return o;
        }
        i := i + 1;
      }
      outcome := Finished(n);
    }

    /** `_run_for_seed(seed)`: nothing when the seed is missing; otherwise the job `RunJob`
        describes, one simulated post per wait until the schedule runs out, the run flag is
        found cleared, or an item raises. */
    method RunForSeed(seed: int, store: Store, catalog: PersonaCatalog, draws: JobDraws) returns (outcome: JobOutcome)
      requires store.Valid()
      modifies this, store, catalog
      ensures store.Valid()
      ensures queue == old(queue) && threadAlive == old(threadAlive)
      ensures outcome.SeedMissing? <==> old(FindPost(store.posts, seed)).None?
      ensures outcome.SeedMissing? ==>
        store.State() == old(store.State()) && catalog.styles == old(catalog.styles) && running == old(running)
      ensures !outcome.SeedMissing? ==>
        (JobState(store.State(), catalog.styles, running), outcome)
        == RunJob(JobState(old(store.State()), old(catalog.styles), old(running)),
                  JobSteps(seed, config, draws.items, Count(config.n)), 0)
      ensures (JobState(store.State(), catalog.styles, running), outcome)
        == SeedJob(JobState(old(store.State()), old(catalog.styles), old(running)), seed, config, draws)
      ensures CatalogExtends(old(catalog.styles), catalog.styles)
      ensures |old(store.posts)| <= |store.posts| && store.posts[..|old(store.posts)|] == old(store.posts)
    {
      var waits := ScheduleIntervals(config.n, config.minutes, config.ppm, draws.unitWaits);
      if FindPost(store.posts, seed).None? {
        return SeedMissing;
      }
      ghost var start := JobState(store.State(), catalog.styles, running);
      outcome := RunItems(seed, store, catalog, draws.items, |waits|);
      RunJobAppends(start, JobSteps(seed, config, draws.items, |waits|), 0);
      RunJobCatalog(start, JobSteps(seed, config, draws.items, |waits|), 0);
    }

    /** One pass of `_loop` that takes a seed: the oldest queued seed leaves the queue and
        its job runs, from the state the worker, the store and the catalog are in, with
        the outcome `SeedJob` gives. The job only appends posts and only adds personas. */
    method TakeNext(store: Store, catalog: PersonaCatalog, job: JobDraws) returns (seed: int, outcome: JobOutcome)
      requires store.Valid() && queue != []
      modifies this, store, catalog
      ensures store.Valid()
      ensures old(queue) == [seed] + queue && threadAlive == old(threadAlive)
      ensures (JobState(store.State(), catalog.styles, running), outcome)
        == SeedJob(JobState(old(store.State()), old(catalog.styles), old(running)), seed, config, job)
      ensures outcome.SeedMissing? ==> store.State() == old(store.State()) && running == old(running)
      ensures old(running) ==> (running <==> !outcome.Stopped?)
      ensures CatalogExtends(old(catalog.styles), catalog.styles)
      ensures |old(store.posts)| <= |store.posts| && store.posts[..|old(store.posts)|] == old(store.posts)
    {
      seed := queue[0];
      queue := queue[1..];
      outcome := RunForSeed(seed, store, catalog, job);
      SeedJobFlag(JobState(old(store.State()), old(catalog.styles), old(running)), seed, config, job);
    }

    /** The `while self._run.is_set()` loop of `_loop()` over the seeds queued now: while
        the run flag is set and a seed is queued, take the oldest one and run its job; a
        job that raises is caught and the next seed is taken. The state it leaves and the
        outcomes are those of `LoopRun`: each job runs from the state the previous one left. */
    method Drain(store: Store, catalog: PersonaCatalog, jobs: nat -> JobDraws) returns (handled: seq<(int, JobOutcome)>)
      requires store.Valid() && threadAlive
      modifies this, store, catalog
      ensures store.Valid() && threadAlive
      ensures (JobState(store.State(), catalog.styles, running), handled)
        == LoopRun(JobState(old(store.State()), old(catalog.styles), old(running)), old(queue), config, jobs, 0)
      ensures |handled| <= |old(queue)| && queue == old(queue)[|handled|..]
    {
      ghost var total := LoopRun(JobState(store.State(), catalog.styles, running), queue, config, jobs, 0);
      handled := [];
      assert handled + total.1 == total.1;
      while running && queue != []
        invariant store.Valid() && threadAlive
        invariant |handled| <= |old(queue)| && queue == old(queue)[|handled|..]
        invariant var r := LoopRun(JobState(store.State(), catalog.styles, running), queue, config, jobs, |handled|);
          total == (r.0, handled + r.1)
        decreases |queue| + (if running then 1 else 0)
      {
        ghost var cur := JobState(store.State(), catalog.styles, running);
        ghost var q := queue;
        var job := jobs(|handled|);
        if job.stopRequested {
          running := false;
          LoopRunStop(cur, q, config, jobs, |handled|, handled, total);
        } else {
          var seed, outcome := TakeNext(store, catalog, job);
          LoopRunTake(cur, q, config, jobs, |handled|, handled, total,
                      JobState(store.State(), catalog.styles, running), outcome);
          handled := handled + [(seed, outcome)];
        }
      }
      LoopRunEnd(JobState(store.State(), catalog.styles, running), queue, config, jobs, |handled|, handled, total);
    }

    /** `_loop()`: the seeds queued now are drained while the run flag stays set; the loop
        ends when the flag is found cleared, which ends the thread, or when the queue is
        empty (where the thread then waits for more work). Only `stop()` clears the flag,
        and a job that raised is followed by the next queued seed. */
    method Loop(store: Store, catalog: PersonaCatalog, jobs: nat -> JobDraws) returns (handled: seq<(int, JobOutcome)>)
      requires store.Valid() && threadAlive
      modifies this, store, catalog
      ensures store.Valid()
      ensures (JobState(store.State(), catalog.styles, running), handled)
        == LoopRun(JobState(old(store.State()), old(catalog.styles), old(running)), old(queue), config, jobs, 0)
      ensures old(queue) == Keys(handled) + queue
      ensures running ==> queue == [] && threadAlive
      ensures !running ==> !threadAlive
      ensures !old(running) ==> handled == []
      ensures forall j :: 0 <= j < |handled| - 1 ==> !handled[j].1.Stopped?
      ensures old(running) && (forall j :: 0 <= j <= |handled| ==> !jobs(j).stopRequested)
              && (forall j :: 0 <= j < |handled| ==> !handled[j].1.Stopped?)
              ==> running && threadAlive && queue == []
      ensures CatalogExtends(old(catalog.styles), catalog.styles)
      ensures |old(store.posts)| <= |store.posts| && store.posts[..|old(store.posts)|] == old(store.posts)
    {
      handled := Drain(store, catalog, jobs);
      LoopOutcome(JobState(old(store.State()), old(catalog.styles), old(running)), old(queue), config, jobs,
                  handled, JobState(store.State(), catalog.styles, running), queue);
      if !running {
        threadAlive := false;
      }
    }
  }
}
