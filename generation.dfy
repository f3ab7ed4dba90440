/**
 * What the two generation workers (backend/worker.py and scg_worker.py) share: the
 * persona style catalog, the exponential wait schedule, the hashtag draw appended to
 * a generated text and the `hashtags` column of a simulated post.
 *
 * Randomness is injected: `random.expovariate(lam)` is a unit exponential draw divided
 * by `lam`, `random.randint` and the choices inside `random.sample` are natural-number
 * draws reduced into range, and `random.random()` is a real parameter.
 */
module Generation {
  import opened Wrappers
  import opened Text

  // ---------------------------------------------------------------------------
  // Defaults of the configuration parsers
  // ---------------------------------------------------------------------------

  /** Language mix used when none (or nothing usable) is configured. */
  const DefaultLangs: seq<(string, real)> := [("ko", 0.9), ("en", 0.1)]

  /** Persona mix used when none (or nothing usable) is configured. */
  const DefaultPersonas: seq<(string, real)> := [
    ("대학생", 0.2), ("퇴근길 직장인", 0.1), ("현장 상인", 0.1),
    ("주민대표", 0.15), ("기자톤", 0.05), ("인터넷 지박령", 0.4)
  ]

  /** Hashtag pool used when none is configured. */
  const DefaultTags: seq<string> := ["#속보", "#주의"]

  // ---------------------------------------------------------------------------
  // PERSONA_CATALOG
  // ---------------------------------------------------------------------------

  /** Style given to a persona the catalog has not seen before. */
  const DefaultStyle: string := "일반인 말투, 평이함"

  /** The six personas the catalog starts with. */
  const InitialCatalog: map<string, string> := map[
    "퇴근길 직장인" := "짧고 단정, 이모지 소량",
    "현장 상인" := "구체적 묘사, 문장 짧음",
    "대학생" := "속어·해시태그 적절",
    "인터넷 지박령" := "풍부한 묘사, 약간 과장/비속어 허용, 이모지 다량",
    "기자톤" := "사실 서술, 문장 간결",
    "주민대표" := "안내·주의 촉구"
  ]

  /** `after` keeps every entry of `before` unchanged and gives every added persona the default style. */
  predicate CatalogExtends(before: map<string, string>, after: map<string, string>) {
    && (forall name :: name in before ==> name in after && after[name] == before[name])
    && (forall name :: name in after && name !in before ==> after[name] == DefaultStyle)
  }

  /** The process-wide persona catalog: a dictionary only ever extended with `setdefault`. */
  class PersonaCatalog {
    var styles: map<string, string>

    constructor ()
      ensures styles == InitialCatalog
    {
      styles := InitialCatalog;
    }

    /** `PERSONA_CATALOG.get(name, "일반인 말투, 평이함")` */
    function StyleOf(name: string): (style: string)
      reads this
      ensures name in styles ==> style == styles[name]
      ensures name !in styles ==> style == DefaultStyle
    {
      if name in styles then styles[name] else DefaultStyle
    }

    /** `if name not in PERSONA_CATALOG: PERSONA_CATALOG.setdefault(name, DefaultStyle)`:
        an unseen persona gets the default style; a known one is never overwritten. */
    method RegisterPersona(name: string)
      modifies this
      ensures name in styles
      ensures styles == if name in old(styles) then old(styles) else old(styles)[name := DefaultStyle]
      ensures CatalogExtends(old(styles), styles)
    {
      if name !in styles {
        styles := styles[name := DefaultStyle];
      }
    }
  }

  /** Extending is a preorder: two extensions in a row are one extension. */
  lemma CatalogExtendsTransitive(a: map<string, string>, b: map<string, string>, c: map<string, string>)
    requires CatalogExtends(a, b) && CatalogExtends(b, c)
    ensures CatalogExtends(a, c)
  {
  }

  /** The catalog after a generated post: a persona it has not seen gets the default style. */
  function Register(styles: map<string, string>, name: Option<string>): map<string, string>
  {
    if name.Some? && name.value !in styles then styles[name.value := DefaultStyle] else styles
  }

  /** Registering only adds the given persona, with the default style, and afterwards the
      persona is known. */
  lemma RegisterExtends(styles: map<string, string>, name: Option<string>)
    ensures var r := Register(styles, name);
      && CatalogExtends(styles, r)
      && (name.Some? ==> name.value in r)
      && forall k :: k in r && k !in styles ==> name == Some(k)
  {
  }


  // ---------------------------------------------------------------------------
  // schedule_intervals
  // ---------------------------------------------------------------------------

  function MaxReal(a: real, b: real): real {
    if a >= b then a else b
  }

  /** The mean wait of window mode, `(minutes * 60) / max(n, 1)`, floored at 0.001. */
  function WindowMean(n: int, minutes: int): real {
    MaxReal((minutes * 60) as real / (if n >= 1 then n else 1) as real, 0.001)
  }

  /** The rate `lam` of `schedule_intervals`: `ppm / 60` when `ppm` is given and positive,
      otherwise one over the floored window mean. Either way it is positive. */
  function Rate(n: int, minutes: int, ppm: Option<real>): (lam: real)
    ensures lam > 0.0
    ensures ppm.Some? && ppm.value > 0.0 ==> lam == ppm.value / 60.0
    ensures !(ppm.Some? && ppm.value > 0.0) ==> lam * WindowMean(n, minutes) == 1.0
  {
    if ppm.Some? && ppm.value > 0.0 then ppm.value / 60.0
    else 1.0 / WindowMean(n, minutes)
  }

  /** `schedule_intervals(n, minutes, ppm)`: `unit(i)` is the i-th unit exponential draw, so
      the i-th wait is `expovariate(lam)`. There are `n` waits (none when `n <= 0`), and
      they are non-negative when the draws are. */
  function ScheduleIntervals(n: int, minutes: int, ppm: Option<real>, unit: nat -> real): (waits: seq<real>)
    ensures |waits| == if n <= 0 then 0 else n
    ensures forall i :: 0 <= i < |waits| ==> waits[i] * Rate(n, minutes, ppm) == unit(i)
    ensures (forall i: nat :: i < |waits| ==> unit(i) >= 0.0) ==> forall i :: 0 <= i < |waits| ==> waits[i] >= 0.0
  {
    var lam := Rate(n, minutes, ppm);
    seq(if n <= 0 then 0 else n, i requires 0 <= i => unit(i) / lam)
  }

  /** The mean of every wait is `60 / ppm` seconds in rate mode and the floored window mean
      `max((minutes * 60) / n, 0.001)` otherwise: a wait of `unit` draws is `unit * mean`. */
  lemma MeanWait(n: int, minutes: int, ppm: Option<real>, unit: nat -> real, i: nat)
    requires i < n
    ensures var waits := ScheduleIntervals(n, minutes, ppm, unit);
      waits[i] == unit(i) * (if ppm.Some? && ppm.value > 0.0 then 60.0 / ppm.value else WindowMean(n, minutes))
  {
    var lam := Rate(n, minutes, ppm);
    var w := ScheduleIntervals(n, minutes, ppm, unit)[i];
    assert w * lam == unit(i);
    if ppm.Some? && ppm.value > 0.0 {
      assert lam * (60.0 / ppm.value) == 1.0;
    } else {
      assert lam * WindowMean(n, minutes) == 1.0;
    }
  }

  // ---------------------------------------------------------------------------
  // Hashtags
  // ---------------------------------------------------------------------------

  /** `random.sample(pool, k)` as CPython runs it on a short list: the i-th pick takes
      position `pick(i) mod (n - i)` of the remaining pool and moves the pool's last
      element into its place. The picks are `k` distinct positions of the pool. */
  function SamplePool(pool: seq<string>, pick: nat -> nat, k: nat, i: nat): (r: seq<string>)
    requires k <= |pool|
    ensures |r| == k
    ensures multiset(r) <= multiset(pool)
    decreases k
  {
    if k == 0 then []
    else
      var j := pick(i) % |pool|;
      var last := |pool| - 1;
      var rest := pool[j := pool[last]][..last];
      assert multiset(rest) + multiset{pool[j]} == multiset(pool) by {
        SwapRemoveMultiset(pool, j);
      }
      [pool[j]] + SamplePool(rest, pick, k - 1, i + 1)
  }

  lemma SwapRemoveMultiset(pool: seq<string>, j: nat)
    requires j < |pool|
    ensures multiset(pool[j := pool[|pool| - 1]][..|pool| - 1]) + multiset{pool[j]} == multiset(pool)
  {
    var last := |pool| - 1;
    var rest := pool[j := pool[last]][..last];
    if j < last {
      var before, between := pool[..j], pool[j + 1..last];
      assert rest == before + [pool[last]] + between;
      assert pool == before + [pool[j]] + between + [pool[last]];
      assert multiset(rest) == multiset(before) + multiset{pool[last]} + multiset(between);
      assert multiset(pool) == multiset(before) + multiset{pool[j]} + multiset(between) + multiset{pool[last]};
    } else {
      assert rest == pool[..last];
      assert pool == rest + [pool[last]];
      assert multiset(pool) == multiset(rest) + multiset{pool[last]};
    }
  }

  function MinNat(a: nat, b: nat): nat {
    if a <= b then a else b
  }

  /** The backend's tag count, `random.randint(1, min(2, len(tags)))`, for the draw `draw`. */
  function BackendTagCount(nTags: nat, draw: nat): (k: nat)
    ensures nTags > 0 ==> 1 <= k <= 2 && k <= nTags
  {
    if nTags == 0 then 0 else 1 + draw % MinNat(2, nTags)
  }

  /** The standalone worker's tag count, `min(len(tags), random.randint(1, 2))`, for the draw `draw`. */
  function ScgTagCount(nTags: nat, draw: nat): (k: nat)
    ensures nTags > 0 ==> 1 <= k <= 2 && k <= nTags
  {
    MinNat(nTags, 1 + draw % 2)
  }

  /** The two ways of bounding the tag count pick the same count for every draw. */
  lemma TagCountsAgree(nTags: nat, draw: nat)
    ensures BackendTagCount(nTags, draw) == ScgTagCount(nTags, draw)
  {
    if nTags == 1 {
      assert draw % 1 == 0;
    }
  }

  /** `text + " " + " ".join(picks)` when the coin (`random.random()`) is below 0.6 and the
      pool is non-empty; the stripped text alone otherwise. `count` is the number of tags. */
  function AppendTags(text: string, tags: seq<string>, coin: real, count: nat, pick: nat -> nat): (r: string)
    requires count <= |tags|
    ensures !(|tags| > 0 && coin < 0.6) ==> r == text
    ensures |tags| > 0 && coin < 0.6 ==>
      exists picks :: |picks| == count && multiset(picks) <= multiset(tags) && r == text + " " + Join(picks, " ")
  {
    if |tags| > 0 && coin < 0.6 then
      var picks := SamplePool(tags, pick, count, 0);
      text + " " + Join(picks, " ")
    else text
  }

  /** The `hashtags` column of a simulated post: every configured tag joined by spaces,
      `None` when there are none. */
  function HashtagField(tags: seq<string>): (r: Option<string>)
    ensures r.None? <==> tags == []
    ensures r.Some? ==> r.value == Join(tags, " ")
  {
    if |tags| == 0 then None else Some(Join(tags, " "))
  }
}
