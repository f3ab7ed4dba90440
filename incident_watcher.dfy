/**
 * The classification poller (incident_watcher.py). Each round it fetches the unprocessed
 * real posts from the backend, asks a language model whether each one describes a real,
 * human-caused incident, files a confirmed incident for a confident "Yes", and marks the
 * post processed. The backend endpoints are the store operations of `Crud`; the answers of
 * the three remote calls made for a post (the classifier, the incident report, the mark) are
 * inputs, so each of them may fail the way an exception would.
 */
module IncidentWatcher {
  import opened Wrappers
  import opened Text
  import opened Crud

  // ---------------------------------------------------------------------------
  // The classifier's structured output
  // ---------------------------------------------------------------------------

  /** `IncidentLocation`: every field optional. */
  datatype Location = Location(
    country: Option<string>,
    area: Option<string>,
    latitude: Option<real>,
    longitude: Option<real>)

  /** The reply of the language model before validation, field by field. */
  datatype RawResult = RawResult(
    isIncident: string,
    confidence: int,
    incidentType: Option<string>,
    location: Option<Location>,
    summary: Option<string>)

  datatype Verdict = Yes | No

  type Percent = x: int | 0 <= x <= 100

  /** `IncidentResult`: a reply the schema accepts. */
  datatype Classification = Classification(
    verdict: Verdict,
    confidence: Percent,
    incidentType: Option<string>,
    location: Option<Location>,
    summary: Option<string>)

  /** The schema check: `is_incident` is the literal "Yes" or "No" and `confidence` lies in
      0..100; any other reply is rejected (the classifier call raises). */
  function Validate(raw: RawResult): (r: Option<Classification>)
    ensures r.Some? <==> (raw.isIncident == "Yes" || raw.isIncident == "No") && 0 <= raw.confidence <= 100
    ensures r.Some? ==> Dump(r.value) == raw
  {
    if (raw.isIncident == "Yes" || raw.isIncident == "No") && 0 <= raw.confidence <= 100 then
      Some(Classification(if raw.isIncident == "Yes" then Yes else No, raw.confidence,
                          raw.incidentType, raw.location, raw.summary))
    else None
  }

  /** `model_dump()`: the classification back as plain fields. */
  function Dump(c: Classification): RawResult {
    RawResult(if c.verdict == Yes then "Yes" else "No", c.confidence, c.incidentType, c.location, c.summary)
  }

  /** Every classification passes the schema check and comes back unchanged. */
  lemma ValidateDump(c: Classification)
    ensures Validate(Dump(c)) == Some(c)
  {
  }

  // ---------------------------------------------------------------------------
  // The decision, the alert's location line and the report payload
  // ---------------------------------------------------------------------------

  const AlertThreshold: Percent := 80

  /** A post is reported when the verdict is "Yes" with confidence of at least 80. */
  predicate ShouldReport(c: Classification) {
    c.verdict == Yes && c.confidence >= AlertThreshold
  }

  /** The threshold is inclusive: 80 reports, 79 does not, and "No" never reports. */
  lemma ReportBoundary(c: Classification)
    ensures ShouldReport(c.(verdict := Yes, confidence := 80))
    ensures !ShouldReport(c.(verdict := Yes, confidence := 79))
    ensures c.verdict == No ==> !ShouldReport(c)
    ensures ShouldReport(c) ==> Validate(Dump(c)).Some? && Dump(c).isIncident == "Yes" && Dump(c).confidence >= 80
  {
  }

  /** Python truthiness of an optional string: present and non-empty. */
  predicate Present(s: Option<string>) {
    s.Some? && s.value != ""
  }

  /** `loc_bits`: the country, then the area, each only when present. */
  function LocationBits(loc: Location): (bits: seq<string>)
    ensures |bits| <= 2 && forall b :: b in bits ==> b != ""
  {
    (if Present(loc.country) then [loc.country.value] else [])
    + (if Present(loc.area) then [loc.area.value] else [])
  }

  /** The "Location guess" line of an alert: printed only when the location names a country
      or an area, and then those parts joined by ", ". */
  function LocationLine(loc: Option<Location>): (line: Option<string>)
    ensures line.None? <==> loc.None? || (!Present(loc.value.country) && !Present(loc.value.area))
  {
    if loc.Some? && (Present(loc.value.country) || Present(loc.value.area)) then
      Some(Join(LocationBits(loc.value), ", "))
    else None
  }

  /** The line is the country, the area, or "country, area", whichever parts are present. */
  lemma LocationLineParts(loc: Location)
    ensures Present(loc.country) && Present(loc.area) ==>
      LocationLine(Some(loc)) == Some(loc.country.value + ", " + loc.area.value)
    ensures Present(loc.country) && !Present(loc.area) ==> LocationLine(Some(loc)) == loc.country
    ensures !Present(loc.country) && Present(loc.area) ==> LocationLine(Some(loc)) == loc.area
  {
    var bits := LocationBits(loc);
    if Present(loc.country) && Present(loc.area) {
      assert bits == [loc.country.value, loc.area.value];
      assert bits[1..] == [loc.area.value];
      assert Join(bits, ", ") == bits[0] + ", " + Join(bits[1..], ", ");
    }
  }

  /** The body of the incident report: the post id, type, summary and confidence, and the
      country and area of the location when there is one. */
  function Payload(postId: int, c: Classification): (p: IncidentCreate)
    ensures p.sourcePostId == postId && p.confidence == c.confidence
    ensures p.incidentType == c.incidentType && p.summary == c.summary
    ensures p.country == (if c.location.Some? then c.location.value.country else None)
    ensures p.area == (if c.location.Some? then c.location.value.area else None)
  {
    var country := if c.location.Some? then c.location.value.country else None;
    var area := if c.location.Some? then c.location.value.area else None;
    IncidentCreate(postId, c.incidentType, c.summary, c.confidence, country, area)
  }

  // ---------------------------------------------------------------------------
  // handle_single_post
  // ---------------------------------------------------------------------------

  /** What the three remote calls made for one post answer: the classifier's reply (`None`
      when the call raised), and whether the report and the mark requests succeeded. */
  datatype Responses = Responses(reply: Option<RawResult>, reportOk: bool, markOk: bool)

  /** Why handling a post stopped early (the exception `poll_loop` catches). */
  datatype Failure = ClassifierFailed | MalformedResult | ReportFailed | MarkFailed

  datatype Handled = Handled(db: Db, outcome: Outcome<Failure>)

  /** `handle_single_post` on the database: classify; report a confident "Yes"; then mark the
      post processed. The first call that fails ends the handling, so a failed classification
      or report leaves the post unmarked. */
  function Handle(db: Db, post: Post, answers: Responses): Handled {
    match answers.reply
    case None => Handled(db, Fail(ClassifierFailed))
    case Some(raw) =>
      match Validate(raw)
      case None => Handled(db, Fail(MalformedResult))
      case Some(c) =>
        if ShouldReport(c) && !answers.reportOk then Handled(db, Fail(ReportFailed))
        else
          var filed := if ShouldReport(c) then InsertIncident(db, Payload(post.id, c)) else db;
          if !answers.markOk then Handled(filed, Fail(MarkFailed))
          else Handled(filed.(posts := MarkProcessed(filed.posts, post.id)), Pass)
  }

  /** The classification that gets reported for a post, if any: a valid reply that calls for
      a report whose request succeeds. */
  function Reported(answers: Responses): (r: Option<Classification>)
    ensures r.Some? ==> ShouldReport(r.value) && answers.reportOk
  {
    if answers.reply.Some? && Validate(answers.reply.value).Some?
       && ShouldReport(Validate(answers.reply.value).value) && answers.reportOk
    then Validate(answers.reply.value)
    else None
  }

  /** Handling a post keeps the database well formed. */
  lemma HandleWellFormed(db: Db, post: Post, answers: Responses)
    requires WellFormed(db)
    ensures WellFormed(Handle(db, post, answers).db)
  {
    if answers.reply.Some? && Validate(answers.reply.value).Some? {
      var c := Validate(answers.reply.value).value;
      if ShouldReport(c) {
        InsertIncidentWellFormed(db, Payload(post.id, c));
      }
      var filed := if ShouldReport(c) then InsertIncident(db, Payload(post.id, c)) else db;
      MarkProcessedWellFormed(filed, post.id);
    }
  }

  /** Handling a post marks that post, and only when every call succeeded: on any failure
      every post stays as it was. */
  lemma HandleMarks(db: Db, post: Post, answers: Responses)
    requires WellFormed(db)
    ensures var h := Handle(db, post, answers);
      && |h.db.posts| == |db.posts|
      && forall k :: 0 <= k < |db.posts| ==>
           h.db.posts[k] == db.posts[k].(processed := db.posts[k].processed || (h.outcome.Pass? && db.posts[k].id == post.id))
  {
    if answers.reply.Some? && Validate(answers.reply.value).Some? {
      var c := Validate(answers.reply.value).value;
      var filed := if ShouldReport(c) then InsertIncident(db, Payload(post.id, c)) else db;
      assert filed.posts == db.posts;
      MarkProcessedById(filed, post.id);
    }
  }

  /** Handling a post files exactly the reported incident, if any, after the existing ones. */
  lemma HandleFiles(db: Db, post: Post, answers: Responses)
    ensures var h := Handle(db, post, answers);
      && |h.db.incidents| == |db.incidents| + (if Reported(answers).Some? then 1 else 0)
      && h.db.incidents[..|db.incidents|] == db.incidents
      && (Reported(answers).Some? ==> IncidentFields(h.db.incidents[|db.incidents|]) == Payload(post.id, Reported(answers).value))
  {
  }

  /** A post is handled to the end exactly when the reply is valid, the mark succeeds and,
      if the reply calls for a report, the report succeeds too. */
  lemma HandlePasses(db: Db, post: Post, answers: Responses)
    ensures Handle(db, post, answers).outcome.Pass? <==>
      && answers.reply.Some? && Validate(answers.reply.value).Some? && answers.markOk
      && (ShouldReport(Validate(answers.reply.value).value) ==> answers.reportOk)
  {
  }

  /** The same post with the same answers ends the same way whatever the database holds. */
  lemma HandleOutcomeIgnoresDb(db1: Db, db2: Db, post: Post, answers: Responses)
    ensures Handle(db1, post, answers).outcome == Handle(db2, post, answers).outcome
  {
  }

  /** `handle_single_post`: the calls in the source's order, report before mark, on the store. */
  method HandleSinglePost(store: Store, post: Post, answers: Responses) returns (outcome: Outcome<Failure>)
    requires store.Valid()
    modifies store
    ensures store.Valid()
    ensures Handled(store.State(), outcome) == Handle(old(store.State()), post, answers)
  {
    if answers.reply.None? {
      return Fail(ClassifierFailed);
    }
    var c := Validate(answers.reply.value);
    if c.None? {
      return Fail(MalformedResult);
    }
    var result := c.value;
    if ShouldReport(result) {
      if !answers.reportOk {
        return Fail(ReportFailed);
      }
      var saved := store.CreateConfirmedIncident(Payload(post.id, result));
    }
    if !answers.markOk {
      return Fail(MarkFailed);
    }
    var marked := store.MarkPostProcessed(post.id);
    outcome := Pass;
  }

  // ---------------------------------------------------------------------------
  // poll_loop
  // ---------------------------------------------------------------------------

  /** The `/api/unprocessed` defaults: real posts only, at most 50. */
  const BatchLimit: nat := 50

  /** The posts one round sees: the default query, or nothing when the fetch failed. */
  function Fetch(db: Db, fetchOk: bool): (batch: seq<Post>)
    ensures !fetchOk ==> batch == []
    ensures |batch| <= BatchLimit
    ensures forall p :: p in batch ==> p in db.posts && !p.processed && !p.isSimulated
  {
    if fetchOk then UnprocessedPosts(db.posts, BatchLimit, false) else []
  }

  datatype Round = Round(db: Db, outcomes: seq<Outcome<Failure>>)

  /** `for post in posts: try handle_single_post(post) except: continue`: every post of the
      batch is handled in order, the `i`-th with the `i`-th answers. */
  function RunBatch(db: Db, batch: seq<Post>, answers: nat -> Responses): (r: Round)
    ensures |r.outcomes| == |batch|
    decreases |batch|
  {
    if |batch| == 0 then Round(db, [])
    else
      var n := |batch| - 1;
      var before := RunBatch(db, batch[..n], answers);
      var h := Handle(before.db, batch[n], answers(n));
      Round(h.db, before.outcomes + [h.outcome])
  }

  /** The incidents a batch files, in batch order. */
  function ReportedPayloads(batch: seq<Post>, answers: nat -> Responses): (r: seq<IncidentCreate>)
    ensures |r| <= |batch|
    decreases |batch|
  {
    if |batch| == 0 then []
    else
      var n := |batch| - 1;
      var before := ReportedPayloads(batch[..n], answers);
      match Reported(answers(n))
      case None => before
      case Some(c) => before + [Payload(batch[n].id, c)]
  }

  /** Some post of the batch with this id was handled to the end. */
  predicate Passed(batch: seq<Post>, outcomes: seq<Outcome<Failure>>, id: int) {
    exists i :: 0 <= i < |batch| && i < |outcomes| && outcomes[i].Pass? && batch[i].id == id
  }

  /** A failure on one post does not stop the batch: each post's outcome is the one handling
      it alone would give, whatever happened to the posts before it. */
  lemma {:induction false} BatchIsolation(db: Db, batch: seq<Post>, answers: nat -> Responses)
    ensures forall i :: 0 <= i < |batch| ==>
      RunBatch(db, batch, answers).outcomes[i] == Handle(db, batch[i], answers(i)).outcome
    decreases |batch|
  {
    if |batch| > 0 {
      var n := |batch| - 1;
      var init := batch[..n];
      BatchIsolation(db, init, answers);
      var before := RunBatch(db, init, answers);
      HandleOutcomeIgnoresDb(before.db, db, batch[n], answers(n));
      forall i | 0 <= i < n
        ensures RunBatch(db, batch, answers).outcomes[i] == Handle(db, batch[i], answers(i)).outcome
      {
        assert init[i] == batch[i];
      }
    }
  }

  /** A batch keeps the database well formed. */
  lemma {:induction false} BatchWellFormed(db: Db, batch: seq<Post>, answers: nat -> Responses)
    requires WellFormed(db)
    ensures WellFormed(RunBatch(db, batch, answers).db)
    decreases |batch|
  {
    if |batch| > 0 {
      var n := |batch| - 1;
      BatchWellFormed(db, batch[..n], answers);
      HandleWellFormed(RunBatch(db, batch[..n], answers).db, batch[n], answers(n));
    }
  }

  /** After a batch each post is processed exactly when it was before or a post of the batch
      with its id was handled to the end; nothing else about the posts changes. */
  lemma {:induction false} BatchMarks(db: Db, batch: seq<Post>, answers: nat -> Responses)
    requires WellFormed(db)
    ensures var r := RunBatch(db, batch, answers);
      && |r.db.posts| == |db.posts|
      && forall k :: 0 <= k < |db.posts| ==>
           r.db.posts[k] == db.posts[k].(processed := db.posts[k].processed || Passed(batch, r.outcomes, db.posts[k].id))
    decreases |batch|
  {
    if |batch| > 0 {
      var n := |batch| - 1;
      BatchMarks(db, batch[..n], answers);
      BatchWellFormed(db, batch[..n], answers);
      HandleMarks(RunBatch(db, batch[..n], answers).db, batch[n], answers(n));
      BatchFlagsStep(db, batch, answers);
    }
  }

  /** After a batch the incident table holds the old incidents followed by the ones the batch
      reported, in batch order. */
  lemma {:induction false} BatchFiles(db: Db, batch: seq<Post>, answers: nat -> Responses)
    ensures var r := RunBatch(db, batch, answers);
      var filed := ReportedPayloads(batch, answers);
      && |r.db.incidents| == |db.incidents| + |filed|
      && r.db.incidents[..|db.incidents|] == db.incidents
      && forall j :: 0 <= j < |filed| ==> IncidentFields(r.db.incidents[|db.incidents| + j]) == filed[j]
    decreases |batch|
  {
    if |batch| > 0 {
      var n := |batch| - 1;
      BatchFiles(db, batch[..n], answers);
      HandleFiles(RunBatch(db, batch[..n], answers).db, batch[n], answers(n));
      BatchIncidentsStep(db, batch, answers);
    }
  }

  /** The flags after one more post, from the flags before it. */
  lemma BatchFlagsStep(db: Db, batch: seq<Post>, answers: nat -> Responses)
    requires |batch| > 0
    requires var before := RunBatch(db, batch[..|batch| - 1], answers);
      && |before.db.posts| == |db.posts|
      && forall k :: 0 <= k < |db.posts| ==>
           before.db.posts[k] == db.posts[k].(processed := db.posts[k].processed
                                                 || Passed(batch[..|batch| - 1], before.outcomes, db.posts[k].id))
    requires var before := RunBatch(db, batch[..|batch| - 1], answers);
      var h := Handle(before.db, batch[|batch| - 1], answers(|batch| - 1));
      && |h.db.posts| == |before.db.posts|
      && forall k :: 0 <= k < |before.db.posts| ==>
           h.db.posts[k] == before.db.posts[k].(processed := before.db.posts[k].processed
                                                   || (h.outcome.Pass? && before.db.posts[k].id == batch[|batch| - 1].id))
    ensures var r := RunBatch(db, batch, answers);
      && |r.db.posts| == |db.posts|
      && forall k :: 0 <= k < |db.posts| ==>
           r.db.posts[k] == db.posts[k].(processed := db.posts[k].processed || Passed(batch, r.outcomes, db.posts[k].id))
  {
    var n := |batch| - 1;
    var init := batch[..n];
    var before := RunBatch(db, init, answers);
    var r := RunBatch(db, batch, answers);
    forall k | 0 <= k < |db.posts|
      ensures r.db.posts[k] == db.posts[k].(processed := db.posts[k].processed || Passed(batch, r.outcomes, db.posts[k].id))
    {
      var id := db.posts[k].id;
      if Passed(init, before.outcomes, id) {
        var i :| 0 <= i < |init| && i < |before.outcomes| && before.outcomes[i].Pass? && init[i].id == id;
        assert r.outcomes[i] == before.outcomes[i] && batch[i] == init[i];
      }
      if Passed(batch, r.outcomes, id) {
        var i :| 0 <= i < |batch| && i < |r.outcomes| && r.outcomes[i].Pass? && batch[i].id == id;
        if i < n {
          assert r.outcomes[i] == before.outcomes[i] && batch[i] == init[i];
        }
      }
    }
  }

  /** The incidents after one more post, from the incidents before it. */
  lemma BatchIncidentsStep(db: Db, batch: seq<Post>, answers: nat -> Responses)
    requires |batch| > 0
    requires var before := RunBatch(db, batch[..|batch| - 1], answers);
      var filed := ReportedPayloads(batch[..|batch| - 1], answers);
      && |before.db.incidents| == |db.incidents| + |filed|
      && before.db.incidents[..|db.incidents|] == db.incidents
      && forall j :: 0 <= j < |filed| ==> IncidentFields(before.db.incidents[|db.incidents| + j]) == filed[j]
    requires var before := RunBatch(db, batch[..|batch| - 1], answers);
      var n := |batch| - 1;
      var h := Handle(before.db, batch[n], answers(n));
      && |h.db.incidents| == |before.db.incidents| + (if Reported(answers(n)).Some? then 1 else 0)
      && h.db.incidents[..|before.db.incidents|] == before.db.incidents
      && (Reported(answers(n)).Some? ==>
            IncidentFields(h.db.incidents[|before.db.incidents|]) == Payload(batch[n].id, Reported(answers(n)).value))
    ensures var r := RunBatch(db, batch, answers);
      var filed := ReportedPayloads(batch, answers);
      && |r.db.incidents| == |db.incidents| + |filed|
      && r.db.incidents[..|db.incidents|] == db.incidents
      && forall j :: 0 <= j < |filed| ==> IncidentFields(r.db.incidents[|db.incidents| + j]) == filed[j]
  {
    var n := |batch| - 1;
    var before := RunBatch(db, batch[..n], answers);
    var prev := ReportedPayloads(batch[..n], answers);
    var r := RunBatch(db, batch, answers);
    var filed := ReportedPayloads(batch, answers);
    assert r.db.incidents[..|before.db.incidents|] == before.db.incidents;
    assert filed[..|prev|] == prev;
    forall j | 0 <= j < |filed|
      ensures IncidentFields(r.db.incidents[|db.incidents| + j]) == filed[j]
    {
      if j < |prev| {
        assert r.db.incidents[|db.incidents| + j] == before.db.incidents[|db.incidents| + j];
      }
    }
  }

  /** One pass of `poll_loop`: fetch (an empty batch when the fetch fails), then handle every
      post of the batch in order, a failure on one post not stopping the others. */
  method PollOnce(store: Store, fetchOk: bool, answers: nat -> Responses)
    returns (batch: seq<Post>, outcomes: seq<Outcome<Failure>>)
    requires store.Valid()
    modifies store
    ensures store.Valid()
    ensures batch == Fetch(old(store.State()), fetchOk)
    ensures Round(store.State(), outcomes) == RunBatch(old(store.State()), batch, answers)
  {
    batch := Fetch(store.State(), fetchOk);
    outcomes := [];
    ghost var start := store.State();
    for i := 0 to |batch|
      invariant store.Valid()
      invariant Round(store.State(), outcomes) == RunBatch(start, batch[..i], answers)
    {
      assert batch[..i + 1][..i] == batch[..i];
      var outcome := HandleSinglePost(store, batch[i], answers(i));
      outcomes := outcomes + [outcome];
    }
    assert batch[..|batch|] == batch;
  }

  /** The database after the given rounds of `poll_loop`, round `r` fetching when
      `fetches[r]` holds and answering its `i`-th post with `answers(r)(i)`. */
  function AfterRounds(db: Db, fetches: seq<bool>, answers: nat -> nat -> Responses): Db
    decreases |fetches|
  {
    if |fetches| == 0 then db
    else
      var n := |fetches| - 1;
      var before := AfterRounds(db, fetches[..n], answers);
      RunBatch(before, Fetch(before, fetches[n]), answers(n)).db
  }

  /** Rounds keep the database well formed, never drop or change a filed incident, and never
      add, remove or reorder posts. */
  lemma {:induction false} RoundsKeep(db: Db, fetches: seq<bool>, answers: nat -> nat -> Responses)
    requires WellFormed(db)
    ensures var after := AfterRounds(db, fetches, answers);
      && WellFormed(after)
      && |after.posts| == |db.posts|
      && (forall k :: 0 <= k < |db.posts| ==> after.posts[k].id == db.posts[k].id)
      && |after.incidents| >= |db.incidents|
      && after.incidents[..|db.incidents|] == db.incidents
    decreases |fetches|
  {
    if |fetches| > 0 {
      var n := |fetches| - 1;
      var before := AfterRounds(db, fetches[..n], answers);
      RoundsKeep(db, fetches[..n], answers);
      RoundKeeps(before, Fetch(before, fetches[n]), answers(n));
      var after := AfterRounds(db, fetches, answers);
      assert after.incidents[..|db.incidents|] == before.incidents[..|db.incidents|];
    }
  }

  /** One round keeps the database well formed, keeps every filed incident and every post id. */
  lemma RoundKeeps(db: Db, batch: seq<Post>, answers: nat -> Responses)
    requires WellFormed(db)
    ensures var after := RunBatch(db, batch, answers).db;
      && WellFormed(after)
      && |after.posts| == |db.posts|
      && (forall k :: 0 <= k < |db.posts| ==> after.posts[k].id == db.posts[k].id)
      && |after.incidents| >= |db.incidents|
      && after.incidents[..|db.incidents|] == db.incidents
  {
    BatchWellFormed(db, batch, answers);
    BatchMarks(db, batch, answers);
    BatchFiles(db, batch, answers);
  }

  /** `poll_loop`, for as many rounds as `fetches` has entries (the source loops forever,
      sleeping between rounds). */
  method Watch(store: Store, fetches: seq<bool>, answers: nat -> nat -> Responses)
    requires store.Valid()
    modifies store
    ensures store.Valid()
    ensures store.State() == AfterRounds(old(store.State()), fetches, answers)
  {
    ghost var start := store.State();
    for r := 0 to |fetches|
      invariant store.Valid()
      invariant store.State() == AfterRounds(start, fetches[..r], answers)
    {
      assert fetches[..r + 1][..r] == fetches[..r];
      var batch, outcomes := PollOnce(store, fetches[r], answers(r));
    }
    assert fetches[..|fetches|] == fetches;
  }

  /** A post whose handling failed stays in the table unchanged, still unprocessed, so the next
      round's query returns it again whenever that query is not cut off by the limit. */
  lemma FailedPostRefetched(db: Db, answers: nat -> Responses, i: nat)
    requires WellFormed(db)
    requires i < |Fetch(db, true)|
    requires RunBatch(db, Fetch(db, true), answers).outcomes[i].Fail?
    ensures var after := RunBatch(db, Fetch(db, true), answers).db;
      && Fetch(db, true)[i] in after.posts
      && (|Fetch(after, true)| < BatchLimit ==> Fetch(db, true)[i] in Fetch(after, true))
  {
    var batch := Fetch(db, true);
    var r := RunBatch(db, batch, answers);
    BatchMarks(db, batch, answers);
    var k :| 0 <= k < |db.posts| && db.posts[k] == batch[i];
    assert !Passed(batch, r.outcomes, batch[i].id) by {
      forall j | 0 <= j < |batch| && batch[j].id == batch[i].id ensures j == i {
        BatchIdsDistinct(db, batch, i, j);
      }
    }
    assert r.db.posts[k] == batch[i];
    assert Eligible(batch[i], false);
  }

  /** A post handled to the end is processed, so no later query returns it. */
  lemma PassedPostDone(db: Db, answers: nat -> Responses, i: nat)
    requires WellFormed(db)
    requires i < |Fetch(db, true)|
    requires RunBatch(db, Fetch(db, true), answers).outcomes[i].Pass?
    ensures Fetch(db, true)[i] !in Fetch(RunBatch(db, Fetch(db, true), answers).db, true)
  {
    var batch := Fetch(db, true);
    var r := RunBatch(db, batch, answers);
    BatchMarks(db, batch, answers);
    BatchWellFormed(db, batch, answers);
    var k :| 0 <= k < |db.posts| && db.posts[k] == batch[i];
    assert Passed(batch, r.outcomes, batch[i].id);
    ProcessedNotFetched(r.db, k);
  }

  /** No query for unprocessed posts returns a post with the id of a processed one. */
  lemma ProcessedNotFetched(db: Db, k: nat)
    requires WellFormed(db) && k < |db.posts| && db.posts[k].processed
    ensures forall p :: p in Fetch(db, true) ==> p.id != db.posts[k].id
  {
    forall p | p in Fetch(db, true) ensures p.id != db.posts[k].id {
      var m :| 0 <= m < |db.posts| && db.posts[m] == p;
      assert m != k;
    }
  }

  /** The posts of one fetch carry distinct ids. */
  lemma BatchIdsDistinct(db: Db, batch: seq<Post>, i: nat, j: nat)
    requires WellFormed(db) && batch == Fetch(db, true)
    requires i < |batch| && j < |batch| && batch[i].id == batch[j].id
    ensures i == j
  {
    UnprocessedOldestFirst(db, BatchLimit, false);
    var a :| 0 <= a < |db.posts| && db.posts[a] == batch[i];
    var b :| 0 <= b < |db.posts| && db.posts[b] == batch[j];
    assert a == b;
  }
}
