/**
 * The splitter's session state and its two stateful operations:
 * `processVideo`, which feeds the planned segments through the engine
 * and collects the results, and `startOver`, which throws them away.
 */
module Session {
  import opened Wrappers
  import opened Text
  import opened Segments
  import opened Strategy
  import opened Engine

  /** The engine file the source video is written to. */
  const InputName: string := "input.mp4"

  // ---------------------------------------------------------------------
  // Output names

  /** The output name of segment `k`: `segment_`, the number zero-padded to three digits, then `.mp4`. */
  function SegmentName(k: nat): string {
    "segment_" + ZeroPadded(k, 3) + ".mp4"
  }

  /**
   * The decimal numeral of `n`, with zeros in front up to `width` characters.
   * It equals `PadStart(Decimal(n), width, '0')` (see `ZeroPaddedIsPadStart`); being
   * recursive, it keeps the solver from unfolding `PadStart` inside quantifiers over names.
   */
  function ZeroPadded(n: nat, width: nat): string
    decreases n + width
  {
    if n < 10 && width <= 1 then [DigitChar(n)]
    else ZeroPadded(n / 10, if width == 0 then 0 else width - 1) + [DigitChar(n % 10)]
  }

  lemma RepeatSnoc(c: char, m: nat)
    ensures Repeat(c, m) + [c] == Repeat(c, m + 1)
  {
  }

  /** `ZeroPadded(n, width)` is `String(n).padStart(width, '0')`. */
  lemma {:induction false} ZeroPaddedIsPadStart(n: nat, width: nat)
    ensures ZeroPadded(n, width) == PadStart(Decimal(n), width, '0')
    decreases n + width
  {
    if n < 10 && width <= 1 {
    } else {
      var w := if width == 0 then 0 else width - 1;
      ZeroPaddedIsPadStart(n / 10, w);
      if n < 10 {
        assert Decimal(0) == "0";
        RepeatSnoc('0', w - 1);
      } else {
        var d := Decimal(n / 10);
        assert Decimal(n) == d + [DigitChar(n % 10)];
        assert PadStart(d, w, '0') + [DigitChar(n % 10)] == Repeat('0', |PadStart(d, w, '0')| - |d|) + (d + [DigitChar(n % 10)]);
      }
    }
  }

  /** The names of the first `n` segments. */
  function SegmentNames(n: nat): set<string> {
    set k | 1 <= k <= n :: SegmentName(k)
  }

  /** A segment name is the prefix, at least three digits spelling `k` with no extra leading zero beyond three, and the suffix. */
  lemma SegmentNameShape(k: nat) returns (digits: string)
    ensures SegmentName(k) == "segment_" + digits + ".mp4"
    ensures IsDigits(digits) && DigitsValue(digits) == k
    ensures |digits| >= 3 && (|digits| > 3 ==> digits[0] != '0')
  {
    digits := PadStart(Decimal(k), 3, '0');
    ZeroPaddedValue(k, 3);
    ZeroPaddedIsPadStart(k, 3);
  }

  /** Different segments get different names. */
  lemma SegmentNameInjective(a: nat, b: nat)
    ensures SegmentName(a) == SegmentName(b) <==> a == b
  {
    var da := SegmentNameShape(a);
    var db := SegmentNameShape(b);
    if SegmentName(a) == SegmentName(b) {
      var n := SegmentName(a);
      assert da == n[8..|n| - 4];
      assert db == n[8..|n| - 4];
    }
  }

  /** No segment name is the input file's name. */
  lemma SegmentNameNotInput(k: nat)
    ensures SegmentName(k) != InputName
  {
    assert SegmentName(k)[0] == 's' && InputName[0] == 'i';
  }

  lemma NotInputNames(n: nat)
    ensures InputName !in SegmentNames(n)
  {
    forall k | 1 <= k <= n
      ensures SegmentName(k) != InputName
    {
      SegmentNameNotInput(k);
    }
  }

  /** Segment 1 is `segment_001.mp4`. */
  lemma FirstSegmentName()
    ensures SegmentName(1) == "segment_001.mp4"
  {
    assert ZeroPadded(0, 1) == "0";
    assert ZeroPadded(0, 2) == "00";
    assert ZeroPadded(1, 3) == "001";
  }

  // ---------------------------------------------------------------------
  // Progress values

  /** The value reported before cutting segment `i` of `n`: 10 + (i / n) * 80. */
  function SegmentProgress(i: nat, n: nat): real
    requires n > 0
  {
    10.0 + (i as real / n as real) * 80.0
  }

  /** Segment progress starts at 10, stays below 90, and grows with the segment index. */
  lemma SegmentProgressBounds(i: nat, n: nat)
    requires i < n
    ensures 10.0 <= SegmentProgress(i, n) < 90.0
  {
    var q := i as real / n as real;
    assert q * n as real == i as real;
    if q >= 1.0 {
      MulMonotoneLe(1.0, q, n as real);
    }
  }

  lemma MulMonotoneLe(a: real, b: real, c: real)
    requires a <= b && c > 0.0
    ensures a * c <= b * c
  {
  }

  lemma SegmentProgressIncreasing(i: nat, j: nat, n: nat)
    requires i < j <= n
    ensures SegmentProgress(i, n) < SegmentProgress(j, n)
  {
    var qi := i as real / n as real;
    var qj := j as real / n as real;
    assert qi * n as real == i as real && qj * n as real == j as real;
    if qj <= qi {
      MulMonotoneLe(qj, qi, n as real);
    }
  }

  /** `Math.round`: halves go up. */
  function Round(x: real): int {
    (x + 0.5).Floor
  }

  /** The engine's progress handler: 10 + round(100 p) * 0.8. */
  function EngineProgress(p: real): real {
    10.0 + Round(p * 100.0) as real * 0.8
  }

  /** A progress fraction in [0, 1] is shown within [10, 90]. */
  lemma EngineProgressBounds(p: real)
    requires 0.0 <= p <= 1.0
    ensures 10.0 <= EngineProgress(p) <= 90.0
  {
    assert 0 <= Round(p * 100.0) <= 100;
  }

  /**
   * The handler does not know which segment is being cut: halfway through
   * two segments the loop reports 50, and an engine event at the start of
   * the second cut then reports 10.
   */
  lemma EngineProgressCanFallBack()
    ensures EngineProgress(0.0) == 10.0 && SegmentProgress(1, 2) == 50.0
    ensures EngineProgress(0.0) < SegmentProgress(1, 2)
  {
  }

  /** What a run that completes reports after the engine is up: 10, then one value per segment, then 100. */
  function RunReports(n: nat): seq<real> {
    [10.0] + seq(n, i requires 0 <= i < n => SegmentProgress(i, n)) + [100.0]
  }

  /** The reports of a completed run never decrease and stay within [10, 100]. */
  lemma RunReportsAscending(n: nat)
    ensures Ascending(RunReports(n))
    ensures forall i :: 0 <= i < |RunReports(n)| ==> 10.0 <= RunReports(n)[i] <= 100.0
  {
    var r := RunReports(n);
    forall i | 1 <= i <= n
      ensures 10.0 <= r[i] < 90.0
    {
      SegmentProgressBounds(i - 1, n);
    }
    forall i, j | 0 <= i < j < |r|
      ensures r[i] <= r[j]
    {
      if 0 < i && j <= n {
        SegmentProgressIncreasing(i - 1, j - 1, n);
      }
    }
  }

  lemma SegmentNamesNext(n: nat)
    ensures SegmentNames(n + 1) == SegmentNames(n) + {SegmentName(n + 1)}
  {
  }

  // ---------------------------------------------------------------------
  // Artifacts

  /** An entry of `splitSegments`: the output's name, its bytes (the Blob), its object URL as a handle, and the planned times. */
  datatype Artifact = Artifact(name: string, data: Bytes, url: nat, start: real, end: real)

  function UrlsOf(artifacts: seq<Artifact>): set<nat> {
    set i | 0 <= i < |artifacts| :: artifacts[i].url
  }

  lemma UrlsOfAppend(artifacts: seq<Artifact>, a: Artifact)
    ensures UrlsOf(artifacts + [a]) == UrlsOf(artifacts) + {a.url}
  {
    var longer := artifacts + [a];
    assert longer[|artifacts|] == a;
    assert forall i :: 0 <= i < |artifacts| ==> longer[i] == artifacts[i];
  }

  /** The first |artifacts| planned segments, in order, each with its output name and times. */
  ghost predicate FollowsPlan(artifacts: seq<Artifact>, segments: seq<Segment>) {
    && |artifacts| <= |segments|
    && forall i :: 0 <= i < |artifacts| ==>
         && artifacts[i].name == SegmentName(i + 1)
         && artifacts[i].start == segments[i].start
         && artifacts[i].end == segments[i].end
  }

  lemma FollowsPlanAppend(before: seq<Artifact>, segments: seq<Segment>, after: seq<Artifact>)
    requires FollowsPlan(before, segments) && |before| < |segments|
    requires |after| == |before| + 1 && after[..|before|] == before
    requires after[|before|].name == SegmentName(|before| + 1)
    requires after[|before|].start == segments[|before|].start && after[|before|].end == segments[|before|].end
    ensures FollowsPlan(after, segments)
  {
    forall i | 0 <= i < |before|
      ensures after[i] == before[i]
    {
      assert after[..|before|][i] == after[i];
    }
  }

  /** One artifact per planned segment. */
  ghost predicate MatchesPlan(artifacts: seq<Artifact>, segments: seq<Segment>) {
    |artifacts| == |segments| && FollowsPlan(artifacts, segments)
  }

  /** The artifacts' time ranges cover [0, d] end to end. */
  ghost predicate ArtifactsTile(artifacts: seq<Artifact>, d: real) {
    && |artifacts| > 0
    && artifacts[0].start == 0.0
    && artifacts[|artifacts| - 1].end == d
    && (forall i :: 0 <= i < |artifacts| ==> artifacts[i].start < artifacts[i].end)
    && (forall i :: 0 <= i < |artifacts| - 1 ==> artifacts[i].end == artifacts[i + 1].start)
  }

  /** Artifacts that match a tiling plan tile the video, and their names are pairwise different. */
  lemma ArtifactsOfTilingPlan(artifacts: seq<Artifact>, segments: seq<Segment>, d: real)
    requires MatchesPlan(artifacts, segments) && Tiles(segments, d)
    ensures ArtifactsTile(artifacts, d)
    ensures forall i, j :: 0 <= i < j < |artifacts| ==> artifacts[i].name != artifacts[j].name
  {
    forall i, j | 0 <= i < j < |artifacts|
      ensures artifacts[i].name != artifacts[j].name
    {
      SegmentNameInjective(i + 1, j + 1);
    }
  }

  /** The engine call whose rejection ended a run. */
  datatype Failure =
    | LoadFailed
    | WriteFailed
    | ExecFailed(index: nat)
    | ReadFailed(index: nat)
    | DeleteFailed(name: string)

  datatype RunOutcome = Completed | Aborted(failure: Failure)

  /** The engine file system with the run's own files taken out. */
  lemma CleanedFiles(m: map<string, Bytes>, data: Bytes, n: nat)
    requires InputName !in SegmentNames(n)
    ensures (m[InputName := data] - SegmentNames(n)) - {InputName} == m - ({InputName} + SegmentNames(n))
  {
  }

  // ---------------------------------------------------------------------
  // The session

  class Session {
    /** `ffmpeg`: null until the first run creates it. */
    var engine: Engine?
    /** `videoDuration`. */
    var duration: real
    /** `splitSegments`. */
    var artifacts: seq<Artifact>
    /** Object URLs created and not yet revoked. */
    var liveUrls: set<nat>
    /** The handle the next `URL.createObjectURL` returns. */
    var nextUrl: nat
    /** Every value passed to `updateProgress`, in order. */
    var reports: seq<real>

    /** Every artifact's URL is live, and every live URL was handed out. */
    ghost predicate Valid()
      reads this
    {
      && UrlsOf(artifacts) <= liveUrls
      && (forall u :: u in liveUrls ==> u < nextUrl)
    }

    /** The page as loaded: no engine, no video, no artifacts. */
    constructor ()
      ensures Valid()
      ensures engine == null && duration == 0.0 && artifacts == [] && liveUrls == {} && reports == []
    {
      engine := null;
      duration := 0.0;
      artifacts := [];
      liveUrls := {};
      nextUrl := 0;
      reports := [];
    }

    /** `videoDuration = videoPreview.duration`, once a chosen file's metadata is in. */
    method SetDuration(d: real)
      modifies this
      ensures duration == d
      ensures engine == old(engine) && artifacts == old(artifacts) && liveUrls == old(liveUrls)
      ensures nextUrl == old(nextUrl) && reports == old(reports)
    {
      duration := d;
    }

    /** `URL.createObjectURL(blob)`: a new live handle. */
    method CreateObjectUrl() returns (url: nat)
      requires Valid()
      modifies this
      ensures Valid()
      ensures url == old(nextUrl) && nextUrl == old(nextUrl) + 1 && liveUrls == old(liveUrls) + {url}
      ensures engine == old(engine) && duration == old(duration) && artifacts == old(artifacts)
      ensures reports == old(reports)
    {
      url := nextUrl;
      nextUrl := nextUrl + 1;
      liveUrls := liveUrls + {url};
    }

    /** `URL.revokeObjectURL(url)`. */
    method RevokeObjectUrl(url: nat)
      modifies this
      ensures liveUrls == old(liveUrls) - {url}
      ensures engine == old(engine) && duration == old(duration) && artifacts == old(artifacts)
      ensures nextUrl == old(nextUrl) && reports == old(reports)
    {
      liveUrls := liveUrls - {url};
    }

    /** `startOver`: revoke every artifact's URL, drop the artifacts, and forget the video (`resetToUpload`). */
    method StartOver()
      requires Valid()
      modifies this
      ensures Valid()
      ensures artifacts == [] && duration == 0.0
      ensures liveUrls == old(liveUrls) - UrlsOf(old(artifacts))
      ensures engine == old(engine) && nextUrl == old(nextUrl) && reports == old(reports)
    {
      var i := 0;
      while i < |artifacts|
        invariant 0 <= i <= |artifacts|
        invariant artifacts == old(artifacts) && engine == old(engine)
        invariant nextUrl == old(nextUrl) && reports == old(reports)
        invariant liveUrls == old(liveUrls) - UrlsOf(artifacts[..i])
      {
        assert artifacts[..i + 1] == artifacts[..i] + [artifacts[i]];
        UrlsOfAppend(artifacts[..i], artifacts[i]);
        RevokeObjectUrl(artifacts[i].url);
        i := i + 1;
      }
      assert artifacts[..i] == artifacts;
      artifacts := [];
      duration := 0.0;
    }

    /**
     * When no engine handle exists: report 0, create and store the handle, then load it.
     * The handle is stored before loading starts, so a failed load leaves it in place.
     */
    method EnsureEngine() returns (ok: bool)
      modifies this
      ensures engine != null
      ensures old(engine) != null ==> ok && engine == old(engine) && reports == old(reports)
      ensures old(engine) == null ==>
        fresh(engine) && engine.files == map[] && engine.loaded == ok && reports == old(reports) + [0.0]
      ensures duration == old(duration) && artifacts == old(artifacts)
      ensures liveUrls == old(liveUrls) && nextUrl == old(nextUrl)
    {
      ok := true;
      if engine == null {
        reports := reports + [0.0];
        engine := new Engine();
        ok := engine.Load();
      }
    }

    /**
     * One pass of the loop in `processVideo`: report, cut, read back,
     * publish, delete. It keeps the loop's invariant: the artifacts follow
     * the plan, and the live URLs are the ones from before the run plus the
     * artifacts' own, all handed out during the run.
     */
    method CutSegment(i: nat, segments: seq<Segment>, ghost base: set<nat>, ghost firstUrl: nat)
      returns (failure: Option<Failure>)
      requires Valid() && engine != null && i == |artifacts| < |segments|
      requires liveUrls == base + UrlsOf(artifacts)
      requires nextUrl >= firstUrl && forall k :: 0 <= k < |artifacts| ==> artifacts[k].url >= firstUrl
      modifies this, engine
      ensures Valid() && engine == old(engine) && duration == old(duration)
      ensures reports == old(reports) + [SegmentProgress(i, |segments|)]
      ensures failure.Some? ==> failure.value.ExecFailed? || failure.value.ReadFailed? || failure.value.DeleteFailed?
      ensures liveUrls == base + UrlsOf(artifacts)
      ensures nextUrl >= firstUrl && forall k :: 0 <= k < |artifacts| ==> artifacts[k].url >= firstUrl
      ensures failure.None? ==>
        && |artifacts| == i + 1 && artifacts[..i] == old(artifacts)
        && artifacts[i].name == SegmentName(i + 1)
        && artifacts[i].start == segments[i].start && artifacts[i].end == segments[i].end
        && engine.files == old(engine.files) - {SegmentName(i + 1)}
    {
      var name := SegmentName(i + 1);
      reports := reports + [SegmentProgress(i, |segments|)];
      var ok := engine.Exec(InputName, segments[i].start, segments[i].duration, name);
      if !ok {
        return Some(ExecFailed(i));
      }
      var data := engine.ReadFile(name);
      if data.None? {
        return Some(ReadFailed(i));
      }
      var url := CreateObjectUrl();
      ghost var before := artifacts;
      artifacts := artifacts + [Artifact(name, data.value, url, segments[i].start, segments[i].end)];
      UrlsOfAppend(before, artifacts[i]);
      ok := engine.DeleteFile(name);
      if !ok {
        return Some(DeleteFailed(name));
      }
      return None;
    }

    /** The files the engine held before a run: none if the run creates the engine. */
    ghost function FilesOf(e: Engine?): map<string, Bytes>
      reads e
    {
      if e == null then map[] else e.files
    }

    /**
     * `processVideo(segments)`, with `fetchFile(videoFile)` as `input`.
     * A completed run publishes one artifact per planned segment and leaves
     * none of its files in the engine; any rejection ends in `startOver`.
     */
    method ProcessVideo(segments: seq<Segment>, input: Bytes) returns (outcome: RunOutcome)
      requires Valid()
      modifies this, engine
      ensures Valid() && engine != null && old(reports) <= reports
      ensures old(engine) != null ==> engine == old(engine)
      ensures outcome.Completed? ==>
        && MatchesPlan(artifacts, segments)
        && engine.files == old(FilesOf(engine)) - ({InputName} + SegmentNames(|segments|))
        && liveUrls == old(liveUrls) + UrlsOf(artifacts)
        && (forall i :: 0 <= i < |artifacts| ==> artifacts[i].url !in old(liveUrls))
        && duration == old(duration)
        && reports == old(reports) + (if old(engine) == null then [0.0] else []) + RunReports(|segments|)
      ensures outcome.Aborted? ==>
        && artifacts == [] && duration == 0.0
        && liveUrls == old(liveUrls)
             - (if outcome.failure.LoadFailed? || outcome.failure.WriteFailed? then UrlsOf(old(artifacts)) else {})
    {
      var ok := EnsureEngine();
      if !ok {
        StartOver();
        return Aborted(LoadFailed);
      }
      reports := reports + [10.0];
      ok := engine.WriteFile(InputName, input);
      if !ok {
        StartOver();
        return Aborted(WriteFailed);
      }
      ghost var written := engine.files;
      var failure := CutAll(segments);
      assert old(liveUrls) * UrlsOf(artifacts) == {};
      assert (old(liveUrls) + UrlsOf(artifacts)) - UrlsOf(artifacts) == old(liveUrls);
      if failure.Some? {
        StartOver();
        return Aborted(failure.value);
      }
      NotInputNames(|segments|);
      ok := engine.DeleteFile(InputName);
      if !ok {
        StartOver();
        return Aborted(DeleteFailed(InputName));
      }
      CleanedFiles(old(FilesOf(engine)), input, |segments|);
      reports := reports + [100.0];
      return Completed;
    }

    /** `splitSegments = []` and the loop over the segments, up to the first rejection. */
    method CutAll(segments: seq<Segment>) returns (failure: Option<Failure>)
      requires Valid() && engine != null
      modifies this, engine
      ensures Valid() && engine == old(engine) && duration == old(duration)
      ensures liveUrls == old(liveUrls) + UrlsOf(artifacts) && nextUrl >= old(nextUrl)
      ensures forall k :: 0 <= k < |artifacts| ==> artifacts[k].url >= old(nextUrl)
      ensures old(reports) <= reports
      ensures failure.Some? ==> failure.value.ExecFailed? || failure.value.ReadFailed? || failure.value.DeleteFailed?
      ensures failure.None? ==>
        && MatchesPlan(artifacts, segments)
        && engine.files == old(engine.files) - SegmentNames(|segments|)
        && reports == old(reports) + seq(|segments|, k requires 0 <= k < |segments| => SegmentProgress(k, |segments|))
    {
      artifacts := [];
      var n := |segments|;
      var i := 0;
      while i < n
        invariant 0 <= i <= n && |artifacts| == i
        invariant Valid() && engine == old(engine) && duration == old(duration)
        invariant FollowsPlan(artifacts, segments)
        invariant engine.files == old(engine.files) - SegmentNames(i)
        invariant liveUrls == old(liveUrls) + UrlsOf(artifacts)
        invariant nextUrl >= old(nextUrl) && forall k :: 0 <= k < i ==> artifacts[k].url >= old(nextUrl)
        invariant reports == old(reports) + seq(i, k requires 0 <= k < i => SegmentProgress(k, n))
      {
        ghost var before := artifacts;
        failure := CutSegment(i, segments, old(liveUrls), old(nextUrl));
        if failure.Some? {
          return;
        }
        FollowsPlanAppend(before, segments, artifacts);
        SegmentNamesNext(i);
        i := i + 1;
      }
      return None;
    }

    /**
     * `handleSplit`: plan for the current video, and on a refusal stop
     * before any processing; otherwise hand the plan to `processVideo`.
     */
    method HandleSplit(strategy: Strategy, input: Bytes) returns (result: Result<RunOutcome, PlanError>)
      requires Valid()
      modifies this, engine
      ensures Valid()
      ensures PlanOf(strategy, old(duration)).Err? ==>
        && result == Err(PlanOf(strategy, old(duration)).error)
        && unchanged(this) && (engine != null ==> unchanged(engine))
      ensures PlanOf(strategy, old(duration)).Ok? ==>
        && result.Ok?
        && (result.value.Completed? ==>
              MatchesPlan(artifacts, PlanOf(strategy, old(duration)).value) && ArtifactsTile(artifacts, old(duration)))
        && (result.value.Aborted? ==> artifacts == [])
    {
      var plan := PlanSplit(strategy, duration);
      if plan.Err? {
        return Err(plan.error);
      }
      PlanTiles(strategy, duration);
      var d := duration;
      var outcome := ProcessVideo(plan.value, input);
      if outcome.Completed? {
        ArtifactsOfTilingPlan(artifacts, plan.value, d);
      }
      return Ok(outcome);
    }
  }

  /** Pressing "Start Over" twice: the second press finds nothing left to revoke or drop. */
  method StartOverTwice(s: Session)
    requires s.Valid()
    modifies s
    ensures s.Valid() && s.artifacts == [] && s.duration == 0.0
    ensures s.liveUrls == old(s.liveUrls) - UrlsOf(old(s.artifacts))
    ensures s.engine == old(s.engine) && s.nextUrl == old(s.nextUrl) && s.reports == old(s.reports)
  {
    s.StartOver();
    ghost var once := s.liveUrls;
    s.StartOver();
    assert s.liveUrls == once;
  }
}
