/** The metadata controller `get_video_info` (app.py:25-163) and the
    `/api/info` route around it (app.py:326-335): every persona of the
    metadata list in order, one relaxed `extract_flat` retry after a format
    error, the first successful extraction returned as the video summary,
    and, when every persona failed, the synthesised error text. The
    extractor, applied to the requested URL, is the parameter `ex`: it maps
    each call, with the options that call resolves to, to the way it ends. */
module MetadataController {
  import opened Text
  import opened ConfigSpace
  import opened ErrorText

  /** The fields of the extractor's info dictionary the controller reads.
      A present `formats` is the length of the `formats` list. */
  datatype InfoDict = InfoDict(
    title: Field<string>, duration: Field<int>, thumbnail: Field<string>,
    formats: Field<nat>, uploader: Field<string>, viewCount: Field<int>)

  /** The summary dictionary returned on success (app.py:91-97, 113-120);
      `None` (JSON `null`) where the info dictionary held `None`. */
  datatype VideoInfo = VideoInfo(
    title: Option<string>, duration: Option<int>, thumbnail: Option<string>,
    formats: nat, uploader: Option<string>, viewCount: Option<int>)

  /** The controller's result: the summary, or a dictionary with a single
      `error` entry. */
  datatype InfoResult = Found(info: VideoInfo) | Failed(error: string)

  /** One extractor call: the position in the persona list and the options
      it hands over. */
  datatype MetaCall = MetaCall(persona: nat, options: Options)

  /** How an `extract_info` call ends: with a dictionary, with the
      extractor's DownloadError, or with any other exception. */
  datatype Outcome = Extracted(info: InfoDict) | DownloadFailure(message: string) | OtherFailure(message: string)

  /** The persona list one call walks through, and whether the cookie
      file exists. */
  datatype MetaRequest = MetaRequest(personas: seq<Persona>, hasCookies: bool)

  function MetadataRequest(hasCookies: bool): (req: MetaRequest)
    ensures req.personas == MetadataPersonas(hasCookies) && req.hasCookies == hasCookies
  {
    MetaRequest(MetadataPersonas(hasCookies), hasCookies)
  }

  /** The call for persona `i`, plain or with `extract_flat` (app.py:57-79, 106-108). */
  function MetaCallAt(req: MetaRequest, i: nat, flat: bool): (c: MetaCall)
    requires i < |req.personas|
    ensures c.persona == i && c.options.mode == Metadata(flat)
  {
    MetaCall(i, Resolve(req.personas[i], req.hasCookies, Metadata(flat)))
  }

  /** The summary built from an info dictionary, each missing key replaced
      by its default; `formats` is the count the caller passes. */
  function Report(d: InfoDict, formats: nat): VideoInfo
  {
    VideoInfo(d.title.Get("Unknown"), d.duration.Get(0), d.thumbnail.Get(""),
              formats, d.uploader.Get("Unknown"), d.viewCount.Get(0))
  }

  /** The `TypeError` text of `len(None)`. */
  const NoLengthText := "object of type 'NoneType' has no len()"

  /** How one persona's attempt ends: with the summary it returns, or with
      the message it appends to `errors`. */
  datatype PersonaResult = Hit(info: VideoInfo) | Miss(message: string)

  /** Everything one persona did: its calls and how it ended. */
  datatype PersonaRun = PersonaRun(persona: nat, calls: seq<MetaCall>, result: PersonaResult)

  /** One pass of the loop body (app.py:56-134). */
  function TryPersona(req: MetaRequest, ex: MetaCall -> Outcome, i: nat): PersonaRun
    requires i < |req.personas|
  {
    var c0 := MetaCallAt(req, i, false);
    match ex(c0)
    case Extracted(d) =>
      if d.formats.Null? then PersonaRun(i, [c0], Miss(NoLengthText))
      else PersonaRun(i, [c0], Hit(Report(d, d.formats.Get(0).value)))
    case DownloadFailure(msg) =>
      if IsFormatError(msg) then
        var c1 := MetaCallAt(req, i, true);
        if ex(c1).Extracted? then PersonaRun(i, [c0, c1], Hit(Report(ex(c1).info, 0)))
        else PersonaRun(i, [c0, c1], Miss(msg))
      else PersonaRun(i, [c0], Miss(msg))
    case OtherFailure(msg) => PersonaRun(i, [c0], Miss(msg))
  }

  /** A persona's attempt makes one plain call and, only after a
      DownloadError that is a format error, one `extract_flat` call, both
      with the persona's resolved options. */
  lemma TryPersonaCalls(req: MetaRequest, ex: MetaCall -> Outcome, i: nat)
    requires i < |req.personas|
    ensures TryPersona(req, ex, i).persona == i
    ensures 1 <= |TryPersona(req, ex, i).calls| <= 2
    ensures TryPersona(req, ex, i).calls[0] == MetaCallAt(req, i, false)
    ensures |TryPersona(req, ex, i).calls| == 2 <==>
      ex(MetaCallAt(req, i, false)).DownloadFailure? && IsFormatError(ex(MetaCallAt(req, i, false)).message)
    ensures |TryPersona(req, ex, i).calls| == 2 ==>
      TryPersona(req, ex, i).calls[1] == MetaCallAt(req, i, true)
  {
  }

  /** The attempt finds the video exactly when its last call extracted a
      dictionary that can be summarised: after the plain call it reports
      `len(formats)` (0 when the key is missing), and a `formats` of `None`
      makes `len` raise, which the attempt records as its message; after
      the flat call it reports 0. Otherwise it records the plain call's
      message, never the flat call's. */
  lemma TryPersonaResult(req: MetaRequest, ex: MetaCall -> Outcome, i: nat)
    requires i < |req.personas|
    ensures TryPersona(req, ex, i).result.Hit? <==>
      (ex(MetaCallAt(req, i, false)).Extracted? && !ex(MetaCallAt(req, i, false)).info.formats.Null?) ||
      (ex(MetaCallAt(req, i, false)).DownloadFailure? && IsFormatError(ex(MetaCallAt(req, i, false)).message) &&
       ex(MetaCallAt(req, i, true)).Extracted?)
    ensures ex(MetaCallAt(req, i, false)).Extracted? ==>
      var d := ex(MetaCallAt(req, i, false)).info;
      |TryPersona(req, ex, i).calls| == 1 &&
      (d.formats.Absent? ==> TryPersona(req, ex, i).result == Hit(Report(d, 0))) &&
      (d.formats.Present? ==> TryPersona(req, ex, i).result == Hit(Report(d, d.formats.value))) &&
      (d.formats.Null? ==> TryPersona(req, ex, i).result == Miss(NoLengthText))
    ensures !ex(MetaCallAt(req, i, false)).Extracted? && TryPersona(req, ex, i).result.Hit? ==>
      TryPersona(req, ex, i).result == Hit(Report(ex(MetaCallAt(req, i, true)).info, 0))
    ensures !ex(MetaCallAt(req, i, false)).Extracted? && TryPersona(req, ex, i).result.Miss? ==>
      TryPersona(req, ex, i).result.message == ex(MetaCallAt(req, i, false)).message
  {
  }

  /** The attempt each persona would make, in list order. */
  function Attempts(req: MetaRequest, ex: MetaCall -> Outcome): (a: seq<PersonaRun>)
    ensures |a| == |req.personas|
    ensures forall k :: 0 <= k < |a| ==> a[k] == TryPersona(req, ex, k)
  {
    seq(|req.personas|, k requires 0 <= k < |req.personas| => TryPersona(req, ex, k))
  }

  /** The attempts actually made from position `i` on: each in turn, up to
      and including the first that finds the video. */
  function RunsFrom(attempts: seq<PersonaRun>, i: nat): seq<PersonaRun>
    requires i <= |attempts|
    decreases |attempts| - i
  {
    if i == |attempts| then []
    else [attempts[i]] + if attempts[i].result.Hit? then [] else RunsFrom(attempts, i + 1)
  }

  /** The attempts of one `get_video_info` call. */
  function Runs(req: MetaRequest, ex: MetaCall -> Outcome): seq<PersonaRun>
  {
    RunsFrom(Attempts(req, ex), 0)
  }

  /** The `errors` list after a sequence of attempts. */
  function ErrorsOf(runs: seq<PersonaRun>): seq<string>
  {
    if runs == [] then []
    else ErrorsOf(runs[..|runs| - 1]) + (if runs[|runs| - 1].result.Miss? then [runs[|runs| - 1].result.message] else [])
  }

  /** The result after a sequence of attempts. */
  function InfoOf(runs: seq<PersonaRun>, hasCookies: bool): InfoResult
  {
    if runs != [] && runs[|runs| - 1].result.Hit? then Found(runs[|runs| - 1].result.info)
    else Failed(MetadataSummary(ErrorsOf(runs), hasCookies))
  }

  /** What `get_video_info` returns. */
  function VideoInfoOf(req: MetaRequest, ex: MetaCall -> Outcome): InfoResult
  {
    InfoOf(Runs(req, ex), req.hasCookies)
  }

  /** The attempts made from position `i` on are those at `i`, `i + 1`, ...
      in order; every one but the last found nothing; and the walk stops
      before the end of the list only at an attempt that found the video. */
  lemma {:induction false} RunsFromShape(attempts: seq<PersonaRun>, i: nat)
    requires i <= |attempts|
    ensures |RunsFrom(attempts, i)| <= |attempts| - i
    ensures forall k :: 0 <= k < |RunsFrom(attempts, i)| ==>
      i + k < |attempts| && RunsFrom(attempts, i)[k] == attempts[i + k]
    ensures forall k :: 0 <= k < |RunsFrom(attempts, i)| - 1 ==> RunsFrom(attempts, i)[k].result.Miss?
    ensures |RunsFrom(attempts, i)| < |attempts| - i ==>
      RunsFrom(attempts, i) != [] && RunsFrom(attempts, i)[|RunsFrom(attempts, i)| - 1].result.Hit?
    decreases |attempts| - i
  {
    if i < |attempts| && attempts[i].result.Miss? {
      RunsFromShape(attempts, i + 1);
      var rs, tail := RunsFrom(attempts, i), RunsFrom(attempts, i + 1);
      assert rs == [attempts[i]] + tail;
      forall k | 0 <= k < |rs|
        ensures i + k < |attempts| && rs[k] == attempts[i + k]
      {
        if k > 0 { assert rs[k] == tail[k - 1]; }
      }
    }
  }

  /** Each persona is tried at most once, in list order: the k-th attempt
      is the attempt at persona k, and every attempt but the last failed. */
  lemma PersonasInOrder(req: MetaRequest, ex: MetaCall -> Outcome)
    ensures |Runs(req, ex)| <= |req.personas|
    ensures req.personas != [] ==> Runs(req, ex) != []
    ensures forall k :: 0 <= k < |Runs(req, ex)| ==>
      k < |req.personas| && Runs(req, ex)[k] == Attempts(req, ex)[k]
    ensures forall k :: 0 <= k < |Runs(req, ex)| - 1 ==> Runs(req, ex)[k].result.Miss?
  {
    var A := Attempts(req, ex);
    RunsFromShape(A, 0);
    var R := RunsFrom(A, 0);
    forall k | 0 <= k < |R|
      ensures k < |req.personas| && R[k] == A[k]
    {
      assert R[k] == A[0 + k];
    }
  }

  /** When the attempt at `k` is the first to find the video, the walk
      from any earlier position makes exactly the attempts up to `k`. */
  lemma {:induction false} RunsToFirstHit(attempts: seq<PersonaRun>, i: nat, k: nat)
    requires i <= k < |attempts| && attempts[k].result.Hit?
    requires forall m :: i <= m < k ==> attempts[m].result.Miss?
    ensures RunsFrom(attempts, i) == attempts[i..k + 1]
    decreases k - i
  {
    if i < k {
      RunsToFirstHit(attempts, i + 1, k);
      assert attempts[i..k + 1] == [attempts[i]] + attempts[i + 1..k + 1];
    } else {
      assert attempts[i..k + 1] == [attempts[i]];
      AppendEmpty([attempts[i]]);
    }
  }

  /** When no attempt finds the video, the walk makes every attempt from
      its position on. */
  lemma {:induction false} RunsWithoutHit(attempts: seq<PersonaRun>, i: nat)
    requires i <= |attempts|
    requires forall m :: i <= m < |attempts| ==> attempts[m].result.Miss?
    ensures RunsFrom(attempts, i) == attempts[i..]
    decreases |attempts| - i
  {
    if i < |attempts| {
      RunsWithoutHit(attempts, i + 1);
      assert attempts[i..] == [attempts[i]] + attempts[i + 1..];
    }
  }

  /** The first persona that finds the video decides the result, and the
      attempts made are exactly those at it and at every persona before it:
      no later persona is tried. */
  lemma FirstSuccessWins(req: MetaRequest, ex: MetaCall -> Outcome, k: nat)
    requires k < |req.personas|
    requires TryPersona(req, ex, k).result.Hit?
    requires forall m :: 0 <= m < k ==> TryPersona(req, ex, m).result.Miss?
    ensures Runs(req, ex) == Attempts(req, ex)[..k + 1]
    ensures VideoInfoOf(req, ex) == Found(TryPersona(req, ex, k).result.info)
  {
    var A := Attempts(req, ex);
    RunsToFirstHit(A, 0, k);
    assert A[0..k + 1] == A[..k + 1];
  }

  /** Every attempt of a list that found nothing appended exactly one message. */
  lemma {:induction false} ErrorsOfFailures(runs: seq<PersonaRun>)
    requires forall k :: 0 <= k < |runs| ==> runs[k].result.Miss?
    ensures |ErrorsOf(runs)| == |runs|
    ensures forall k :: 0 <= k < |runs| ==> ErrorsOf(runs)[k] == runs[k].result.message
    decreases |runs|
  {
    if runs != [] {
      var init := runs[..|runs| - 1];
      ErrorsOfFailures(init);
      assert forall k :: 0 <= k < |init| ==> ErrorsOf(runs)[k] == ErrorsOf(init)[k];
    }
  }

  /** When no persona finds the video, every persona is tried, `errors`
      holds each persona's message in list order, and the result is the
      metadata failure summary of those messages. */
  lemma AllPersonasFail(req: MetaRequest, ex: MetaCall -> Outcome)
    requires forall k :: 0 <= k < |req.personas| ==> TryPersona(req, ex, k).result.Miss?
    ensures Runs(req, ex) == Attempts(req, ex)
    ensures |ErrorsOf(Runs(req, ex))| == |req.personas|
    ensures forall k :: 0 <= k < |req.personas| ==>
      ErrorsOf(Runs(req, ex))[k] == TryPersona(req, ex, k).result.message
    ensures VideoInfoOf(req, ex) == Failed(MetadataSummary(ErrorsOf(Runs(req, ex)), req.hasCookies))
  {
    var A := Attempts(req, ex);
    RunsWithoutHit(A, 0);
    assert A[0..] == A;
    ErrorsOfFailures(A);
  }

  /** The video is found exactly when some persona's attempt finds it. */
  lemma FoundIffSomePersonaFinds(req: MetaRequest, ex: MetaCall -> Outcome)
    ensures VideoInfoOf(req, ex).Found? <==>
      exists k :: 0 <= k < |req.personas| && TryPersona(req, ex, k).result.Hit?
  {
    if k :| 0 <= k < |req.personas| && TryPersona(req, ex, k).result.Hit? {
      var first := FirstFinder(req, ex, k);
      FirstSuccessWins(req, ex, first);
    } else {
      AllPersonasFail(req, ex);
    }
  }

  /** The least persona index at or below `k` whose attempt finds the video. */
  lemma {:induction false} FirstFinder(req: MetaRequest, ex: MetaCall -> Outcome, k: nat) returns (first: nat)
    requires k < |req.personas| && TryPersona(req, ex, k).result.Hit?
    ensures first <= k && TryPersona(req, ex, first).result.Hit?
    ensures forall m :: 0 <= m < first ==> TryPersona(req, ex, m).result.Miss?
    decreases k
  {
    if m :| 0 <= m < k && TryPersona(req, ex, m).result.Hit? {
      first := FirstFinder(req, ex, m);
    } else {
      first := k;
    }
  }

  /** A format error that mentions "format is not available" also reads as
      an unavailable-video error, so a failure that recorded one never
      names the private/unlisted reason: its summary names being blocked or
      being unavailable. */
  lemma FormatFailureNeverReadsPrivate(req: MetaRequest, ex: MetaCall -> Outcome, k: nat)
    requires VideoInfoOf(req, ex).Failed?
    requires k < |ErrorsOf(Runs(req, ex))|
    requires Contains(ErrorsOf(Runs(req, ex))[k], "format is not available")
    ensures VideoInfoOf(req, ex) == Failed(MetadataSummary(ErrorsOf(Runs(req, ex)), req.hasCookies))
    ensures MetadataReason(ErrorsOf(Runs(req, ex))) == Blocked ||
            MetadataReason(ErrorsOf(Runs(req, ex))) == Unavailable
  {
    var errors := ErrorsOf(Runs(req, ex));
    FormatErrorReadsAsUnavailable(errors[k]);
    MetadataReasonPrecedence(errors);
  }

  /** Appending an attempt appends its message, if any, to `errors`. */
  lemma AppendPersonaRun(runs: seq<PersonaRun>, a: PersonaRun)
    ensures ErrorsOf(runs + [a]) == ErrorsOf(runs) + (if a.result.Miss? then [a.result.message] else [])
  {
    assert (runs + [a])[..|runs|] == runs;
  }

  /** Attempts that end with one finding the video return its summary. */
  lemma LastHitFound(runs: seq<PersonaRun>, a: PersonaRun, hasCookies: bool)
    requires a.result.Hit?
    ensures InfoOf(runs + [a], hasCookies) == Found(a.result.info)
  {
  }

  /** A walk reaching an attempt that finds the video ends there, with its
      summary. */
  lemma HitStep(A: seq<PersonaRun>, i: nat, runs: seq<PersonaRun>, total: seq<PersonaRun>, hasCookies: bool)
    requires i < |A| && A[i].result.Hit?
    requires total == runs + RunsFrom(A, i)
    ensures InfoOf(total, hasCookies) == Found(A[i].result.info)
  {
    AppendEmpty([A[i]]);
    LastHitFound(runs, A[i], hasCookies);
  }

  /** A walk passing an attempt that found nothing records it, with its
      message, and goes on from the next position. */
  lemma MissStep(A: seq<PersonaRun>, i: nat, runs: seq<PersonaRun>, total: seq<PersonaRun>)
    requires i < |A| && A[i].result.Miss?
    requires total == runs + RunsFrom(A, i)
    ensures total == (runs + [A[i]]) + RunsFrom(A, i + 1)
    ensures ErrorsOf(runs + [A[i]]) == ErrorsOf(runs) + [A[i].result.message]
  {
    AppendAssoc(runs, [A[i]], RunsFrom(A, i + 1));
    AppendPersonaRun(runs, A[i]);
  }

  /** One persona's attempt, made as `get_video_info` makes it: the plain
      call, and the flat retry only after a format error (app.py:81-134). */
  method AttemptPersona(req: MetaRequest, ex: MetaCall -> Outcome, i: nat, ghost A: seq<PersonaRun>) returns (run: PersonaRun)
    requires AttemptsAre(A, req, ex) && i < |A|
    ensures run == A[i]
  {
    assert A[i] == TryPersona(req, ex, i);
    var c0 := MetaCallAt(req, i, false);
    var out := ex(c0);
    if out.Extracted? {
      if out.info.formats.Null? {
        return PersonaRun(i, [c0], Miss(NoLengthText));
      }
      return PersonaRun(i, [c0], Hit(Report(out.info, out.info.formats.Get(0).value)));
    }
    var msg := out.message;
    if out.DownloadFailure? && IsFormatError(msg) {
      var c1 := MetaCallAt(req, i, true);
      var flat := ex(c1);
      if flat.Extracted? {
        return PersonaRun(i, [c0, c1], Hit(Report(flat.info, 0)));
      }
      return PersonaRun(i, [c0, c1], Miss(msg));
    }
    run := PersonaRun(i, [c0], Miss(msg));
  }

  /** `get_video_info`: the loop over the metadata personas. It returns
      what the attempts decide: the first summary found, or the failure
      summary of every message collected. */
  method GetVideoInfo(hasCookies: bool, ex: MetaCall -> Outcome) returns (r: InfoResult)
    ensures r == VideoInfoOf(MetadataRequest(hasCookies), ex)
  {
    var req := MetadataRequest(hasCookies);
    AttemptsAreAttempts(req, ex);
    r := RunInfo(req, ex, Attempts(req, ex));
  }

  /** `A` lists the attempt each persona of `req` would make. */
  ghost predicate AttemptsAre(A: seq<PersonaRun>, req: MetaRequest, ex: MetaCall -> Outcome)
  {
    |A| == |req.personas| &&
    forall k {:trigger TryPersona(req, ex, k)} :: 0 <= k < |A| ==> A[k] == TryPersona(req, ex, k)
  }

  lemma AttemptsAreAttempts(req: MetaRequest, ex: MetaCall -> Outcome)
    ensures AttemptsAre(Attempts(req, ex), req, ex)
  {
  }

  /** The loop itself, over any persona list, against the attempts `A`
      its personas would make. */
  method RunInfo(req: MetaRequest, ex: MetaCall -> Outcome, ghost A: seq<PersonaRun>) returns (r: InfoResult)
    requires AttemptsAre(A, req, ex)
    ensures r == InfoOf(RunsFrom(A, 0), req.hasCookies)
  {
    var personas := req.personas;
    var errors: seq<string> := [];
    ghost var total := RunsFrom(A, 0);
    ghost var runs: seq<PersonaRun> := [];
    AppendEmpty(total);
    var i := 0;
    while i < |personas|
      invariant i <= |personas| == |A|
      invariant total == runs + RunsFrom(A, i)
      invariant errors == ErrorsOf(runs)
      invariant runs == [] || runs[|runs| - 1].result.Miss?
    {
      var run := AttemptPersona(req, ex, i, A);
      if run.result.Hit? {
        HitStep(A, i, runs, total, req.hasCookies);
        return Found(run.result.info);
      }
      MissStep(A, i, runs, total);
      errors := errors + [run.result.message];
      runs := runs + [run];
      i := i + 1;
    }
    AppendEmpty(runs);
    r := Failed(MetadataSummary(errors, req.hasCookies));
  }

  /** `/api/info`: a missing, `null` or empty URL is refused with status 400 and
      "URL is required" before anything is extracted; any other URL gets
      status 200 with whatever `get_video_info` returned, its error
      dictionary included (app.py:326-335). */
  method InfoRoute(url: Field<string>, hasCookies: bool, ex: MetaCall -> Outcome) returns (status: nat, body: InfoResult)
    ensures status == 400 <==> !url.Present? || url.value == []
    ensures status == 400 ==> body == Failed("URL is required")
    ensures status != 400 ==> status == 200 && body == VideoInfoOf(MetadataRequest(hasCookies), ex)
  {
    if !url.Present? || url.value == [] {
      return 400, Failed("URL is required");
    }
    body := GetVideoInfo(hasCookies, ex);
    status := 200;
  }
}
