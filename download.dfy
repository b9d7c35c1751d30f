/** The status-tracked download controller `download_video` (app.py:165-320):
    every persona in order, every format selector in order within it, the
    two override retries after a DownloadError, and the dispatch that moves
    on to the next selector after a format error and to the next persona
    after any other error. The extractor is the parameter `ex`: it maps
    each call, with the options that call resolves to, to the hook events it
    fires and the way it ends. */
module DownloadController {
  import opened Text
  import opened ConfigSpace
  import opened ErrorText
  import opened Status
  import opened RetryWalk

  /** Which extractor call of one selector attempt this is. */
  datatype Attempt = Primary | MergeOverride | PreviewOverride

  /** The permissive selector of the images/storyboard retry (app.py:288). */
  const PreviewSelector := "best[ext=mp4]/best[height<=360]/best"

  /** One extractor call: the positions in the persona and selector lists,
      the kind of call, and the options it hands over. */
  datatype Call = Call(persona: nat, selector: nat, kind: Attempt, options: Options)

  /** How a call can fail: with the extractor's DownloadError, or with any
      other exception. */
  datatype Failure = DownloadError(message: string) | OtherError(message: string)

  /** The progress-hook calls the extractor made, and `None` for success. */
  datatype Reply = Reply(hooks: seq<HookEvent>, failure: Option<Failure>)

  /** A call as `download_video` sees it (app.py:177-187): its progress
      hook runs on each event in turn, and the first event on which the
      hook raises ends the call with that `TypeError`, which is not a
      DownloadError; the events after it are never delivered. */
  function Observed(r: Reply): (o: Reply)
    ensures o.hooks <= r.hooks
    ensures forall k :: 0 <= k < |o.hooks| ==> HookFailure(o.hooks[k]).None?
    ensures FirstRaising(r.hooks).None? ==> o == r
    ensures FirstRaising(r.hooks).Some? ==>
      |o.hooks| == FirstRaising(r.hooks).value &&
      o.failure == Some(OtherError(HookFailure(r.hooks[|o.hooks|]).value))
  {
    match FirstRaising(r.hooks)
    case None => r
    case Some(k) => Reply(r.hooks[..k], Some(OtherError(HookFailure(r.hooks[k]).value)))
  }

  /** The extractor as `download_video` sees it, through its progress hook. */
  function ObservedEx(ex: Call -> Reply): Call -> Reply
  {
    (c: Call) => Observed(ex(c))
  }

  /** The lists one run walks through. */
  datatype Request = Request(personas: seq<Persona>, selectors: seq<string>, hasCookies: bool, audio: bool)

  function DownloadRequest(formatType: string, quality: string, hasCookies: bool): (req: Request)
    ensures req.personas == DownloadPersonas(hasCookies) && req.selectors == Selectors(formatType, quality)
    ensures req.hasCookies == hasCookies && (req.audio <==> formatType == "audio")
  {
    Request(DownloadPersonas(hasCookies), Selectors(formatType, quality), hasCookies, formatType == "audio")
  }

  /** The `'format'` option a call uses. */
  function FormatOf(kind: Attempt, selector: string): string
  {
    match kind
    case Primary => selector
    case MergeOverride => "best"
    case PreviewOverride => PreviewSelector
  }

  /** The call of the given kind for persona `i` and selector `j` (app.py:236-263, 277, 288). */
  function CallAt(req: Request, i: nat, j: nat, kind: Attempt): (c: Call)
    requires i < |req.personas| && j < |req.selectors|
    ensures c.persona == i && c.selector == j && c.kind == kind
  {
    Call(i, j, kind, Resolve(req.personas[i], req.hasCookies, Download(FormatOf(kind, req.selectors[j]), req.audio)))
  }

  /** The hook events of a sequence of calls, in call order. */
  function HooksOf(calls: seq<Call>, ex: Call -> Reply): seq<HookEvent>
    decreases |calls|
  {
    if calls == [] then [] else ex(calls[0]).hooks + HooksOf(calls[1..], ex)
  }

  /** Everything one selector attempt did: its calls, the hook events they
      fired, the messages it appended to `errors`, and the step it takes. */
  datatype SelectorRun = SelectorRun(
    persona: nat, selector: nat,
    calls: seq<Call>, hooks: seq<HookEvent>, errors: seq<string>, step: Step)

  /** The override retries after a DownloadError. */
  datatype Retries = Retries(calls: seq<Call>, hooks: seq<HookEvent>, succeeded: bool)

  function OneRetry(req: Request, ex: Call -> Reply, i: nat, j: nat, kind: Attempt): Retries
    requires i < |req.personas| && j < |req.selectors|
  {
    var c := CallAt(req, i, j, kind);
    Retries([c], ex(c).hooks, ex(c).failure.None?)
  }

  /** The merge retry with `best` and then, unless that succeeded, the
      images/storyboard retry (app.py:273-294). Their failures are swallowed. */
  function Overrides(req: Request, ex: Call -> Reply, i: nat, j: nat, msg: string): Retries
    requires i < |req.personas| && j < |req.selectors|
  {
    var merge := if IsMergeError(msg) then OneRetry(req, ex, i, j, MergeOverride) else Retries([], [], false);
    if merge.succeeded then merge
    else
      var preview := if IsPreviewOnlyError(msg) then OneRetry(req, ex, i, j, PreviewOverride) else Retries([], [], false);
      Retries(merge.calls + preview.calls, merge.hooks + preview.hooks, preview.succeeded)
  }

  /** The step after an attempt: stop on success, `continue` after a
      format error, `break` after any other error (app.py:265-307). */
  function StepAfter(done: bool, f: Option<Failure>): Step
    requires !done ==> f.Some?
  {
    if done then Done else if IsFormatError(f.value.message) then NextSelector else NextPersona
  }

  /** One pass of the inner loop body (app.py:236-307). */
  function TrySelector(req: Request, ex: Call -> Reply, i: nat, j: nat): (a: SelectorRun)
    requires i < |req.personas| && j < |req.selectors|
    ensures a.persona == i && a.selector == j
  {
    var c0 := CallAt(req, i, j, Primary);
    var f := ex(c0).failure;
    var o := if f.Some? && f.value.DownloadError? then Overrides(req, ex, i, j, f.value.message)
             else Retries([], [], false);
    SelectorRun(i, j, [c0] + o.calls, ex(c0).hooks + o.hooks,
                if f.Some? then [f.value.message] else [], StepAfter(f.None? || o.succeeded, f))
  }

  /** An attempt's calls all belong to its persona and selector, use the
      options `CallAt` resolves for their kind, and start with the one
      primary call, followed by at most two override retries. */
  lemma TrySelectorCalls(req: Request, ex: Call -> Reply, i: nat, j: nat)
    requires i < |req.personas| && j < |req.selectors|
    ensures var a := TrySelector(req, ex, i, j);
      1 <= |a.calls| <= 3 && a.calls[0] == CallAt(req, i, j, Primary) &&
      (forall k :: 1 <= k < |a.calls| ==> a.calls[k].kind != Primary) &&
      (forall k :: 0 <= k < |a.calls| ==> a.calls[k] == CallAt(req, i, j, a.calls[k].kind))
  {
  }

  /** Only the last call of an attempt may succeed, and the attempt stops
      exactly when it does; only the primary call's message is recorded;
      otherwise a format error moves on to the next selector and any other
      error to the next persona. */
  lemma TrySelectorOutcome(req: Request, ex: Call -> Reply, i: nat, j: nat)
    requires i < |req.personas| && j < |req.selectors|
    ensures var a := TrySelector(req, ex, i, j);
      var f := ex(a.calls[0]).failure;
      (forall k :: 0 <= k < |a.calls| - 1 ==> ex(a.calls[k]).failure.Some?) &&
      (a.step == Done <==> ex(a.calls[|a.calls| - 1]).failure.None?) &&
      a.errors == (if f.Some? then [f.value.message] else []) &&
      (a.step == NextSelector <==> a.step != Done && IsFormatError(f.value.message)) &&
      (a.step == NextPersona <==> a.step != Done && !IsFormatError(f.value.message))
  {
    TrySelectorCalls(req, ex, i, j);
  }

  lemma {:induction false} HooksOfAppend(xs: seq<Call>, ys: seq<Call>, ex: Call -> Reply)
    ensures HooksOf(xs + ys, ex) == HooksOf(xs, ex) + HooksOf(ys, ex)
    decreases |xs|
  {
    if xs == [] {
      assert xs + ys == ys;
    } else {
      HooksOfAppend(xs[1..], ys, ex);
      assert (xs + ys)[1..] == xs[1..] + ys;
    }
  }

  lemma HooksOfOne(c: Call, ex: Call -> Reply)
    ensures HooksOf([c], ex) == ex(c).hooks
  {
    assert [c][1..] == [];
  }

  lemma RetryHooks(req: Request, ex: Call -> Reply, i: nat, j: nat, msg: string)
    requires i < |req.personas| && j < |req.selectors|
    ensures var o := Overrides(req, ex, i, j, msg); o.hooks == HooksOf(o.calls, ex)
  {
    var m := CallAt(req, i, j, MergeOverride);
    var v := CallAt(req, i, j, PreviewOverride);
    HooksOfOne(m, ex);
    HooksOfOne(v, ex);
    HooksOfAppend([m], [v], ex);
    assert [m] + [] == [m] && [] + [v] == [v];
    assert HooksOf([], ex) == [];
  }

  /** The hook events of an attempt are those of its calls, in order. */
  lemma TrySelectorHooks(req: Request, ex: Call -> Reply, i: nat, j: nat)
    requires i < |req.personas| && j < |req.selectors|
    ensures var a := TrySelector(req, ex, i, j);
      a.hooks == HooksOf(a.calls, ex)
  {
    var c0 := CallAt(req, i, j, Primary);
    var f := ex(c0).failure;
    var o := if f.Some? && f.value.DownloadError? then Overrides(req, ex, i, j, f.value.message)
             else Retries([], [], false);
    if f.Some? && f.value.DownloadError? {
      RetryHooks(req, ex, i, j, f.value.message);
    }
    HooksOfOne(c0, ex);
    HooksOfAppend([c0], o.calls, ex);
  }

  /** The override retries happen exactly when the source makes them: the
      merge retry after a DownloadError that mentions ffmpeg merging, the
      storyboard retry after a DownloadError about images or storyboards
      unless the merge retry already succeeded; after any other exception
      only the primary call is made. */
  lemma OverrideRetries(req: Request, ex: Call -> Reply, i: nat, j: nat)
    requires i < |req.personas| && j < |req.selectors|
    ensures var a := TrySelector(req, ex, i, j);
      var f := ex(CallAt(req, i, j, Primary)).failure;
      var merged := f.Some? && f.value.DownloadError? && IsMergeError(f.value.message);
      var mergeWorked := merged && ex(CallAt(req, i, j, MergeOverride)).failure.None?;
      var preview := f.Some? && f.value.DownloadError? && IsPreviewOnlyError(f.value.message) && !mergeWorked;
      (merged <==> |a.calls| >= 2 && a.calls[1].kind == MergeOverride) &&
      (preview <==> a.calls[|a.calls| - 1].kind == PreviewOverride) &&
      |a.calls| == 1 + (if merged then 1 else 0) + (if preview then 1 else 0)
  {
  }

  /** The messages of the failed primary calls among `calls`, in order:
      what `errors.append(error_msg)` collects (app.py:266-267, 298-299). */
  function PrimaryMessages(calls: seq<Call>, ex: Call -> Reply): seq<string>
    decreases |calls|
  {
    if calls == [] then []
    else
      var f := ex(calls[0]).failure;
      (if calls[0].kind == Primary && f.Some? then [f.value.message] else []) + PrimaryMessages(calls[1..], ex)
  }

  lemma {:induction false} PrimaryMessagesAppend(xs: seq<Call>, ys: seq<Call>, ex: Call -> Reply)
    ensures PrimaryMessages(xs + ys, ex) == PrimaryMessages(xs, ex) + PrimaryMessages(ys, ex)
    decreases |xs|
  {
    if xs == [] {
      assert xs + ys == ys;
    } else {
      PrimaryMessagesAppend(xs[1..], ys, ex);
      assert (xs + ys)[1..] == xs[1..] + ys;
    }
  }

  lemma {:induction false} NoPrimaryNoMessages(calls: seq<Call>, ex: Call -> Reply)
    requires forall k :: 0 <= k < |calls| ==> calls[k].kind != Primary
    ensures PrimaryMessages(calls, ex) == []
    decreases |calls|
  {
    if calls != [] {
      NoPrimaryNoMessages(calls[1..], ex);
    }
  }

  /** An attempt records exactly the message of its failed primary call;
      the override retries' failures are swallowed. */
  lemma TrySelectorErrors(req: Request, ex: Call -> Reply, i: nat, j: nat)
    requires i < |req.personas| && j < |req.selectors|
    ensures var a := TrySelector(req, ex, i, j);
      a.errors == PrimaryMessages(a.calls, ex)
  {
    var a := TrySelector(req, ex, i, j);
    TrySelectorCalls(req, ex, i, j);
    var rest := a.calls[1..];
    assert a.calls == [a.calls[0]] + rest;
    NoPrimaryNoMessages(rest, ex);
    PrimaryMessagesAppend([a.calls[0]], rest, ex);
    assert [a.calls[0]][1..] == [];
  }

  /** What every selector attempt guarantees, whatever the extractor answers:
      its calls lie at its position with the options resolved for their
      kind, only the last may succeed and the attempt stops exactly then, its
      hook events are those of its calls, and its recorded messages are
      those of its failed primary call. */
  predicate WellFormed(req: Request, ex: Call -> Reply, r: SelectorRun)
  {
    r.persona < |req.personas| && r.selector < |req.selectors| &&
    1 <= |r.calls| &&
    (forall k :: 0 <= k < |r.calls| ==> r.calls[k] == CallAt(req, r.persona, r.selector, r.calls[k].kind)) &&
    (forall k :: 0 <= k < |r.calls| - 1 ==> ex(r.calls[k]).failure.Some?) &&
    (r.step == Done <==> ex(r.calls[|r.calls| - 1]).failure.None?) &&
    r.hooks == HooksOf(r.calls, ex) &&
    r.errors == PrimaryMessages(r.calls, ex)
  }

  lemma TrySelectorWellFormed(req: Request, ex: Call -> Reply, i: nat, j: nat)
    requires i < |req.personas| && j < |req.selectors|
    ensures WellFormed(req, ex, TrySelector(req, ex, i, j))
  {
    TrySelectorCalls(req, ex, i, j);
    TrySelectorOutcome(req, ex, i, j);
    TrySelectorHooks(req, ex, i, j);
    TrySelectorErrors(req, ex, i, j);
  }

  /** How the pass at a position ends, for the loops of one request. */
  function StepFn(req: Request, ex: Call -> Reply): Pos -> Step
  {
    (p: Pos) => if p.0 < |req.personas| && p.1 < |req.selectors| then TrySelector(req, ex, p.0, p.1).step else NextPersona
  }

  /** The positions the nested loops of app.py:234-307 visit. */
  function Visited(req: Request, ex: Call -> Reply): seq<Pos>
  {
    Walk(|req.personas|, |req.selectors|, StepFn(req, ex), (0, 0))
  }

  predicate InSpace(req: Request, ps: seq<Pos>)
  {
    forall k :: 0 <= k < |ps| ==> ps[k].0 < |req.personas| && ps[k].1 < |req.selectors|
  }

  /** The attempts at the given positions, in order. */
  function RunsAt(req: Request, ex: Call -> Reply, ps: seq<Pos>): (runs: seq<SelectorRun>)
    requires InSpace(req, ps)
    ensures |runs| == |ps|
    decreases |ps|
  {
    if ps == [] then []
    else RunsAt(req, ex, ps[..|ps| - 1]) + [TrySelector(req, ex, ps[|ps| - 1].0, ps[|ps| - 1].1)]
  }

  lemma {:induction false} RunsAtIndex(req: Request, ex: Call -> Reply, ps: seq<Pos>)
    requires InSpace(req, ps)
    ensures forall k :: 0 <= k < |ps| ==> RunsAt(req, ex, ps)[k] == TrySelector(req, ex, ps[k].0, ps[k].1)
    decreases |ps|
  {
    if ps != [] {
      var init := ps[..|ps| - 1];
      RunsAtIndex(req, ex, init);
      forall k | 0 <= k < |ps| - 1
        ensures RunsAt(req, ex, ps)[k] == TrySelector(req, ex, ps[k].0, ps[k].1)
      {
        assert ps[k] == init[k];
      }
    }
  }

  /** The attempts one run of `download_video` makes, in order. */
  function Runs(req: Request, ex: Call -> Reply): seq<SelectorRun>
  {
    WalkForward(|req.personas|, |req.selectors|, StepFn(req, ex), (0, 0));
    RunsAt(req, ex, Visited(req, ex))
  }

  /** All extractor calls of a sequence of attempts, in order. */
  function CallsOf(runs: seq<SelectorRun>): seq<Call>
  {
    if runs == [] then [] else CallsOf(runs[..|runs| - 1]) + runs[|runs| - 1].calls
  }

  /** All hook events of a sequence of attempts, in order. */
  function RunHooks(runs: seq<SelectorRun>): seq<HookEvent>
  {
    if runs == [] then [] else RunHooks(runs[..|runs| - 1]) + runs[|runs| - 1].hooks
  }

  /** The `errors` list after a sequence of attempts. */
  function RunErrors(runs: seq<SelectorRun>): seq<string>
  {
    if runs == [] then [] else RunErrors(runs[..|runs| - 1]) + runs[|runs| - 1].errors
  }

  /** Whether the last attempt returned. */
  predicate Succeeded(runs: seq<SelectorRun>)
  {
    runs != [] && runs[|runs| - 1].step == Done
  }

  /** The status entry a run leaves behind: the hook updates, then
      `completed` on a return (app.py:265, 279, 290) or `error` with the
      summary after the loops (app.py:310-319). */
  function FinalEntry(runs: seq<SelectorRun>, hasCookies: bool): Entry
  {
    var e := ApplyHooks(InitialEntry(), RunHooks(runs));
    if Succeeded(runs) then e.(state := Completed)
    else e.(state := Error, error := Some(DownloadSummary(RunErrors(runs), hasCookies)))
  }

  predicate AllWellFormed(req: Request, ex: Call -> Reply, runs: seq<SelectorRun>)
  {
    forall k :: 0 <= k < |runs| ==> WellFormed(req, ex, runs[k])
  }

  /** No attempt but the last returned. */
  predicate OnlyLastReturns(runs: seq<SelectorRun>)
  {
    forall k :: 0 <= k < |runs| - 1 ==> runs[k].step != Done
  }

  /** Every call lies inside the persona x selector space and uses the
      options resolved for its position and kind. */
  predicate CallsInPlace(req: Request, C: seq<Call>)
  {
    forall k :: 0 <= k < |C| ==>
      C[k].persona < |req.personas| && C[k].selector < |req.selectors| &&
      C[k] == CallAt(req, C[k].persona, C[k].selector, C[k].kind)
  }

  lemma {:induction false} CallsInSpace(req: Request, ex: Call -> Reply, runs: seq<SelectorRun>)
    requires AllWellFormed(req, ex, runs)
    ensures CallsInPlace(req, CallsOf(runs))
    decreases |runs|
  {
    if runs != [] {
      var init := runs[..|runs| - 1];
      var r := runs[|runs| - 1];
      assert AllWellFormed(req, ex, init) by {
        forall k | 0 <= k < |init| ensures WellFormed(req, ex, init[k]) {
          assert init[k] == runs[k];
        }
      }
      CallsInSpace(req, ex, init);
      assert WellFormed(req, ex, r);
      var C0 := CallsOf(init);
      var C := CallsOf(runs);
      assert C == C0 + r.calls;
      forall k | 0 <= k < |C|
        ensures C[k].persona < |req.personas| && C[k].selector < |req.selectors| &&
                C[k] == CallAt(req, C[k].persona, C[k].selector, C[k].kind)
      {
        if k < |C0| {
          assert C[k] == C0[k];
        } else {
          var m := k - |C0|;
          assert C[k] == r.calls[m];
          assert r.calls[m] == CallAt(req, r.persona, r.selector, r.calls[m].kind);
        }
      }
    }
  }

  lemma {:induction false} CallsFailBeforeLast(req: Request, ex: Call -> Reply, runs: seq<SelectorRun>)
    requires AllWellFormed(req, ex, runs) && OnlyLastReturns(runs)
    ensures var C := CallsOf(runs);
      (forall k :: 0 <= k < |C| - 1 ==> ex(C[k]).failure.Some?) &&
      (Succeeded(runs) <==> C != [] && ex(C[|C| - 1]).failure.None?)
    decreases |runs|
  {
    if runs != [] {
      var init := runs[..|runs| - 1];
      var r := runs[|runs| - 1];
      assert AllWellFormed(req, ex, init) by {
        forall k | 0 <= k < |init| ensures WellFormed(req, ex, init[k]) {
          assert init[k] == runs[k];
        }
      }
      assert OnlyLastReturns(init) by {
        forall k | 0 <= k < |init| - 1 ensures init[k].step != Done {
          assert init[k] == runs[k];
        }
      }
      CallsFailBeforeLast(req, ex, init);
      assert WellFormed(req, ex, r);
      var C0 := CallsOf(init);
      var C := CallsOf(runs);
      assert C == C0 + r.calls;
      if init != [] {
        assert init[|init| - 1] == runs[|runs| - 2];
        assert !Succeeded(init);
      }
      forall k | 0 <= k < |C| - 1
        ensures ex(C[k]).failure.Some?
      {
        if k >= |C0| {
          assert C[k] == r.calls[k - |C0|];
        }
      }
      assert C[|C| - 1] == r.calls[|r.calls| - 1];
    }
  }

  lemma {:induction false} HooksOfRuns(req: Request, ex: Call -> Reply, runs: seq<SelectorRun>)
    requires AllWellFormed(req, ex, runs)
    ensures RunHooks(runs) == HooksOf(CallsOf(runs), ex)
    decreases |runs|
  {
    if runs != [] {
      var init := runs[..|runs| - 1];
      var r := runs[|runs| - 1];
      assert AllWellFormed(req, ex, init) by {
        forall k | 0 <= k < |init| ensures WellFormed(req, ex, init[k]) {
          assert init[k] == runs[k];
        }
      }
      HooksOfRuns(req, ex, init);
      assert WellFormed(req, ex, r);
      HooksOfAppend(CallsOf(init), r.calls, ex);
    }
  }

  lemma {:induction false} ErrorsOfRuns(req: Request, ex: Call -> Reply, runs: seq<SelectorRun>)
    requires AllWellFormed(req, ex, runs)
    ensures RunErrors(runs) == PrimaryMessages(CallsOf(runs), ex)
    decreases |runs|
  {
    if runs != [] {
      var init := runs[..|runs| - 1];
      var r := runs[|runs| - 1];
      assert AllWellFormed(req, ex, init) by {
        forall k | 0 <= k < |init| ensures WellFormed(req, ex, init[k]) {
          assert init[k] == runs[k];
        }
      }
      ErrorsOfRuns(req, ex, init);
      assert WellFormed(req, ex, r);
      PrimaryMessagesAppend(CallsOf(init), r.calls, ex);
    }
  }

  lemma RunsAtWellFormed(req: Request, ex: Call -> Reply, ps: seq<Pos>)
    requires InSpace(req, ps)
    ensures AllWellFormed(req, ex, RunsAt(req, ex, ps))
  {
    RunsAtIndex(req, ex, ps);
    forall k | 0 <= k < |ps|
      ensures WellFormed(req, ex, RunsAt(req, ex, ps)[k])
    {
      TrySelectorWellFormed(req, ex, ps[k].0, ps[k].1);
    }
  }

  lemma RunsAtSteps(req: Request, ex: Call -> Reply, ps: seq<Pos>)
    requires InSpace(req, ps)
    requires forall k :: 0 <= k < |ps| - 1 ==> StepFn(req, ex)(ps[k]) != Done
    ensures OnlyLastReturns(RunsAt(req, ex, ps))
  {
    RunsAtIndex(req, ex, ps);
  }

  lemma VisitedSteps(req: Request, ex: Call -> Reply)
    ensures forall k :: 0 <= k < |Visited(req, ex)| - 1 ==> StepFn(req, ex)(Visited(req, ex)[k]) != Done
  {
    forall k | 0 <= k < |Visited(req, ex)| - 1
      ensures StepFn(req, ex)(Visited(req, ex)[k]) != Done
    {
      NotLast(|req.personas|, |req.selectors|, StepFn(req, ex), k);
    }
  }

  lemma VisitedInSpace(req: Request, ex: Call -> Reply)
    ensures InSpace(req, Visited(req, ex))
  {
    WalkForward(|req.personas|, |req.selectors|, StepFn(req, ex), (0, 0));
  }

  /** The attempts of a run are well formed and only its last may return. */
  lemma RunsShape(req: Request, ex: Call -> Reply)
    ensures var R := Runs(req, ex);
      AllWellFormed(req, ex, R) && OnlyLastReturns(R)
  {
    VisitedInSpace(req, ex);
    VisitedSteps(req, ex);
    RunsAtWellFormed(req, ex, Visited(req, ex));
    RunsAtSteps(req, ex, Visited(req, ex));
  }

  /** Each call the run makes lies inside the persona x selector space and
      hands the extractor exactly the options resolved for its persona,
      selector and kind (app.py:236-263). */
  lemma TraceInSpace(req: Request, ex: Call -> Reply)
    ensures CallsInPlace(req, CallsOf(Runs(req, ex)))
  {
    RunsShape(req, ex);
    CallsInSpace(req, ex, Runs(req, ex));
  }

  /** Every call but the last fails. */
  predicate FailsBeforeLast(ex: Call -> Reply, C: seq<Call>)
  {
    forall k :: 0 <= k < |C| - 1 ==> ex(C[k]).failure.Some?
  }

  /** The run stops at the first call that succeeds: every earlier call
      failed, and the run succeeded exactly when its last call did. */
  lemma FirstSuccessWins(req: Request, ex: Call -> Reply)
    ensures FailsBeforeLast(ex, CallsOf(Runs(req, ex)))
    ensures Succeeded(Runs(req, ex)) <==>
      CallsOf(Runs(req, ex)) != [] && ex(CallsOf(Runs(req, ex))[|CallsOf(Runs(req, ex))| - 1]).failure.None?
  {
    RunsShape(req, ex);
    CallsFailBeforeLast(req, ex, Runs(req, ex));
  }

  /** The run succeeds exactly when some call succeeds. */
  lemma SucceedsIffSomeCallSucceeds(req: Request, ex: Call -> Reply)
    ensures Succeeded(Runs(req, ex)) <==>
      exists k :: 0 <= k < |CallsOf(Runs(req, ex))| && ex(CallsOf(Runs(req, ex))[k]).failure.None?
  {
    FirstSuccessWins(req, ex);
    var C := CallsOf(Runs(req, ex));
    if exists k :: 0 <= k < |C| && ex(C[k]).failure.None? {
      var k :| 0 <= k < |C| && ex(C[k]).failure.None?;
      assert k == |C| - 1;
    }
  }

  /** The `errors` list holds the messages of the failed primary calls, in
      call order; the failures of the override retries are not recorded. */
  lemma ErrorsArePrimaryMessages(req: Request, ex: Call -> Reply)
    ensures RunErrors(Runs(req, ex)) == PrimaryMessages(CallsOf(Runs(req, ex)), ex)
  {
    RunsShape(req, ex);
    ErrorsOfRuns(req, ex, Runs(req, ex));
  }

  /** The progress hook sees the events of every call, in call order. */
  lemma HooksAreCallHooks(req: Request, ex: Call -> Reply)
    ensures RunHooks(Runs(req, ex)) == HooksOf(CallsOf(Runs(req, ex)), ex)
  {
    RunsShape(req, ex);
    HooksOfRuns(req, ex, Runs(req, ex));
  }

  /** The entry a run leaves: `completed` with no error exactly when some
      call succeeded, otherwise `error` with the summary of the primary
      messages; progress and filename are what the hook events of all calls
      made of them; the entry never stays `downloading`. */
  lemma FinalOutcome(req: Request, ex: Call -> Reply)
    ensures var e := FinalEntry(Runs(req, ex), req.hasCookies);
      var C := CallsOf(Runs(req, ex));
      var h := ApplyHooks(InitialEntry(), HooksOf(C, ex));
      (e.state == Completed <==> exists k :: 0 <= k < |C| && ex(C[k]).failure.None?) &&
      (e.state == Completed ==> e.error == None) &&
      (e.state != Completed ==>
         e.state == Error && e.error == Some(DownloadSummary(PrimaryMessages(C, ex), req.hasCookies))) &&
      e.progress == h.progress && e.filename == h.filename
  {
    SucceedsIffSomeCallSucceeds(req, ex);
    ErrorsArePrimaryMessages(req, ex);
    HooksAreCallHooks(req, ex);
    HooksKeepErrorAndOnlyComplete(InitialEntry(), RunHooks(Runs(req, ex)));
  }

  /** A format type outside video/audio, or a video quality outside
      best/720p/480p/360p, leaves the selector list empty: no call is made and
      the entry ends in `error` with the bare summary. Otherwise the run
      makes at least one call. */
  lemma NoSelectorsNoCalls(formatType: string, quality: string, hasCookies: bool, ex: Call -> Reply)
    ensures var req := DownloadRequest(formatType, quality, hasCookies);
      (Runs(req, ex) == [] <==> Selectors(formatType, quality) == []) &&
      (Runs(req, ex) == [] ==>
         FinalEntry(Runs(req, ex), hasCookies) ==
         Entry(Error, 0.0, Some(""), Some(DownloadSummary([], hasCookies))))
  {
    var req := DownloadRequest(formatType, quality, hasCookies);
    WalkStart(|req.personas|, |req.selectors|, StepFn(req, ex), (0, 0));
  }

  /** The run never tries a persona/selector pair twice and moves forward
      in list order. */
  lemma RunsOrdered(req: Request, ex: Call -> Reply)
    ensures var R := Runs(req, ex);
      forall k1, k2 :: 0 <= k1 < k2 < |R| ==>
        Before((R[k1].persona, R[k1].selector), (R[k2].persona, R[k2].selector))
  {
    var A := Visited(req, ex);
    WalkForward(|req.personas|, |req.selectors|, StepFn(req, ex), (0, 0));
    VisitedInSpace(req, ex);
    RunsAtPositions(req, ex, A);
  }

  /** After a `break` (an error that is not a format error) no later attempt
      uses the same persona; after a `continue` (a format error) that is not
      on the last selector, the next attempt is the next selector of the same
      persona. */
  lemma DispatchRuns(req: Request, ex: Call -> Reply, k: nat)
    requires k < |Runs(req, ex)|
    ensures var R := Runs(req, ex);
      (R[k].step == NextPersona ==> forall k' :: k < k' < |R| ==> R[k'].persona > R[k].persona) &&
      (R[k].step == NextSelector && R[k].selector + 1 < |req.selectors| ==>
         k + 1 < |R| && R[k + 1].persona == R[k].persona && R[k + 1].selector == R[k].selector + 1)
  {
    var A := Visited(req, ex);
    var R := Runs(req, ex);
    VisitedInSpace(req, ex);
    Dispatch(|req.personas|, |req.selectors|, StepFn(req, ex), k);
    RunsAtPositions(req, ex, A);
  }

  lemma RunsAtPositions(req: Request, ex: Call -> Reply, ps: seq<Pos>)
    requires InSpace(req, ps)
    ensures forall k :: 0 <= k < |ps| ==>
      (RunsAt(req, ex, ps)[k].persona, RunsAt(req, ex, ps)[k].selector) == ps[k] &&
      RunsAt(req, ex, ps)[k].step == StepFn(req, ex)(ps[k])
  {
    RunsAtIndex(req, ex, ps);
  }

  /** Persona `i` was tried with its first selector. */
  predicate Tried(R: seq<SelectorRun>, i: nat)
  {
    exists k :: 0 <= k < |R| && R[k].persona == i && R[k].selector == 0
  }

  /** A run that fails everywhere has tried every persona, each at least
      with its first selector, before giving up (app.py:309). */
  lemma EveryPersonaTried(req: Request, ex: Call -> Reply)
    requires !Succeeded(Runs(req, ex)) && |req.selectors| > 0
    ensures forall i :: 0 <= i < |req.personas| ==> Tried(Runs(req, ex), i)
  {
    var np, ns, step := |req.personas|, |req.selectors|, StepFn(req, ex);
    var A := Visited(req, ex);
    var R := Runs(req, ex);
    VisitedInSpace(req, ex);
    VisitedSteps(req, ex);
    RunsAtPositions(req, ex, A);
    assert forall k :: 0 <= k < |A| ==> step(A[k]) != Done by {
      forall k | 0 <= k < |A|
        ensures step(A[k]) != Done
      {
        if k == |A| - 1 {
          assert R[k].step == step(A[k]);
        }
      }
    }
    WalkCoversPersonas(np, ns, step, (0, 0));
    WalkStart(np, ns, step, (0, 0));
    forall i | 0 <= i < np
      ensures Tried(R, i)
    {
      if i == 0 {
        assert R[0].persona == 0 && R[0].selector == 0;
      } else {
        assert (i, 0) in A;
        var k :| 0 <= k < |A| && A[k] == (i, 0);
        assert R[k].persona == i && R[k].selector == 0;
      }
    }
  }

  /** The override retries (app.py:270-294) against the status store. */
  method RunOverrides(store: DownloadStatus, key: string, req: Request, ex: Call -> Reply, i: nat, j: nat, msg: string)
    returns (o: Retries)
    requires i < |req.personas| && j < |req.selectors| && key in store.entries
    modifies store
    ensures o == Overrides(req, ex, i, j, msg)
    ensures store.entries == old(store.entries)[key := ApplyHooks(old(store.entries)[key], o.hooks)]
  {
    ghost var e0 := store.entries[key];
    var merge := Retries([], [], false);
    if IsMergeError(msg) {
      var c := CallAt(req, i, j, MergeOverride);
      var r := ex(c);
      store.Hooks(key, r.hooks);
      merge := Retries([c], r.hooks, r.failure.None?);
      if merge.succeeded {
        return merge;
      }
    }
    var preview := Retries([], [], false);
    if IsPreviewOnlyError(msg) {
      var c := CallAt(req, i, j, PreviewOverride);
      var r := ex(c);
      store.Hooks(key, r.hooks);
      ApplyHooksAppend(e0, merge.hooks, r.hooks);
      preview := Retries([c], r.hooks, r.failure.None?);
    } else {
      assert merge.hooks + [] == merge.hooks;
    }
    o := Retries(merge.calls + preview.calls, merge.hooks + preview.hooks, preview.succeeded);
  }

  /** One pass of the inner loop body (app.py:236-307) against the status
      store: each call's hook events are applied to the entry at `key` as
      the call makes them. */
  method AttemptSelector(store: DownloadStatus, key: string, req: Request, ex: Call -> Reply, i: nat, j: nat,
                         ghost s: Pos -> Step, ghost t: Pos -> SelectorRun)
    returns (a: SelectorRun)
    requires i < |req.personas| && j < |req.selectors| && key in store.entries
    requires Implements(req, ex, s, t)
    modifies store
    ensures a == t((i, j)) && a.step == s((i, j))
    ensures store.entries == old(store.entries)[key := ApplyHooks(old(store.entries)[key], a.hooks)]
  {
    assert t((i, j)) == TrySelector(req, ex, i, j);
    ghost var e0 := store.entries[key];
    var c0 := CallAt(req, i, j, Primary);
    var r0 := ex(c0);
    store.Hooks(key, r0.hooks);
    if r0.failure.None? {
      assert [c0] + [] == [c0] && r0.hooks + [] == r0.hooks;
      return SelectorRun(i, j, [c0], r0.hooks, [], Done);
    }
    var msg := r0.failure.value.message;
    var o := Retries([], [], false);
    if r0.failure.value.DownloadError? {
      o := RunOverrides(store, key, req, ex, i, j, msg);
      ApplyHooksAppend(e0, r0.hooks, o.hooks);
    } else {
      assert [c0] + [] == [c0] && r0.hooks + [] == r0.hooks;
    }
    a := SelectorRun(i, j, [c0] + o.calls, r0.hooks + o.hooks, [msg], StepAfter(o.succeeded, r0.failure));
  }

  /** `s` and `t` give, at every position of the request's space, the step
      and the attempt of the loop body there. */
  ghost predicate Implements(req: Request, ex: Call -> Reply, s: Pos -> Step, t: Pos -> SelectorRun)
  {
    forall i: nat, j: nat {:trigger TrySelector(req, ex, i, j)} :: i < |req.personas| && j < |req.selectors| ==>
      t((i, j)) == TrySelector(req, ex, i, j) && s((i, j)) == t((i, j)).step
  }

  lemma StepAndAttemptImplement(req: Request, ex: Call -> Reply)
    ensures Implements(req, ex, StepFn(req, ex), AttemptFn(req, ex))
  {
  }

  /** The attempt at a position, for the loops of one request. */
  function AttemptFn(req: Request, ex: Call -> Reply): Pos -> SelectorRun
  {
    (p: Pos) =>
      if p.0 < |req.personas| && p.1 < |req.selectors| then TrySelector(req, ex, p.0, p.1)
      else SelectorRun(p.0, p.1, [], [], [], NextPersona)
  }

  /** The attempts the loops make from position `p` on: the attempt there
      and, unless it returned, those from where its step leads. */
  function RunFrom(req: Request, ex: Call -> Reply, p: Pos): seq<SelectorRun>
    requires |req.selectors| == 0 || p.1 < |req.selectors|
  {
    Trace(|req.personas|, |req.selectors|, StepFn(req, ex), AttemptFn(req, ex), p)
  }

  lemma UpdateTwice<K, V>(m: map<K, V>, k: K, v1: V, v2: V)
    ensures m[k := v1][k := v2] == m[k := v2]
  {
  }

  /** `Runs` is the walk from the first persona's first selector. */
  lemma RunsIsRunFrom(req: Request, ex: Call -> Reply)
    ensures Runs(req, ex) == RunFrom(req, ex, (0, 0))
  {
    var V, R := Visited(req, ex), RunFrom(req, ex, (0, 0));
    TraceMatchesWalk(|req.personas|, |req.selectors|, StepFn(req, ex), AttemptFn(req, ex), (0, 0));
    VisitedInSpace(req, ex);
    RunsAtIndex(req, ex, V);
    assert Runs(req, ex) == RunsAt(req, ex, V);
    assert forall k :: 0 <= k < |V| ==> RunsAt(req, ex, V)[k] == R[k];
  }

  /** The entry a run leaves when it returned, and when it gave up. */
  lemma FinalCases(runs: seq<SelectorRun>, hasCookies: bool)
    ensures Succeeded(runs) ==>
      FinalEntry(runs, hasCookies) == ApplyHooks(InitialEntry(), RunHooks(runs)).(state := Completed)
    ensures !Succeeded(runs) ==>
      FinalEntry(runs, hasCookies) ==
      ApplyHooks(InitialEntry(), RunHooks(runs)).(state := Error, error := Some(DownloadSummary(RunErrors(runs), hasCookies)))
  {
  }

  /** The running aggregates after one more attempt. */
  lemma AppendRun(runs: seq<SelectorRun>, a: SelectorRun)
    ensures RunErrors(runs + [a]) == RunErrors(runs) + a.errors
    ensures RunHooks(runs + [a]) == RunHooks(runs) + a.hooks
    ensures Succeeded(runs + [a]) <==> a.step == Done
  {
    assert (runs + [a])[..|runs|] == runs;
  }

  /** One pass of the inner loop body with its bookkeeping: the attempt at
      (i, j), its hook events applied, its messages appended to `errors`, and
      the entry marked `completed` when it returned (app.py:264-265). The
      whole run is to make the attempts `total`, of which `runs0` are made;
      the store holds `base` but for the entry at `key`. The loop body is
      `s` and `t`. */
  method Pass(store: DownloadStatus, key: string, req: Request, ex: Call -> Reply, i: nat, j: nat,
              errors0: seq<string>, ghost base: map<string, Entry>, ghost total: seq<SelectorRun>, ghost runs0: seq<SelectorRun>,
              ghost s: Pos -> Step, ghost t: Pos -> SelectorRun)
    returns (step: Step, errors: seq<string>, ghost runs: seq<SelectorRun>)
    requires i < |req.personas| && j < |req.selectors| && Implements(req, ex, s, t)
    requires total == runs0 + Trace(|req.personas|, |req.selectors|, s, t, (i, j)) && errors0 == RunErrors(runs0)
    requires store.entries == base[key := ApplyHooks(InitialEntry(), RunHooks(runs0))]
    modifies store
    ensures errors == RunErrors(runs) && (Succeeded(runs) <==> step == Done)
    ensures step == Done ==>
      total == runs &&
      store.entries == base[key := ApplyHooks(InitialEntry(), RunHooks(runs)).(state := Completed)]
    ensures step == NextSelector ==> total == runs + Trace(|req.personas|, |req.selectors|, s, t, Start(|req.selectors|, i, j + 1))
    ensures step == NextPersona ==> total == runs + Trace(|req.personas|, |req.selectors|, s, t, (i + 1, 0))
    ensures step != Done ==> store.entries == base[key := ApplyHooks(InitialEntry(), RunHooks(runs))]
  {
    ghost var before := ApplyHooks(InitialEntry(), RunHooks(runs0));
    var a := AttemptSelector(store, key, req, ex, i, j, s, t);
    AppendRun(runs0, a);
    ApplyHooksAppend(InitialEntry(), RunHooks(runs0), a.hooks);
    step, errors, runs := a.step, errors0 + a.errors, runs0 + [a];
    ghost var rest := if step == Done then [] else Trace(|req.personas|, |req.selectors|, s, t, Advance(|req.selectors|, step, (i, j)));
    AppendAssoc(runs0, [a], rest);
    ghost var after := ApplyHooks(InitialEntry(), RunHooks(runs));
    UpdateTwice(base, key, before, after);
    AdvanceCases(|req.selectors|, step, i, j);
    if step == Done {
      AppendEmpty(runs);
      store.MarkCompleted(key);
      UpdateTwice(base, key, after, after.(state := Completed));
    }
  }

  /** The inner loop over the selectors for persona `i` (app.py:235-307). */
  method TryPersona(store: DownloadStatus, key: string, req: Request, ex: Call -> Reply, i: nat,
                    errors0: seq<string>, ghost base: map<string, Entry>, ghost total: seq<SelectorRun>, ghost runs0: seq<SelectorRun>,
                    ghost s: Pos -> Step, ghost t: Pos -> SelectorRun)
    returns (finished: bool, errors: seq<string>, ghost runs: seq<SelectorRun>)
    requires i < |req.personas| && Implements(req, ex, s, t)
    requires total == runs0 + Trace(|req.personas|, |req.selectors|, s, t, (i, 0)) && errors0 == RunErrors(runs0) && !Succeeded(runs0)
    requires store.entries == base[key := ApplyHooks(InitialEntry(), RunHooks(runs0))]
    modifies store
    ensures errors == RunErrors(runs) && (Succeeded(runs) <==> finished)
    ensures finished ==>
      total == runs &&
      store.entries == base[key := ApplyHooks(InitialEntry(), RunHooks(runs)).(state := Completed)]
    ensures !finished ==>
      total == runs + Trace(|req.personas|, |req.selectors|, s, t, (i + 1, 0)) &&
      store.entries == base[key := ApplyHooks(InitialEntry(), RunHooks(runs))]
  {
    finished, errors, runs := false, errors0, runs0;
    var j: nat := 0;
    while j < |req.selectors|
      invariant j <= |req.selectors|
      invariant total == runs + Trace(|req.personas|, |req.selectors|, s, t, Start(|req.selectors|, i, j))
      invariant errors == RunErrors(runs) && !Succeeded(runs)
      invariant store.entries == base[key := ApplyHooks(InitialEntry(), RunHooks(runs))]
    {
      var step;
      step, errors, runs := Pass(store, key, req, ex, i, j, errors, base, total, runs, s, t);
      if step == Done {
        return true, errors, runs;
      }
      if step == NextPersona {
        return false, errors, runs;
      }
      j := j + 1;
    }
  }

  /** `download_video(url, format_type, quality)` (app.py:165-320): start
      the entry under the status key, walk the personas and selectors, and
      leave the entry `completed` on the first success or `error` with the
      summary once every persona has been given up on. `now` is the clock
      reading, `hasCookies` whether cookies.txt exists, and the walk is
      made against the calls as the progress hook lets them end. */
  method DownloadVideo(store: DownloadStatus, url: string, formatType: string, quality: string,
                       hasCookies: bool, now: nat, ex: Call -> Reply)
    returns (key: string)
    modifies store
    ensures key == StatusKey(url, now)
    ensures store.entries == old(store.entries)[key :=
      FinalEntry(Runs(DownloadRequest(formatType, quality, hasCookies), ObservedEx(ex)), hasCookies)]
  {
    key := StatusKey(url, now);
    ghost var base := store.entries;
    store.Start(key);
    var req := DownloadRequest(formatType, quality, hasCookies);
    var seen := ObservedEx(ex);
    RunsIsRunFrom(req, seen);
    StepAndAttemptImplement(req, seen);
    RunPersonas(store, key, req, seen, base, StepFn(req, seen), AttemptFn(req, seen));
  }

  /** The outer loop over the personas (app.py:234-320), from the fresh
      entry at `key` to its final state. */
  method RunPersonas(store: DownloadStatus, key: string, req: Request, ex: Call -> Reply,
                     ghost base: map<string, Entry>, ghost s: Pos -> Step, ghost t: Pos -> SelectorRun)
    requires Implements(req, ex, s, t)
    requires store.entries == base[key := InitialEntry()]
    modifies store
    ensures store.entries ==
      base[key := FinalEntry(Trace(|req.personas|, |req.selectors|, s, t, (0, 0)), req.hasCookies)]
  {
    ghost var total := Trace(|req.personas|, |req.selectors|, s, t, (0, 0));
    AppendEmpty(total);
    ghost var runs: seq<SelectorRun> := [];
    var errors: seq<string> := [];
    var i: nat := 0;
    while i < |req.personas|
      invariant 0 <= i <= |req.personas|
      invariant total == runs + Trace(|req.personas|, |req.selectors|, s, t, (i, 0))
      invariant errors == RunErrors(runs) && !Succeeded(runs)
      invariant store.entries == base[key := ApplyHooks(InitialEntry(), RunHooks(runs))]
    {
      var finished;
      finished, errors, runs := TryPersona(store, key, req, ex, i, errors, base, total, runs, s, t);
      if finished {
        FinalCases(runs, req.hasCookies);
        return;
      }
      i := i + 1;
    }
    AppendEmpty(runs);
    FinalCases(runs, req.hasCookies);
    ghost var before := ApplyHooks(InitialEntry(), RunHooks(runs));
    store.MarkError(key, DownloadSummary(errors, req.hasCookies));
    UpdateTwice(base, key, before, FinalEntry(runs, req.hasCookies));
  }
}
