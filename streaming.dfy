/** The streaming download route `download()` (app.py:336-518): the same
    persona x selector walk as `download_video`, but every call writes into
    one scratch directory that lives for the whole request, the first
    successful call that leaves a file there ends the walk, and the first
    file `glob` lists there is served and then deleted with the directory.
    The extractor is the parameter `ex`: it maps each call, made against
    the directory as it stands, to the directory as the call leaves it and
    the way the call ended. */
module StreamRoute {
  import opened Text
  import opened ConfigSpace
  import opened ErrorText
  import opened RetryWalk
  import opened Delivery
  import DownloadController

  type Request = DownloadController.Request

  /** One extractor call: the positions in the persona and selector lists,
      whether it is the `best` retry after a merge error (app.py:461-465),
      the options it hands over, and the scratch directory as the call
      finds it. */
  datatype StreamCall = StreamCall(persona: nat, selector: nat, mergeRetry: bool, options: Options, found: seq<FileEntry>)

  /** The scratch directory as a call leaves it, in the order `glob` lists
      it, and the message of the exception the call raised (`None` when it
      returned). A call may add, rename or delete files whether it succeeds
      or not, such as a resumed `.part` file renamed to its final name, or
      an audio original deleted once it is converted. */
  datatype StreamReply = StreamReply(left: seq<FileEntry>, failure: Option<string>)

  /** One pass of the inner loop body: its calls, the scratch directory
      after it, and how it ends. */
  datatype StreamAttempt = StreamAttempt(
    persona: nat, selector: nat, calls: seq<StreamCall>, files: seq<FileEntry>, step: Step)

  /** What the route answers: the streamed file with its headers, or a
      JSON error with its status code. */
  datatype Response =
    | Stream(mimetype: string, disposition: string, contentLength: string, file: FileEntry)
    | JsonError(status: nat, error: string)

  /** The answer after every persona was given up on (app.py:507). */
  const FailedText := "Failed to download video. Please try again."

  /** The format selectors for the values `data.get('format', 'best')` and
      `data.get('quality', 'best')` give (app.py:341-342, 375-386), where
      `None` stands for a JSON `null`, which equals no string: a `null`
      format type gives no selector, and so does a `null` quality with the
      video format type; the audio list does not depend on the quality. */
  function RouteSelectors(formatType: Option<string>, quality: Option<string>): (r: seq<string>)
    ensures formatType.Some? && quality.Some? ==> r == Selectors(formatType.value, quality.value)
    ensures formatType.None? ==> r == []
    ensures formatType == Some("audio") ==> r == Selectors("audio", "best")
    ensures formatType.Some? && formatType.value != "audio" && quality.None? ==> r == []
  {
    if formatType.None? then []
    else if quality.None? then (if formatType.value == "audio" then Selectors("audio", "best") else [])
    else Selectors(formatType.value, quality.value)
  }

  /** The request lists for the body fields (app.py:340-386): a missing
      `format` or `quality` reads as "best", a `null` one as `None`. */
  function RouteRequest(formatType: Field<string>, quality: Field<string>, hasCookies: bool): (req: Request)
    ensures req.personas == DownloadPersonas(hasCookies) && req.hasCookies == hasCookies
    ensures req.selectors == RouteSelectors(formatType.Get("best"), quality.Get("best"))
    ensures req.audio <==> formatType == Present("audio")
  {
    DownloadController.Request(DownloadPersonas(hasCookies),
      RouteSelectors(formatType.Get("best"), quality.Get("best")), hasCookies, formatType == Present("audio"))
  }

  /** The call for persona `i` and selector `j` (app.py:390-413) against
      the directory `files`, with the format replaced by `best` for the
      merge retry. */
  function StreamCallAt(req: Request, i: nat, j: nat, mergeRetry: bool, files: seq<FileEntry>): StreamCall
    requires i < |req.personas| && j < |req.selectors|
  {
    StreamCall(i, j, mergeRetry, Resolve(req.personas[i], req.hasCookies,
      Download(if mergeRetry then "best" else req.selectors[j], req.audio)), files)
  }

  /** Each call finds the directory as the call before it left it, the
      first call the directory `files`. */
  predicate Chained(calls: seq<StreamCall>, files: seq<FileEntry>, ex: StreamCall -> StreamReply)
  {
    forall k :: 0 <= k < |calls| ==> calls[k].found == FoundBy(calls, files, ex, k)
  }

  /** The directory the call at `k` finds. */
  function FoundBy(calls: seq<StreamCall>, files: seq<FileEntry>, ex: StreamCall -> StreamReply, k: nat): seq<FileEntry>
    requires k <= |calls|
  {
    if k == 0 then files else ex(calls[k - 1]).left
  }

  /** The directory after a sequence of calls made against `files`. */
  function LeftBy(calls: seq<StreamCall>, files: seq<FileEntry>, ex: StreamCall -> StreamReply): seq<FileEntry>
  {
    if calls == [] then files else ex(calls[|calls| - 1]).left
  }

  /** The answer for a file found in the directory (app.py:446-455). */
  function Deliver(f: FileEntry): Response
  {
    Stream(ContentType(f.name), Disposition(f.name), ContentLength(f), f)
  }

  /** One pass of the inner loop body (app.py:415-502), entered with the
      directory holding `files`: a successful call ends the walk when the
      directory is not empty and goes on to the next selector when it is;
      a format error goes on to the next selector; a merge error earns one
      retry with `best`, which ends the walk only if it succeeds and leaves
      the directory non-empty; anything else moves on to the next persona. */
  function TryStream(req: Request, ex: StreamCall -> StreamReply, i: nat, j: nat, files: seq<FileEntry>): (a: StreamAttempt)
    requires i < |req.personas| && j < |req.selectors|
    ensures a.persona == i && a.selector == j
    ensures a.step == Done ==> a.files != []
  {
    var c0 := StreamCallAt(req, i, j, false, files);
    var f0 := ex(c0).left;
    match ex(c0).failure
    case None => StreamAttempt(i, j, [c0], f0, if f0 != [] then Done else NextSelector)
    case Some(msg) =>
      if IsFormatError(msg) then StreamAttempt(i, j, [c0], f0, NextSelector)
      else if IsMergeError(msg) then
        var c1 := StreamCallAt(req, i, j, true, f0);
        var f1 := ex(c1).left;
        StreamAttempt(i, j, [c0, c1], f1, if ex(c1).failure.None? && f1 != [] then Done else NextPersona)
      else StreamAttempt(i, j, [c0], f0, NextPersona)
  }

  /** The attempt's last call returned and the directory holds a file. */
  predicate Delivered(ex: StreamCall -> StreamReply, a: StreamAttempt)
  {
    a.calls != [] && ex(a.calls[|a.calls| - 1]).failure.None? && a.files != []
  }

  /** The calls of one pass: the primary call against the directory the
      pass is entered with, and the `best` retry, against the directory the
      primary call left, exactly when the primary call raised a merge error
      that is not a format error. The pass leaves the directory as its last
      call left it. It ends the walk exactly when its last call returned
      and the directory holds a file, and goes on to the next selector
      exactly when the primary call returned leaving the directory empty or
      raised a format error. */
  lemma TryStreamOutcome(req: Request, ex: StreamCall -> StreamReply, i: nat, j: nat, files: seq<FileEntry>)
    requires i < |req.personas| && j < |req.selectors|
    ensures var a := TryStream(req, ex, i, j, files);
      var c0 := StreamCallAt(req, i, j, false, files);
      var f := ex(c0).failure;
      1 <= |a.calls| <= 2 && a.calls[0] == c0 &&
      (|a.calls| == 2 <==> f.Some? && !IsFormatError(f.value) && IsMergeError(f.value)) &&
      (|a.calls| == 2 ==> a.calls[1] == StreamCallAt(req, i, j, true, ex(c0).left)) &&
      Chained(a.calls, files, ex) && a.files == LeftBy(a.calls, files, ex) &&
      (a.step == Done <==> Delivered(ex, a)) &&
      (a.step == NextSelector <==>
         (f.None? && ex(c0).left == []) || (f.Some? && IsFormatError(f.value)))
  {
  }

  /** How the pass at a position ends, given the directory it is entered with. */
  type PassFn = (Pos, seq<FileEntry>) -> StreamAttempt

  /** The passes the loops make from position `p` on, for `np` personas and
      `ns` selectors, entered with the directory holding `files`: the pass
      there and, unless it ended the walk, those from where its step leads,
      with the directory it left. */
  function Passes(np: nat, ns: nat, t: PassFn, p: Pos, files: seq<FileEntry>): seq<StreamAttempt>
    requires ns == 0 || p.1 < ns
    decreases np - p.0, ns - p.1
  {
    if ns == 0 || p.0 >= np then []
    else
      var a := t(p, files);
      [a] + if a.step == Done then [] else Passes(np, ns, t, Advance(ns, a.step, p), a.files)
  }

  /** The pass function of one request. */
  function AttemptFn(req: Request, ex: StreamCall -> StreamReply): PassFn
  {
    (p: Pos, files: seq<FileEntry>) =>
      if p.0 < |req.personas| && p.1 < |req.selectors| then TryStream(req, ex, p.0, p.1, files)
      else StreamAttempt(p.0, p.1, [], files, NextPersona)
  }

  /** The passes of one request, from a fresh, empty directory. */
  function StreamRuns(req: Request, ex: StreamCall -> StreamReply): seq<StreamAttempt>
  {
    Passes(|req.personas|, |req.selectors|, AttemptFn(req, ex), (0, 0), [])
  }

  /** All calls of a sequence of passes, in order. */
  function CallsOf(runs: seq<StreamAttempt>): seq<StreamCall>
    decreases |runs|
  {
    if runs == [] then [] else runs[0].calls + CallsOf(runs[1..])
  }

  /** The directory after a sequence of passes entered with `files`. */
  function LastFiles(runs: seq<StreamAttempt>, files: seq<FileEntry>): seq<FileEntry>
  {
    if runs == [] then files else runs[|runs| - 1].files
  }

  function At(a: StreamAttempt): Pos
  {
    (a.persona, a.selector)
  }

  /** The positions of a sequence of passes. */
  function Positions(runs: seq<StreamAttempt>): (ps: seq<Pos>)
    ensures |ps| == |runs|
    ensures forall k :: 0 <= k < |runs| ==> ps[k] == At(runs[k])
  {
    seq(|runs|, k requires 0 <= k < |runs| => At(runs[k]))
  }

  /** What the route answers after its passes: the first file of the
      directory when the last pass ended the walk, the failure otherwise. */
  function RouteResult(runs: seq<StreamAttempt>): Response
  {
    if runs != [] && runs[|runs| - 1].step == Done && runs[|runs| - 1].files != [] then
      Deliver(runs[|runs| - 1].files[0])
    else JsonError(500, FailedText)
  }

  /** Every pass is made at the position it is asked for. */
  ghost predicate InPlace(t: PassFn)
  {
    forall p, f :: At(t(p, f)) == p
  }

  /** Every pass makes its calls one after the other against the directory
      it was entered with, and leaves the directory as its last call left it. */
  ghost predicate Threads(t: PassFn, ex: StreamCall -> StreamReply)
  {
    forall p, f :: Chained(t(p, f).calls, f, ex) && t(p, f).files == LeftBy(t(p, f).calls, f, ex)
  }

  lemma AttemptFnShape(req: Request, ex: StreamCall -> StreamReply)
    ensures InPlace(AttemptFn(req, ex)) && Threads(AttemptFn(req, ex), ex)
  {
    var t := AttemptFn(req, ex);
    forall p: Pos, f: seq<FileEntry>
      ensures At(t(p, f)) == p && Chained(t(p, f).calls, f, ex) && t(p, f).files == LeftBy(t(p, f).calls, f, ex)
    {
      if p.0 < |req.personas| && p.1 < |req.selectors| {
        TryStreamOutcome(req, ex, p.0, p.1, f);
      }
    }
  }

  lemma PassesCons(np: nat, ns: nat, t: PassFn, p: Pos, files: seq<FileEntry>)
    requires p.0 < np && p.1 < ns
    ensures var R := Passes(np, ns, t, p, files);
      var a := t(p, files);
      R != [] && R[0] == a && (a.step == Done ==> R == [a]) &&
      (a.step != Done ==> R[1..] == Passes(np, ns, t, Advance(ns, a.step, p), a.files))
  {
  }

  /** Two chains of calls, the second made against the directory the
      first left, make one chain, which leaves the directory the second
      leaves. */
  lemma ChainedAppend(xs: seq<StreamCall>, ys: seq<StreamCall>, files: seq<FileEntry>, ex: StreamCall -> StreamReply)
    requires Chained(xs, files, ex) && Chained(ys, LeftBy(xs, files, ex), ex)
    ensures Chained(xs + ys, files, ex)
    ensures LeftBy(xs + ys, files, ex) == LeftBy(ys, LeftBy(xs, files, ex), ex)
  {
    var zs := xs + ys;
    forall k | 0 <= k < |zs|
      ensures zs[k].found == FoundBy(zs, files, ex, k)
    {
      if k < |xs| {
        FoundByPrefix(xs, ys, files, ex, k);
        assert zs[k] == xs[k];
      } else {
        FoundBySuffix(xs, ys, files, ex, k - |xs|);
        assert zs[k] == ys[k - |xs|];
      }
    }
    if ys == [] {
      assert zs == xs;
    } else {
      assert zs[|zs| - 1] == ys[|ys| - 1];
    }
  }

  lemma FoundByPrefix(xs: seq<StreamCall>, ys: seq<StreamCall>, files: seq<FileEntry>, ex: StreamCall -> StreamReply, k: nat)
    requires k < |xs|
    ensures FoundBy(xs + ys, files, ex, k) == FoundBy(xs, files, ex, k)
  {
    if k > 0 {
      assert (xs + ys)[k - 1] == xs[k - 1];
    }
  }

  lemma FoundBySuffix(xs: seq<StreamCall>, ys: seq<StreamCall>, files: seq<FileEntry>, ex: StreamCall -> StreamReply, m: nat)
    requires m < |ys|
    ensures FoundBy(xs + ys, files, ex, |xs| + m) == FoundBy(ys, LeftBy(xs, files, ex), ex, m)
  {
    if m > 0 {
      assert (xs + ys)[|xs| + m - 1] == ys[m - 1];
    } else if xs != [] {
      assert (xs + ys)[|xs| - 1] == xs[|xs| - 1];
    }
  }

  /** The calls of the passes are made one after the other, each against
      the directory the call before it left, the first against the
      directory the walk is entered with; the directory the passes leave
      is the one the last call left. Calls may remove or rename what
      earlier calls left. */
  lemma {:induction false} PassesThreadDirectory(np: nat, ns: nat, t: PassFn, ex: StreamCall -> StreamReply, p: Pos, files: seq<FileEntry>)
    requires ns == 0 || p.1 < ns
    requires Threads(t, ex)
    ensures var R := Passes(np, ns, t, p, files);
      Chained(CallsOf(R), files, ex) && LastFiles(R, files) == LeftBy(CallsOf(R), files, ex)
    decreases np - p.0, ns - p.1
  {
    var R := Passes(np, ns, t, p, files);
    if ns > 0 && p.0 < np {
      var a := t(p, files);
      PassesCons(np, ns, t, p, files);
      var rest := R[1..];
      assert R == [a] + rest;
      if a.step != Done {
        PassesThreadDirectory(np, ns, t, ex, Advance(ns, a.step, p), a.files);
      }
      ThreadStep(a, rest, files, ex);
    }
  }

  lemma ThreadStep(a: StreamAttempt, rest: seq<StreamAttempt>, files: seq<FileEntry>, ex: StreamCall -> StreamReply)
    requires Chained(a.calls, files, ex) && a.files == LeftBy(a.calls, files, ex)
    requires Chained(CallsOf(rest), a.files, ex) && LastFiles(rest, a.files) == LeftBy(CallsOf(rest), a.files, ex)
    ensures Chained(CallsOf([a] + rest), files, ex)
    ensures LastFiles([a] + rest, files) == LeftBy(CallsOf([a] + rest), files, ex)
  {
    var R := [a] + rest;
    assert R[1..] == rest;
    assert CallsOf(R) == a.calls + CallsOf(rest);
    if rest != [] {
      assert R[|R| - 1] == rest[|rest| - 1];
    }
    ChainedAppend(a.calls, CallsOf(rest), files, ex);
  }

  /** The last call of a sequence of passes is the last call of its last
      pass. */
  lemma {:induction false} CallsOfLast(runs: seq<StreamAttempt>)
    requires runs != [] && runs[|runs| - 1].calls != []
    ensures var C := CallsOf(runs); var L := runs[|runs| - 1].calls;
      C != [] && C[|C| - 1] == L[|L| - 1]
    decreases |runs|
  {
    var C := CallsOf(runs);
    assert C == runs[0].calls + CallsOf(runs[1..]);
    if |runs| > 1 {
      CallsOfLast(runs[1..]);
      assert runs[1..][|runs| - 2] == runs[|runs| - 1];
    } else {
      assert CallsOf(runs[1..]) == [];
    }
  }

  /** A non-empty walk starts where it is asked to, with the directory it
      was entered with; each later pass is made where its predecessor's
      step leads, with the directory its predecessor left; only the last
      pass may end the walk. */
  lemma {:induction false} PassesLinked(np: nat, ns: nat, t: PassFn, p: Pos, files: seq<FileEntry>)
    requires ns == 0 || p.1 < ns
    requires InPlace(t)
    ensures var R := Passes(np, ns, t, p, files);
      (R == [] <==> ns == 0 || p.0 >= np) &&
      (R != [] ==> R[0] == t(p, files)) &&
      forall k :: 0 <= k < |R| - 1 ==>
        R[k].step != Done &&
        At(R[k + 1]) == Advance(ns, R[k].step, At(R[k])) &&
        R[k + 1] == t(At(R[k + 1]), R[k].files)
    decreases np - p.0, ns - p.1
  {
    var R := Passes(np, ns, t, p, files);
    if ns > 0 && p.0 < np {
      var a := t(p, files);
      PassesCons(np, ns, t, p, files);
      if a.step != Done {
        var n := Advance(ns, a.step, p);
        var rest := Passes(np, ns, t, n, a.files);
        PassesLinked(np, ns, t, n, a.files);
        forall k | 0 <= k < |R| - 1
          ensures R[k].step != Done &&
            At(R[k + 1]) == Advance(ns, R[k].step, At(R[k])) &&
            R[k + 1] == t(At(R[k + 1]), R[k].files)
        {
          assert R[k + 1] == rest[k];
          if k > 0 {
            assert R[k] == rest[k - 1];
          }
        }
      }
    }
  }

  /** A walk whose last pass did not end it has run off the end of the
      persona list. */
  lemma {:induction false} PassesRunOff(np: nat, ns: nat, t: PassFn, p: Pos, files: seq<FileEntry>)
    requires ns == 0 || p.1 < ns
    requires InPlace(t)
    ensures var R := Passes(np, ns, t, p, files);
      R != [] && R[|R| - 1].step != Done ==> Advance(ns, R[|R| - 1].step, At(R[|R| - 1])).0 == np
    decreases np - p.0, ns - p.1
  {
    var R := Passes(np, ns, t, p, files);
    if ns > 0 && p.0 < np {
      var a := t(p, files);
      PassesCons(np, ns, t, p, files);
      if a.step != Done {
        var n := Advance(ns, a.step, p);
        var rest := Passes(np, ns, t, n, a.files);
        PassesRunOff(np, ns, t, n, a.files);
        if rest != [] {
          assert R[|R| - 1] == rest[|rest| - 1];
        }
      }
    }
  }

  lemma PositionsCons(a: StreamAttempt, rest: seq<StreamAttempt>)
    ensures Positions([a] + rest) == [At(a)] + Positions(rest)
  {
    assert forall k :: 0 < k <= |rest| ==> ([a] + rest)[k] == rest[k - 1];
  }

  /** The passes lie inside the persona x selector space and move strictly
      forward in list order: no pair is tried twice. */
  lemma {:induction false} PassesForward(np: nat, ns: nat, t: PassFn, p: Pos, files: seq<FileEntry>)
    requires ns == 0 || p.1 < ns
    requires InPlace(t)
    ensures Forward(np, ns, Positions(Passes(np, ns, t, p, files)), p)
    decreases np - p.0, ns - p.1
  {
    var R := Passes(np, ns, t, p, files);
    if ns > 0 && p.0 < np {
      var a := t(p, files);
      PassesCons(np, ns, t, p, files);
      var n := Advance(ns, a.step, p);
      var rest := if a.step == Done then [] else Passes(np, ns, t, n, a.files);
      if a.step != Done {
        PassesForward(np, ns, t, n, a.files);
      } else {
        AppendEmpty([a]);
      }
      ForwardCons(np, ns, p, n, Positions(rest));
      PositionsCons(a, rest);
      assert R == [a] + rest;
    }
  }

  /** Each pass of a request is `TryStream` at its position, inside the
      persona x selector space, entered with the directory the previous
      pass left (the empty one for the first), and it ends the walk exactly
      when it delivered a file. */
  lemma RunsArePasses(req: Request, ex: StreamCall -> StreamReply)
    ensures var R := StreamRuns(req, ex);
      forall k :: 0 <= k < |R| ==>
        R[k].persona < |req.personas| && R[k].selector < |req.selectors| &&
        R[k] == TryStream(req, ex, R[k].persona, R[k].selector, if k == 0 then [] else R[k - 1].files) &&
        (R[k].step == Done <==> Delivered(ex, R[k]))
  {
    var R := StreamRuns(req, ex);
    var t := AttemptFn(req, ex);
    AttemptFnShape(req, ex);
    PassesLinked(|req.personas|, |req.selectors|, t, (0, 0), []);
    PassesForward(|req.personas|, |req.selectors|, t, (0, 0), []);
    forall k | 0 <= k < |R|
      ensures R[k].persona < |req.personas| && R[k].selector < |req.selectors| &&
        R[k] == TryStream(req, ex, R[k].persona, R[k].selector, if k == 0 then [] else R[k - 1].files) &&
        (R[k].step == Done <==> Delivered(ex, R[k]))
    {
      assert Positions(R)[k] == At(R[k]);
      assert R[k] == t(At(R[k]), if k == 0 then [] else R[k - 1].files);
      TryStreamOutcome(req, ex, R[k].persona, R[k].selector, if k == 0 then [] else R[k - 1].files);
    }
  }

  /** The calls of a request are made one after the other against the
      scratch directory, starting from an empty one. The route answers with
      a stream exactly when some pass delivered a file; then only the last
      pass did, its last call is the last call of the request, that call
      returned, and the file served is the first file of the directory as
      that call left it. Otherwise it answers 500 with the failure text. */
  lemma RouteOutcome(req: Request, ex: StreamCall -> StreamReply)
    ensures var R := StreamRuns(req, ex);
      var C := CallsOf(R);
      Chained(C, [], ex) &&
      (RouteResult(R).Stream? <==> exists k :: 0 <= k < |R| && Delivered(ex, R[k])) &&
      (RouteResult(R).Stream? ==>
         C != [] && ex(C[|C| - 1]).failure.None? && ex(C[|C| - 1]).left != [] &&
         RouteResult(R) == Deliver(ex(C[|C| - 1]).left[0]) &&
         Delivered(ex, R[|R| - 1]) && forall k :: 0 <= k < |R| - 1 ==> !Delivered(ex, R[k])) &&
      (!RouteResult(R).Stream? ==> RouteResult(R) == JsonError(500, FailedText))
  {
    var R := StreamRuns(req, ex);
    var t := AttemptFn(req, ex);
    AttemptFnShape(req, ex);
    PassesLinked(|req.personas|, |req.selectors|, t, (0, 0), []);
    PassesThreadDirectory(|req.personas|, |req.selectors|, t, ex, (0, 0), []);
    RunsArePasses(req, ex);
    if RouteResult(R).Stream? {
      CallsOfLast(R);
    }
  }

  /** After a `break` no later pass uses the same persona; after a
      `continue` that is not on the last selector, the next pass is the
      next selector of the same persona. */
  lemma DispatchStream(req: Request, ex: StreamCall -> StreamReply, k: nat)
    requires k < |StreamRuns(req, ex)|
    ensures var R := StreamRuns(req, ex);
      (R[k].step == NextPersona ==> forall k' :: k < k' < |R| ==> R[k'].persona > R[k].persona) &&
      (R[k].step == NextSelector && R[k].selector + 1 < |req.selectors| ==>
         k + 1 < |R| && R[k + 1].persona == R[k].persona && R[k + 1].selector == R[k].selector + 1)
  {
    var R := StreamRuns(req, ex);
    var P := Positions(R);
    var t := AttemptFn(req, ex);
    AttemptFnShape(req, ex);
    PassesLinked(|req.personas|, |req.selectors|, t, (0, 0), []);
    PassesRunOff(|req.personas|, |req.selectors|, t, (0, 0), []);
    PassesForward(|req.personas|, |req.selectors|, t, (0, 0), []);
    assert P[k] == At(R[k]);
    if R[k].step == NextPersona {
      forall k' | k < k' < |R|
        ensures R[k'].persona > R[k].persona
      {
        assert P[k + 1] == At(R[k + 1]) && P[k'] == At(R[k']);
        if k' > k + 1 {
          assert Before(P[k + 1], P[k']);
        }
      }
    }
  }

  /** With no format selector (a format type other than video or audio,
      a missing or `null` one included, or a video quality that is unknown
      or `null`) the route makes no call and answers 500. */
  lemma NoSelectorsNoCalls(formatType: Field<string>, quality: Field<string>, hasCookies: bool, ex: StreamCall -> StreamReply)
    ensures var req := RouteRequest(formatType, quality, hasCookies);
      (StreamRuns(req, ex) == [] <==> RouteSelectors(formatType.Get("best"), quality.Get("best")) == []) &&
      (!formatType.Present? ==> StreamRuns(req, ex) == []) &&
      (formatType == Present("video") && quality.Null? ==> StreamRuns(req, ex) == []) &&
      (StreamRuns(req, ex) == [] ==> RouteResult(StreamRuns(req, ex)) == JsonError(500, FailedText))
  {
    var req := RouteRequest(formatType, quality, hasCookies);
    PersonaListsShape(hasCookies);
  }

  /** The scratch directory of one request (`tempfile.mkdtemp()`). */
  class ScratchDir {
    var files: seq<FileEntry>
    var removed: bool

    /** A new, empty directory. */
    constructor ()
      ensures files == [] && !removed
    {
      files := [];
      removed := false;
    }

    /** The directory as one extractor call left it. */
    method Receive(left: seq<FileEntry>)
      modifies this
      ensures files == left && removed == old(removed)
    {
      files := left;
    }

    /** `shutil.rmtree(temp_dir)`, after unlinking the served file. */
    method Remove()
      modifies this
      ensures files == [] && removed
    {
      files := [];
      removed := true;
    }
  }

  /** One pass of the inner loop body against the directory. */
  method AttemptStream(dir: ScratchDir, req: Request, ex: StreamCall -> StreamReply, i: nat, j: nat)
    returns (a: StreamAttempt)
    requires i < |req.personas| && j < |req.selectors|
    modifies dir
    ensures a == TryStream(req, ex, i, j, old(dir.files))
    ensures dir.files == a.files && dir.removed == old(dir.removed)
  {
    var c0 := StreamCallAt(req, i, j, false, dir.files);
    var r0 := ex(c0);
    dir.Receive(r0.left);
    if r0.failure.None? {
      if dir.files != [] {
        return StreamAttempt(i, j, [c0], dir.files, Done);
      }
      return StreamAttempt(i, j, [c0], dir.files, NextSelector);
    }
    var msg := r0.failure.value;
    if IsFormatError(msg) {
      return StreamAttempt(i, j, [c0], dir.files, NextSelector);
    }
    if IsMergeError(msg) {
      var c1 := StreamCallAt(req, i, j, true, dir.files);
      var r1 := ex(c1);
      dir.Receive(r1.left);
      if r1.failure.None? && dir.files != [] {
        return StreamAttempt(i, j, [c0, c1], dir.files, Done);
      }
      return StreamAttempt(i, j, [c0, c1], dir.files, NextPersona);
    }
    return StreamAttempt(i, j, [c0], dir.files, NextPersona);
  }

  /** `t` makes the passes of the request inside the persona x selector
      space. */
  ghost predicate Implements(t: PassFn, req: Request, ex: StreamCall -> StreamReply)
  {
    forall p: Pos, f: seq<FileEntry> {:trigger TryStream(req, ex, p.0, p.1, f)} ::
      p.0 < |req.personas| && p.1 < |req.selectors| ==> t(p, f) == TryStream(req, ex, p.0, p.1, f)
  }

  lemma AttemptFnImplements(req: Request, ex: StreamCall -> StreamReply)
    ensures Implements(AttemptFn(req, ex), req, ex)
  {
  }

  /** One pass of the inner loop body with the walk's bookkeeping: the
      whole request is to make the passes `total`, of which `runs0` are
      made and the directory holds what they left. */
  method Pass(dir: ScratchDir, req: Request, ex: StreamCall -> StreamReply, i: nat, j: nat,
              ghost t: PassFn, ghost total: seq<StreamAttempt>, ghost runs0: seq<StreamAttempt>)
    returns (step: Step, ghost runs: seq<StreamAttempt>)
    requires i < |req.personas| && j < |req.selectors| && Implements(t, req, ex)
    requires total == runs0 + Passes(|req.personas|, |req.selectors|, t, (i, j), dir.files)
    modifies dir
    ensures dir.removed == old(dir.removed) && dir.files == LastFiles(runs, [])
    ensures runs != [] && runs[|runs| - 1].step == step
    ensures step == Done ==> total == runs && dir.files != []
    ensures step != Done ==>
      total == runs + Passes(|req.personas|, |req.selectors|, t, Advance(|req.selectors|, step, (i, j)), dir.files)
  {
    ghost var before := dir.files;
    var a := AttemptStream(dir, req, ex, i, j);
    assert a == t((i, j), before);
    PassesCons(|req.personas|, |req.selectors|, t, (i, j), before);
    ghost var rest := if a.step == Done then [] else Passes(|req.personas|, |req.selectors|, t, Advance(|req.selectors|, a.step, (i, j)), a.files);
    AppendAssoc(runs0, [a], rest);
    step, runs := a.step, runs0 + [a];
    if step == Done {
      AppendEmpty(runs);
    }
  }

  /** The inner loop over the selectors for persona `i` (app.py:388-502):
      it returns whether a pass delivered a file. */
  method RunPersona(dir: ScratchDir, req: Request, ex: StreamCall -> StreamReply, i: nat,
                    ghost t: PassFn, ghost total: seq<StreamAttempt>, ghost runs0: seq<StreamAttempt>)
    returns (delivered: bool, ghost runs: seq<StreamAttempt>)
    requires i < |req.personas| && Implements(t, req, ex)
    requires total == runs0 + Passes(|req.personas|, |req.selectors|, t, (i, 0), dir.files)
    requires dir.files == LastFiles(runs0, []) && (runs0 == [] || runs0[|runs0| - 1].step != Done)
    modifies dir
    ensures dir.removed == old(dir.removed) && dir.files == LastFiles(runs, [])
    ensures delivered ==> total == runs && runs != [] && runs[|runs| - 1].step == Done && dir.files != []
    ensures !delivered ==>
      total == runs + Passes(|req.personas|, |req.selectors|, t, (i + 1, 0), dir.files) &&
      (runs == [] || runs[|runs| - 1].step != Done)
  {
    var ns := |req.selectors|;
    runs := runs0;
    var j: nat := 0;
    while j < ns
      invariant j <= ns && dir.removed == old(dir.removed)
      invariant total == runs + Passes(|req.personas|, ns, t, Start(ns, i, j), dir.files)
      invariant dir.files == LastFiles(runs, []) && (runs == [] || runs[|runs| - 1].step != Done)
    {
      var step;
      step, runs := Pass(dir, req, ex, i, j, t, total, runs);
      if step == Done {
        return true, runs;
      }
      AdvanceCases(ns, step, i, j);
      if step == NextPersona {
        return false, runs;
      }
      j := j + 1;
    }
    delivered := false;
  }

  /** The outer loop over the personas (app.py:388-502): it makes the
      passes `t` makes, in order, stopping at the one that delivered a
      file. */
  method RunPersonas(dir: ScratchDir, req: Request, ex: StreamCall -> StreamReply,
                     ghost t: PassFn, ghost total: seq<StreamAttempt>)
    returns (delivered: bool)
    requires Implements(t, req, ex) && dir.files == [] && !dir.removed
    requires total == Passes(|req.personas|, |req.selectors|, t, (0, 0), [])
    modifies dir
    ensures !dir.removed && dir.files == LastFiles(total, [])
    ensures delivered <==> total != [] && total[|total| - 1].step == Done
    ensures delivered ==> dir.files != []
  {
    ghost var runs := [];
    var i: nat := 0;
    while i < |req.personas|
      invariant i <= |req.personas| && !dir.removed
      invariant total == runs + Passes(|req.personas|, |req.selectors|, t, (i, 0), dir.files)
      invariant dir.files == LastFiles(runs, []) && (runs == [] || runs[|runs| - 1].step != Done)
    {
      delivered, runs := RunPersona(dir, req, ex, i, t, total, runs);
      if delivered {
        return;
      }
      i := i + 1;
    }
    AppendEmpty(runs);
    delivered := false;
  }

  /** The loops of `download()` and what follows them (app.py:388-507),
      for the passes `t` makes, against a fresh scratch directory. */
  method RunPasses(req: Request, ex: StreamCall -> StreamReply, ghost t: PassFn) returns (resp: Response, dir: ScratchDir)
    requires Implements(t, req, ex)
    ensures var R := Passes(|req.personas|, |req.selectors|, t, (0, 0), []);
      fresh(dir) && resp == RouteResult(R) &&
      (resp.Stream? ==> !dir.removed && dir.files == LastFiles(R, [])) &&
      (resp.JsonError? ==> dir.removed && dir.files == [])
  {
    dir := new ScratchDir();
    ghost var total := Passes(|req.personas|, |req.selectors|, t, (0, 0), []);
    var delivered := RunPersonas(dir, req, ex, t, total);
    if delivered {
      resp := Deliver(dir.files[0]);
      return;
    }
    dir.Remove();
    resp := JsonError(500, FailedText);
  }

  /** The loops of `download()` and what follows them: either the answer
      with the first file of the scratch directory, leaving the directory
      for the stream to clean up, or the directory removed and the 500
      answer. */
  method RunRequest(req: Request, ex: StreamCall -> StreamReply) returns (resp: Response, dir: ScratchDir)
    ensures fresh(dir) && resp == RouteResult(StreamRuns(req, ex))
    ensures resp.Stream? ==> !dir.removed && dir.files == LastFiles(StreamRuns(req, ex), [])
    ensures resp.JsonError? ==> dir.removed && dir.files == []
  {
    AttemptFnImplements(req, ex);
    resp, dir := RunPasses(req, ex, AttemptFn(req, ex));
  }

  /** `download()` up to the response (app.py:336-507): a missing, `null`
      or empty URL is refused with 400 before any directory is made;
      otherwise the loops run against a fresh scratch directory.
      `hasCookies` is whether cookies.txt exists. */
  method DownloadRoute(url: Field<string>, formatType: Field<string>, quality: Field<string>,
                       hasCookies: bool, ex: StreamCall -> StreamReply)
    returns (resp: Response, dir: ScratchDir?)
    ensures dir == null <==> !url.Present? || url.value == []
    ensures dir == null ==> resp == JsonError(400, "URL is required")
    ensures dir != null ==>
      var R := StreamRuns(RouteRequest(formatType, quality, hasCookies), ex);
      fresh(dir) && resp == RouteResult(R) &&
      (resp.Stream? ==> !dir.removed && dir.files == LastFiles(R, [])) &&
      (resp.JsonError? ==> dir.removed && dir.files == [])
  {
    if !url.Present? || url.value == [] {
      return JsonError(400, "URL is required"), null;
    }
    resp, dir := RunRequest(RouteRequest(formatType, quality, hasCookies), ex);
  }

  /** The response body generator (app.py:427-441): the served file in
      chunks of 8192 bytes, then, when the stream ends or is closed, the
      file and the whole directory removed. */
  method Generate(dir: ScratchDir, file: FileEntry) returns (chunks: seq<seq<bv8>>)
    modifies dir
    ensures chunks == Chunks(file.content) && Flatten(chunks) == file.content
    ensures dir.files == [] && dir.removed
  {
    chunks := ReadChunks(file.content);
    ChunksReassemble(file.content);
    dir.Remove();
  }
}
