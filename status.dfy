/** The download status tracker of `download_video` (app.py:165-187,
    310-320, 520-524): the `download_status` dictionary, its entries, the
    transitions the progress hook makes, and the key an entry is filed under. */
module Status {
  import opened Text
  import opened Splitting

  /** The `'status'` field of an entry. */
  datatype State = Downloading | Completed | Error

  /** One value of `download_status`. Progress is kept as an exact rational,
      without the rounding to two decimals of app.py:183; a `filename` of
      `None` (JSON `null`) is `None`. */
  datatype Entry = Entry(state: State, progress: real, filename: Option<string>, error: Option<string>)

  /** The dictionary the extractor hands to the progress hook. */
  datatype HookEvent = HookEvent(
    status: string,
    totalBytes: Field<nat>,
    totalBytesEstimate: Field<nat>,
    downloadedBytes: Field<nat>,
    filename: Field<string>)

  /** The entry a new download starts with (app.py:170-175). */
  function InitialEntry(): Entry
  {
    Entry(Downloading, 0.0, Some(""), None)
  }

  /** `d.get('total_bytes') or d.get('total_bytes_estimate', 0)`: a missing,
      `None` or zero total falls back to the estimate, which reads as 0
      when it is missing and as `None` when it is `None`. */
  function TotalBytes(ev: HookEvent): (t: Option<nat>)
    ensures ev.totalBytes.Present? && ev.totalBytes.value != 0 ==> t == Some(ev.totalBytes.value)
    ensures !(ev.totalBytes.Present? && ev.totalBytes.value != 0) ==>
      (t.None? <==> ev.totalBytesEstimate.Null?) &&
      (ev.totalBytesEstimate.Absent? ==> t == Some(0)) &&
      (ev.totalBytesEstimate.Present? ==> t == Some(ev.totalBytesEstimate.value))
  {
    if ev.totalBytes.Present? && ev.totalBytes.value != 0 then Some(ev.totalBytes.value)
    else ev.totalBytesEstimate.Get(0)
  }

  /** The `TypeError` texts of `None > 0` and `None / total`. */
  const CompareNoneText := "'>' not supported between instances of 'NoneType' and 'int'"
  const DivideNoneText := "unsupported operand type(s) for /: 'NoneType' and 'int'"

  /** The exception the hook raises on an event, if any (app.py:179-182):
      a `downloading` event whose total reads as `None` fails the
      comparison with 0, and one with a positive total whose
      `downloaded_bytes` is `None` fails the division. */
  function HookFailure(ev: HookEvent): (r: Option<string>)
    ensures r.Some? <==>
      ev.status == "downloading" &&
      (((ev.totalBytes.Absent? || ev.totalBytes.Null? || ev.totalBytes == Present(0)) && ev.totalBytesEstimate.Null?) ||
       (TotalBytes(ev).Some? && TotalBytes(ev).value > 0 && ev.downloadedBytes.Null?))
    ensures r == Some(CompareNoneText) <==> ev.status == "downloading" && TotalBytes(ev).None?
    ensures r.Some? ==> r == Some(CompareNoneText) || r == Some(DivideNoneText)
  {
    if ev.status != "downloading" then None
    else match TotalBytes(ev)
      case None => Some(CompareNoneText)
      case Some(total) => if total > 0 && ev.downloadedBytes.Null? then Some(DivideNoneText) else None
  }

  /** What one call of `progress_hook` does to the entry (app.py:177-187). */
  function ApplyHook(e: Entry, ev: HookEvent): Entry
  {
    if ev.status == "downloading" then
      match (TotalBytes(ev), ev.downloadedBytes.Get(0))
      case (Some(total), Some(done)) =>
        if total > 0 then e.(progress := (done as real / total as real) * 100.0) else e
      case _ => e
    else if ev.status == "finished" then
      e.(progress := 100.0, state := Completed, filename := ev.filename.Get(""))
    else e
  }

  /** A call that raises does so before it assigns anything; no call
      touches the error field, and only a `finished` event changes the
      state or the file name. */
  lemma HookEffect(e: Entry, ev: HookEvent)
    ensures HookFailure(ev).Some? ==> ApplyHook(e, ev) == e
    ensures ApplyHook(e, ev).error == e.error
    ensures ev.status != "finished" ==> ApplyHook(e, ev).state == e.state && ApplyHook(e, ev).filename == e.filename
  {
  }

  /** The position of the first event of a run on which the hook raises. */
  function FirstRaising(evs: seq<HookEvent>): (k: Option<nat>)
    ensures k.None? <==> forall i :: 0 <= i < |evs| ==> HookFailure(evs[i]).None?
    ensures k.Some? ==>
      k.value < |evs| && HookFailure(evs[k.value]).Some? &&
      forall i :: 0 <= i < k.value ==> HookFailure(evs[i]).None?
    decreases |evs|
  {
    if evs == [] then None
    else if HookFailure(evs[0]).Some? then Some(0)
    else match FirstRaising(evs[1..])
      case None => None
      case Some(k) => Some(k + 1)
  }

  /** The hook calls of a run, in the order the extractor made them. */
  function ApplyHooks(e: Entry, evs: seq<HookEvent>): Entry
    decreases |evs|
  {
    if evs == [] then e else ApplyHook(ApplyHooks(e, evs[..|evs| - 1]), evs[|evs| - 1])
  }

  lemma {:induction false} ApplyHooksAppend(e: Entry, a: seq<HookEvent>, b: seq<HookEvent>)
    ensures ApplyHooks(e, a + b) == ApplyHooks(ApplyHooks(e, a), b)
    decreases |b|
  {
    if b == [] {
      assert a + b == a;
    } else {
      var b' := b[..|b| - 1];
      ApplyHooksAppend(e, a, b');
      assert (a + b)[..|a + b| - 1] == a + b';
      assert (a + b)[|a + b| - 1] == b[|b| - 1];
    }
  }

  /** The hook never touches the `'error'` field, and the state either stays
      as it was or becomes `completed`. */
  lemma {:induction false} HooksKeepErrorAndOnlyComplete(e: Entry, evs: seq<HookEvent>)
    ensures ApplyHooks(e, evs).error == e.error
    ensures ApplyHooks(e, evs).state == e.state || ApplyHooks(e, evs).state == Completed
    decreases |evs|
  {
    if evs != [] {
      HooksKeepErrorAndOnlyComplete(e, evs[..|evs| - 1]);
    }
  }

  /** Starting from a fresh entry, the hooks leave the state `completed`
      exactly when one of them reported `'finished'`, and otherwise
      `downloading`. */
  lemma {:induction false} CompletedIffFinished(evs: seq<HookEvent>)
    ensures ApplyHooks(InitialEntry(), evs).state == Completed <==>
      exists i :: 0 <= i < |evs| && evs[i].status == "finished"
    ensures ApplyHooks(InitialEntry(), evs).state != Error
    decreases |evs|
  {
    if evs != [] {
      var init := evs[..|evs| - 1];
      CompletedIffFinished(init);
      if exists i :: 0 <= i < |init| && init[i].status == "finished" {
        var i :| 0 <= i < |init| && init[i].status == "finished";
        assert evs[i] == init[i];
      }
      if i :| 0 <= i < |evs| && evs[i].status == "finished" {
        if i < |init| {
          assert init[i] == evs[i];
        }
      }
    }
  }

  /** A `'finished'` call as the last hook leaves progress 100, state
      `completed` and the reported file name. */
  lemma FinishedIsLast(e: Entry, evs: seq<HookEvent>, ev: HookEvent)
    requires ev.status == "finished"
    ensures var r := ApplyHooks(e, evs + [ev]);
      r.progress == 100.0 && r.state == Completed && r.filename == ev.filename.Get("")
  {
    assert (evs + [ev])[..|evs|] == evs;
  }

  /** The extractor reports no more bytes downloaded than the total. */
  predicate WithinTotal(ev: HookEvent)
  {
    ev.status == "downloading" && TotalBytes(ev).Some? && ev.downloadedBytes.Get(0).Some? ==>
      ev.downloadedBytes.Get(0).value <= TotalBytes(ev).value
  }

  /** While the extractor never reports more than the total, progress stays
      between 0 and 100. */
  lemma {:induction false} ProgressInRange(e: Entry, evs: seq<HookEvent>)
    requires 0.0 <= e.progress <= 100.0
    requires forall i :: 0 <= i < |evs| ==> WithinTotal(evs[i])
    ensures 0.0 <= ApplyHooks(e, evs).progress <= 100.0
    decreases |evs|
  {
    if evs != [] {
      var init := evs[..|evs| - 1];
      var ev := evs[|evs| - 1];
      assert forall i :: 0 <= i < |init| ==> init[i] == evs[i];
      ProgressInRange(e, init);
      assert WithinTotal(ev);
      if ev.status == "downloading" && TotalBytes(ev).Some? && TotalBytes(ev).value > 0 &&
         ev.downloadedBytes.Get(0).Some? {
        RatioInRange(ev.downloadedBytes.Get(0).value, TotalBytes(ev).value);
      }
    }
  }

  lemma RatioInRange(d: nat, t: nat)
    requires 0 < t && d <= t
    ensures 0.0 <= (d as real / t as real) * 100.0 <= 100.0
  {
    var q := d as real / t as real;
    assert q * (t as real) == d as real;
    assert 0.0 <= q <= 1.0;
  }

  const WatchMarker := "watch?v="

  /** The video id of app.py:167: the text after the last `watch?v=` up to
      the first `&`, or `video` for a URL without `watch?v=`. */
  function VideoId(url: string): string
  {
    if Contains(url, WatchMarker) then
      var pieces := Split(url, WatchMarker);
      Split(pieces[|pieces| - 1], "&")[0]
    else "video"
  }

  /** The id is the start of what follows the last `watch?v=`, cut at the
      first `&`, and never contains `&`. */
  lemma VideoIdShape(url: string)
    ensures !Contains(url, WatchMarker) ==> VideoId(url) == "video"
    ensures Contains(url, WatchMarker) ==>
      var pieces := Split(url, WatchMarker);
      var rest := pieces[|pieces| - 1];
      |pieces| >= 2 &&
      url == Join(pieces[..|pieces| - 1], WatchMarker) + WatchMarker + rest &&
      !Contains(rest, WatchMarker) &&
      (if Contains(rest, "&") then VideoId(url) + "&" <= rest else VideoId(url) == rest) &&
      !Contains(VideoId(url), "&")
  {
    if Contains(url, WatchMarker) {
      SplitLast(url, WatchMarker);
      var pieces := Split(url, WatchMarker);
      var rest := pieces[|pieces| - 1];
      SplitFirst(rest, "&");
      SplitPieces(rest, "&");
    }
  }

  /** `f"{video_id}_{int(time.time())}"`, with the clock reading as input. */
  function StatusKey(url: string, now: nat): string
  {
    VideoId(url) + "_" + NatToString(now)
  }

  /** The two parts of a status key. */
  datatype KeyParts = KeyParts(videoId: string, timestamp: nat)

  /** Reads a status key back: the text before its last `_` and the decimal
      timestamp after it. */
  function ParseStatusKey(key: string): Option<KeyParts>
  {
    match LastIndex(key, '_')
    case None => None
    case Some(k) =>
      var digits := key[k + 1..];
      if IsDecimal(digits) then Some(KeyParts(key[..k], DecimalValue(digits))) else None
  }

  /** A status key gives back its video id and its timestamp, even when the
      id itself contains `_`. */
  lemma StatusKeyRoundTrip(url: string, now: nat)
    ensures ParseStatusKey(StatusKey(url, now)) == Some(KeyParts(VideoId(url), now))
  {
    DecimalRoundTrip(now);
    ParseJoined(VideoId(url), NatToString(now));
  }

  lemma ParseJoined(id: string, digits: string)
    requires IsDecimal(digits)
    ensures ParseStatusKey(id + "_" + digits) == Some(KeyParts(id, DecimalValue(digits)))
  {
    var key := id + "_" + digits;
    assert key[|id|] == '_';
    assert forall k :: |id| < k < |key| ==> key[k] == digits[k - |id| - 1];
    assert LastIndex(key, '_') == Some(|id|);
    assert key[|id| + 1..] == digits;
    assert key[..|id|] == id;
  }

  /** Two downloads share a key only when they have the same video id and
      started in the same second. */
  lemma SameKeySameIdAndSecond(url1: string, now1: nat, url2: string, now2: nat)
    requires StatusKey(url1, now1) == StatusKey(url2, now2)
    ensures VideoId(url1) == VideoId(url2) && now1 == now2
  {
    StatusKeyRoundTrip(url1, now1);
    StatusKeyRoundTrip(url2, now2);
  }

  /** The body of a `/api/status/<key>` answer. */
  datatype StatusBody = EntryBody(entry: Entry) | ErrorBody(message: string)

  /** The `download_status` dictionary. */
  class DownloadStatus {
    var entries: map<string, Entry>

    constructor()
      ensures entries == map[]
    {
      entries := map[];
    }

    /** The initial entry of a new download (app.py:170-175); an entry
        already filed under the same key is replaced. */
    method Start(key: string)
      modifies this
      ensures entries == old(entries)[key := InitialEntry()]
    {
      entries := entries[key := InitialEntry()];
    }

    /** One call of the progress hook (app.py:177-187). */
    method Hook(key: string, ev: HookEvent)
      requires key in entries
      modifies this
      ensures entries == old(entries)[key := ApplyHook(old(entries)[key], ev)]
    {
      entries := entries[key := ApplyHook(entries[key], ev)];
    }

    /** The hook calls the extractor makes during one call, in order. */
    method Hooks(key: string, evs: seq<HookEvent>)
      requires key in entries
      modifies this
      ensures entries == old(entries)[key := ApplyHooks(old(entries)[key], evs)]
    {
      ghost var e0 := entries[key];
      for k := 0 to |evs|
        invariant entries == old(entries)[key := ApplyHooks(e0, evs[..k])]
      {
        assert evs[..k + 1][..k] == evs[..k];
        Hook(key, evs[k]);
      }
      assert evs[..|evs|] == evs;
    }

    /** A successful attempt sets the state to `completed` (app.py:268, 280, 291). */
    method MarkCompleted(key: string)
      requires key in entries
      modifies this
      ensures entries == old(entries)[key := old(entries)[key].(state := Completed)]
    {
      entries := entries[key := entries[key].(state := Completed)];
    }

    /** Exhausting every attempt sets the state to `error` and stores the
        summary (app.py:310, 319). */
    method MarkError(key: string, summary: string)
      requires key in entries
      modifies this
      ensures entries == old(entries)[key := old(entries)[key].(state := Error, error := Some(summary))]
    {
      entries := entries[key := entries[key].(state := Error, error := Some(summary))];
    }

    /** `get_status` (app.py:520-524): the entry with code 200, or code 404
        and "Status not found" for an unknown key. */
    method Lookup(key: string) returns (code: nat, body: StatusBody)
      ensures key in entries ==> code == 200 && body == EntryBody(entries[key])
      ensures key !in entries ==> code == 404 && body == ErrorBody("Status not found")
    {
      if key in entries {
        code, body := 200, EntryBody(entries[key]);
      } else {
        code, body := 404, ErrorBody("Status not found");
      }
    }
  }
}
