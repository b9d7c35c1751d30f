/** The pure parts of the browser script (static/script.js): the duration
    display, the checks made on the URL field before a request is sent, and
    the file name taken from the download response's `Content-Disposition`
    header. */
module Client {
  import opened Text
  import opened Delivery

  // ---------------------------------------------------------------------
  // formatDuration (static/script.js:14-23)
  // ---------------------------------------------------------------------

  /** JavaScript's `%` on integers: the remainder takes the sign of the
      dividend. */
  function JsRem(a: int, d: int): int
    requires d > 0
  {
    if a >= 0 then a % d else -((-a) % d)
  }

  /** `n.toString()` for an integer. */
  function IntToString(n: int): string
  {
    if n < 0 then "-" + NatToString(-n) else NatToString(n)
  }

  /** `s.padStart(2, '0')`. */
  function PadStart2(s: string): string
  {
    if |s| == 0 then "00" else if |s| == 1 then "0" + s else s
  }

  /** `formatDuration(seconds)` for an integer number of seconds:
      `Math.floor` of a quotient by a positive constant is Dafny's `/`, and
      `%` is JavaScript's. Hours appear only when there is at least one;
      minutes are padded only when hours are shown. */
  function FormatDuration(seconds: int): string
  {
    var hours := seconds / 3600;
    var minutes := JsRem(seconds, 3600) / 60;
    var secs := JsRem(seconds, 60);
    if hours > 0 then
      IntToString(hours) + ":" + PadStart2(IntToString(minutes)) + ":" + PadStart2(IntToString(secs))
    else
      IntToString(minutes) + ":" + PadStart2(IntToString(secs))
  }

  lemma PadStartIsPad2(n: nat)
    requires n < 60
    ensures PadStart2(IntToString(n)) == Pad2(n)
  {
    if n >= 10 {
      assert NatToString(n) == NatToString(n / 10) + [DigitChar(n % 10)];
      assert |NatToString(n / 10)| == 1;
    }
  }

  /** For a non-negative duration, hours, minutes and seconds add back up
      to it, minutes and seconds stay below 60, and the display is
      `H:MM:SS` when there is an hour and `M:SS` (minutes unpadded)
      otherwise, each field in decimal and the padded ones two digits
      long. */
  lemma FormatDurationShape(seconds: int)
    requires seconds >= 0
    ensures var h, m, s := seconds / 3600, (seconds % 3600) / 60, seconds % 60;
      h * 3600 + m * 60 + s == seconds && 0 <= m < 60 && 0 <= s < 60 &&
      |Pad2(m)| == 2 && |Pad2(s)| == 2 && IsDecimal(NatToString(h)) && IsDecimal(NatToString(m)) &&
      (h > 0 ==> FormatDuration(seconds) == NatToString(h) + ":" + Pad2(m) + ":" + Pad2(s)) &&
      (h == 0 ==> FormatDuration(seconds) == NatToString(m) + ":" + Pad2(s))
  {
    var h, m, s := seconds / 3600, (seconds % 3600) / 60, seconds % 60;
    var r := seconds % 3600;
    assert seconds == h * 3600 + r && 0 <= r < 3600;
    assert r == m * 60 + r % 60;
    assert seconds == (h * 60 + m) * 60 + r % 60;
    assert s == r % 60;
    PadStartIsPad2(m);
    PadStartIsPad2(s);
    DecimalRoundTrip(h);
    DecimalRoundTrip(m);
  }

  /** Reads a displayed duration back: `H:MM:SS` or `M:SS`, with the last
      field two digits long. */
  function ReadDuration(t: string): Option<int>
  {
    if |t| < 4 || t[|t| - 3] != ':' || !IsDecimal(t[|t| - 2..]) then None
    else match ReadClock(t[..|t| - 3])
      case Some(minutes) => Some(minutes * 60 + DecimalValue(t[|t| - 2..]))
      case None => None
  }

  /** The part before the seconds, in minutes: `H:MM` or `M`. */
  function ReadClock(head: string): Option<int>
  {
    match LastIndex(head, ':')
    case None => if IsDecimal(head) then Some(DecimalValue(head)) else None
    case Some(i) =>
      if IsDecimal(head[..i]) && IsDecimal(head[i + 1..]) then
        Some(DecimalValue(head[..i]) * 60 + DecimalValue(head[i + 1..]))
      else None
  }

  lemma NoColonInDecimal(s: string)
    requires IsDecimal(s)
    ensures forall k :: 0 <= k < |s| ==> s[k] != ':'
  {
  }

  /** A two-digit seconds field after a colon is read off the end and
      added to the minutes read before it. */
  lemma ReadTail(head: string, S: string, minutes: int, total: int)
    requires |head| > 0 && IsDecimal(S) && |S| == 2
    requires ReadClock(head) == Some(minutes) && total == minutes * 60 + DecimalValue(S)
    ensures ReadDuration(head + ":" + S) == Some(total)
  {
    var t := head + ":" + S;
    assert t[|t| - 3] == ':' && t[|t| - 2..] == S && t[..|t| - 3] == head;
  }

  lemma ReadClockMinutes(M: string)
    requires IsDecimal(M)
    ensures ReadClock(M) == Some(DecimalValue(M))
  {
    NoColonInDecimal(M);
  }

  lemma ReadClockHours(H: string, M: string)
    requires IsDecimal(H) && IsDecimal(M)
    ensures ReadClock(H + ":" + M) == Some(DecimalValue(H) * 60 + DecimalValue(M))
  {
    var head := H + ":" + M;
    ColonAfter(H, M);
    AroundColon(H, M);
    ReadClockAt(head, |H|);
  }

  lemma ReadClockAt(head: string, i: nat)
    requires LastIndex(head, ':') == Some(i)
    requires IsDecimal(head[..i]) && IsDecimal(head[i + 1..])
    ensures ReadClock(head) == Some(DecimalValue(head[..i]) * 60 + DecimalValue(head[i + 1..]))
  {
  }

  lemma AroundColon(H: string, M: string)
    ensures (H + ":" + M)[..|H|] == H && (H + ":" + M)[|H| + 1..] == M
  {
  }

  /** In `H:M` with `M` decimal, the colon after `H` is the last one. */
  lemma ColonAfter(H: string, M: string)
    requires IsDecimal(M)
    ensures LastIndex(H + ":" + M, ':') == Some(|H|)
  {
    ColonOnlyAt(H, M);
    LastIndexAt(H + ":" + M, ':', |H|);
  }

  lemma ColonOnlyAt(H: string, M: string)
    requires IsDecimal(M)
    ensures var head := H + ":" + M;
      head[|H|] == ':' && forall k :: |H| < k < |head| ==> head[k] != ':'
  {
    var head := H + ":" + M;
    NoColonInDecimal(M);
    forall k | |H| < k < |head|
      ensures head[k] != ':'
    {
      assert head[k] == M[k - |H| - 1];
    }
  }

  /** The display of a non-negative duration reads back to that duration:
      no two durations share a display. */
  lemma FormatDurationReadsBack(seconds: int)
    requires seconds >= 0
    ensures ReadDuration(FormatDuration(seconds)) == Some(seconds)
  {
    FormatDurationShape(seconds);
    var h, m, s := seconds / 3600, (seconds % 3600) / 60, seconds % 60;
    if h > 0 {
      FieldsReadBack(h, m, s, seconds);
    } else {
      FieldsReadBackMinutes(m, s, seconds);
    }
  }

  lemma FieldsReadBack(h: nat, m: nat, s: nat, total: int)
    requires m < 60 && s < 60 && total == h * 3600 + m * 60 + s
    ensures ReadDuration(NatToString(h) + ":" + Pad2(m) + ":" + Pad2(s)) == Some(total)
  {
    DecimalRoundTrip(h);
    ReadsBackHours(NatToString(h), Pad2(m), Pad2(s), h, m, s, total);
  }

  lemma FieldsReadBackMinutes(m: nat, s: nat, total: int)
    requires s < 60 && total == m * 60 + s
    ensures ReadDuration(NatToString(m) + ":" + Pad2(s)) == Some(total)
  {
    DecimalRoundTrip(m);
    ReadsBackMinutes(NatToString(m), Pad2(s), m, s, total);
  }

  lemma ReadsBackHours(H: string, M: string, S: string, h: nat, m: nat, s: nat, total: int)
    requires IsDecimal(H) && IsDecimal(M) && IsDecimal(S) && |S| == 2
    requires DecimalValue(H) == h && DecimalValue(M) == m && DecimalValue(S) == s
    requires total == h * 3600 + m * 60 + s
    ensures ReadDuration(H + ":" + M + ":" + S) == Some(total)
  {
    ReadClockHours(H, M);
    ReadTail(H + ":" + M, S, h * 60 + m, total);
  }

  lemma ReadsBackMinutes(M: string, S: string, m: nat, s: nat, total: int)
    requires IsDecimal(M) && IsDecimal(S) && |S| == 2
    requires DecimalValue(M) == m && DecimalValue(S) == s && total == m * 60 + s
    ensures ReadDuration(M + ":" + S) == Some(total)
  {
    ReadClockMinutes(M);
    ReadTail(M, S, m, total);
  }

  // ---------------------------------------------------------------------
  // URL checks (static/script.js:34-44, 84-91)
  // ---------------------------------------------------------------------

  /** White space and line terminators as `String.prototype.trim` removes
      them. */
  predicate IsJsSpace(c: char)
  {
    var n := c as int;
    n == 0x09 || n == 0x0A || n == 0x0B || n == 0x0C || n == 0x0D || n == 0x20 ||
    n == 0xA0 || n == 0x1680 || (0x2000 <= n <= 0x200A) || n == 0x2028 || n == 0x2029 ||
    n == 0x202F || n == 0x205F || n == 0x3000 || n == 0xFEFF
  }

  function TrimStart(s: string): string
    decreases |s|
  {
    if s != [] && IsJsSpace(s[0]) then TrimStart(s[1..]) else s
  }

  function TrimEnd(s: string): string
    decreases |s|
  {
    if s != [] && IsJsSpace(s[|s| - 1]) then TrimEnd(s[..|s| - 1]) else s
  }

  /** `s.trim()`. */
  function Trim(s: string): string
  {
    TrimEnd(TrimStart(s))
  }

  predicate AllSpace(s: string)
  {
    forall k :: 0 <= k < |s| ==> IsJsSpace(s[k])
  }

  /** Dropping leading white space leaves a suffix that is empty or starts
      with a non-space, and what it dropped is all white space. */
  lemma {:induction false} TrimStartShape(s: string)
    ensures var t := TrimStart(s);
      |t| <= |s| && t == s[|s| - |t|..] && AllSpace(s[..|s| - |t|]) && (t != [] ==> !IsJsSpace(t[0]))
    decreases |s|
  {
    if s != [] && IsJsSpace(s[0]) {
      TrimStartShape(s[1..]);
      var t := TrimStart(s);
      assert s[1..][|s| - 1 - |t|..] == s[|s| - |t|..];
      forall k | 0 <= k < |s| - |t|
        ensures IsJsSpace(s[k])
      {
        if k > 0 {
          assert s[k] == s[1..][..|s| - 1 - |t|][k - 1];
        }
      }
    }
  }

  /** Dropping trailing white space leaves a prefix that is empty or ends
      with a non-space, and what it dropped is all white space. */
  lemma {:induction false} TrimEndShape(s: string)
    ensures var t := TrimEnd(s);
      |t| <= |s| && t == s[..|t|] && AllSpace(s[|t|..]) && (t != [] ==> !IsJsSpace(t[|t| - 1]))
    decreases |s|
  {
    if s != [] && IsJsSpace(s[|s| - 1]) {
      var s' := s[..|s| - 1];
      TrimEndShape(s');
      var t := TrimEnd(s);
      assert s'[..|t|] == s[..|t|];
      forall k | |t| <= k < |s|
        ensures IsJsSpace(s[k])
      {
        if k < |s| - 1 {
          assert s[k] == s'[|t|..][k - |t|];
        }
      }
    }
  }

  /** The trimmed text is a slice of the input with only white space
      around it, and it neither starts nor ends with white space; it is
      empty exactly when the input is all white space. */
  lemma TrimShape(s: string)
    ensures var t := Trim(s);
      (exists i :: 0 <= i <= |s| - |t| && t == s[i..i + |t|] &&
                   AllSpace(s[..i]) && AllSpace(s[i + |t|..])) &&
      (t != [] ==> !IsJsSpace(t[0]) && !IsJsSpace(t[|t| - 1])) &&
      (t == [] <==> AllSpace(s))
  {
    var u := TrimStart(s);
    var t := Trim(s);
    TrimStartShape(s);
    TrimEndShape(u);
    var i := |s| - |u|;
    assert t == s[i..i + |t|];
    assert s[i + |t|..] == u[|t|..];
  }

  /** What a URL check decides: send the trimmed URL, or show a message. */
  datatype UrlCheck = Proceed(url: string) | Rejected(message: string)

  const EmptyUrlText := "Please enter a YouTube URL"
  const InvalidUrlText := "Please enter a valid YouTube URL"

  /** `getVideoInfo`'s check (static/script.js:34-44): an empty trimmed URL
      is refused, and so is one that mentions neither YouTube domain. */
  function CheckInfoUrl(input: string): UrlCheck
  {
    var url := Trim(input);
    if url == [] then Rejected(EmptyUrlText)
    else if !Contains(url, "youtube.com") && !Contains(url, "youtu.be") then Rejected(InvalidUrlText)
    else Proceed(url)
  }

  /** `startDownload`'s check (static/script.js:84-91): only an empty
      trimmed URL is refused. */
  function CheckDownloadUrl(input: string): UrlCheck
  {
    var url := Trim(input);
    if url == [] then Rejected(EmptyUrlText) else Proceed(url)
  }

  lemma UrlTextsDiffer()
    ensures EmptyUrlText != InvalidUrlText
  {
    assert |EmptyUrlText| == 26 && |InvalidUrlText| == 32;
  }

  /** The info check sends the trimmed URL exactly when the input is not all
      white space and mentions one of the two domains; it refuses the input
      as empty exactly when it is all white space, and as invalid exactly
      when it is not but mentions neither domain. */
  lemma InfoUrlCheck(input: string)
    ensures var r := CheckInfoUrl(input);
      var url := Trim(input);
      (r.Proceed? <==> !AllSpace(input) && (Contains(url, "youtube.com") || Contains(url, "youtu.be"))) &&
      (r.Proceed? ==> r.url == url && !IsJsSpace(r.url[0]) && !IsJsSpace(r.url[|r.url| - 1])) &&
      (r == Rejected(EmptyUrlText) <==> AllSpace(input)) &&
      (r == Rejected(InvalidUrlText) <==>
         !AllSpace(input) && !Contains(url, "youtube.com") && !Contains(url, "youtu.be"))
  {
    TrimShape(input);
    UrlTextsDiffer();
  }

  /** The download check sends the trimmed URL exactly when the input is not
      all white space; it accepts every URL the info check accepts, and
      more: it makes no domain check. */
  lemma DownloadUrlCheck(input: string)
    ensures var r := CheckDownloadUrl(input);
      (r.Proceed? <==> !AllSpace(input)) &&
      (r.Proceed? ==> r.url == Trim(input) && r.url != []) &&
      (!r.Proceed? ==> r == Rejected(EmptyUrlText)) &&
      (CheckInfoUrl(input).Proceed? ==> r == CheckInfoUrl(input))
  {
    TrimShape(input);
  }

  /** Every input that is not all white space and mentions neither YouTube
      domain is sent by the download check and refused as invalid by the
      info check; `x` is one. */
  lemma DownloadCheckIsLaxer(input: string)
    ensures !AllSpace(input) && !Contains(Trim(input), "youtube.com") && !Contains(Trim(input), "youtu.be") ==>
      CheckDownloadUrl(input) == Proceed(Trim(input)) && CheckInfoUrl(input) == Rejected(InvalidUrlText)
    ensures CheckDownloadUrl("x") == Proceed("x") && CheckInfoUrl("x") == Rejected(InvalidUrlText)
  {
    InfoUrlCheck(input);
    DownloadUrlCheck(input);
    assert Trim("x") == "x";
  }

  // ---------------------------------------------------------------------
  // The file name from Content-Disposition (static/script.js:116-123)
  // ---------------------------------------------------------------------

  /** The characters JavaScript's regex `.` does not match. */
  predicate IsLineTerminator(c: char)
  {
    c == '\n' || c == '\r' || c as int == 0x2028 || c as int == 0x2029
  }

  /** The end of the line that starts at `b`: the first line terminator at
      or after `b`, or the end of the text. */
  function LineEnd(h: string, b: nat): (e: nat)
    requires b <= |h|
    ensures b <= e <= |h|
    ensures forall k :: b <= k < e ==> !IsLineTerminator(h[k])
    ensures e < |h| ==> IsLineTerminator(h[e])
    decreases |h| - b
  {
    if b == |h| || IsLineTerminator(h[b]) then b else LineEnd(h, b + 1)
  }

  /** The last `"` after position `b` and before `e`, not at `b` itself. */
  function LastQuoteBefore(h: string, b: nat, e: nat): (q: Option<nat>)
    requires b <= e <= |h|
    ensures q.Some? ==> b < q.value < e && h[q.value] == '"' &&
                        forall k :: q.value < k < e ==> h[k] != '"'
    ensures q.None? ==> forall k :: b < k < e ==> h[k] != '"'
    decreases e
  {
    if e <= b + 1 then None
    else if h[e - 1] == '"' then Some(e - 1)
    else LastQuoteBefore(h, b, e - 1)
  }

  /** `/filename="(.+)"/` tried at each start position from `i` on: the
      first position where `filename="` starts and is followed, on the same
      line, by at least one character and a `"`; the capture runs to the
      last such `"` of that line (the `+` is greedy). */
  function MatchFrom(h: string, i: nat): Option<string>
    decreases |h| - i
  {
    if i + |FilenameParam| > |h| then None
    else if h[i..i + |FilenameParam|] == FilenameParam then
      var b := i + |FilenameParam|;
      match LastQuoteBefore(h, b, LineEnd(h, b))
      case Some(q) => Some(h[b..q])
      case None => MatchFrom(h, i + 1)
    else MatchFrom(h, i + 1)
  }

  const DefaultFilename := "video.mp4"

  /** The name the download is saved under: the capture when the header is
      there, non-empty and matches, `video.mp4` otherwise. */
  function ParseFilename(header: Option<string>): string
  {
    match header
    case None => DefaultFilename
    case Some(h) =>
      if h == [] then DefaultFilename
      else match MatchFrom(h, 0)
        case Some(n) => n
        case None => DefaultFilename
  }

  /** `n` is captured right after position `b`: it is non-empty, on one
      line, followed by a `"`, and no later `"` sits on that line. */
  predicate Captured(h: string, b: nat, n: string)
  {
    b + |n| < |h| && h[b..b + |n|] == n && h[b + |n|] == '"' && n != [] &&
    (forall k :: 0 <= k < |n| ==> !IsLineTerminator(n[k])) &&
    forall k :: b + |n| < k < LineEnd(h, b) ==> h[k] != '"'
  }

  /** A capture after position `b` is made when the line holds a closing
      quote. */
  predicate QuoteOnLine(h: string, b: nat)
    requires b <= |h|
  {
    LastQuoteBefore(h, b, LineEnd(h, b)).Some?
  }

  /** A match found from `i` on is a capture right after an occurrence of
      `filename="` at or after `i`, and no earlier occurrence from `i` on
      has a closing quote on its line. */
  lemma {:induction false} MatchFromFound(h: string, i: nat)
    requires MatchFrom(h, i).Some?
    ensures exists j :: (i <= j && OccursAt(h, FilenameParam, j) &&
      Captured(h, j + |FilenameParam|, MatchFrom(h, i).value) &&
      forall j' :: i <= j' < j && OccursAt(h, FilenameParam, j') ==> !QuoteOnLine(h, j' + |FilenameParam|))
    decreases |h| - i
  {
    var K := FilenameParam;
    var b := i + |K|;
    if b > |h| {
      assert false;
    } else if h[i..b] == K && QuoteOnLine(h, b) {
      var q := LastQuoteBefore(h, b, LineEnd(h, b)).value;
      var n := h[b..q];
      assert MatchFrom(h, i).value == n;
      assert forall k :: 0 <= k < |n| ==> n[k] == h[b + k];
      assert Captured(h, b, n);
      assert OccursAt(h, K, i);
    } else {
      MatchFromFound(h, i + 1);
      assert !OccursAt(h, K, i) || !QuoteOnLine(h, b);
    }
  }

  /** No match from `i` on means no occurrence of `filename="` at or after
      `i` has a closing quote on its line. */
  lemma {:induction false} MatchFromNone(h: string, i: nat)
    requires MatchFrom(h, i).None?
    ensures forall j :: i <= j && OccursAt(h, FilenameParam, j) ==> !QuoteOnLine(h, j + |FilenameParam|)
    decreases |h| - i
  {
    var K := FilenameParam;
    if i + |K| <= |h| {
      MatchFromNone(h, i + 1);
      assert !OccursAt(h, K, i) || !QuoteOnLine(h, i + |K|);
    }
  }

  /** The script falls back to `video.mp4` without a header, with an empty
      one, and with one in which `filename="` never occurs. */
  lemma FilenameDefaults(header: Option<string>)
    requires header.None? || header == Some([]) ||
      forall j :: 0 <= j <= |header.value| ==> !OccursAt(header.value, FilenameParam, j)
    ensures ParseFilename(header) == DefaultFilename
  {
    if header.Some? && header.value != [] && MatchFrom(header.value, 0).Some? {
      MatchFromFound(header.value, 0);
    }
  }

  lemma DispositionLayout(name: string)
    ensures var h := Disposition(name);
      |h| == 23 + |name| && h[12..22] == FilenameParam && h[22..22 + |name|] == name &&
      h[|h| - 1] == '"' && forall j :: 0 <= j < 12 ==> h[j] != 'f'
  {
    var P := "attachment; ";
    assert |P| == 12 && |FilenameParam| == 10;
    assert forall j :: 0 <= j < 12 ==> P[j] != 'f';
    var h := Disposition(name);
    assert h == P + FilenameParam + name + "\"";
    assert forall j :: 0 <= j < 12 ==> h[j] == P[j];
  }

  lemma {:induction false} MatchSkips(h: string, i: nat, j: nat)
    requires i <= j && j + |FilenameParam| <= |h| && FilenameParam[0] == 'f'
    requires forall k :: i <= k < j ==> h[k] != 'f'
    ensures MatchFrom(h, i) == MatchFrom(h, j)
    decreases j - i
  {
    if i < j {
      assert h[i..i + |FilenameParam|][0] == h[i];
      MatchSkips(h, i + 1, j);
    }
  }

  lemma {:induction false} LineEndAtEnd(h: string, b: nat)
    requires b <= |h|
    requires forall k :: b <= k < |h| ==> !IsLineTerminator(h[k])
    ensures LineEnd(h, b) == |h|
    decreases |h| - b
  {
    if b < |h| {
      LineEndAtEnd(h, b + 1);
    }
  }

  /** The script reads back the name the server put in the header, for
      every non-empty name on one line, quotes included: the capture runs to
      the header's closing quote. */
  lemma FilenameRoundTrip(name: string)
    requires name != [] && forall k :: 0 <= k < |name| ==> !IsLineTerminator(name[k])
    ensures ParseFilename(Some(Disposition(name))) == name
  {
    var h := Disposition(name);
    DispositionLayout(name);
    assert FilenameParam[0] == 'f';
    MatchSkips(h, 0, 12);
    assert forall k :: 22 <= k < |h| ==> !IsLineTerminator(h[k]) by {
      forall k | 22 <= k < |h|
        ensures !IsLineTerminator(h[k])
      {
        if k < |h| - 1 {
          assert h[k] == name[k - 22];
        }
      }
    }
    LineEndAtEnd(h, 22);
    assert h[22..|h| - 1] == name;
  }
}
