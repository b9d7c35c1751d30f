/** Error classification by substring matching on the extractor's messages,
    and the two failure summaries built when every attempt failed
    (app.py:101, 137-163, 274-317). Each summary has a decoder that reads
    back the choices it encodes, so the text is proved unambiguous. */
module ErrorText {
  import opened Text

  /** The selector asked for a format the video does not offer (app.py:101, 296, 304, 459). */
  predicate IsFormatError(msg: string)
  {
    Contains(msg, "format is not available") || Contains(msg, "Requested format")
  }

  /** Merging separate streams needed ffmpeg (app.py:274, 461). */
  predicate IsMergeError(msg: string)
  {
    Contains(Lower(msg), "ffmpeg") && Contains(Lower(msg), "merging")
  }

  /** Only storyboard images were offered (app.py:285). */
  predicate IsPreviewOnlyError(msg: string)
  {
    Contains(msg, "Only images are available") || Contains(Lower(msg), "storyboard")
  }

  /** Bot detection or a sign-in wall (app.py:140, 312). */
  predicate IsBotError(e: string)
  {
    Contains(Lower(e), "bot") || Contains(e, "Sign in")
  }

  /** app.py:141 */
  predicate IsUnavailableError(e: string)
  {
    Contains(Lower(e), "not available") || Contains(Lower(e), "unavailable")
  }

  /** app.py:142 */
  predicate IsPrivateError(e: string)
  {
    Contains(Lower(e), "private") || Contains(Lower(e), "unlisted")
  }

  /** Python's `any(P(e) for e in errors)`, scanning left to right. */
  predicate Any(errors: seq<string>, P: string -> bool)
    decreases |errors|
  {
    errors != [] && (P(errors[0]) || Any(errors[1..], P))
  }

  lemma {:induction false} AnyIffExists(errors: seq<string>, P: string -> bool)
    ensures Any(errors, P) <==> exists i :: 0 <= i < |errors| && P(errors[i])
    decreases |errors|
  {
    if errors != [] {
      AnyIffExists(errors[1..], P);
      if Any(errors[1..], P) {
        var i :| 0 <= i < |errors[1..]| && P(errors[1..][i]);
        assert P(errors[i + 1]);
      }
      if i :| 0 <= i < |errors| && P(errors[i]) {
        if i > 0 { assert P(errors[1..][i - 1]); }
      }
    }
  }

  /** The access problem the metadata summary names; the checks are an
      if/elif chain, so the first that holds wins (app.py:144-149). */
  datatype Reason = Blocked | Unavailable | Private | Unspecified

  function MetadataReason(errors: seq<string>): Reason
  {
    if Any(errors, IsBotError) then Blocked
    else if Any(errors, IsUnavailableError) then Unavailable
    else if Any(errors, IsPrivateError) then Private
    else Unspecified
  }

  /** Each reason is named exactly when some error shows it and no error
      shows a reason that comes earlier in the chain. */
  lemma MetadataReasonPrecedence(errors: seq<string>)
    ensures MetadataReason(errors) == Blocked <==>
      exists i :: 0 <= i < |errors| && IsBotError(errors[i])
    ensures MetadataReason(errors) == Unavailable <==>
      (forall i :: 0 <= i < |errors| ==> !IsBotError(errors[i])) &&
      (exists i :: 0 <= i < |errors| && IsUnavailableError(errors[i]))
    ensures MetadataReason(errors) == Private <==>
      (forall i :: 0 <= i < |errors| ==> !IsBotError(errors[i]) && !IsUnavailableError(errors[i])) &&
      (exists i :: 0 <= i < |errors| && IsPrivateError(errors[i]))
    ensures MetadataReason(errors) == Unspecified <==>
      forall i :: 0 <= i < |errors| ==>
        !IsBotError(errors[i]) && !IsUnavailableError(errors[i]) && !IsPrivateError(errors[i])
  {
    AnyIffExists(errors, IsBotError);
    AnyIffExists(errors, IsUnavailableError);
    AnyIffExists(errors, IsPrivateError);
  }

  const AccessHead := "Failed to access video. "
  const DownloadHead := "Failed to download video. "
  const BlockedText := "YouTube is blocking automated requests. "
  const UnavailableText := "Video may be unavailable or restricted. "
  const PrivateText := "Video may be private or unlisted. "
  // The cookie advices are written with their first word split off: the
  // verifier then knows their first characters, where the summary decoders
  // tell them apart, without unrolling the whole literal.
  const CookiesRequired := "COOKIES " + "REQUIRED: Please export cookies from your browser (use extension like \"Get cookies.txt LOCALLY\") and save as cookies.txt in the project directory. This is essential for accessing YouTube videos."
  const AccessCookiesPresent := "Cookies " + "are present but access is still blocked. The video may be region-restricted, age-restricted, or YouTube may be rate-limiting. Try: 1) Refreshing cookies, 2) Waiting a few minutes, 3) Checking if the video is accessible in your browser."
  const DownloadCookiesPresent := "Even " + "with cookies, YouTube may be blocking access. Try updating yt-dlp: pip install -U yt-dlp"
  const ErrorLabel := " Error: "

  function ReasonText(r: Reason): string
  {
    match r
    case Blocked => BlockedText
    case Unavailable => UnavailableText
    case Private => PrivateText
    case Unspecified => ""
  }

  /** The diagnostic excerpt of an error: its first 100 characters, with
      "..." appended when something was cut off (app.py:158-160). */
  function Excerpt(e: string): (r: string)
    ensures |e| <= 100 ==> r == e
    ensures |e| > 100 ==> |r| == 103 && r[..100] == e[..100] && r[100..] == "..."
  {
    if |e| > 100 then e[..100] + "..." else e
  }

  /** The error text of `get_video_info` when every persona failed (app.py:137-163). */
  function MetadataSummary(errors: seq<string>, hasCookies: bool): string
  {
    AccessHead + ReasonText(MetadataReason(errors))
      + (if hasCookies then AccessCookiesPresent else CookiesRequired)
      + (if errors == [] then "" else ErrorLabel + Excerpt(errors[0]))
  }

  /** The error text `download_video` stores when every attempt failed
      (app.py:311-317): no excerpt and no unavailable/private phrase. */
  function DownloadSummary(errors: seq<string>, hasCookies: bool): string
  {
    DownloadHead + (if Any(errors, IsBotError) then BlockedText else "")
      + (if hasCookies then DownloadCookiesPresent else CookiesRequired)
  }

  /** What a metadata summary says: the reason, whether cookies were
      present, and the excerpt of the first error if there was one. */
  datatype MetadataParts = MetadataParts(reason: Reason, hasCookies: bool, excerpt: Option<string>)

  function DecodeMetadataSummary(s: string): Option<MetadataParts>
  {
    if !(AccessHead <= s) then None
    else
      var s1 := s[|AccessHead|..];
      var reason := DecodeReason(s1);
      DecodeAdviceAndExcerpt(s1[|ReasonText(reason)|..], reason)
  }

  function DecodeReason(s: string): Reason
  {
    if BlockedText <= s then Blocked
    else if UnavailableText <= s then Unavailable
    else if PrivateText <= s then Private
    else Unspecified
  }

  function DecodeAdviceAndExcerpt(s: string, reason: Reason): Option<MetadataParts>
  {
    if AccessCookiesPresent <= s then DecodeExcerpt(s[|AccessCookiesPresent|..], reason, true)
    else if CookiesRequired <= s then DecodeExcerpt(s[|CookiesRequired|..], reason, false)
    else None
  }

  function DecodeExcerpt(s: string, reason: Reason, hasCookies: bool): Option<MetadataParts>
  {
    if s == [] then Some(MetadataParts(reason, hasCookies, None))
    else if ErrorLabel <= s then Some(MetadataParts(reason, hasCookies, Some(s[|ErrorLabel|..])))
    else None
  }

  /** Text `p` is not a prefix of `q + rest` when they differ at position `k`. */
  lemma NotPrefixAt(p: string, q: string, rest: string, k: nat)
    requires k < |p| && k < |q| && p[k] != q[k]
    ensures !(p <= q + rest)
  {
    assert (q + rest)[k] == q[k];
  }

  /** The reason phrase is read back from the front of `ReasonText(reason) + rest`
      when `rest` starts with a cookie advice (both begin with 'C'). */
  lemma DecodeReasonPhrase(reason: Reason, rest: string)
    requires |rest| > 0 && rest[0] == 'C'
    ensures DecodeReason(ReasonText(reason) + rest) == reason
  {
    var s1 := ReasonText(reason) + rest;
    match reason {
      case Blocked =>
        assert BlockedText <= s1;
      case Unavailable =>
        NotPrefixAt(BlockedText, UnavailableText, rest, 0);
        assert UnavailableText <= s1;
      case Private =>
        NotPrefixAt(BlockedText, PrivateText, rest, 0);
        NotPrefixAt(UnavailableText, PrivateText, rest, 13);
        assert PrivateText <= s1;
      case Unspecified =>
        assert s1 == rest;
        NotPrefixAt(BlockedText, rest, [], 0);
        NotPrefixAt(UnavailableText, rest, [], 0);
        NotPrefixAt(PrivateText, rest, [], 0);
        assert rest + [] == rest;
    }
  }

  /** The cookie advice and the excerpt are read back from what follows the reason. */
  lemma DecodeAdvice(reason: Reason, hasCookies: bool, tail: string)
    requires tail == [] || ErrorLabel <= tail
    ensures DecodeAdviceAndExcerpt((if hasCookies then AccessCookiesPresent else CookiesRequired) + tail, reason)
      == Some(MetadataParts(reason, hasCookies, if tail == [] then None else Some(tail[|ErrorLabel|..])))
  {
    var advice := if hasCookies then AccessCookiesPresent else CookiesRequired;
    var s2 := advice + tail;
    assert s2[..|advice|] == advice;
    assert s2[|advice|..] == tail;
    if !hasCookies {
      NotPrefixAt(AccessCookiesPresent, CookiesRequired, tail, 1);
    }
  }

  /** Dropping a prefix gives back what followed it. */
  lemma DropPrefix(p: string, x: string)
    ensures p <= p + x && (p + x)[|p|..] == x
  {
    assert (p + x)[..|p|] == p;
  }

  lemma Regroup(a: string, b: string, c: string, d: string)
    ensures a + b + c + d == a + (b + (c + d))
  {
  }

  /** Decoding a text assembled from the summary's parts gives those parts. */
  lemma DecodeAssembled(reason: Reason, hasCookies: bool, tail: string)
    requires tail == [] || ErrorLabel <= tail
    ensures DecodeMetadataSummary(AccessHead + ReasonText(reason)
                + (if hasCookies then AccessCookiesPresent else CookiesRequired) + tail)
      == Some(MetadataParts(reason, hasCookies, if tail == [] then None else Some(tail[|ErrorLabel|..])))
  {
    var advice := if hasCookies then AccessCookiesPresent else CookiesRequired;
    var r := ReasonText(reason);
    var rest := advice + tail;
    var s1 := r + rest;
    Regroup(AccessHead, r, advice, tail);
    DropPrefix(AccessHead, s1);
    DecodeReasonPhrase(reason, rest);
    DropPrefix(r, rest);
    DecodeAdvice(reason, hasCookies, tail);
  }

  /** Reading a metadata summary back recovers the reason it names, whether
      cookies were present, and the excerpt of the first error. */
  lemma MetadataSummaryDecodes(errors: seq<string>, hasCookies: bool)
    ensures DecodeMetadataSummary(MetadataSummary(errors, hasCookies)) ==
      Some(MetadataParts(MetadataReason(errors), hasCookies,
                         if errors == [] then None else Some(Excerpt(errors[0]))))
  {
    var tail := if errors == [] then "" else ErrorLabel + Excerpt(errors[0]);
    if errors != [] {
      assert tail[..|ErrorLabel|] == ErrorLabel;
      assert tail[|ErrorLabel|..] == Excerpt(errors[0]);
    }
    DecodeAssembled(MetadataReason(errors), hasCookies, tail);
  }

  /** What a download summary says: whether bot blocking was seen, and
      whether cookies were present. */
  datatype DownloadParts = DownloadParts(blocked: bool, hasCookies: bool)

  function DecodeDownloadSummary(s: string): Option<DownloadParts>
  {
    if !(DownloadHead <= s) then None
    else DecodeBlockedAndAdvice(s[|DownloadHead|..])
  }

  function DecodeBlockedAndAdvice(s: string): Option<DownloadParts>
  {
    var blocked := BlockedText <= s;
    var advice := if blocked then s[|BlockedText|..] else s;
    if advice == DownloadCookiesPresent then Some(DownloadParts(blocked, true))
    else if advice == CookiesRequired then Some(DownloadParts(blocked, false))
    else None
  }

  /** The blocking phrase and the cookie advice are read back from what
      follows the head of a download summary. */
  lemma DecodeBlockedAdvice(blocked: bool, hasCookies: bool)
    ensures DecodeBlockedAndAdvice((if blocked then BlockedText else "")
                + (if hasCookies then DownloadCookiesPresent else CookiesRequired))
      == Some(DownloadParts(blocked, hasCookies))
  {
    var advice := if hasCookies then DownloadCookiesPresent else CookiesRequired;
    if blocked {
      DropPrefix(BlockedText, advice);
    } else {
      assert "" + advice == advice;
      NotPrefixAt(BlockedText, advice, "", 0);
      assert advice + "" == advice;
    }
    assert DownloadCookiesPresent[0] != CookiesRequired[0];
  }

  lemma Assoc(a: string, b: string, c: string)
    ensures a + b + c == a + (b + c)
  {
  }

  /** Reading a download summary back recovers whether some error showed
      bot blocking and whether cookies were present. */
  lemma DownloadSummaryDecodes(errors: seq<string>, hasCookies: bool)
    ensures DecodeDownloadSummary(DownloadSummary(errors, hasCookies)) ==
      Some(DownloadParts(exists i :: 0 <= i < |errors| && IsBotError(errors[i]), hasCookies))
  {
    AnyIffExists(errors, IsBotError);
    var blocked := Any(errors, IsBotError);
    var phrase := if blocked then BlockedText else "";
    var advice := if hasCookies then DownloadCookiesPresent else CookiesRequired;
    Assoc(DownloadHead, phrase, advice);
    DropPrefix(DownloadHead, phrase + advice);
    DecodeBlockedAdvice(blocked, hasCookies);
  }

  /** `sub` inside `mid` inside `s` puts `sub` inside `s`. */
  lemma ContainsTransitive(s: string, mid: string, sub: string)
    requires Contains(s, mid) && Contains(mid, sub)
    ensures Contains(s, sub)
  {
    ContainsIffOccurs(s, mid);
    ContainsIffOccurs(mid, sub);
    ContainsIffOccurs(s, sub);
    var i: nat :| OccursAt(s, mid, i);
    var j: nat :| OccursAt(mid, sub, j);
    var w := s[i..i + |mid|];
    forall k | 0 <= k < |sub|
      ensures s[i + j..i + j + |sub|][k] == sub[k]
    {
      assert s[i + j..i + j + |sub|][k] == s[i + j + k] == w[j + k] == mid[j..j + |sub|][k];
    }
    assert s[i + j..i + j + |sub|] == sub;
    assert OccursAt(s, sub, i + j);
  }

  lemma FormatPhraseReadsAsUnavailable()
    ensures Contains("format is not available", "not available")
  {
    var s := "format is not available";
    assert s[10..] == "not available";
    assert Contains(s[10..], "not available");
    ContainsDrop(s, "not available", 10);
  }

  lemma NotAvailableIsLower()
    ensures Lower("not available") == "not available"
  {
    LowerNoUpper("not available");
  }

  /** A "format is not available" message also reads as "not available", so
      a metadata run whose only errors are such format errors is summarised
      as "Video may be unavailable or restricted." */
  lemma FormatErrorReadsAsUnavailable(msg: string)
    requires Contains(msg, "format is not available")
    ensures IsUnavailableError(msg)
  {
    var phrase := "not available";
    FormatPhraseReadsAsUnavailable();
    ContainsTransitive(msg, "format is not available", phrase);
    NotAvailableIsLower();
    ContainsLower(msg, phrase);
  }
}
