/** The fetch decisions of `core/scraper.py`: which flags and markers count,
    which frame address is used, how the plain HTTP fetch retries, in which
    order the browser fetch tries the top page, each frame and the best frame
    address, and which of the two fetchers a mode selects. Every call into the
    HTTP library and the browser driver is an input: the HTTP fetch sees the
    outcome of each attempt, the browser fetch a `DriverTrace` of what the
    driver does. */
module Scraper {
  import opened Outcomes
  import opened Chars
  import opened Settings

  // ---------------------------------------------------------------------
  // Flags and markers
  // ---------------------------------------------------------------------

  const ON_WORDS: seq<string> := ["1", "true", "yes", "y", "on"]
  const OFF_WORDS: seq<string> := ["0", "false", "no", "n", "off"]

  /** How `_env_bool` reads the canonical word `v`: a yes word is true, a no
      word is false, anything else gives the default. */
  function EnvWord(v: string, default: bool): (r: bool)
    ensures v in ON_WORDS ==> r
    ensures v in OFF_WORDS ==> !r
    ensures v !in ON_WORDS && v !in OFF_WORDS ==> r == default
  {
    if v in ON_WORDS then true
    else if v in OFF_WORDS then
      OffIsNotOn(v);
      false
    else default
  }

  /** `_env_bool(name, default)`, where `env` is the variable's value
      (`None` when it is unset, which reads as ""). */
  function EnvBool(env: Option<string>, default: bool): (r: bool)
    ensures env.None? ==> r == default
  {
    CanonOfPlain("");
    EnvWord(Canon(env.GetOr("")), default)
  }

  /** No word is both a yes and a no: the two lists tell apart by their first
      character, or, for "on" and "off", by their length. */
  lemma OffIsNotOn(v: string)
    requires v in OFF_WORDS
    ensures v !in ON_WORDS
  {
    var on, off := ON_WORDS, OFF_WORDS;
    assert on[0][0] == '1' && on[1][0] == 't' && on[2][0] == 'y' && on[3][0] == 'y' && |on[4]| == 2;
    assert off[0][0] == '0' && off[1][0] == 'f' && off[2][0] == 'n' && off[3][0] == 'n' && |off[4]| == 3;
    assert on[4][0] == 'o';
  }

  /** An unset variable gives the default. */
  lemma EnvBoolUnset(default: bool)
    ensures EnvBool(None, default) == default
  {
    CanonOfPlain("");
  }

  /** The scraper's flags and the certificate setting read the same words in
      the same way, except that "on" is a yes only for the scraper's flags. */
  lemma EnvBoolVersusVerifySsl(v: string)
    ensures EnvBool(Some(v), false) == (GetVerifySsl(Some(v)) || Canon(v) == "on")
  {
  }

  /** The markers that appear once Power BI has drawn the report. */
  const MARKERS: seq<string> := [
    "visualcontainerhost",
    "visual-container",
    "visualcontainer",
    "powerbireport",
    "relat\U{F3}rio do power bi",
    "reportembed",
    "app.powerbi.com"
  ]

  /** Some marker from index `k` on occurs in `s`. */
  predicate AnyMarkerFrom(s: string, k: nat)
    requires k <= |MARKERS|
    decreases |MARKERS| - k
  {
    k < |MARKERS| && (Contains(s, MARKERS[k]) || AnyMarkerFrom(s, k + 1))
  }

  /** `_is_powerbi_rendered(html_lower)`. */
  predicate IsPowerBiRendered(htmlLower: string)
    ensures IsPowerBiRendered(htmlLower) ==> exists i :: 0 <= i < |MARKERS| && Contains(htmlLower, MARKERS[i])
  {
    AnyMarkerFromIff(htmlLower, 0);
    AnyMarkerFrom(htmlLower, 0)
  }

  lemma {:induction false} AnyMarkerFromIff(s: string, k: nat)
    requires k <= |MARKERS|
    ensures AnyMarkerFrom(s, k) <==> exists i :: k <= i < |MARKERS| && Contains(s, MARKERS[i])
    decreases |MARKERS| - k
  {
    if k < |MARKERS| {
      AnyMarkerFromIff(s, k + 1);
    }
  }

  /** The page counts as rendered exactly when one of the seven markers
      occurs in it. */
  lemma RenderedIff(htmlLower: string)
    ensures IsPowerBiRendered(htmlLower) <==> exists i :: 0 <= i < |MARKERS| && Contains(htmlLower, MARKERS[i])
  {
    AnyMarkerFromIff(htmlLower, 0);
  }

  /** The rendering test as the fetchers apply it, on the lower-cased page. */
  predicate Rendered(html: string) {
    IsPowerBiRendered(LowerAll(html))
  }

  // ---------------------------------------------------------------------
  // Frame addresses
  // ---------------------------------------------------------------------

  /** An `iframe` element, by its `src` and `data-src` attributes. */
  datatype Frame = Frame(src: Option<string>, dataSrc: Option<string>)

  /** `_get_iframe_src(el)`: the stripped `src`, else the stripped
      `data-src`, else `None`; never the empty string. */
  function GetIframeSrc(f: Frame): (r: Option<string>)
    ensures r.Some? ==> r.value != []
    ensures r.None? <==> Strip(f.src.GetOr("")) == [] && Strip(f.dataSrc.GetOr("")) == []
  {
    var src := Strip(f.src.GetOr(""));
    var s := if src == [] then Strip(f.dataSrc.GetOr("")) else src;
    if s == [] then None else Some(s)
  }

  /** A usable address is never empty and carries no surrounding
      whitespace; `data-src` is consulted only when `src` is blank. */
  lemma GetIframeSrcSpec(f: Frame)
    ensures var r := GetIframeSrc(f);
      && (r.Some? ==> r.value != [] && !IsSpace(r.value[0]) && !IsSpace(r.value[|r.value| - 1]))
      && (Strip(f.src.GetOr("")) != [] ==> r == Some(Strip(f.src.GetOr(""))))
      && (Strip(f.src.GetOr("")) == [] ==> (r.None? <==> Strip(f.dataSrc.GetOr("")) == []))
      && (Strip(f.src.GetOr("")) == [] && r.Some? ==> r.value == Strip(f.dataSrc.GetOr("")))
  {
    StripSpec(f.src.GetOr(""));
    StripSpec(f.dataSrc.GetOr(""));
  }

  /** Length of a usable address, -1 for none. */
  function SrcLen(s: Option<string>): int {
    if s.Some? then |s.value| else -1
  }

  /** The addresses of the frames, in order. */
  function Srcs(frames: seq<Frame>): (r: seq<Option<string>>)
    ensures |r| == |frames|
  {
    MapSeq(GetIframeSrc, frames)
  }

  /** `f` applied to each item, in order. */
  function MapSeq<A, B>(f: A -> B, s: seq<A>): (r: seq<B>)
    ensures |r| == |s| && forall j :: 0 <= j < |s| ==> r[j] == f(s[j])
  {
    if s == [] then [] else [f(s[0])] + MapSeq(f, s[1..])
  }

  /** The position the longest-address choice settles on, or -1 when there
      is no address: the first of the longest addresses. */
  function BestIndex(srcs: seq<Option<string>>): (b: int)
    ensures -1 <= b < |srcs|
    ensures b == -1 <==> forall j :: 0 <= j < |srcs| ==> srcs[j].None?
    ensures b >= 0 ==> srcs[b].Some?
    ensures b >= 0 ==> forall j :: 0 <= j < |srcs| ==> SrcLen(srcs[j]) <= SrcLen(srcs[b])
    ensures b >= 0 ==> forall j :: 0 <= j < b ==> SrcLen(srcs[j]) < SrcLen(srcs[b])
    decreases |srcs|
  {
    if srcs == [] then -1
    else
      var front := srcs[..|srcs| - 1];
      var b := BestIndex(front);
      assert forall j :: 0 <= j < |front| ==> front[j] == srcs[j];
      var s := srcs[|srcs| - 1];
      if s.Some? && (b == -1 || |s.value| > |srcs[b].value|) then |srcs| - 1
      else b
  }

  /** The address the fallback navigates to: the first of the longest
      usable addresses, `None` when no frame has one. */
  function BestSrc(frames: seq<Frame>): (r: Option<string>)
    ensures r.None? <==> forall j :: 0 <= j < |frames| ==> GetIframeSrc(frames[j]).None?
    ensures r.Some? ==> exists j :: 0 <= j < |frames| && GetIframeSrc(frames[j]) == r
  {
    var srcs := Srcs(frames);
    assert forall j :: 0 <= j < |frames| ==> srcs[j] == GetIframeSrc(frames[j]);
    BestOf(srcs)
  }

  /** The address at `BestIndex`. */
  function BestOf(srcs: seq<Option<string>>): Option<string> {
    var b := BestIndex(srcs);
    if b < 0 then None else srcs[b]
  }

  /** One more address replaces the best so far only when it is strictly
      longer. */
  lemma BestOfStep(srcs: seq<Option<string>>, i: nat)
    requires i < |srcs|
    ensures BestOf(srcs[..i + 1]) ==
      var best := BestOf(srcs[..i]);
      if srcs[i].Some? && (best.None? || |srcs[i].value| > |best.value|) then srcs[i] else best
  {
    assert srcs[..i + 1][..i] == srcs[..i];
  }

  /** The fallback address is a frame's usable address, none is longer, and
      every earlier frame's is shorter; there is none exactly when no frame
      has a usable address. */
  lemma BestSrcSpec(frames: seq<Frame>)
    ensures BestSrc(frames).None? <==> forall j :: 0 <= j < |frames| ==> GetIframeSrc(frames[j]).None?
    ensures BestSrc(frames).Some? ==>
      var b := BestIndex(Srcs(frames));
      && 0 <= b < |frames| && GetIframeSrc(frames[b]) == BestSrc(frames)
      && (forall j :: 0 <= j < |frames| ==> SrcLen(GetIframeSrc(frames[j])) <= |BestSrc(frames).value|)
      && (forall j :: 0 <= j < b ==> SrcLen(GetIframeSrc(frames[j])) < |BestSrc(frames).value|)
  {
    var srcs := Srcs(frames);
    var b := BestIndex(srcs);
    assert forall j :: 0 <= j < |frames| ==> srcs[j] == GetIframeSrc(frames[j]);
    if b >= 0 {
      assert BestSrc(frames) == srcs[b];
    }
  }

  /** The address kept after seeing `s` with `best` kept so far. */
  function Longer(best: Option<string>, s: Option<string>): Option<string> {
    if s.Some? && (best.None? || |s.value| > |best.value|) then s else best
  }

  /** The address kept after the first `i` addresses. */
  function BestUpTo(srcs: seq<Option<string>>, i: nat): Option<string>
    requires i <= |srcs|
  {
    if i == 0 then None else Longer(BestUpTo(srcs, i - 1), srcs[i - 1])
  }

  /** Keeping the longer address, one at a time, ends at `BestOf`. */
  lemma {:induction false} BestUpToSpec(srcs: seq<Option<string>>, i: nat)
    requires i <= |srcs|
    ensures BestUpTo(srcs, i) == BestOf(srcs[..i])
  {
    if i > 0 {
      BestUpToSpec(srcs, i - 1);
      BestOfStep(srcs, i - 1);
    }
  }

  /** The loop that keeps the longest address seen so far, replacing it only
      on a strictly longer one. */
  method PickBestSrc(frames: seq<Frame>) returns (best: Option<string>)
    ensures best == BestSrc(frames)
  {
    ghost var srcs := Srcs(frames);
    best := None;
    var i := 0;
    while i < |frames|
      invariant 0 <= i <= |frames|
      invariant best == BestUpTo(srcs, i)
    {
      var s := GetIframeSrc(frames[i]);
      assert srcs[i] == s;
      if s.Some? && (best.None? || |s.value| > |best.value|) {
        best := s;
      }
      i := i + 1;
    }
    BestUpToSpec(srcs, i);
    assert srcs[..i] == srcs;
    assert BestSrc(frames) == BestOf(srcs);
  }

  // ---------------------------------------------------------------------
  // Debug file names
  // ---------------------------------------------------------------------

  /** Characters a debug file name keeps. */
  predicate TagChar(c: char) {
    IsAlnum(c) || c == '_' || c == '-'
  }

  /** The characters of `s` that are kept, in order. */
  function KeepTagChars(s: string): (r: string)
    ensures |r| <= |s|
    ensures forall i :: 0 <= i < |r| ==> TagChar(r[i])
    ensures (forall i :: 0 <= i < |s| ==> !IsUpper(s[i])) ==> forall i :: 0 <= i < |r| ==> !IsUpper(r[i])
    ensures (forall i :: 0 <= i < |s| ==> TagChar(s[i])) ==> r == s
  {
    if s == [] then []
    else (if TagChar(s[0]) then [s[0]] else []) + KeepTagChars(s[1..])
  }

  const TAG_LIMIT: nat := 90

  /** `safe_tag`: the kept characters of the lower-cased tag, cut to 90, or
      "page" when none is kept. */
  function SafeTag(tag: string): (r: string)
    ensures 1 <= |r| <= TAG_LIMIT
    ensures forall i :: 0 <= i < |r| ==> TagChar(r[i]) && !IsUpper(r[i])
    ensures KeepTagChars(LowerAll(tag)) == [] ==> r == "page"
    ensures KeepTagChars(LowerAll(tag)) != [] ==> r <= KeepTagChars(LowerAll(tag))
    ensures var kept := KeepTagChars(LowerAll(tag));
      kept != [] ==> |r| == if |kept| <= TAG_LIMIT then |kept| else TAG_LIMIT
  {
    var kept := KeepTagChars(LowerAll(tag));
    if kept == [] then
      assert TagChar('p') && TagChar('a') && TagChar('g') && TagChar('e');
      "page"
    else if |kept| <= TAG_LIMIT then kept
    else kept[..TAG_LIMIT]
  }

  /** A safe tag is its own safe tag. */
  lemma SafeTagIdempotent(tag: string)
    ensures SafeTag(SafeTag(tag)) == SafeTag(tag)
  {
    var r := SafeTag(tag);
    assert LowerAll(r) == r;
  }

  // ---------------------------------------------------------------------
  // The plain HTTP fetch
  // ---------------------------------------------------------------------

  /** An exception, as far as the decisions need it. */
  datatype Exc =
    | HttpError(status: int)     // raised by `raise_for_status`
    | Raised(name: string)       // any other exception of the library or the driver
    | NoIframe(cause: Exc)       // no frame appeared on the page
    | NoUsableSrc                // frames were found but none has an address

  /** What one request attempt gives: a response or an exception. */
  datatype Outcome = Response(status: int, text: string) | Failure(exc: Exc)

  datatype Via = ViaRequests | ViaSeleniumMain | ViaSeleniumIframe

  /** `FetchResult`. */
  datatype FetchResult = FetchResult(url: string, statusCode: int, html: string,
                                     via: Via, iframeUrl: Option<string>)

  /** The `RuntimeError` each fetcher raises, by what its message reports. */
  datatype FetchError =
    | RequestsFailed(lastStatus: int, lastExc: Option<Exc>)
    | SeleniumFailed(cause: Exc)

  /** Statuses retried without consulting `raise_for_status`. */
  predicate Retryable(status: int) {
    status == 429 || status == 502 || status == 503 || status == 504
  }

  /** Statuses `raise_for_status` rejects. */
  predicate HttpErrorStatus(status: int) {
    400 <= status < 600
  }

  /** An outcome the retry loop returns on. */
  predicate Accepted(o: Outcome) {
    o.Response? && !Retryable(o.status) && !HttpErrorStatus(o.status)
  }

  datatype RequestsRun = RequestsRun(result: Result<FetchResult, FetchError>, gets: nat)

  /** The retry loop from attempt `attempt` on, having seen `lastStatus` and
      `lastExc`; `respond(a)` is what attempt `a` gives. */
  function RequestsFrom(url: string, respond: nat -> Outcome, attempt: nat, retries: int,
                        lastStatus: int, lastExc: Option<Exc>): (r: RequestsRun)
    requires attempt >= 1
    ensures attempt - 1 <= r.gets <= if attempt <= retries then retries else attempt - 1
    ensures r.result.Err? ==> r.gets == if attempt <= retries then retries else attempt - 1
    ensures r.result.Ok? ==> r.result.value.url == url && r.result.value.via == ViaRequests
    decreases if attempt <= retries then retries - attempt + 1 else 0
  {
    if attempt > retries then RequestsRun(Err(RequestsFailed(lastStatus, lastExc)), attempt - 1)
    else
      match respond(attempt)
      case Failure(e) => RequestsFrom(url, respond, attempt + 1, retries, lastStatus, Some(e))
      case Response(st, body) =>
        if Retryable(st) then RequestsFrom(url, respond, attempt + 1, retries, st, lastExc)
        else if HttpErrorStatus(st) then
          RequestsFrom(url, respond, attempt + 1, retries, st, Some(HttpError(st)))
        else RequestsRun(Ok(FetchResult(url, st, body, ViaRequests, None)), attempt)
  }

  /** `fetch_html_requests(url, retries=retries)`. */
  function Requests(url: string, respond: nat -> Outcome, retries: int): (r: RequestsRun)
    ensures r.gets <= if retries < 0 then 0 else retries
    ensures r.result.Ok? ==> r.result.value.url == url && r.result.value.via == ViaRequests
  {
    RequestsFromSpec(url, respond, 1, retries, 0, None);
    RequestsFrom(url, respond, 1, retries, 0, None)
  }

  /** The retry loop itself; it also counts the requests made and the pauses
      taken between them. */
  method FetchRequests(url: string, respond: nat -> Outcome, retries: int)
    returns (res: Result<FetchResult, FetchError>, gets: nat, sleeps: nat)
    ensures RequestsRun(res, gets) == Requests(url, respond, retries)
    ensures sleeps == if gets == 0 then 0 else gets - 1
  {
    var lastStatus := 0;
    var lastExc: Option<Exc> := None;
    gets, sleeps := 0, 0;
    var attempt: nat := 1;
    while attempt <= retries
      invariant 1 <= attempt
      invariant gets == attempt - 1
      invariant sleeps == if attempt == 1 then 0 else attempt - 2
      invariant RequestsFrom(url, respond, attempt, retries, lastStatus, lastExc) == Requests(url, respond, retries)
      decreases retries - attempt + 1
    {
      if attempt > 1 {
        sleeps := sleeps + 1;
      }
      var o := respond(attempt);
      gets := gets + 1;
      match o {
        case Failure(e) =>
          lastExc := Some(e);
        case Response(st, body) =>
          lastStatus := st;
          if Retryable(st) {
          } else if HttpErrorStatus(st) {
            lastExc := Some(HttpError(st));
          } else {
            res := Ok(FetchResult(url, st, body, ViaRequests, None));
            return;
          }
      }
      attempt := attempt + 1;
    }
    res := Err(RequestsFailed(lastStatus, lastExc));
  }

  /** The first accepted attempt in `attempt..retries`. */
  function FirstAcceptedFrom(respond: nat -> Outcome, attempt: nat, retries: int): (r: Option<nat>)
    requires attempt >= 1
    ensures r.Some? ==> attempt <= r.value <= retries && Accepted(respond(r.value))
    ensures r.Some? ==> forall a :: attempt <= a < r.value ==> !Accepted(respond(a))
    ensures r.None? ==> forall a :: attempt <= a <= retries ==> !Accepted(respond(a))
    decreases if attempt <= retries then retries - attempt + 1 else 0
  {
    if attempt > retries then None
    else if Accepted(respond(attempt)) then Some(attempt)
    else FirstAcceptedFrom(respond, attempt + 1, retries)
  }

  /** The status of the last response among attempts `attempt..n`, or
      `dflt` when none of them responded. */
  function LastStatusIn(respond: nat -> Outcome, attempt: nat, n: int, dflt: int): int
    decreases if n >= attempt then n - attempt + 1 else 0
  {
    if n < attempt then dflt
    else if respond(n).Response? then respond(n).status
    else LastStatusIn(respond, attempt, n - 1, dflt)
  }

  /** The exception recorded by the last attempt among `attempt..n` that
      recorded one, or `dflt`. Retryable statuses record none. */
  function LastExcIn(respond: nat -> Outcome, attempt: nat, n: int, dflt: Option<Exc>): Option<Exc>
    decreases if n >= attempt then n - attempt + 1 else 0
  {
    if n < attempt then dflt
    else
      match respond(n)
      case Failure(e) => Some(e)
      case Response(st, _) =>
        if !Retryable(st) && HttpErrorStatus(st) then Some(HttpError(st))
        else LastExcIn(respond, attempt, n - 1, dflt)
  }

  lemma {:induction false} LastStatusShift(respond: nat -> Outcome, attempt: nat, n: int, dflt: int)
    requires attempt <= n
    ensures LastStatusIn(respond, attempt + 1, n,
              if respond(attempt).Response? then respond(attempt).status else dflt)
            == LastStatusIn(respond, attempt, n, dflt)
    decreases n - attempt
  {
    if n > attempt {
      LastStatusShift(respond, attempt, n - 1, dflt);
    }
  }

  lemma {:induction false} LastExcShift(respond: nat -> Outcome, attempt: nat, n: int, dflt: Option<Exc>)
    requires attempt <= n
    ensures LastExcIn(respond, attempt + 1, n,
              match respond(attempt)
              case Failure(e) => Some(e)
              case Response(st, _) =>
                if !Retryable(st) && HttpErrorStatus(st) then Some(HttpError(st)) else dflt)
            == LastExcIn(respond, attempt, n, dflt)
    decreases n - attempt
  {
    if n > attempt {
      LastExcShift(respond, attempt, n - 1, dflt);
    }
  }

  /** The loop from any attempt on: it returns the first accepted response,
      or else fails reporting the last status and the last recorded
      exception, after trying every remaining attempt. */
  lemma {:induction false} RequestsFromSpec(url: string, respond: nat -> Outcome, attempt: nat, retries: int,
                                            lastStatus: int, lastExc: Option<Exc>)
    requires attempt >= 1
    ensures var run := RequestsFrom(url, respond, attempt, retries, lastStatus, lastExc);
      match FirstAcceptedFrom(respond, attempt, retries)
      case Some(a) =>
        run == RequestsRun(Ok(FetchResult(url, respond(a).status, respond(a).text, ViaRequests, None)), a)
      case None =>
        run == RequestsRun(Err(RequestsFailed(LastStatusIn(respond, attempt, retries, lastStatus),
                                              LastExcIn(respond, attempt, retries, lastExc))),
                           if attempt <= retries then retries else attempt - 1)
    decreases if attempt <= retries then retries - attempt + 1 else 0
  {
    if attempt <= retries {
      var o := respond(attempt);
      if !Accepted(o) {
        var ls := if o.Response? then o.status else lastStatus;
        var le := match o
          case Failure(e) => Some(e)
          case Response(st, _) => if !Retryable(st) && HttpErrorStatus(st) then Some(HttpError(st)) else lastExc;
        RequestsFromSpec(url, respond, attempt + 1, retries, ls, le);
        LastStatusShift(respond, attempt, retries, lastStatus);
        LastExcShift(respond, attempt, retries, lastExc);
      }
    }
  }

  /** `fetch_html_requests` makes at most `retries` requests, returns the
      first accepted response, and otherwise fails after exactly `retries`
      requests with the last status seen (0 when nothing responded). */
  lemma RequestsSpec(url: string, respond: nat -> Outcome, retries: int)
    ensures Requests(url, respond, retries).gets <= if retries < 0 then 0 else retries
    ensures Requests(url, respond, retries).result.Ok? <==> FirstAcceptedFrom(respond, 1, retries).Some?
    ensures match FirstAcceptedFrom(respond, 1, retries)
      case Some(a) =>
        Requests(url, respond, retries) ==
          RequestsRun(Ok(FetchResult(url, respond(a).status, respond(a).text, ViaRequests, None)), a)
      case None =>
        Requests(url, respond, retries) ==
          RequestsRun(Err(RequestsFailed(LastStatusIn(respond, 1, retries, 0), LastExcIn(respond, 1, retries, None))),
                      if retries < 0 then 0 else retries)
  {
    RequestsFromSpec(url, respond, 1, retries, 0, None);
  }

  /** With no attempts allowed the fetch fails at once, having made no request. */
  lemma NoAttemptsFails(url: string, respond: nat -> Outcome, retries: int)
    requires retries <= 0
    ensures Requests(url, respond, retries) == RequestsRun(Err(RequestsFailed(0, None)), 0)
  {
  }

  /** An error status such as 404 is retried like 503: the exception of
      `raise_for_status` is caught by the loop, so an accepted second answer
      is returned. */
  lemma ErrorStatusIsRetried(url: string, respond: nat -> Outcome, retries: int)
    requires retries >= 2
    requires respond(1).Response? && HttpErrorStatus(respond(1).status)
    requires Accepted(respond(2))
    ensures Requests(url, respond, retries) ==
      RequestsRun(Ok(FetchResult(url, respond(2).status, respond(2).text, ViaRequests, None)), 2)
  {
    RequestsSpec(url, respond, retries);
  }

  // ---------------------------------------------------------------------
  // The browser fetch
  // ---------------------------------------------------------------------

  /** A page the driver settled on: its source, or the exception raised
      while reaching it or waiting for Power BI. */
  datatype Page = Loaded(html: string) | Broken(exc: Exc)

  /** One frame on the page and what probing it gives. */
  datatype Probe = Probe(frame: Frame, page: Page)

  /** What the driver does during one browser fetch. */
  datatype DriverTrace = DriverTrace(
    startError: Option<Exc>,          // the driver could not be created
    openError: Option<Exc>,           // opening the url raised
    topHtml: string,                  // the top page's source after scrolling
    topSettled: string,               // the top page's source after the metrics wait
    frames: Result<seq<Probe>, Exc>,  // the frames found, or the exception of waiting for one
    direct: Page)                     // opening the best frame address directly

  /** Driver actions that matter for the context and the driver's lifetime. */
  datatype Event = Open(url: string) | EnterFrame(index: nat) | LeaveFrame | Quit

  datatype SeleniumRun = SeleniumRun(result: Result<FetchResult, FetchError>, log: seq<Event>)

  predicate RenderedProbe(p: Probe) {
    p.page.Loaded? && Rendered(p.page.html)
  }

  /** The first frame from index `k` on whose probe shows Power BI. */
  function FirstRendered(ps: seq<Probe>, k: nat): (r: Option<nat>)
    requires k <= |ps|
    ensures r.Some? ==> k <= r.value < |ps| && RenderedProbe(ps[r.value])
    ensures r.Some? ==> forall j :: k <= j < r.value ==> !RenderedProbe(ps[j])
    ensures r.None? <==> forall j :: k <= j < |ps| ==> !RenderedProbe(ps[j])
    decreases |ps| - k
  {
    if k == |ps| then None
    else if RenderedProbe(ps[k]) then Some(k)
    else FirstRendered(ps, k + 1)
  }

  /** The exception of the last of the first `n` probes that raised one. */
  function LastProbeError(ps: seq<Probe>, n: nat): Option<Exc>
    requires n <= |ps|
  {
    if n == 0 then None
    else if ps[n - 1].page.Broken? then Some(ps[n - 1].page.exc)
    else LastProbeError(ps, n - 1)
  }

  /** The context switches of probing the first `n` frames: back to the top,
      into the frame, and back to the top once the probe is over. */
  function ProbeLog(n: nat): seq<Event> {
    if n == 0 then [] else ProbeLog(n - 1) + [LeaveFrame, EnterFrame(n - 1), LeaveFrame]
  }

  function FramesOf(ps: seq<Probe>): (fs: seq<Frame>)
    ensures |fs| == |ps| && forall i :: 0 <= i < |ps| ==> fs[i] == ps[i].frame
  {
    seq(|ps|, i requires 0 <= i < |ps| => ps[i].frame)
  }

  /** Opening the best frame address directly. */
  function DirectResult(url: string, best: string, direct: Page): Result<FetchResult, FetchError> {
    match direct
    case Broken(e) => Err(SeleniumFailed(e))
    case Loaded(h) => Ok(FetchResult(url, 200, h, ViaSeleniumIframe, Some(best)))
  }

  /** The last stage: no frame showed Power BI, so the best frame address is
      opened; without one the fetch fails, reporting the last probe's
      exception when there was one. */
  function FallbackStage(url: string, ps: seq<Probe>, direct: Page): SeleniumRun {
    var probed := [Open(url)] + ProbeLog(|ps|);
    match BestSrc(FramesOf(ps))
    case None => SeleniumRun(Err(SeleniumFailed(LastProbeError(ps, |ps|).GetOr(NoUsableSrc))), probed + [Quit])
    case Some(best) => SeleniumRun(DirectResult(url, best, direct), probed + [Open(best), Quit])
  }

  /** The frame stage: the first frame whose probe shows Power BI, else the
      fallback. */
  function FramesStage(url: string, ps: seq<Probe>, direct: Page): SeleniumRun {
    match FirstRendered(ps, 0)
    case Some(i) =>
      SeleniumRun(Ok(FetchResult(url, 200, ps[i].page.html, ViaSeleniumIframe, GetIframeSrc(ps[i].frame))),
                  [Open(url)] + ProbeLog(i + 1) + [Quit])
    case None => FallbackStage(url, ps, direct)
  }

  /** `fetch_html_selenium_powerbi(url)`: the result and the driver log. */
  function Selenium(url: string, t: DriverTrace): (r: SeleniumRun)
    ensures r.result.Ok? ==> && r.result.value.url == url && r.result.value.statusCode == 200
                             && r.result.value.via != ViaRequests
  {
    if t.startError.Some? then SeleniumRun(Err(SeleniumFailed(t.startError.value)), [])
    else if t.openError.Some? then SeleniumRun(Err(SeleniumFailed(t.openError.value)), [Open(url), Quit])
    else if Rendered(t.topHtml) then
      SeleniumRun(Ok(FetchResult(url, 200, t.topSettled, ViaSeleniumMain, None)), [Open(url), Quit])
    else if t.frames.Err? then
      SeleniumRun(Err(SeleniumFailed(NoIframe(t.frames.error))), [Open(url), Quit])
    else FramesStage(url, t.frames.value, t.direct)
  }

  /** The frame loop of the browser fetch: each frame is entered from the top
      level and left again whatever the probe gave. */
  method ProbeFrames(url: string, ps: seq<Probe>) returns (hit: Option<nat>, lastError: Option<Exc>, events: seq<Event>)
    ensures hit == FirstRendered(ps, 0)
    ensures lastError == LastProbeError(ps, if hit.Some? then hit.value + 1 else |ps|)
    ensures events == [Open(url)] + ProbeLog(if hit.Some? then hit.value + 1 else |ps|)
  {
    events := [Open(url)];
    lastError := None;
    hit := None;
    var i := 0;
    while i < |ps| && hit.None?
      invariant 0 <= i <= |ps|
      invariant hit.None? ==> && events == [Open(url)] + ProbeLog(i)
                              && lastError == LastProbeError(ps, i)
                              && FirstRendered(ps, 0) == FirstRendered(ps, i)
      invariant hit.Some? ==> && hit == FirstRendered(ps, 0) && i == hit.value + 1
                              && lastError == LastProbeError(ps, i)
                              && events == [Open(url)] + ProbeLog(i)
    {
      assert ProbeLog(i + 1) == ProbeLog(i) + [LeaveFrame, EnterFrame(i), LeaveFrame];
      var page := ps[i].page;
      if page.Broken? {
        lastError := Some(page.exc);
      } else if Rendered(page.html) {
        hit := Some(i);
      }
      events := events + [LeaveFrame, EnterFrame(i), LeaveFrame];
      i := i + 1;
    }
  }

  /** The fallback, after every frame was probed in vain. */
  method FetchFallback(url: string, ps: seq<Probe>, direct: Page, probeError: Option<Exc>, trail: seq<Event>)
    returns (res: Result<FetchResult, FetchError>, log: seq<Event>)
    requires probeError == LastProbeError(ps, |ps|)
    requires trail == [Open(url)] + ProbeLog(|ps|)
    ensures res == FallbackStage(url, ps, direct).result
    ensures log == FallbackStage(url, ps, direct).log
  {
    var best := PickBestSrc(FramesOf(ps));
    if best.None? {
      res := Err(SeleniumFailed(if probeError.Some? then probeError.value else NoUsableSrc));
      log := trail + [Quit];
    } else {
      log := trail + [Open(best.value)];
      match direct {
        case Broken(e) =>
          res := Err(SeleniumFailed(e));
        case Loaded(h) =>
          res := Ok(FetchResult(url, 200, h, ViaSeleniumIframe, best));
      }
      log := log + [Quit];
    }
  }

  /** The frame stage and the fallback. */
  method FetchFrames(url: string, ps: seq<Probe>, direct: Page)
    returns (res: Result<FetchResult, FetchError>, log: seq<Event>)
    ensures SeleniumRun(res, log) == FramesStage(url, ps, direct)
  {
    var found, lastExc, probed := ProbeFrames(url, ps);
    if found.Some? {
      var i := found.value;
      res := Ok(FetchResult(url, 200, ps[i].page.html, ViaSeleniumIframe, GetIframeSrc(ps[i].frame)));
      log := probed + [Quit];
      return;
    }
    res, log := FetchFallback(url, ps, direct, lastExc, probed);
  }

  /** The browser fetch: the top page, then each frame in order, then the
      best frame address; the driver is quit on every path once it exists. */
  method FetchSelenium(url: string, t: DriverTrace) returns (res: Result<FetchResult, FetchError>, log: seq<Event>)
    ensures SeleniumRun(res, log) == Selenium(url, t)
  {
    if t.startError.Some? {
      return Err(SeleniumFailed(t.startError.value)), [];
    }
    if t.openError.Some? {
      return Err(SeleniumFailed(t.openError.value)), [Open(url), Quit];
    }
    if Rendered(t.topHtml) {
      return Ok(FetchResult(url, 200, t.topSettled, ViaSeleniumMain, None)), [Open(url), Quit];
    }
    if t.frames.Err? {
      return Err(SeleniumFailed(NoIframe(t.frames.error))), [Open(url), Quit];
    }
    res, log := FetchFrames(url, t.frames.value, t.direct);
  }

  /** The probe log, event by event. */
  lemma {:induction false} ProbeLogShape(n: nat)
    ensures |ProbeLog(n)| == 3 * n
    ensures forall p :: 0 <= p < 3 * n ==>
      ProbeLog(n)[p] == if p % 3 == 1 then EnterFrame(p / 3) else LeaveFrame
  {
    if n > 0 {
      ProbeLogShape(n - 1);
      var l := ProbeLog(n);
      assert l == ProbeLog(n - 1) + [LeaveFrame, EnterFrame(n - 1), LeaveFrame];
      forall p | 0 <= p < 3 * n
        ensures l[p] == if p % 3 == 1 then EnterFrame(p / 3) else LeaveFrame
      {
        if p >= 3 * (n - 1) {
          assert p / 3 == n - 1;
        }
      }
    }
  }

  /** The driver is quit as the last action and not before. */
  predicate QuitLast(log: seq<Event>) {
    |log| > 0 && log[|log| - 1] == Quit && forall p :: 0 <= p < |log| - 1 ==> log[p] != Quit
  }

  /** Every frame entered is left by the very next action. */
  predicate ContextRestored(log: seq<Event>) {
    forall p :: 0 <= p < |log| && log[p].EnterFrame? ==> p + 1 < |log| && log[p + 1] == LeaveFrame
  }

  /** A log made of opening the url, probing `n` frames and a closing tail. */
  lemma {:induction false} ProbedLogShape(url: string, n: nat, tail: seq<Event>)
    requires tail == [Quit] || (|tail| == 2 && tail[0].Open? && tail[1] == Quit)
    ensures QuitLast([Open(url)] + ProbeLog(n) + tail)
    ensures ContextRestored([Open(url)] + ProbeLog(n) + tail)
    ensures forall p :: 0 <= p < |[Open(url)] + ProbeLog(n) + tail| && ([Open(url)] + ProbeLog(n) + tail)[p].EnterFrame? ==>
      ([Open(url)] + ProbeLog(n) + tail)[p].index < n
  {
    ProbeLogShape(n);
    var log := [Open(url)] + ProbeLog(n) + tail;
    assert forall p :: 1 <= p < 1 + 3 * n ==> log[p] == ProbeLog(n)[p - 1];
    assert forall p :: 1 + 3 * n <= p < |log| ==> log[p] == tail[p - 1 - 3 * n];
  }

  /** The driver is quit exactly when it was created, as its last action,
      and a frame is always left right after it was entered. */
  lemma SeleniumLifecycle(url: string, t: DriverTrace)
    ensures t.startError.None? <==> QuitLast(Selenium(url, t).log)
    ensures ContextRestored(Selenium(url, t).log)
  {
    if t.startError.None? && t.openError.None? && !Rendered(t.topHtml) && t.frames.Ok? {
      var ps := t.frames.value;
      match FirstRendered(ps, 0) {
        case Some(i) =>
          ProbedLogShape(url, i + 1, [Quit]);
        case None =>
          match BestSrc(FramesOf(ps)) {
            case None =>
              ProbedLogShape(url, |ps|, [Quit]);
            case Some(best) =>
              ProbedLogShape(url, |ps|, [Open(best), Quit]);
          }
      }
    }
  }

  /** A rendered top page is returned without entering any frame. */
  lemma TopPageFirst(url: string, t: DriverTrace)
    requires t.startError.None? && t.openError.None? && Rendered(t.topHtml)
    ensures Selenium(url, t).result == Ok(FetchResult(url, 200, t.topSettled, ViaSeleniumMain, None))
    ensures forall p :: 0 <= p < |Selenium(url, t).log| ==> !Selenium(url, t).log[p].EnterFrame?
  {
  }

  /** Otherwise the first frame whose probe shows Power BI is returned with
      its address, and no later frame is entered. */
  lemma FirstRenderedFrameWins(url: string, t: DriverTrace, i: nat)
    requires t.startError.None? && t.openError.None? && !Rendered(t.topHtml) && t.frames.Ok?
    requires i < |t.frames.value| && RenderedProbe(t.frames.value[i])
    requires forall j :: 0 <= j < i ==> !RenderedProbe(t.frames.value[j])
    ensures Selenium(url, t).result ==
      Ok(FetchResult(url, 200, t.frames.value[i].page.html, ViaSeleniumIframe, GetIframeSrc(t.frames.value[i].frame)))
    ensures forall p :: 0 <= p < |Selenium(url, t).log| && Selenium(url, t).log[p].EnterFrame? ==>
      Selenium(url, t).log[p].index <= i
  {
    assert FirstRendered(t.frames.value, 0) == Some(i);
    ProbedLogShape(url, i + 1, [Quit]);
  }

  /** When no frame shows Power BI the fetch opens the best frame address,
      and succeeds exactly when that page could be reached; without any
      address it fails, reporting the last probe's exception if there was
      one. */
  lemma BestSrcFallback(url: string, t: DriverTrace)
    requires t.startError.None? && t.openError.None? && !Rendered(t.topHtml) && t.frames.Ok?
    requires forall j :: 0 <= j < |t.frames.value| ==> !RenderedProbe(t.frames.value[j])
    ensures var ps := t.frames.value;
      match BestSrc(FramesOf(ps))
      case None =>
        Selenium(url, t).result == Err(SeleniumFailed(LastProbeError(ps, |ps|).GetOr(NoUsableSrc)))
      case Some(best) =>
        && Open(best) in Selenium(url, t).log
        && (Selenium(url, t).result.Ok? <==> t.direct.Loaded?)
        && (Selenium(url, t).result.Ok? ==> Selenium(url, t).result.value.iframeUrl == Some(best))
  {
    assert FirstRendered(t.frames.value, 0).None?;
  }

  // ---------------------------------------------------------------------
  // The entry point
  // ---------------------------------------------------------------------

  /** `(mode or "powerbi").strip().lower()`. */
  function ModeOf(mode: Option<string>): (r: string)
    ensures forall i :: 0 <= i < |r| ==> !IsUpper(r[i])
  {
    var raw := mode.GetOr("");
    Canon(if raw == [] then "powerbi" else raw)
  }

  /** `fetch_html(url, mode=mode, retries=retries)`: requests only, requests
      with two attempts and then the browser, or the browser. */
  function FetchHtml(url: string, mode: Option<string>, retries: int,
                     respond: nat -> Outcome, t: DriverTrace): (r: Result<FetchResult, FetchError>)
    ensures r.Ok? ==> r.value.url == url
    ensures r.Ok? && r.value.via == ViaRequests ==>
      ModeOf(mode) == "requests" || (ModeOf(mode) == "auto" && Rendered(r.value.html))
  {
    var m := ModeOf(mode);
    if m == "requests" then Requests(url, respond, retries).result
    else if m == "auto" then
      var r := Requests(url, respond, 2).result;
      if r.Ok? && Rendered(r.value.html) then r else Selenium(url, t).result
    else Selenium(url, t).result
  }

  /** Which fetcher each mode reaches. In "auto" the plain fetch gets two
      attempts; its answer is returned exactly when one was accepted and
      already shows Power BI, and otherwise, a failure included, the browser
      decides. */
  lemma FetchHtmlDispatch(url: string, mode: Option<string>, retries: int,
                          respond: nat -> Outcome, t: DriverTrace)
    ensures ModeOf(mode) == "requests" ==>
      FetchHtml(url, mode, retries, respond, t) == Requests(url, respond, retries).result
    ensures ModeOf(mode) == "auto" ==>
      match FirstAcceptedFrom(respond, 1, 2)
      case Some(a) =>
        FetchHtml(url, mode, retries, respond, t) ==
          if Rendered(respond(a).text)
          then Ok(FetchResult(url, respond(a).status, respond(a).text, ViaRequests, None))
          else Selenium(url, t).result
      case None => FetchHtml(url, mode, retries, respond, t) == Selenium(url, t).result
    ensures ModeOf(mode) != "requests" && ModeOf(mode) != "auto" ==>
      FetchHtml(url, mode, retries, respond, t) == Selenium(url, t).result
  {
    var r := Requests(url, respond, 2);
    RequestsSpec(url, respond, 2);
  }

  /** Without a mode, and with an empty one, the mode is "powerbi", which
      selects the browser fetch. */
  lemma DefaultMode()
    ensures ModeOf(None) == "powerbi"
  {
    var w := "powerbi";
    assert |w| == 7 && w[0] == 'p' && w[1] == 'o' && w[2] == 'w' && w[3] == 'e';
    assert w[4] == 'r' && w[5] == 'b' && w[6] == 'i';
    CanonOfPlain(w);
  }

  lemma EmptyModeIsDefault()
    ensures ModeOf(Some("")) == ModeOf(None)
  {
  }
}
