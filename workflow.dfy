/**
  The page's submit workflow (`handleSubmit`) and its state, the three
  `useState` hooks `url`, `loading` and `videoInfo`.

  `handleSubmit` runs in two halves around its first `await` (the `fetch`):
  `StartSubmit` validates the input and issues the request, `CompleteSubmit`
  handles the response (`try` body, `catch` and `finally`). How the request
  ends, including the second `await` (`response.json()`), is an argument, a
  `FetchOutcome`; each toast is a `Notification` value.
*/
module Workflow {
  import opened Wrappers
  import opened VideoModel
  import opened JsStrings
  import Download

  /** The page's state. There is no error field: a failure shows only in a toast. */
  datatype PageState = PageState(url: string, loading: bool, videoInfo: Option<VideoInfo>)

  /** An empty input, not loading, no result. */
  const InitialState := PageState("", false, None)

  /**
    How the request to `/api/formats` ends: the parsed body of an ok
    response, a response whose status is not ok, or an exception thrown by
    `fetch` or `response.json()`.
  */
  datatype FetchOutcome = Fetched(data: VideoInfo) | HttpNotOk | Thrown

  /** A toast: its title, its description and whether it uses the destructive variant. */
  datatype Notification = Notification(title: string, description: string, destructive: bool)

  const ValidationError := Notification("Error", "Please enter a YouTube URL", true)
  const Loaded := Notification("Success", "Video information loaded successfully!", false)
  const RetrievalError := Notification(
    "Error",
    "Failed to fetch video information. Make sure the URL is valid and your backend is running.",
    true)

  const FormatsPath := "/api/formats"

  /** The request `handleSubmit` sends: a JSON POST whose body is `{ url }`. */
  datatype FormatsRequest = FormatsRequest(endpoint: string, httpMethod: string, contentType: string, bodyUrl: string)

  /** The request for `url`: a JSON POST to the backend's `/api/formats`, carrying `url` as it is. */
  function FormatsRequestFor(backend: string, url: string): (r: FormatsRequest)
    ensures |r.endpoint| == |backend| + |FormatsPath|
    ensures r.endpoint[..|backend|] == backend && r.endpoint[|backend|..] == FormatsPath
    ensures r.httpMethod == "POST" && r.contentType == "application/json"
    ensures r.bodyUrl == url
  {
    FormatsRequest(backend + FormatsPath, "POST", "application/json", url)
  }

  /** `!url.trim()`: the input is empty once white space is trimmed, that is, all white space. */
  function IsBlank(url: string): (r: bool)
    ensures r <==> AllWhiteSpace(url)
  {
    TrimEmptyIffAllWhiteSpace(url);
    Trim(url) == []
  }

  /** The outcome of the first half of `handleSubmit`. */
  datatype Start = Rejected(notice: Notification) | Pending(state: PageState, request: FormatsRequest)

  /**
    Before the first `await`: a blank input is refused with the validation toast
    and nothing else happens; otherwise `loading` is set and the request for
    the untrimmed `url` goes out.
  */
  function StartSubmit(s: PageState, backend: string): (r: Start)
    ensures r.Rejected? <==> IsBlank(s.url)
    ensures r.Rejected? ==> r.notice == ValidationError
    ensures r.Pending? ==> r.state == s.(loading := true) && r.request == FormatsRequestFor(backend, s.url)
  {
    if IsBlank(s.url) then Rejected(ValidationError)
    else Pending(s.(loading := true), FormatsRequestFor(backend, s.url))
  }

  /**
    After the `await`s: an ok response replaces `videoInfo` with its body and
    shows the success toast; a status that is not ok (thrown as an `Error`)
    and any exception are caught and show the retrieval toast; `finally`
    clears `loading`.
  */
  function CompleteSubmit(s: PageState, outcome: FetchOutcome): (r: (PageState, Notification))
    ensures !r.0.loading && r.0.url == s.url
    ensures outcome.Fetched? ==> r.0.videoInfo == Some(outcome.data) && r.1 == Loaded
    ensures !outcome.Fetched? ==> r.0.videoInfo == s.videoInfo && r.1 == RetrievalError
  {
    match outcome
    case Fetched(data) => (s.(videoInfo := Some(data), loading := false), Loaded)
    case HttpNotOk => (s.(loading := false), RetrievalError)
    case Thrown => (s.(loading := false), RetrievalError)
  }

  /** What one submission produces: the new state, the request it issued (if any), its toast. */
  datatype SubmitResult = SubmitResult(state: PageState, request: Option<FormatsRequest>, notice: Notification)

  /**
    One whole submission, with no other submission in between (the input and
    the submit button are disabled while loading).
  */
  function Submit(s: PageState, backend: string, outcome: FetchOutcome): (r: SubmitResult)
    ensures r.state.url == s.url
    ensures r.request.None? <==> IsBlank(s.url)
    ensures r.request.None? ==> r.state == s && r.notice == ValidationError
    ensures r.request.Some? ==> r.request.value == FormatsRequestFor(backend, s.url) && !r.state.loading
    ensures r.request.Some? && outcome.Fetched? ==> r.state.videoInfo == Some(outcome.data) && r.notice == Loaded
    ensures r.request.Some? && !outcome.Fetched? ==> r.state.videoInfo == s.videoInfo && r.notice == RetrievalError
  {
    match StartSubmit(s, backend)
    case Rejected(notice) => SubmitResult(s, None, notice)
    case Pending(pending, request) =>
      var (after, notice) := CompleteSubmit(pending, outcome);
      SubmitResult(after, Some(request), notice)
  }

  /**
    An input that is empty or all white space issues no request, leaves the
    whole state as it was and shows only the validation toast; any other
    input issues exactly one request.
  */
  lemma BlankSubmitChangesNothing(s: PageState, backend: string, outcome: FetchOutcome)
    ensures Submit(s, backend, outcome).request.None? <==> AllWhiteSpace(s.url)
    ensures AllWhiteSpace(s.url) ==> Submit(s, backend, outcome) == SubmitResult(s, None, ValidationError)
  {
    TrimEmptyIffAllWhiteSpace(s.url);
  }

  /**
    For an input that is not blank, `loading` is true while the request is
    out and false once it has ended, whatever the outcome.
  */
  lemma LoadingOnlyWhileRequestIsOut(s: PageState, backend: string, outcome: FetchOutcome)
    requires !AllWhiteSpace(s.url)
    ensures StartSubmit(s, backend).Pending? && StartSubmit(s, backend).state.loading
    ensures !CompleteSubmit(StartSubmit(s, backend).state, outcome).0.loading
    ensures !Submit(s, backend, outcome).state.loading
  {
    TrimEmptyIffAllWhiteSpace(s.url);
  }

  /**
    A successful response becomes `videoInfo` as it is: the result does not
    depend on what was shown before.
  */
  lemma SuccessReplacesWholesale(s: PageState, backend: string, data: VideoInfo)
    requires !AllWhiteSpace(s.url)
    ensures Submit(s, backend, Fetched(data)).state == s.(loading := false, videoInfo := Some(data))
    ensures Submit(s, backend, Fetched(data)).notice == Loaded
  {
    TrimEmptyIffAllWhiteSpace(s.url);
  }

  /**
    A failed request keeps the previous `videoInfo` and shows the retrieval
    error toast.
  */
  lemma FailureKeepsVideoInfo(s: PageState, backend: string, outcome: FetchOutcome)
    requires !AllWhiteSpace(s.url) && !outcome.Fetched?
    ensures Submit(s, backend, outcome).state == s.(loading := false)
    ensures Submit(s, backend, outcome).notice == RetrievalError
  {
    TrimEmptyIffAllWhiteSpace(s.url);
  }

  /**
    The request goes to `/api/formats` as a JSON POST and carries the input
    exactly as typed, not the trimmed string; submitting never changes `url`.
  */
  lemma RequestCarriesUntrimmedUrl(s: PageState, backend: string, outcome: FetchOutcome)
    ensures Submit(s, backend, outcome).state.url == s.url
    ensures Submit(s, backend, outcome).request.Some? ==>
      Submit(s, backend, outcome).request.value == FormatsRequest(backend + FormatsPath, "POST", "application/json", s.url)
  {
  }

  /** An input with surrounding spaces is sent with its spaces. */
  lemma PaddedUrlSentAsTyped(s: PageState, backend: string, outcome: FetchOutcome)
    requires s.url == " x "
    ensures Trim(s.url) == "x"
    ensures Submit(s, backend, outcome).request.Some?
    ensures Submit(s, backend, outcome).request.value.bodyUrl == " x "
  {
    PaddedTrim();
    var r := Submit(s, backend, outcome);
    assert r.request.value == FormatsRequestFor(backend, " x ");
  }

  /** `" x ".trim()` is `"x"`, so `" x "` is not blank. */
  lemma PaddedTrim()
    ensures Trim(" x ") == "x"
    ensures !IsBlank(" x ")
  {
    var padded, tail, word := " x ", "x ", "x";
    assert !IsJsWhiteSpace(padded[1]);
    assert padded[1..] == tail && IsJsWhiteSpace(padded[0]);
    assert TrimStart(padded) == TrimStart(tail) == tail;
    assert tail[..1] == word && IsJsWhiteSpace(tail[1]);
    assert TrimEnd(tail) == TrimEnd(word) == word;
  }

  /** Submitting the same URL again with the same response gives the same state: nothing accumulates. */
  lemma ResubmitIsIdempotent(s: PageState, backend: string, data: VideoInfo)
    ensures var once := Submit(s, backend, Fetched(data)).state;
      Submit(once, backend, Fetched(data)).state == once
  {
  }

  /** What the user does on the page. */
  datatype Action = Edit(text: string) | SubmitWith(outcome: FetchOutcome) | DownloadFormat(formatId: string)

  /**
    The state after one action. Editing and submitting are refused while
    loading (the input and the submit button are disabled); a download opens
    a tab and leaves the state alone. Only a successful submission changes the
    result shown, and no action leaves a page that was not loading loading.
  */
  function Step(s: PageState, backend: string, a: Action): (r: PageState)
    ensures s.loading || a.DownloadFormat? ==> r == s
    ensures !s.loading ==> !r.loading
    ensures !s.loading && a.Edit? ==> r == s.(url := a.text)
    ensures !s.loading && a.SubmitWith? ==> r == Submit(s, backend, a.outcome).state
    ensures r.videoInfo == s.videoInfo || (a.SubmitWith? && a.outcome.Fetched? && r.videoInfo == Some(a.outcome.data))
  {
    match a
    case Edit(text) => if s.loading then s else s.(url := text)
    case SubmitWith(outcome) => if s.loading then s else Submit(s, backend, outcome).state
    case DownloadFormat(_) => s
  }

  /** The state after a sequence of actions. A page left loading ignores every action. */
  function Run(s: PageState, backend: string, actions: seq<Action>): (r: PageState)
    ensures s.loading ==> r == s
    decreases |actions|
  {
    if actions == [] then s
    else Run(Step(s, backend, actions[0]), backend, actions[1..])
  }

  /** Between actions the page is never left loading. */
  lemma {:induction false} RunNeverLeavesLoading(s: PageState, backend: string, actions: seq<Action>)
    requires !s.loading
    ensures !Run(s, backend, actions).loading
    decreases |actions|
  {
    if actions != [] {
      RunNeverLeavesLoading(Step(s, backend, actions[0]), backend, actions[1..]);
    }
  }

  /** The result shown is the one from the start or the body of some successful response. */
  lemma {:induction false} RunShowsOnlyResponses(s: PageState, backend: string, actions: seq<Action>)
    ensures var info := Run(s, backend, actions).videoInfo;
      info == s.videoInfo || (info.Some? && exists i :: 0 <= i < |actions| && actions[i] == SubmitWith(Fetched(info.value)))
    decreases |actions|
  {
    if actions != [] {
      var a := actions[0];
      var next := Step(s, backend, a);
      RunShowsOnlyResponses(next, backend, actions[1..]);
      var info := Run(s, backend, actions).videoInfo;
      assert info == Run(next, backend, actions[1..]).videoInfo;
      if info != s.videoInfo {
        if info == next.videoInfo {
          assert a.SubmitWith? && a.outcome == Fetched(info.value);
        } else {
          var i :| 0 <= i < |actions[1..]| && actions[1..][i] == SubmitWith(Fetched(info.value));
          assert actions[i + 1] == SubmitWith(Fetched(info.value));
        }
      }
    }
  }

  /**
    The page as a component: its three state hooks are fields that the
    handlers update in place.
  */
  class Page {
    const backend: string
    var url: string
    var loading: bool
    var videoInfo: Option<VideoInfo>

    ghost function State(): PageState
      reads this
    {
      PageState(url, loading, videoInfo)
    }

    constructor (backend: string)
      ensures this.backend == backend
      ensures State() == InitialState
    {
      this.backend := backend;
      url := "";
      loading := false;
      videoInfo := None;
    }

    /** The input's `onChange`; the input is disabled while loading. */
    method Edit(text: string)
      requires !loading
      modifies this`url
      ensures State() == old(State()).(url := text)
    {
      url := text;
    }

    /** `handleSubmit` up to its first `await`; the submit button is disabled while loading. */
    method BeginSubmit() returns (request: Option<FormatsRequest>, notice: Option<Notification>)
      requires !loading
      modifies this`loading
      ensures match StartSubmit(old(State()), backend)
        case Rejected(n) => State() == old(State()) && request == None && notice == Some(n)
        case Pending(p, req) => State() == p && request == Some(req) && notice == None
    {
      ghost var before := State();
      if IsBlank(url) {
        assert StartSubmit(before, backend) == Rejected(ValidationError);
        request, notice := None, Some(ValidationError);
        return;
      }
      assert StartSubmit(before, backend) == Pending(before.(loading := true), FormatsRequestFor(backend, url));
      loading := true;
      request, notice := Some(FormatsRequestFor(backend, url)), None;
    }

    /** `handleSubmit` after its first `await`: the `try` body, `catch` and `finally`. */
    method FinishSubmit(outcome: FetchOutcome) returns (notice: Notification)
      modifies this`loading, this`videoInfo
      ensures (State(), notice) == CompleteSubmit(old(State()), outcome)
    {
      match outcome {
        case Fetched(data) =>
          videoInfo := Some(data);
          notice := Loaded;
        case HttpNotOk =>
          notice := RetrievalError;
        case Thrown =>
          notice := RetrievalError;
      }
      loading := false;
    }

    /** A whole submission: both halves with the request's outcome in between. */
    method SubmitForm(outcome: FetchOutcome) returns (request: Option<FormatsRequest>, notice: Notification)
      requires !loading
      modifies this`loading, this`videoInfo
      ensures SubmitResult(State(), request, notice) == Submit(old(State()), backend, outcome)
    {
      var refusal;
      request, refusal := BeginSubmit();
      if refusal.Some? {
        notice := refusal.value;
        return;
      }
      notice := FinishSubmit(outcome);
    }

    /** `handleDownload`: the link opened for a format, built from the current, untrimmed `url`. */
    method OpenDownload(formatId: string) returns (link: string)
      ensures link == Download.DownloadUrl(backend, url, formatId)
    {
      link := Download.DownloadUrl(backend, url, formatId);
    }
  }
}
