/**
 * The deep-link controller: the batch endpoint, the per-URL fetch with the
 * inbound headers forwarded, and the error list the forwarding fills.
 */
module Controller {
  import opened Wrappers
  import opened Enumerable
  import opened Models
  import opened Html
  import opened Forwarding
  import opened Extraction

  /** The HTTP fetch of a configured request: None when no response came back at all. */
  type Fetcher = OutboundState -> Option<Page>

  /** The per-page step of a URL's task: from the fetched page (if any) to its deep links or a fault. */
  type Extractor = Option<Page> -> Result<seq<string>, Fault>

  /**
   * What one controller instance works with: the inbound headers, the network,
   * the header validation, and its per-page step, which is LinksForFetchedPage.
   */
  datatype Environment = Environment(inbound: seq<InboundHeader>, fetch: Fetcher, thrown: Thrower, extract: Extractor)

  // ---------------------------------------------------------------------------
  // The specification of one URL and of a batch

  /** The request sent for one URL: created, the inbound headers forwarded, redirects followed. */
  function Prepared(url: string, inbound: seq<InboundHeader>, thrown: Thrower): (prepared: Forwarded)
    ensures prepared.state.url == url && prepared.state.allowAutoRedirect
  {
    var forwarded := Forward(Created(url), Pairs(inbound), thrown);
    forwarded.(state := forwarded.state.(allowAutoRedirect := true))
  }

  /** The links of one URL, or the fault of its task. */
  function UrlLinks(url: string, env: Environment): Result<seq<string>, Fault> {
    env.extract(env.fetch(Prepared(url, env.inbound, env.thrown).state))
  }

  /** The outcome of every URL's task, in request order. */
  function Outcomes(urls: seq<string>, env: Environment): (outcomes: seq<Result<seq<string>, Fault>>)
    ensures |outcomes| == |urls|
  {
    if urls == [] then []
    else Outcomes(urls[..|urls| - 1], env) + [UrlLinks(urls[|urls| - 1], env)]
  }

  /** The i-th task is that of the i-th URL. */
  lemma {:induction false} OutcomesAt(urls: seq<string>, env: Environment)
    ensures forall i :: 0 <= i < |urls| ==> Outcomes(urls, env)[i] == UrlLinks(urls[i], env)
  {
    if urls != [] {
      var init := urls[..|urls| - 1];
      OutcomesAt(init, env);
      assert forall i :: 0 <= i < |init| ==> init[i] == urls[i];
    }
  }

  /**
   * await Task.WhenAll: all tasks have run; the results in task order, or the
   * fault of the first faulted task.
   */
  function WhenAll<T>(outcomes: seq<Result<T, Fault>>): (r: Result<seq<T>, Fault>)
    ensures r.Success? <==> forall i :: 0 <= i < |outcomes| ==> outcomes[i].Success?
    ensures r.Success? ==> |r.value| == |outcomes| && forall i :: 0 <= i < |outcomes| ==> r.value[i] == outcomes[i].value
    ensures r.Failure? ==> exists i :: 0 <= i < |outcomes| && outcomes[i] == Failure(r.error)
                                       && forall j :: 0 <= j < i ==> outcomes[j].Success?
  {
    if outcomes == [] then Success([])
    else
      match outcomes[0]
      case Failure(f) => Failure(f)
      case Success(first) =>
        var rest := outcomes[1..];
        assert forall j :: 1 <= j < |outcomes| ==> outcomes[j] == rest[j - 1];
        match WhenAll(rest)
        case Failure(f) => Failure(f)
        case Success(values) => Success([first] + values)
  }

  /** The requests sent, one per URL in order. */
  function PreparedAll(urls: seq<string>, inbound: seq<InboundHeader>, thrown: Thrower): (sent: seq<OutboundState>)
    ensures |sent| == |urls|
  {
    if urls == [] then []
    else PreparedAll(urls[..|urls| - 1], inbound, thrown) + [Prepared(urls[|urls| - 1], inbound, thrown).state]
  }

  /** The header errors of every URL's fetch, URL by URL. */
  function BatchErrors(urls: seq<string>, inbound: seq<InboundHeader>, thrown: Thrower): seq<string> {
    if urls == [] then []
    else BatchErrors(urls[..|urls| - 1], inbound, thrown) + Prepared(urls[|urls| - 1], inbound, thrown).errors
  }

  /** The response body of GetDeeplinksAsync, or the fault it rethrows; prior is the error list before the call. */
  function Deeplinks(request: Option<DeeplinkRequest>, env: Environment, prior: seq<string>)
    : (r: Result<DeeplinkResult, Fault>)
    ensures request.None? ==> r == Success(DeeplinkResult(None, None))
    ensures r.Success? && request.Some? ==>
              r.value.links.Some? && |r.value.links.value| == |request.value.urls|
    ensures r.Success? ==> r.value.errors != Some([])
  {
    match request
    case None => Success(DeeplinkResult(None, None))
    case Some(req) =>
      match WhenAll(Outcomes(req.urls, env))
      case Failure(f) => Failure(f)
      case Success(links) =>
        var errors := prior + BatchErrors(req.urls, env.inbound, env.thrown);
        Success(DeeplinkResult(Some(links), if |errors| > 0 then Some(errors) else None))
  }

  lemma BatchStep(urls: seq<string>, i: nat, env: Environment)
    requires i < |urls|
    ensures urls[..i + 1] == urls[..i] + [urls[i]]
    ensures BatchErrors(urls[..i + 1], env.inbound, env.thrown)
         == BatchErrors(urls[..i], env.inbound, env.thrown) + Prepared(urls[i], env.inbound, env.thrown).errors
    ensures PreparedAll(urls[..i + 1], env.inbound, env.thrown)
         == PreparedAll(urls[..i], env.inbound, env.thrown) + [Prepared(urls[i], env.inbound, env.thrown).state]
    ensures Outcomes(urls[..i + 1], env) == Outcomes(urls[..i], env) + [UrlLinks(urls[i], env)]
  {
    assert urls[..i + 1][..i] == urls[..i];
  }

  /** The same list n times over. */
  function Repeat<T>(s: seq<T>, n: nat): (r: seq<T>)
    ensures |r| == n * |s|
  {
    if n == 0 then [] else Repeat(s, n - 1) + s
  }

  // ---------------------------------------------------------------------------
  // Properties of the batch

  /** The request sent for a URL carries the forwarded generic headers, and its errors are the failed assignments. */
  lemma PreparedForwardsHeaders(url: string, inbound: seq<InboundHeader>, thrown: Thrower)
    ensures Prepared(url, inbound, thrown).state.headers == GenericHeaders(Pairs(inbound), thrown)
    ensures Prepared(url, inbound, thrown).errors == Failures(Pairs(inbound), thrown)
  {
    ForwardHeaders(Created(url), Pairs(inbound), thrown);
    ForwardErrors(Created(url), Pairs(inbound), thrown);
  }

  /** Headers are forwarded once per URL, so the header errors repeat once per URL. */
  lemma {:induction false} BatchErrorsRepeat(urls: seq<string>, inbound: seq<InboundHeader>, thrown: Thrower)
    ensures BatchErrors(urls, inbound, thrown) == Repeat(Failures(Pairs(inbound), thrown), |urls|)
  {
    if urls != [] {
      BatchErrorsRepeat(urls[..|urls| - 1], inbound, thrown);
      PreparedForwardsHeaders(urls[|urls| - 1], inbound, thrown);
    }
  }

  /** The i-th entry of links is the outcome of the i-th URL's task. */
  lemma DeeplinksAligned(request: Option<DeeplinkRequest>, env: Environment, prior: seq<string>, i: nat)
    requires Deeplinks(request, env, prior).Success? && request.Some?
    requires i < |request.value.urls|
    ensures UrlLinks(request.value.urls[i], env).Success?
    ensures Deeplinks(request, env, prior).value.links.value[i] == UrlLinks(request.value.urls[i], env).value
  {
    OutcomesAt(request.value.urls, env);
  }

  /**
   * With the controller's own per-page step, the i-th entry of links is empty
   * when nothing was fetched for the i-th URL, and otherwise the deep links of
   * its page, each once.
   */
  lemma DeeplinksArePageLinks(request: Option<DeeplinkRequest>, env: Environment, prior: seq<string>, i: nat)
    requires env.extract == LinksForFetchedPage
    requires Deeplinks(request, env, prior).Success? && request.Some?
    requires i < |request.value.urls|
    ensures var html := env.fetch(Prepared(request.value.urls[i], env.inbound, env.thrown).state);
            var links := Deeplinks(request, env, prior).value.links.value[i];
            && (html.None? ==> links == [])
            && (html.Some? ==> ExtractDeepLinks(html.value) == Success(links))
            && NoDuplicates(links) && forall x :: x in links ==> IsDeepLink(x)
  {
    DeeplinksAligned(request, env, prior, i);
  }

  /** The batch fails exactly when the task of some URL faults. */
  lemma DeeplinksFault(request: Option<DeeplinkRequest>, env: Environment, prior: seq<string>)
    ensures Deeplinks(request, env, prior).Failure?
        <==> request.Some? && exists url :: url in request.value.urls && UrlLinks(url, env).Failure?
  {
    if request.Some? {
      OutcomesAt(request.value.urls, env);
      if exists url :: url in request.value.urls && UrlLinks(url, env).Failure? {
        var url :| url in request.value.urls && UrlLinks(url, env).Failure?;
        var i :| 0 <= i < |request.value.urls| && request.value.urls[i] == url;
        assert Outcomes(request.value.urls, env)[i].Failure?;
      }
    }
  }

  /** The fault rethrown is that of the first faulting URL in request order. */
  lemma DeeplinksFirstFault(request: Option<DeeplinkRequest>, env: Environment, prior: seq<string>)
    requires Deeplinks(request, env, prior).Failure?
    ensures request.Some?
    ensures exists i :: 0 <= i < |request.value.urls|
              && UrlLinks(request.value.urls[i], env) == Failure(Deeplinks(request, env, prior).error)
              && forall j :: 0 <= j < i ==> UrlLinks(request.value.urls[j], env).Success?
  {
    OutcomesAt(request.value.urls, env);
  }

  /**
   * On success the errors are those before the call followed by the failed
   * header assignments once per URL, and are left out (null) exactly when there
   * are none.
   */
  lemma DeeplinksErrors(request: Option<DeeplinkRequest>, env: Environment, prior: seq<string>)
    requires Deeplinks(request, env, prior).Success? && request.Some?
    ensures var errors := Deeplinks(request, env, prior).value.errors;
            var failures := Failures(Pairs(env.inbound), env.thrown);
            && (errors.None? <==> prior == [] && (request.value.urls == [] || failures == []))
            && (errors.Some? ==> errors.value == prior + Repeat(failures, |request.value.urls|))
  {
    BatchErrorsRepeat(request.value.urls, env.inbound, env.thrown);
  }

  // ---------------------------------------------------------------------------
  // The controller

  /**
   * One controller instance serves one HTTP request: the inbound headers, the
   * network and the header validation are fixed for it, and errors collects
   * the messages of failed header assignments.
   */
  class DeeplinkController {
    const inbound: seq<InboundHeader>
    const fetch: Fetcher
    const thrown: Thrower
    /** The per-page part of GetAlternateLinksForUrlAsync. */
    const extract: Extractor
    var errors: seq<string>
    /** The requests sent so far, in order. */
    ghost var fetched: seq<OutboundState>

    constructor (inbound: seq<InboundHeader>, fetch: Fetcher, thrown: Thrower)
      ensures this.inbound == inbound && this.fetch == fetch && this.thrown == thrown
      ensures extract == LinksForFetchedPage
      ensures errors == [] && fetched == []
    {
      this.inbound := inbound;
      this.fetch := fetch;
      this.thrown := thrown;
      extract := LinksForFetchedPage;
      errors := [];
      fetched := [];
    }

    function Env(): Environment {
      Environment(inbound, fetch, thrown, extract)
    }

    /** Forwards every value of every inbound header onto the request, logging the assignments that throw. */
    method ApplyCurrentRequest(request: OutboundRequest)
      modifies this, request
      ensures request.State() == Forward(old(request.State()), Pairs(inbound), thrown).state
      ensures errors == old(errors) + Forward(old(request.State()), Pairs(inbound), thrown).errors
      ensures fetched == old(fetched)
    {
      ghost var start := request.State();
      ghost var progress := Forwarded(start, []);
      var i := 0;
      while i < |inbound|
        invariant 0 <= i <= |inbound|
        invariant progress == Forward(start, Pairs(inbound[..i]), thrown)
        invariant request.State() == progress.state && errors == old(errors) + progress.errors
        invariant fetched == old(fetched)
      {
        var (name, values) := inbound[i];
        var assignment := AssignmentFor(name);
        ghost var done := Pairs(inbound[..i]);
        assert done + Expand(name, values[..0]) == done;
        var j := 0;
        while j < |values|
          invariant 0 <= j <= |values|
          invariant progress == Forward(start, done + Expand(name, values[..j]), thrown)
          invariant request.State() == progress.state && errors == old(errors) + progress.errors
          invariant fetched == old(fetched)
        {
          var value := values[j];
          ForwardValueStep(start, done, name, values, j, thrown);
          progress := Step(progress, (name, value), thrown);
          match Thrown(thrown, assignment, name, value) {
            case Some(message) =>
              errors := errors + [message];
            case None =>
              request.Assign(assignment, name, value);
          }
          j := j + 1;
        }
        assert values[..|values|] == values;
        PairsStep(inbound, i);
        i := i + 1;
      }
      assert inbound[..|inbound|] == inbound;
    }

    /** Builds the request for a URL, forwards the headers, follows redirects and fetches the page. */
    method GetHtmlForUrl(url: string) returns (html: Option<Page>)
      modifies this
      ensures html == fetch(Prepared(url, inbound, thrown).state)
      ensures errors == old(errors) + Prepared(url, inbound, thrown).errors
      ensures fetched == old(fetched) + [Prepared(url, inbound, thrown).state]
    {
      var request := new OutboundRequest(url);
      ApplyCurrentRequest(request);
      request.allowAutoRedirect := true;
      fetched := fetched + [request.State()];
      html := fetch(request.State());
    }

    /** The deep links of one URL: none when nothing was fetched, otherwise those of the page, or its fault. */
    method GetAlternateLinksForUrl(url: string) returns (links: Result<seq<string>, Fault>)
      modifies this
      ensures links == UrlLinks(url, Env())
      ensures errors == old(errors) + Prepared(url, inbound, thrown).errors
      ensures fetched == old(fetched) + [Prepared(url, inbound, thrown).state]
    {
      var html := GetHtmlForUrl(url);
      links := extract(html);
    }

    /**
     * The batch endpoint: nothing is fetched for a missing body; otherwise
     * every URL is fetched, and the first fault in URL order is rethrown.
     */
    method GetDeeplinks(request: Option<DeeplinkRequest>) returns (result: Result<DeeplinkResult, Fault>)
      modifies this
      ensures result == Deeplinks(request, Env(), old(errors))
      ensures request.None? ==> errors == old(errors) && fetched == old(fetched)
      ensures request.Some? ==>
                errors == old(errors) + BatchErrors(request.value.urls, inbound, thrown)
                && fetched == old(fetched) + PreparedAll(request.value.urls, inbound, thrown)
    {
      if request.None? {
        return Success(DeeplinkResult(None, None));
      }
      var urls := request.value.urls;
      var outcomes: seq<Result<seq<string>, Fault>> := [];
      var i := 0;
      while i < |urls|
        invariant 0 <= i <= |urls|
        invariant errors == old(errors) + BatchErrors(urls[..i], inbound, thrown)
        invariant fetched == old(fetched) + PreparedAll(urls[..i], inbound, thrown)
        invariant outcomes == Outcomes(urls[..i], Env())
      {
        var urlLinks := GetAlternateLinksForUrl(urls[i]);
        BatchStep(urls, i, Env());
        outcomes := outcomes + [urlLinks];
        i := i + 1;
      }
      assert urls[..|urls|] == urls;
      match WhenAll(outcomes) {
        case Failure(f) =>
          result := Failure(f);
        case Success(links) =>
          result := Success(DeeplinkResult(Some(links), if |errors| > 0 then Some(errors) else None));
      }
    }
  }
}
