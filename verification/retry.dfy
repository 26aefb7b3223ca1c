/** The bounded, immediate-retry weather fetch. */
module Retry {
  import opened Outcomes
  import opened Remote
  import opened Endpoints

  const MaxRetryTime := 3
  const WeatherInfoMissing := "cannot get weather info from result"
  const RetriesExhausted := "get weather info failed"

  /** One attempt: the temperature, or the exception that ends the attempt. */
  function Attempt(reply: Reply): (r: Result<int>)
    ensures r.Ok? <==> reply.Received? && reply.weatherinfo.Some? && reply.weatherinfo.value.Degrees?
    ensures r.Ok? ==> r.value == reply.weatherinfo.value.value
    ensures reply == Received(None) ==> r == Err(Fail(WeatherInfoMissing))
  {
    match reply
    case Failed(cause) => Err(cause)
    case Received(None) => Err(Fail(WeatherInfoMissing))
    case Received(Some(Degrees(t))) => Ok(t)
    case Received(Some(Malformed(cause))) => Err(cause)
  }

  /** Attempt number j of the given request. */
  function AttemptAt(net: Network, request: Request, j: nat): Result<int>
  {
    Attempt(net.weather(request, j))
  }

  /** The outcome of a fetch and the requests it made. */
  datatype Fetch = Fetch(result: Result<int>, requests: seq<Request>)

  /** Attempts i, i + 1, ... while attempts remain; `last` is the error of the attempt before i. */
  function RetryFrom(net: Network, request: Request, i: nat, last: Option<Error>): (r: Fetch)
    requires i <= MaxRetryTime
    ensures forall j :: 0 <= j < |r.requests| ==> r.requests[j] == request
    ensures r.result.Ok? <==> exists j :: i <= j < MaxRetryTime && AttemptAt(net, request, j).Ok?
    ensures r.result.Ok? ==>
      && 1 <= |r.requests| <= MaxRetryTime - i
      && r.result == AttemptAt(net, request, i + |r.requests| - 1)
      && forall j :: i <= j < i + |r.requests| - 1 ==> AttemptAt(net, request, j).Err?
    ensures r.result.Err? ==>
      && |r.requests| == MaxRetryTime - i
      && r.result.error == Error(RetriesExhausted, if i == MaxRetryTime then last else Some(AttemptAt(net, request, MaxRetryTime - 1).error))
    decreases MaxRetryTime - i
  {
    if i == MaxRetryTime then Fetch(Err(Error(RetriesExhausted, last)), [])
    else
      match AttemptAt(net, request, i)
      case Ok(t) => Fetch(Ok(t), [request])
      case Err(e) =>
        var rest := RetryFrom(net, request, i + 1, Some(e));
        Fetch(rest.result, [request] + rest.requests)
  }

  /**
    The fetch of one weather request: at most three requests, stopping at the
    first successful attempt; if all three fail, an error whose cause is the
    third attempt's.
  */
  function FetchWeather(net: Network, request: Request): (r: Fetch)
    ensures forall j :: 0 <= j < |r.requests| ==> r.requests[j] == request
    ensures r.result.Ok? <==> exists j :: 0 <= j < MaxRetryTime && AttemptAt(net, request, j).Ok?
    ensures r.result.Ok? ==>
      && 1 <= |r.requests| <= MaxRetryTime
      && r.result == AttemptAt(net, request, |r.requests| - 1)
      && forall j :: 0 <= j < |r.requests| - 1 ==> AttemptAt(net, request, j).Err?
    ensures r.result.Err? ==>
      |r.requests| == MaxRetryTime && r.result.error == Error(RetriesExhausted, Some(AttemptAt(net, request, 2).error))
  {
    RetryFrom(net, request, 0, None)
  }

  /** Failing twice and succeeding on the third attempt yields that reading after exactly three requests. */
  lemma ThirdTimeLucky(net: Network, request: Request, t: int)
    requires AttemptAt(net, request, 0).Err? && AttemptAt(net, request, 1).Err? && net.weather(request, 2) == Received(Some(Degrees(t)))
    ensures FetchWeather(net, request) == Fetch(Ok(t), [request, request, request])
  {
  }

  /** A first success stops the loop after one request. */
  lemma FirstAttemptWins(net: Network, request: Request, t: int)
    requires net.weather(request, 0) == Received(Some(Degrees(t)))
    ensures FetchWeather(net, request) == Fetch(Ok(t), [request])
  {
  }
}
