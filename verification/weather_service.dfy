/**
 * The gRPC boundary (`WeatherServiceImpl`): the provider listing, the
 * resolution of a provider name, and the mapping of forecast errors to gRPC
 * statuses. The forecast itself is `Forecaster.Outcome`.
 */
module WeatherService {
  import opened Wrappers
  import opened RpcTypes
  import opened Registry
  import Errors
  import F = Forecaster
  import DateText

  /** The gRPC status codes this service answers with. */
  datatype Code = InvalidArgument | Internal

  datatype Status = Status(code: Code, message: string)

  /** The request message of `get_weather`; `location` is optional on the wire. */
  datatype WeatherQueryParams = WeatherQueryParams(provider: string, location: Option<Location>, date: string)

  /** What a `get_weather` call did: the URL it requested, if any, and its reply. */
  datatype Reply = Reply(request: Option<string>, result: Result<WeatherForecast, Status>)

  const InvalidProviderMessage: string := "Invalid weather provider passed."

  /** `get_weather_providers`: the name of every service, in listing order. */
  function GetWeatherProviders(): (providers: seq<string>)
    ensures |providers| == |All()|
    ensures forall i :: 0 <= i < |providers| ==> Parse(providers[i]) == Some(All()[i])
  {
    seq(|All()|, i requires 0 <= i < |All()| => Name(All()[i]))
  }

  /** The listing is exactly "OpenWeatherMap", "WeatherApi", each a name the parser accepts. */
  lemma ProvidersListing()
    ensures GetWeatherProviders() == ["OpenWeatherMap", "WeatherApi"]
  {
    var providers := GetWeatherProviders();
    AllInOrder();
    assert providers[0] == Name(OpenWeatherMap);
    assert providers[1] == Name(WeatherApi);
  }

  /** Every service appears in the listing exactly once, at its ordinal. */
  lemma ProvidersComplete(s: AvailableService)
    ensures var providers := GetWeatherProviders();
      && Ordinal(s) < |providers| && providers[Ordinal(s)] == Name(s)
      && forall i :: 0 <= i < |providers| && providers[i] == Name(s) ==> i == Ordinal(s)
  {
    var providers := GetWeatherProviders();
    forall i | 0 <= i < |providers| && providers[i] == Name(s) ensures i == Ordinal(s) {
      ParseName(s);
      assert Parse(providers[i]) == Some(All()[i]);
    }
  }

  /** The gRPC code for a forecast error code. */
  function CodeOf(c: Errors.ErrorCode): (code: Code)
    ensures code.Internal? <==> c.Internal?
    ensures code.InvalidArgument? <==> c.InvalidArgument?
  {
    match c
    case Internal => Internal
    case InvalidArgument => InvalidArgument
  }

  /** The code mapping is one for one. */
  lemma CodeOfInjective(a: Errors.ErrorCode, b: Errors.ErrorCode)
    requires CodeOf(a) == CodeOf(b)
    ensures a == b
  {
  }

  /** The status for a forecast error: its code mapped, its `Display` text as the message. */
  function ToStatus(e: Errors.Error): (s: Status)
    ensures s.code == CodeOf(e.code)
    ensures s.message == Errors.Display(e)
  {
    Status(CodeOf(e.code), Errors.Display(e))
  }

  /** No information is lost: distinct errors give distinct statuses. */
  lemma ToStatusInjective(a: Errors.Error, b: Errors.Error)
    requires ToStatus(a) == ToStatus(b)
    ensures a == b
  {
    CodeOfInjective(a.code, b.code);
    Errors.DisplayKeepsDescription(a, b);
  }

  /**
   * What `get_weather` needs in order not to panic: once the provider
   * resolves, the location is present (it is unwrapped) and the forecaster
   * does not panic on the exchange.
   */
  predicate NoPanic(credentials: F.Credentials, params: WeatherQueryParams, exchange: F.Exchange) {
    Parse(params.provider).Some? ==>
      && params.location.Some?
      && F.NoPanic(F.New(Parse(params.provider).value, credentials), params.date, exchange)
  }

  /** `get_weather`: resolve the provider, run the forecaster, map its error to a status. */
  function GetWeather(credentials: F.Credentials, params: WeatherQueryParams, exchange: F.Exchange): (reply: Reply)
    requires NoPanic(credentials, params, exchange)
    ensures Parse(params.provider).None? ==>
      reply == Reply(None, Err(Status(InvalidArgument, InvalidProviderMessage)))
    ensures Parse(params.provider).Some? ==>
      var call := F.Outcome(F.New(Parse(params.provider).value, credentials), params.location.value, params.date, exchange);
      && reply.request == call.request
      && reply.result.Ok? == call.result.Ok?
      && (reply.result.Ok? ==> reply.result.value == call.result.value)
      && (reply.result.Err? ==>
            reply.result.error.code == CodeOf(call.result.error.code)
            && reply.result.error.message == Errors.Display(call.result.error))
  {
    match Parse(params.provider)
    case None => Reply(None, Err(Status(InvalidArgument, InvalidProviderMessage)))
    case Some(service) =>
      var call := F.Outcome(F.New(service, credentials), params.location.value, params.date, exchange);
      match call.result
      case Ok(forecast) => Reply(call.request, Ok(forecast))
      case Err(e) => Reply(call.request, Err(ToStatus(e)))
  }

  /** A provider string that names no service is refused as InvalidArgument and nothing is requested. */
  lemma UnknownProviderRejected(credentials: F.Credentials, params: WeatherQueryParams, exchange: F.Exchange)
    requires forall s: AvailableService :: Name(s) != params.provider
    ensures NoPanic(credentials, params, exchange)
    ensures GetWeather(credentials, params, exchange) == Reply(None, Err(Status(InvalidArgument, InvalidProviderMessage)))
  {
  }

  /**
   * Every listed provider name resolves to its service, and the reply is that
   * service's forecaster's: its request, its forecast, or its error as a status.
   */
  lemma ListedProviderServed(
    credentials: F.Credentials, params: WeatherQueryParams, exchange: F.Exchange, i: nat)
    requires i < |GetWeatherProviders()| && params.provider == GetWeatherProviders()[i]
    requires NoPanic(credentials, params, exchange)
    ensures Parse(params.provider) == Some(All()[i])
    ensures var call := F.Outcome(F.New(All()[i], credentials), params.location.value, params.date, exchange);
      GetWeather(credentials, params, exchange)
        == Reply(call.request, match call.result case Ok(f) => Ok(f) case Err(e) => Err(ToStatus(e)))
  {
  }

  /**
   * The integration test with a day-first date: for a known provider, a
   * date that does not parse is answered with InvalidArgument carrying the
   * invalid-date message, before any request.
   */
  lemma BadDateIsInvalidArgument(credentials: F.Credentials, params: WeatherQueryParams, exchange: F.Exchange)
    requires Parse(params.provider).Some? && params.location.Some?
    requires DateText.ParseDate(params.date).None?
    ensures NoPanic(credentials, params, exchange)
    ensures GetWeather(credentials, params, exchange)
      == Reply(None, Err(Status(InvalidArgument, Errors.Display(Errors.InvalidDateError()))))
  {
    F.BadDateMakesNoRequest(F.New(Parse(params.provider).value, credentials), params.location.value, params.date, exchange);
  }
}
