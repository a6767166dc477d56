/**
 * The forecast orchestrator (`WeatherForecaster::get_weather`): parse the
 * requested date, build the provider's URL, interpret the one HTTP exchange
 * and pick the first forecast whose UTC date is the requested one.
 *
 * The exchange is an input: either the transport failed, or a reply came
 * back with a status, its body as text, and its body decoded into the
 * provider's reply shape.
 */
module Forecaster {
  import opened Wrappers
  import opened RpcTypes
  import opened Errors
  import opened Calendar
  import opened DateText
  import opened Registry
  import Owm = OpenWeatherMap
  import Wapi = WeatherApi

  /** The API keys, one per provider, supplied by configuration. */
  datatype Credentials = Credentials(openWeatherMap: string, weatherApi: string)

  /** A reply body decoded into the shape one provider's adapter reads. */
  datatype Payload =
    | OpenWeatherMapReply(owm: Owm.Decoded)
    | WeatherApiReply(wa: Wapi.Decoded)

  /** A provider adapter together with its key. */
  datatype Integration =
    | OpenWeatherMapIntegration(key: string)
    | WeatherApiIntegration(key: string)
  {
    function GetUrl(loc: Location): string {
      match this
      case OpenWeatherMapIntegration(key) => Owm.GetUrl(loc, key)
      case WeatherApiIntegration(key) => Wapi.GetUrl(loc, key)
    }

    /**
     * The payload is this adapter's reply shape, and decoding left nothing
     * the adapter indexes without a check (OpenWeatherMap's `weather[0]`).
     */
    predicate Handles(payload: Payload) {
      match this
      case OpenWeatherMapIntegration(_) =>
        payload.OpenWeatherMapReply?
        && (payload.owm.Ok? ==> Owm.ConditionsPresent(payload.owm.value.daily))
      case WeatherApiIntegration(_) => payload.WeatherApiReply?
    }

    function HandleResponse(payload: Payload): Result<seq<WeatherForecast>, Error>
      requires Handles(payload)
    {
      match this
      case OpenWeatherMapIntegration(_) => Owm.HandleResponse(payload.owm)
      case WeatherApiIntegration(_) => Wapi.HandleResponse(payload.wa)
    }
  }

  /** The adapter for each service; total over the closed set of services. */
  function GetForecastIntegration(service: AvailableService, credentials: Credentials): (i: Integration)
    ensures i.OpenWeatherMapIntegration? <==> service == OpenWeatherMap
    ensures i.key == if service == OpenWeatherMap then credentials.openWeatherMap else credentials.weatherApi
  {
    match service
    case OpenWeatherMap => OpenWeatherMapIntegration(credentials.openWeatherMap)
    case WeatherApi => WeatherApiIntegration(credentials.weatherApi)
  }

  datatype WeatherForecaster = WeatherForecaster(provider: Integration)

  function New(service: AvailableService, credentials: Credentials): WeatherForecaster {
    WeatherForecaster(GetForecastIntegration(service, credentials))
  }

  /** The one HTTP exchange a request performs. */
  datatype Exchange =
    | TransportFailure(error: string)
    | Received(status: nat, text: string, payload: Payload)

  /** What a request did: the URL it requested, if any, and its result. */
  datatype Call = Call(request: Option<string>, result: Result<WeatherForecast, Error>)

  const TransportErrorPrefix: string := "Unable to make request. "

  /** `Iterator::position`: the index of the first element satisfying `p`, if there is one. */
  function Position<T>(xs: seq<T>, p: T -> bool): (r: Option<nat>)
    ensures r.Some? ==> r.value < |xs| && p(xs[r.value])
    ensures r.Some? ==> forall j :: 0 <= j < r.value ==> !p(xs[j])
    ensures r.None? ==> forall j :: 0 <= j < |xs| ==> !p(xs[j])
  {
    if xs == [] then None
    else if p(xs[0]) then Some(0)
    else
      match Position(xs[1..], p)
      case None => None
      case Some(i) => Some(i + 1)
  }

  /** The position is 0 when the first element satisfies `p`. */
  lemma PositionAtHead<T>(xs: seq<T>, p: T -> bool)
    requires |xs| > 0 && p(xs[0])
    ensures Position(xs, p) == Some(0)
  {
  }

  /** There is no position when no element satisfies `p`. */
  lemma PositionAbsent<T>(xs: seq<T>, p: T -> bool)
    requires forall j :: 0 <= j < |xs| ==> !p(xs[j])
    ensures Position(xs, p) == None
  {
  }

  /**
   * `position` followed by `Vec::remove`: finds the first element satisfying
   * `p` and takes it out, keeping the others in order.
   */
  method TakeFirst<T>(xs: seq<T>, p: T -> bool) returns (found: Option<T>, remaining: seq<T>)
    ensures match Position(xs, p)
      case None => found == None && remaining == xs
      case Some(i) => found == Some(xs[i]) && remaining == xs[..i] + xs[i + 1..]
  {
    var i := 0;
    while i < |xs| && !p(xs[i])
      invariant 0 <= i <= |xs|
      invariant forall j :: 0 <= j < i ==> !p(xs[j])
    {
      i := i + 1;
    }
    if i < |xs| {
      found := Some(xs[i]);
      remaining := xs[..i] + xs[i + 1..];
    } else {
      found := None;
      remaining := xs;
    }
  }

  /** The search's test: the forecast's timestamp falls on `date` in UTC. */
  function OnDate(date: Date): WeatherForecast -> bool {
    (f: WeatherForecast) => DateOfTimestamp(f.dt) == date
  }

  /**
   * Every timestamp the search converts is inside chrono's range: the search
   * converts the entries up to and including the first match.
   */
  predicate ScanInRange(forecasts: seq<WeatherForecast>, date: Date) {
    var upTo := match Position(forecasts, OnDate(date)) case Some(i) => i + 1 case None => |forecasts|;
    forall i :: 0 <= i < upTo ==> TimestampInRange(forecasts[i].dt)
  }

  /** The result for a reply to a request for `date`. */
  function Respond(provider: Integration, date: Date, exchange: Exchange): Result<WeatherForecast, Error>
    requires exchange.Received? && exchange.status == 200 ==> provider.Handles(exchange.payload)
  {
    match exchange
    case TransportFailure(error) => Err(Error(Internal, TransportErrorPrefix + error))
    case Received(status, text, payload) =>
      if status == 200 then
        match provider.HandleResponse(payload)
        case Err(e) => Err(e)
        case Ok(forecasts) =>
          match Position(forecasts, OnDate(date))
          case Some(i) => Ok(forecasts[i])
          case None => Err(InvalidDateError())
      else if status == 400 then Err(Error(InvalidArgument, text))
      else Err(Error(Internal, text))
  }

  /**
   * What `get_weather` needs in order not to panic: on a 200 reply to a
   * well-formed date, the payload is the adapter's shape and every
   * timestamp the search converts is in range.
   */
  predicate NoPanic(forecaster: WeatherForecaster, dateString: string, exchange: Exchange) {
    exchange.Received? && exchange.status == 200 && ParseDate(dateString).Some? ==>
      && forecaster.provider.Handles(exchange.payload)
      && (var handled := forecaster.provider.HandleResponse(exchange.payload);
          handled.Ok? ==> ScanInRange(handled.value, ParseDate(dateString).value))
  }

  /** `get_weather` as a function of its inputs and the exchange. */
  function Outcome(forecaster: WeatherForecaster, loc: Location, dateString: string, exchange: Exchange): Call
    requires NoPanic(forecaster, dateString, exchange)
  {
    match ParseDate(dateString)
    case None => Call(None, Err(InvalidDateError()))
    case Some(date) => Call(Some(forecaster.provider.GetUrl(loc)), Respond(forecaster.provider, date, exchange))
  }

  /** `get_weather`: the date parse, the URL, the status branch and the day search, step by step. */
  method GetWeather(forecaster: WeatherForecaster, loc: Location, dateString: string, exchange: Exchange)
    returns (call: Call)
    requires NoPanic(forecaster, dateString, exchange)
    ensures call == Outcome(forecaster, loc, dateString, exchange)
  {
    var requested := ParseDate(dateString);
    if requested.None? {
      return Call(None, Err(InvalidDateError()));
    }
    var date := requested.value;
    var url := forecaster.provider.GetUrl(loc);
    var result: Result<WeatherForecast, Error>;
    match exchange {
      case TransportFailure(error) =>
        result := Err(Error(Internal, TransportErrorPrefix + error));
      case Received(status, text, payload) =>
        if status == 200 {
          var handled := forecaster.provider.HandleResponse(payload);
          if handled.Err? {
            result := Err(handled.error);
          } else {
            var found, _ := TakeFirst(handled.value, OnDate(date));
            result := if found.Some? then Ok(found.value) else Err(InvalidDateError());
          }
        } else if status == 400 {
          result := Err(Error(InvalidArgument, text));
        } else {
          result := Err(Error(Internal, text));
        }
    }
    call := Call(Some(url), result);
  }

  /** A date that does not parse is rejected as InvalidArgument before any URL is built or requested. */
  lemma BadDateMakesNoRequest(forecaster: WeatherForecaster, loc: Location, dateString: string, exchange: Exchange)
    requires ParseDate(dateString).None?
    ensures NoPanic(forecaster, dateString, exchange)
    ensures Outcome(forecaster, loc, dateString, exchange) == Call(None, Err(InvalidDateError()))
  {
  }

  /**
   * A well-formed date leads to exactly one request, to the adapter's URL, and
   * the errors follow the status: a transport failure is Internal with the
   * failure's text, 400 is InvalidArgument and any other status but 200 is
   * Internal, both carrying the body verbatim.
   */
  lemma ErrorTaxonomy(forecaster: WeatherForecaster, loc: Location, dateString: string, exchange: Exchange)
    requires ParseDate(dateString).Some? && NoPanic(forecaster, dateString, exchange)
    ensures var call := Outcome(forecaster, loc, dateString, exchange);
      && call.request == Some(forecaster.provider.GetUrl(loc))
      && (exchange.TransportFailure? ==>
            call.result == Err(Error(Internal, TransportErrorPrefix + exchange.error)))
      && (exchange.Received? && exchange.status == 400 ==>
            call.result == Err(Error(InvalidArgument, exchange.text)))
      && (exchange.Received? && exchange.status != 200 && exchange.status != 400 ==>
            call.result == Err(Error(Internal, exchange.text)))
  {
  }

  /** On status 200 an adapter error comes back unchanged. */
  lemma AdapterErrorPropagates(forecaster: WeatherForecaster, loc: Location, dateString: string, exchange: Exchange)
    requires ParseDate(dateString).Some? && NoPanic(forecaster, dateString, exchange)
    requires exchange.Received? && exchange.status == 200
    requires forecaster.provider.HandleResponse(exchange.payload).Err?
    ensures Outcome(forecaster, loc, dateString, exchange).result
      == Err(forecaster.provider.HandleResponse(exchange.payload).error)
  {
  }

  /**
   * On status 200 with forecasts `L`, the result is `L[i]` for the smallest
   * `i` whose timestamp falls on the requested UTC date, and the
   * invalid-date error when none does.
   */
  lemma SelectsEarliestDay(
    forecaster: WeatherForecaster, loc: Location, dateString: string, exchange: Exchange,
    date: Date, forecasts: seq<WeatherForecast>)
    requires ParseDate(dateString) == Some(date) && NoPanic(forecaster, dateString, exchange)
    requires exchange.Received? && exchange.status == 200
    requires forecaster.provider.HandleResponse(exchange.payload) == Ok(forecasts)
    ensures var result := Outcome(forecaster, loc, dateString, exchange).result;
      && (result.Ok? <==> exists i :: 0 <= i < |forecasts| && DateOfTimestamp(forecasts[i].dt) == date)
      && (result.Ok? ==>
            exists i :: 0 <= i < |forecasts| && result.value == forecasts[i] && DateOfTimestamp(forecasts[i].dt) == date
              && forall j :: 0 <= j < i ==> DateOfTimestamp(forecasts[j].dt) != date)
      && (result.Err? ==> result.error == InvalidDateError())
  {
    ScanResult(forecaster, loc, dateString, exchange, date, forecasts);
    FirstOnDate(forecasts, date);
  }

  /** The search for `date` stops at the first day whose timestamp falls on it, and fails only when none does. */
  lemma FirstOnDate(forecasts: seq<WeatherForecast>, date: Date)
    ensures var pos := Position(forecasts, OnDate(date));
      && (pos.Some? <==> exists i :: 0 <= i < |forecasts| && DateOfTimestamp(forecasts[i].dt) == date)
      && (pos.Some? ==>
            && DateOfTimestamp(forecasts[pos.value].dt) == date
            && forall j :: 0 <= j < pos.value ==> DateOfTimestamp(forecasts[j].dt) != date)
  {
    var pos := Position(forecasts, OnDate(date));
    if pos.Some? {
      OnDateMeans(forecasts[pos.value], date);
      forall j | 0 <= j < pos.value ensures DateOfTimestamp(forecasts[j].dt) != date {
        OnDateMeans(forecasts[j], date);
      }
    } else {
      forall j | 0 <= j < |forecasts| ensures DateOfTimestamp(forecasts[j].dt) != date {
        OnDateMeans(forecasts[j], date);
      }
    }
  }

  /** On a 200 reply the result is the day at the search's position, or the invalid-date error. */
  lemma ScanResult(
    forecaster: WeatherForecaster, loc: Location, dateString: string, exchange: Exchange,
    date: Date, forecasts: seq<WeatherForecast>)
    requires ParseDate(dateString) == Some(date) && NoPanic(forecaster, dateString, exchange)
    requires exchange.Received? && exchange.status == 200
    requires forecaster.provider.HandleResponse(exchange.payload) == Ok(forecasts)
    ensures var pos := Position(forecasts, OnDate(date));
      Outcome(forecaster, loc, dateString, exchange).result
        == if pos.Some? then Ok(forecasts[pos.value]) else Err(InvalidDateError())
  {
  }

  /** `OnDate(date)` holds of a forecast exactly when its timestamp falls on `date`. */
  lemma OnDateMeans(f: WeatherForecast, date: Date)
    ensures OnDate(date)(f) <==> DateOfTimestamp(f.dt) == date
  {
  }

  /** A 200 reply whose first match is at `i`, with the entries up to `i` in range, yields `L[i]`. */
  lemma FoundAt(
    forecaster: WeatherForecaster, loc: Location, dateString: string, exchange: Exchange,
    date: Date, forecasts: seq<WeatherForecast>, i: nat)
    requires ParseDate(dateString) == Some(date)
    requires exchange.Received? && exchange.status == 200 && forecaster.provider.Handles(exchange.payload)
    requires forecaster.provider.HandleResponse(exchange.payload) == Ok(forecasts)
    requires Position(forecasts, OnDate(date)) == Some(i)
    requires forall j :: 0 <= j <= i ==> TimestampInRange(forecasts[j].dt)
    ensures NoPanic(forecaster, dateString, exchange)
    ensures Outcome(forecaster, loc, dateString, exchange).result == Ok(forecasts[i])
  {
  }

  /** A 200 reply with no entry on the date, all entries in range, yields the invalid-date error. */
  lemma NoneFound(
    forecaster: WeatherForecaster, loc: Location, dateString: string, exchange: Exchange,
    date: Date, forecasts: seq<WeatherForecast>)
    requires ParseDate(dateString) == Some(date)
    requires exchange.Received? && exchange.status == 200 && forecaster.provider.Handles(exchange.payload)
    requires forecaster.provider.HandleResponse(exchange.payload) == Ok(forecasts)
    requires Position(forecasts, OnDate(date)) == None
    requires forall j :: 0 <= j < |forecasts| ==> TimestampInRange(forecasts[j].dt)
    ensures NoPanic(forecaster, dateString, exchange)
    ensures Outcome(forecaster, loc, dateString, exchange).result == Err(InvalidDateError())
  {
  }

  /**
   * The search over a reply with days at `first` = 946684800 (2000-01-01)
   * and `second` = 946771200 (2000-01-02): the first lies on 2000-01-01, the second on
   * 2000-01-02, and both are in range.
   */
  lemma Y2kFound(forecasts: seq<WeatherForecast>, first: int, second: int)
    requires first == 946684800 && second == 946771200
    requires |forecasts| == 2 && forecasts[0].dt == first && forecasts[1].dt == second
    ensures OnDate(Date(2000, 1, 1))(forecasts[0]) && OnDate(Date(2000, 1, 2))(forecasts[1])
    ensures TimestampInRange(forecasts[0].dt) && TimestampInRange(forecasts[1].dt)
  {
    TestTimestamps(first, second);
    DayRange();
    OnDateMeans(forecasts[0], Date(2000, 1, 1));
    OnDateMeans(forecasts[1], Date(2000, 1, 2));
  }

  /** Over the same reply, neither day falls on a date outside 2000 and both timestamps are in range. */
  lemma Y2kMissing(forecasts: seq<WeatherForecast>, first: int, second: int, date: Date)
    requires first == 946684800 && second == 946771200 && date.year != 2000
    requires |forecasts| == 2 && forecasts[0].dt == first && forecasts[1].dt == second
    ensures !OnDate(date)(forecasts[0]) && !OnDate(date)(forecasts[1])
    ensures TimestampInRange(forecasts[0].dt) && TimestampInRange(forecasts[1].dt)
  {
    TestTimestamps(first, second);
    DayRange();
    OnDateMeans(forecasts[0], date);
    OnDateMeans(forecasts[1], date);
  }

  /** In a two-element sequence where neither element satisfies `p`, there is no position. */
  lemma PositionAbsentPair<T>(xs: seq<T>, p: T -> bool)
    requires |xs| == 2 && !p(xs[0]) && !p(xs[1])
    ensures Position(xs, p) == None
  {
    PositionAbsent(xs, p);
  }

  /** A two-day reply whose days are both in range has every day in range. */
  lemma PairInRange(forecasts: seq<WeatherForecast>)
    requires |forecasts| == 2 && TimestampInRange(forecasts[0].dt) && TimestampInRange(forecasts[1].dt)
    ensures forall j :: 0 <= j < |forecasts| ==> TimestampInRange(forecasts[j].dt)
  {
    forall j | 0 <= j < |forecasts| ensures TimestampInRange(forecasts[j].dt) {
      assert forecasts[j] == forecasts[0] || forecasts[j] == forecasts[1];
    }
  }

  /** A 200 reply whose first day falls on the requested date, in range, is answered with that day. */
  lemma FoundAtHead(
    forecaster: WeatherForecaster, loc: Location, dateString: string, exchange: Exchange,
    forecasts: seq<WeatherForecast>, date: Date)
    requires ParseDate(dateString) == Some(date)
    requires exchange.Received? && exchange.status == 200 && forecaster.provider.Handles(exchange.payload)
    requires forecaster.provider.HandleResponse(exchange.payload) == Ok(forecasts)
    requires |forecasts| > 0 && OnDate(date)(forecasts[0]) && TimestampInRange(forecasts[0].dt)
    ensures NoPanic(forecaster, dateString, exchange)
    ensures Outcome(forecaster, loc, dateString, exchange).result == Ok(forecasts[0])
  {
    PositionAtHead(forecasts, OnDate(date));
    assert forall j :: 0 <= j <= 0 ==> forecasts[j] == forecasts[0];
    FoundAt(forecaster, loc, dateString, exchange, date, forecasts, 0);
  }

  /** A 200 reply of two in-range days, neither on the requested date, is answered with the invalid-date error. */
  lemma MissedInPair(
    forecaster: WeatherForecaster, loc: Location, dateString: string, exchange: Exchange,
    forecasts: seq<WeatherForecast>, date: Date)
    requires ParseDate(dateString) == Some(date)
    requires exchange.Received? && exchange.status == 200 && forecaster.provider.Handles(exchange.payload)
    requires forecaster.provider.HandleResponse(exchange.payload) == Ok(forecasts)
    requires |forecasts| == 2 && !OnDate(date)(forecasts[0]) && !OnDate(date)(forecasts[1])
    requires TimestampInRange(forecasts[0].dt) && TimestampInRange(forecasts[1].dt)
    ensures NoPanic(forecaster, dateString, exchange)
    ensures Outcome(forecaster, loc, dateString, exchange).result == Err(InvalidDateError())
  {
    PositionAbsentPair(forecasts, OnDate(date));
    PairInRange(forecasts);
    NoneFound(forecaster, loc, dateString, exchange, date, forecasts);
  }

  /**
   * The orchestrator's tests, against a reply with days at `first` =
   * 946684800 (2000-01-01) and `second` = 946771200 (2000-01-02): a date
   * string that parses to 2000-01-01 (such as "01.01.2000", see `TestDate`)
   * is answered with the first day.
   */
  lemma TestDayFound(
    forecaster: WeatherForecaster, loc: Location, dateString: string, exchange: Exchange,
    forecasts: seq<WeatherForecast>, first: int, second: int)
    requires ParseDate(dateString) == Some(Date(2000, 1, 1)) && first == 946684800 && second == 946771200
    requires exchange.Received? && exchange.status == 200 && forecaster.provider.Handles(exchange.payload)
    requires forecaster.provider.HandleResponse(exchange.payload) == Ok(forecasts)
    requires |forecasts| == 2 && forecasts[0].dt == first && forecasts[1].dt == second
    ensures NoPanic(forecaster, dateString, exchange)
    ensures Outcome(forecaster, loc, dateString, exchange).result == Ok(forecasts[0])
  {
    Y2kFound(forecasts, first, second);
    FoundAtHead(forecaster, loc, dateString, exchange, forecasts, Date(2000, 1, 1));
  }

  /** Against the same reply, a date string for 1999-01-01 ("01.01.1999") is answered with the invalid-date error. */
  lemma TestDayMissing(
    forecaster: WeatherForecaster, loc: Location, dateString: string, exchange: Exchange,
    forecasts: seq<WeatherForecast>, first: int, second: int, date: Date)
    requires date == Date(1999, 1, 1) && ParseDate(dateString) == Some(date)
    requires first == 946684800 && second == 946771200
    requires exchange.Received? && exchange.status == 200 && forecaster.provider.Handles(exchange.payload)
    requires forecaster.provider.HandleResponse(exchange.payload) == Ok(forecasts)
    requires |forecasts| == 2 && forecasts[0].dt == first && forecasts[1].dt == second
    ensures NoPanic(forecaster, dateString, exchange)
    ensures Outcome(forecaster, loc, dateString, exchange).result == Err(InvalidDateError())
  {
    Y2kMissing(forecasts, first, second, date);
    MissedInPair(forecaster, loc, dateString, exchange, forecasts, date);
  }

  /** "2000.01.01" is refused without a request, whatever the exchange would have been. */
  lemma TestWrongFieldOrder(forecaster: WeatherForecaster, loc: Location, dateString: string, exchange: Exchange)
    requires dateString == "2000.01.01"
    ensures NoPanic(forecaster, dateString, exchange)
    ensures Outcome(forecaster, loc, dateString, exchange) == Call(None, Err(InvalidDateError()))
  {
    TestWrongOrder(dateString);
  }

  /**
   * What `reqwest::Url::parse` needs of a URL here: an `http` or `https`
   * scheme followed by `//` and a non-empty host. A URL without it makes
   * `get_weather` panic.
   */
  predicate AbsoluteHttpUrl(url: string) {
    || (|url| > 7 && url[..7] == "http://" && url[7] != '/')
    || (|url| > 8 && url[..8] == "https://" && url[8] != '/')
  }

  /** Both adapters build absolute http(s) URLs, so the parse panic cannot happen through them. */
  lemma AdapterUrlsAbsolute(provider: Integration, loc: Location)
    ensures AbsoluteHttpUrl(provider.GetUrl(loc))
  {
    match provider
    case OpenWeatherMapIntegration(key) => Owm.UrlScheme(loc, key);
    case WeatherApiIntegration(key) => Wapi.UrlScheme(loc, key);
  }

  /** The stub URL of the panic test is not one. */
  lemma TestNotAnUrl(url: string)
    requires url == "this is not an url"
    ensures !AbsoluteHttpUrl(url)
  {
    assert url[0] == 't';
  }
}
